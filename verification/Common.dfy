/** Small vocabulary shared by the modules. */
module Common {

  datatype Option<+T> = None | Some(value: T)

  ghost predicate NoDuplicates<T(!new)>(s: seq<T>) {
    forall i, j :: 0 <= i < j < |s| ==> s[i] != s[j]
  }

  ghost function Elements<T(!new)>(s: seq<T>): set<T> {
    set x | x in s
  }

  lemma NoDuplicatesCons<T(!new)>(x: T, s: seq<T>)
    ensures NoDuplicates([x] + s) <==> x !in s && NoDuplicates(s)
  {
    var t := [x] + s;
    assert forall i :: 0 <= i < |s| ==> s[i] == t[i + 1];
    if NoDuplicates(t) {
      forall i | 0 <= i < |s| ensures s[i] != x { assert t[0] != t[i + 1]; }
      forall i, j | 0 <= i < j < |s| ensures s[i] != s[j] { assert t[i + 1] != t[j + 1]; }
    }
  }

  lemma NoDuplicatesConcat<T(!new)>(s: seq<T>, t: seq<T>)
    requires NoDuplicates(s) && NoDuplicates(t)
    requires forall x :: x in s ==> x !in t
    ensures NoDuplicates(s + t)
  {
    forall i, j | 0 <= i < j < |s + t| ensures (s + t)[i] != (s + t)[j] {
      if i < |s| <= j { assert s[i] in s; }
    }
  }

  /** Positions in a list of length `n`, from left to right. */
  ghost predicate Positions(at: seq<nat>, n: nat) {
    && (forall k :: 0 <= k < |at| ==> at[k] < n)
    && (forall k, l :: 0 <= k < l < |at| ==> at[k] < at[l])
  }

  lemma PositionsNext(at: seq<nat>, n: nat)
    requires Positions(at, n)
    ensures Positions(at, n + 1) && Positions(at + [n], n + 1)
    ensures n !in at && forall i: nat :: i in at + [n] <==> i in at || i == n
  {
  }

  /** `x` stands somewhere before `y`. */
  ghost predicate Precedes<T(!new)>(s: seq<T>, x: T, y: T) {
    exists i, j :: 0 <= i < j < |s| && s[i] == x && s[j] == y
  }

  /** The elements of `r` come in the order in which they stand in `s`. */
  ghost predicate InOrderOf<T(!new)>(r: seq<T>, s: seq<T>) {
    forall i, j :: 0 <= i < j < |r| ==> Precedes(s, r[i], r[j])
  }

  lemma InOrderThrough<T(!new)>(q: seq<T>, r: seq<T>, s: seq<T>)
    requires InOrderOf(q, r) && InOrderOf(r, s)
    ensures InOrderOf(q, s)
  {
    forall i, j | 0 <= i < j < |q| ensures Precedes(s, q[i], q[j]) {
      assert Precedes(r, q[i], q[j]);
    }
  }

  lemma InOrderOfItself<T(!new)>(s: seq<T>)
    ensures InOrderOf(s, s)
  {
  }

  lemma PrecedesLater<T(!new)>(a: seq<T>, s: seq<T>, b: seq<T>, x: T, y: T)
    requires Precedes(s, x, y)
    ensures Precedes(a + s + b, x, y)
  {
    var i, j :| 0 <= i < j < |s| && s[i] == x && s[j] == y;
    var all := a + s + b;
    assert all[|a| + i] == x && all[|a| + j] == y;
  }

  /** A duplicate-free sequence over a finite set is no longer than the set. */
  lemma {:induction false} PigeonHole<T(!new)>(s: seq<T>, universe: set<T>)
    requires NoDuplicates(s)
    requires forall x :: x in s ==> x in universe
    ensures |s| <= |universe|
  {
    if s != [] {
      var last := s[|s| - 1];
      PigeonHole(s[..|s| - 1], universe - {last});
    }
  }

  // ---------------------------------------------------------------------------
  // Quotients and remainders
  // ---------------------------------------------------------------------------

  lemma RemainderUnique(x: int, q: int, r: int, period: int)
    requires period > 0 && x == q * period + r && 0 <= r < period
    ensures x % period == r
  {
    var d := x / period - q;
    assert x == (x / period) * period + x % period;
    assert d * period == (x / period) * period - q * period == r - x % period;
    MultipleIsLarge(d, period);
  }

  lemma MultipleIsLarge(d: int, period: int)
    requires period > 0
    ensures d != 0 ==> d * period >= period || d * period <= -period
    ensures d == 0 ==> d * period == 0
  {
    if d >= 1 {
      assert (d - 1) * period >= 0;
    } else if d <= -1 {
      assert (-d - 1) * period >= 0;
    }
  }
}
