/** Strict orders, and the sorting and thinning of lists by them. */
module Ordering {
  import opened Common

  /** The order of std::string. */
  predicate Less(a: string, b: string) {
    |b| > 0 && (|a| == 0 || a[0] < b[0] || (a[0] == b[0] && Less(a[1..], b[1..])))
  }

  /** The lexicographic order: a proper prefix is less, else the first difference decides. */
  lemma {:induction false} LessIff(a: string, b: string)
    ensures Less(a, b) <==> exists n: nat :: FirstDiffer(a, b, n)
  {
    if n: nat :| FirstDiffer(a, b, n) && n > 0 {
      assert a[0] == a[..n][0] == b[..n][0] == b[0];
      assert a[1..][..n - 1] == a[..n][1..] == b[..n][1..] == b[1..][..n - 1];
      assert FirstDiffer(a[1..], b[1..], n - 1);
      LessIff(a[1..], b[1..]);
    } else if n: nat :| FirstDiffer(a, b, n) {
    } else if Less(a, b) {
      assert !FirstDiffer(a, b, 0);
      LessIff(a[1..], b[1..]);
      var n: nat :| FirstDiffer(a[1..], b[1..], n);
      assert a[..n + 1] == [a[0]] + a[1..][..n] == [b[0]] + b[1..][..n] == b[..n + 1];
      assert FirstDiffer(a, b, n + 1);
    }
  }

  ghost predicate FirstDiffer(a: string, b: string, n: nat) {
    n <= |a| && n < |b| && a[..n] == b[..n] && (n == |a| || a[n] < b[n])
  }

  ghost predicate StrictOrder<T(!new)>(less: (T, T) -> bool) {
    && (forall x :: !less(x, x))
    && (forall x, y :: x == y || less(x, y) || less(y, x))
    && (forall x, y, z :: less(x, y) && less(y, z) ==> less(x, z))
  }

  lemma {:induction false} LessIrreflexive(a: string)
    ensures !Less(a, a)
  {
    if a != [] { LessIrreflexive(a[1..]); }
  }

  lemma {:induction false} LessTotal(a: string, b: string)
    ensures a == b || Less(a, b) || Less(b, a)
  {
    if a != [] && b != [] && a[0] == b[0] {
      LessTotal(a[1..], b[1..]);
      assert a == [a[0]] + a[1..] && b == [b[0]] + b[1..];
    }
  }

  lemma {:induction false} LessTransitive(a: string, b: string, c: string)
    requires Less(a, b) && Less(b, c)
    ensures Less(a, c)
  {
    if a != [] && a[0] == b[0] == c[0] { LessTransitive(a[1..], b[1..], c[1..]); }
  }

  lemma LessIsStrictOrder()
    ensures StrictOrder(Less)
  {
    forall x ensures !Less(x, x) { LessIrreflexive(x); }
    forall x, y ensures x == y || Less(x, y) || Less(y, x) { LessTotal(x, y); }
    forall x, y, z | Less(x, y) && Less(y, z) ensures Less(x, z) { LessTransitive(x, y, z); }
  }

  // ---------------------------------------------------------------------------
  // Sorted lists
  // ---------------------------------------------------------------------------

  /** Sorted and free of repetitions. */
  ghost predicate SortedUnique<T(!new)>(s: seq<T>, less: (T, T) -> bool) {
    forall i, j :: 0 <= i < j < |s| ==> less(s[i], s[j])
  }

  lemma SortedUniqueAppend<T(!new)>(s: seq<T>, x: T, less: (T, T) -> bool)
    ensures SortedUnique(s + [x], less) <==> SortedUnique(s, less) && forall y :: y in s ==> less(y, x)
  {
    var t := s + [x];
    assert forall i :: 0 <= i < |s| ==> t[i] == s[i];
    assert t[|s|] == x;
    if SortedUnique(t, less) {
      forall i, j | 0 <= i < j < |s| ensures less(s[i], s[j]) {
        assert less(t[i], t[j]);
      }
      forall y | y in s ensures less(y, x) {
        var i :| 0 <= i < |s| && s[i] == y;
        assert less(t[i], t[|s|]);
      }
    }
    if SortedUnique(s, less) && forall y :: y in s ==> less(y, x) {
      forall i, j | 0 <= i < j < |t| ensures less(t[i], t[j]) {
        assert j == |s| ==> t[i] == s[i] && s[i] in s;
      }
    }
  }

  lemma SortedUniqueConcat<T(!new)>(s: seq<T>, t: seq<T>, less: (T, T) -> bool)
    ensures SortedUnique(s + t, less) <==>
              SortedUnique(s, less) && SortedUnique(t, less) && forall x, y :: x in s && y in t ==> less(x, y)
  {
    var all := s + t;
    assert forall i :: 0 <= i < |s| ==> all[i] == s[i];
    assert forall i :: 0 <= i < |t| ==> all[|s| + i] == t[i];
    if SortedUnique(all, less) {
      forall i, j | 0 <= i < j < |s| ensures less(s[i], s[j]) { assert less(all[i], all[j]); }
      forall i, j | 0 <= i < j < |t| ensures less(t[i], t[j]) { assert less(all[|s| + i], all[|s| + j]); }
      forall x, y | x in s && y in t ensures less(x, y) {
        var i :| 0 <= i < |s| && s[i] == x;
        var j :| 0 <= j < |t| && t[j] == y;
        assert less(all[i], all[|s| + j]);
      }
    }
    if SortedUnique(s, less) && SortedUnique(t, less) && forall x, y :: x in s && y in t ==> less(x, y) {
      forall i, j | 0 <= i < j < |all| ensures less(all[i], all[j]) {
        if i < |s| <= j {
          assert all[i] in s && all[j] in t;
        } else if |s| <= i {
          assert all[i] == t[i - |s|] && all[j] == t[j - |s|];
        }
      }
    }
  }

  /** A set of elements has one sorted list without repetitions. */
  lemma {:induction false} SortedUniqueIsUnique<T(!new)>(s: seq<T>, t: seq<T>, less: (T, T) -> bool)
    requires StrictOrder(less) && SortedUnique(s, less) && SortedUnique(t, less)
    requires forall x :: x in s <==> x in t
    ensures s == t
    decreases |s|
  {
    assert (t != [] ==> t[0] in t) && (s != [] ==> s[0] in s);
    if s != [] {
      var front, last := s[..|s| - 1], s[|s| - 1];
      assert s == front + [last];
      SortedUniqueAppend(front, last, less);
      var start, end := t[..|t| - 1], t[|t| - 1];
      assert t == start + [end];
      SortedUniqueAppend(start, end, less);
      assert last in t && end in s;
      assert last == end;
      forall x ensures x in front <==> x in start {
        assert x in s <==> x in front || x == last;
        assert x in t <==> x in start || x == last;
        assert last !in front && last !in start;
      }
      SortedUniqueIsUnique(front, start, less);
    }
  }

  /** Sorted, perhaps with repetitions. */
  ghost predicate IsSorted<T(!new)>(s: seq<T>, less: (T, T) -> bool) {
    forall i, j :: 0 <= i < j < |s| ==> !less(s[j], s[i])
  }

  function Insert<T>(s: seq<T>, x: T, less: (T, T) -> bool): (r: seq<T>) {
    if |s| == 0 || !less(x, s[|s| - 1]) then s + [x]
    else Insert(s[..|s| - 1], x, less) + [s[|s| - 1]]
  }

  /** std::sort, whichever algorithm it uses. */
  function Sorted<T>(t: seq<T>, less: (T, T) -> bool): (r: seq<T>) {
    if |t| == 0 then [] else Insert(Sorted(t[..|t| - 1], less), t[|t| - 1], less)
  }

  lemma {:induction false} InsertKeeps<T(!new)>(s: seq<T>, x: T, less: (T, T) -> bool)
    ensures multiset(Insert(s, x, less)) == multiset(s) + multiset{x}
  {
    if |s| > 0 && less(x, s[|s| - 1]) {
      InsertKeeps(s[..|s| - 1], x, less);
      assert s == s[..|s| - 1] + [s[|s| - 1]];
    }
  }

  lemma {:induction false} InsertSorts<T(!new)>(s: seq<T>, x: T, less: (T, T) -> bool)
    requires StrictOrder(less) && IsSorted(s, less)
    ensures IsSorted(Insert(s, x, less), less)
  {
    if |s| > 0 && less(x, s[|s| - 1]) {
      var front, last := s[..|s| - 1], s[|s| - 1];
      InsertSorts(front, x, less);
      InsertKeeps(front, x, less);
      var r := Insert(front, x, less);
      forall i | 0 <= i < |r| ensures !less(last, r[i]) {
        assert r[i] in multiset(r);
        assert r[i] == x || r[i] in front;
      }
    } else if |s| > 0 {
      forall i | 0 <= i < |s| ensures !less(x, s[i]) {
        assert i < |s| - 1 ==> !less(s[|s| - 1], s[i]);
      }
    }
  }

  /** The sorted list is a permutation of the original. */
  lemma {:induction false} SortedSorts<T(!new)>(t: seq<T>, less: (T, T) -> bool)
    requires StrictOrder(less)
    ensures IsSorted(Sorted(t, less), less) && multiset(Sorted(t, less)) == multiset(t)
  {
    if |t| > 0 {
      var front, last := t[..|t| - 1], t[|t| - 1];
      SortedSorts(front, less);
      InsertSorts(Sorted(front, less), last, less);
      InsertKeeps(Sorted(front, less), last, less);
      assert t == front + [last];
    }
  }

  lemma SameElements<T(!new)>(s: seq<T>, t: seq<T>, x: T)
    requires multiset(s) == multiset(t)
    ensures x in s <==> x in t
  {
    assert x in multiset(s) <==> x in multiset(t);
  }

  /** The element after a prefix of a sorted list is greater than all of the prefix, or its last. */
  lemma NextIsGreater<T(!new)>(sorted: seq<T>, i: nat, less: (T, T) -> bool)
    requires StrictOrder(less) && IsSorted(sorted, less) && i < |sorted|
    ensures i > 0 && sorted[i - 1] != sorted[i] ==> forall y :: y in sorted[..i] ==> less(y, sorted[i])
  {
    if i > 0 && sorted[i - 1] != sorted[i] {
      assert less(sorted[i - 1], sorted[i]);
      forall y | y in sorted[..i] ensures less(y, sorted[i]) {
        var k :| 0 <= k < i && sorted[k] == y;
        assert k < i - 1 ==> !less(sorted[i - 1], sorted[k]);
      }
    }
  }

  /** Uniquefy: the list is a value parameter, so what the caller keeps is unchanged; `local` is the
      sorted list without repetitions that the function body leaves in its own copy. */
  method Uniquefy<T(==, !new)>(t: seq<T>, less: (T, T) -> bool) returns (local: seq<T>)
    requires StrictOrder(less)
    ensures SortedUnique(local, less) && forall x :: x in local <==> x in t
  {
    var sorted := Sorted(t, less);
    SortedSorts(t, less);
    forall x ensures x in sorted <==> x in t { SameElements(sorted, t, x); }
    local := Unique(sorted, less);
  }

  /** std::unique and the erase that follows it: adjacent equal elements become one. */
  method Unique<T(==, !new)>(sorted: seq<T>, ghost less: (T, T) -> bool) returns (local: seq<T>)
    requires StrictOrder(less) && IsSorted(sorted, less)
    ensures SortedUnique(local, less) && forall x :: x in local <==> x in sorted
  {
    hide StrictOrder, IsSorted, SortedUnique;
    local := [];
    EmptyIsSortedUnique(less);
    for i := 0 to |sorted|
      invariant SortedUnique(local, less) && forall x :: x in local <==> x in sorted[..i]
      invariant |local| > 0 <==> i > 0
      invariant i > 0 ==> local[|local| - 1] == sorted[i - 1]
    {
      if |local| == 0 || local[|local| - 1] != sorted[i] {
        NextIsGreater(sorted, i, less);
        SortedUniqueAppend(local, sorted[i], less);
        local := local + [sorted[i]];
      }
      assert sorted[..i + 1] == sorted[..i] + [sorted[i]];
    }
    assert sorted[..|sorted|] == sorted;
  }

  lemma EmptyIsSortedUnique<T(!new)>(less: (T, T) -> bool)
    ensures SortedUnique([], less)
  {
  }

  /** A list survives Uniquefy exactly when it was sorted and free of repetitions already. */
  lemma UniquefyKeepsIff<T(!new)>(t: seq<T>, local: seq<T>, less: (T, T) -> bool)
    requires StrictOrder(less) && SortedUnique(local, less) && forall x :: x in local <==> x in t
    ensures local == t <==> SortedUnique(t, less)
  {
    if SortedUnique(t, less) { SortedUniqueIsUnique(local, t, less); }
  }
}
