/** The order in which the Python bindings load the ns-3 libraries: a layered topological sort
    over the map from each library to the libraries it links against. */
module LoadOrder {
  import opened Common

  datatype Library = Library(fileName: string)

  type Dependencies = map<Library, seq<Library>>

  // ---------------------------------------------------------------------------
  // One step
  // ---------------------------------------------------------------------------

  ghost predicate CanBeLoaded(deps: Dependencies, m: Library, current: seq<Library>) {
    m in deps && forall d :: d in deps[m] ==> d in current
  }

  /** The pending libraries that can be loaded, in the order in which they are pending. */
  ghost function Ready(deps: Dependencies, pending: seq<Library>, current: seq<Library>): seq<Library> {
    if pending == [] then [] else
      var front, last := pending[..|pending| - 1], pending[|pending| - 1];
      Ready(deps, front, current) + if CanBeLoaded(deps, last, current) then [last] else []
  }

  lemma {:induction false} ReadyMembers(deps: Dependencies, pending: seq<Library>, current: seq<Library>)
    requires NoDuplicates(pending)
    ensures forall m :: m in Ready(deps, pending, current) <==> m in pending && CanBeLoaded(deps, m, current)
    ensures NoDuplicates(Ready(deps, pending, current))
  {
    if pending != [] {
      var front, last := pending[..|pending| - 1], pending[|pending| - 1];
      ReadyMembers(deps, front, current);
      assert pending == front + [last];
      assert last !in front;
    }
  }

  /** The ready list keeps the order of the pending list. */
  lemma {:induction false} ReadyInOrder(deps: Dependencies, pending: seq<Library>, current: seq<Library>)
    ensures InOrderOf(Ready(deps, pending, current), pending)
    ensures forall m :: m in Ready(deps, pending, current) <==> m in pending && CanBeLoaded(deps, m, current)
  {
    if pending != [] {
      var front, last := pending[..|pending| - 1], pending[|pending| - 1];
      ReadyInOrder(deps, front, current);
      assert pending == [] + front + [last];
      var before, ready := Ready(deps, front, current), Ready(deps, pending, current);
      forall i, j | 0 <= i < j < |ready| ensures Precedes(pending, ready[i], ready[j]) {
        if j < |before| {
          PrecedesLater([], front, [last], before[i], before[j]);
        } else {
          assert before[i] in front;
          var k :| 0 <= k < |front| && front[k] == before[i];
          assert pending[k] == before[i];
        }
      }
    }
  }

  /** `pending_modules.remove(module)` for every module in `gone`. */
  function Without(pending: seq<Library>, gone: seq<Library>): seq<Library>
    decreases |gone|
  {
    if gone == [] then pending else Without(RemoveFirst(pending, gone[0]), gone[1..])
  }

  function RemoveFirst(s: seq<Library>, m: Library): seq<Library> {
    if s == [] then [] else if s[0] == m then s[1..] else [s[0]] + RemoveFirst(s[1..], m)
  }

  lemma {:induction false} RemoveFirstMembers(s: seq<Library>, m: Library)
    requires NoDuplicates(s)
    ensures NoDuplicates(RemoveFirst(s, m))
    ensures forall x :: x in RemoveFirst(s, m) <==> x in s && x != m
  {
    if s != [] {
      assert s == [s[0]] + s[1..];
      NoDuplicatesCons(s[0], s[1..]);
      if s[0] != m {
        RemoveFirstMembers(s[1..], m);
        NoDuplicatesCons(s[0], RemoveFirst(s[1..], m));
      }
    }
  }

  lemma {:induction false} WithoutMembers(s: seq<Library>, gone: seq<Library>)
    requires NoDuplicates(s)
    ensures NoDuplicates(Without(s, gone))
    ensures forall x :: x in Without(s, gone) <==> x in s && x !in gone
    decreases |gone|
  {
    if gone != [] {
      RemoveFirstMembers(s, gone[0]);
      WithoutMembers(RemoveFirst(s, gone[0]), gone[1..]);
    }
  }

  lemma {:induction false} RemoveFirstInOrder(s: seq<Library>, m: Library)
    ensures InOrderOf(RemoveFirst(s, m), s)
    ensures forall x :: x in RemoveFirst(s, m) ==> x in s
  {
    if s != [] {
      assert s == [s[0]] + s[1..] + [];
      InOrderOfItself(s[1..]);
      RemoveFirstInOrder(s[1..], m);
      var r := RemoveFirst(s, m);
      forall i, j | 0 <= i < j < |r| ensures Precedes(s, r[i], r[j]) {
        if s[0] == m || i > 0 {
          assert Precedes(s[1..], r[i], r[j]);
          PrecedesLater([s[0]], s[1..], [], r[i], r[j]);
        } else {
          assert r[j] in s[1..];
          var k :| 0 <= k < |s[1..]| && s[1..][k] == r[j];
          assert s[k + 1] == r[j];
        }
      }
    }
  }

  /** Removing keeps the order of the rest. */
  lemma {:induction false} WithoutInOrder(s: seq<Library>, gone: seq<Library>)
    ensures InOrderOf(Without(s, gone), s)
    decreases |gone|
  {
    if gone == [] {
      InOrderOfItself(s);
    } else {
      RemoveFirstInOrder(s, gone[0]);
      WithoutInOrder(RemoveFirst(s, gone[0]), gone[1..]);
      InOrderThrough(Without(s, gone), RemoveFirst(s, gone[0]), s);
    }
  }

  // ---------------------------------------------------------------------------
  // All the steps
  // ---------------------------------------------------------------------------

  /** The two lists a step works on. */
  datatype Lists = Lists(pending: seq<Library>, current: seq<Library>)

  /** `keys` lists every library of the map once, as `list(module_dependencies.keys())` does. */
  ghost predicate IsKeyList(deps: Dependencies, keys: seq<Library>) {
    NoDuplicates(keys) && forall m :: m in keys <==> m in deps
  }

  /** Every library is on exactly one of the two lists, once. */
  ghost predicate Partition(deps: Dependencies, s: Lists) {
    && NoDuplicates(s.pending) && NoDuplicates(s.current)
    && (forall m :: m in s.pending ==> m !in s.current)
    && (forall m :: m in deps <==> m in s.pending || m in s.current)
  }

  ghost function Step(deps: Dependencies, s: Lists): Lists {
    var ready := Ready(deps, s.pending, s.current);
    Lists(Without(s.pending, ready), s.current + ready)
  }

  lemma StepKeepsPartition(deps: Dependencies, s: Lists)
    requires Partition(deps, s)
    ensures Partition(deps, Step(deps, s))
  {
    var ready := Ready(deps, s.pending, s.current);
    ReadyMembers(deps, s.pending, s.current);
    WithoutMembers(s.pending, ready);
    NoDuplicatesConcat(s.current, ready);
  }

  /** The lists after `n` steps. */
  ghost function After(deps: Dependencies, keys: seq<Library>, n: nat): Lists {
    if n == 0 then Lists(keys, []) else Step(deps, After(deps, keys, n - 1))
  }

  /** No library is ever lost or listed twice. */
  lemma {:induction false} AlwaysPartition(deps: Dependencies, keys: seq<Library>, n: nat)
    requires IsKeyList(deps, keys)
    ensures Partition(deps, After(deps, keys, n))
  {
    if n > 0 {
      AlwaysPartition(deps, keys, n - 1);
      StepKeepsPartition(deps, After(deps, keys, n - 1));
    }
  }

  /** What step `n` loads: the list `steps[n]`. */
  ghost function Layer(deps: Dependencies, keys: seq<Library>, n: nat): seq<Library> {
    var s := After(deps, keys, n);
    Ready(deps, s.pending, s.current)
  }

  // ---------------------------------------------------------------------------
  // Dependency chains
  // ---------------------------------------------------------------------------

  /** A dependency chain: each library depends on the one after it. */
  ghost predicate IsChain(deps: Dependencies, c: seq<Library>) {
    c != [] && forall i :: 0 <= i < |c| - 1 ==> c[i] in deps && c[i + 1] in deps[c[i]]
  }

  ghost predicate IsChainFrom(deps: Dependencies, m: Library, c: seq<Library>) {
    IsChain(deps, c) && c[0] == m
  }

  ghost predicate AllPresent(deps: Dependencies, c: seq<Library>) {
    forall i :: 0 <= i < |c| ==> c[i] in deps
  }

  /** Every chain from `m` stays inside the map and has at most `n` libraries. */
  ghost predicate ChainsBounded(deps: Dependencies, m: Library, n: nat) {
    forall c :: IsChainFrom(deps, m, c) ==> |c| <= n && AllPresent(deps, c)
  }

  /** All transitive dependencies of `m` are present, and none of them is on a cycle. */
  ghost predicate Sound(deps: Dependencies, m: Library) {
    forall c :: IsChainFrom(deps, m, c) ==> AllPresent(deps, c) && NoDuplicates(c)
  }

  /** The whole map is closed over its keys and acyclic. */
  ghost predicate ClosedAndAcyclic(deps: Dependencies) {
    && (forall m, d :: m in deps && d in deps[m] ==> d in deps)
    && (forall c :: IsChain(deps, c) && |c| > 1 ==> c[0] != c[|c| - 1])
  }

  /** A library is bounded by n+1 exactly when it is present and its dependencies are bounded by n. */
  lemma BoundedUnfolds(deps: Dependencies, m: Library, n: nat)
    ensures ChainsBounded(deps, m, n + 1) <==>
            m in deps && forall d :: d in deps[m] ==> ChainsBounded(deps, d, n)
  {
    if ChainsBounded(deps, m, n + 1) {
      assert IsChainFrom(deps, m, [m]);
      assert [m][0] in deps;
      forall d, c | d in deps[m] && IsChainFrom(deps, d, c) ensures |c| <= n && AllPresent(deps, c) {
        var longer := [m] + c;
        assert IsChainFrom(deps, m, longer);
        forall i | 0 <= i < |c| ensures c[i] in deps { assert longer[i + 1] in deps; }
      }
    }
    if m in deps && forall d :: d in deps[m] ==> ChainsBounded(deps, d, n) {
      forall c | IsChainFrom(deps, m, c) ensures |c| <= n + 1 && AllPresent(deps, c) {
        if |c| > 1 {
          var rest := c[1..];
          assert c[0 + 1] in deps[m];
          forall i | 0 <= i < |rest| - 1 ensures rest[i] in deps && rest[i + 1] in deps[rest[i]] {
            assert c[i + 1] in deps && c[(i + 1) + 1] in deps[c[i + 1]];
          }
          assert IsChainFrom(deps, c[1], rest);
          forall i | 0 < i < |c| ensures c[i] in deps { assert rest[i - 1] in deps; }
        }
      }
    }
  }

  lemma ChainsBoundedGrows(deps: Dependencies, m: Library, n: nat, k: nat)
    requires ChainsBounded(deps, m, n) && n <= k
    ensures ChainsBounded(deps, m, k)
  {
  }

  lemma LoadedUnfolds(deps: Dependencies, keys: seq<Library>, n: nat, m: Library)
    requires IsKeyList(deps, keys)
    ensures m in After(deps, keys, n + 1).current <==>
            || m in After(deps, keys, n).current
            || (m in deps && forall d :: d in deps[m] ==> d in After(deps, keys, n).current)
  {
    AlwaysPartition(deps, keys, n);
    var s := After(deps, keys, n);
    ReadyMembers(deps, s.pending, s.current);
  }

  /** The central fact: after n steps exactly the libraries whose chains have at most n members are loaded. */
  lemma {:induction false} LoadedIffBounded(deps: Dependencies, keys: seq<Library>, n: nat, m: Library)
    requires IsKeyList(deps, keys)
    ensures m in After(deps, keys, n).current <==> ChainsBounded(deps, m, n)
    decreases n
  {
    hide ChainsBounded, After, IsKeyList, CanBeLoaded, Sound;
    if n == 0 {
      NothingLoadedFirst(deps, keys, m);
    } else {
      LoadedUnfolds(deps, keys, n - 1, m);
      BoundedUnfolds(deps, m, n - 1);
      var loaded := After(deps, keys, n - 1).current;
      forall d ensures d in loaded <==> ChainsBounded(deps, d, n - 1) {
        LoadedIffBounded(deps, keys, n - 1, d);
      }
      if m in loaded {
        ChainsBoundedGrows(deps, m, n - 1, n);
      }
    }
  }

  lemma NothingLoadedFirst(deps: Dependencies, keys: seq<Library>, m: Library)
    ensures m !in After(deps, keys, 0).current && !ChainsBounded(deps, m, 0)
  {
    assert IsChainFrom(deps, m, [m]);
  }

  lemma LayerMembers(deps: Dependencies, keys: seq<Library>, n: nat, m: Library)
    requires IsKeyList(deps, keys)
    ensures m in Layer(deps, keys, n) <==>
            m in After(deps, keys, n + 1).current && m !in After(deps, keys, n).current
  {
    var s := After(deps, keys, n);
    AlwaysPartition(deps, keys, n);
    ReadyMembers(deps, s.pending, s.current);
  }

  /** A library is loaded by step n exactly when its longest dependency chain has n+1 members. */
  lemma LayerIsLongestChain(deps: Dependencies, keys: seq<Library>, n: nat, m: Library)
    requires IsKeyList(deps, keys)
    ensures m in Layer(deps, keys, n) <==>
            && ChainsBounded(deps, m, n + 1)
            && exists c :: IsChainFrom(deps, m, c) && |c| == n + 1
  {
    hide After, Layer, IsKeyList, IsChainFrom;
    LayerMembers(deps, keys, n, m);
    LoadedIffBounded(deps, keys, n, m);
    LoadedIffBounded(deps, keys, n + 1, m);
    if m in Layer(deps, keys, n) {
      var c :| IsChainFrom(deps, m, c) && !(|c| <= n && AllPresent(deps, c));
    }
  }

  /** No valid layering puts a library on an earlier layer. */
  lemma {:induction false} LayerIsLeast(deps: Dependencies, keys: seq<Library>, layering: map<Library, nat>, n: nat, m: Library)
    requires IsKeyList(deps, keys) && m in Layer(deps, keys, n)
    requires layering.Keys == deps.Keys
    requires forall x, d :: x in deps && d in deps[x] && d in layering ==> layering[d] < layering[x]
    ensures m in layering && n <= layering[m]
  {
    LayerIsLongestChain(deps, keys, n, m);
    var c :| IsChainFrom(deps, m, c) && |c| == n + 1;
    assert AllPresent(deps, c);
    for i := 0 to n
      invariant c[i] in layering && layering[c[i]] + i <= layering[m]
    {
      assert c[i + 1] in deps[c[i]];
    }
  }

  // ---------------------------------------------------------------------------
  // Cycles
  // ---------------------------------------------------------------------------

  /** A chain that comes back to a library can go round as often as it likes. */
  lemma {:induction false} Pump(deps: Dependencies, c: seq<Library>, i: nat, j: nat, n: nat) returns (longer: seq<Library>)
    requires IsChain(deps, c) && i < j < |c| && c[i] == c[j]
    ensures IsChain(deps, longer) && longer[0] == c[0] && |longer| > n
    decreases n - |c|
  {
    if |c| > n {
      longer := c;
    } else {
      var again := c[..j] + c[i..];
      forall k | 0 <= k < |again| - 1 ensures again[k] in deps && again[k + 1] in deps[again[k]] {
        if k < j - 1 {
          assert again[k] == c[k] && again[k + 1] == c[k + 1];
        } else if k == j - 1 {
          assert again[k] == c[k] && again[k + 1] == c[i] == c[k + 1];
        } else {
          assert again[k] == c[k - j + i] && again[k + 1] == c[(k - j + i) + 1];
        }
      }
      longer := Pump(deps, again, i, j, n);
    }
  }

  /** Bounded chains are cycle-free, and cycle-free chains inside a finite map are bounded. */
  lemma SoundIffBounded(deps: Dependencies, m: Library)
    ensures Sound(deps, m) <==> ChainsBounded(deps, m, |deps.Keys|)
    ensures Sound(deps, m) <==> exists n: nat :: ChainsBounded(deps, m, n)
  {
    if Sound(deps, m) {
      forall c | IsChainFrom(deps, m, c) ensures |c| <= |deps.Keys| {
        PigeonHole(c, deps.Keys);
      }
      assert ChainsBounded(deps, m, |deps.Keys|);
    }
    forall n: nat, c | ChainsBounded(deps, m, n) && IsChainFrom(deps, m, c) ensures NoDuplicates(c) {
      if i, j :| 0 <= i < j < |c| && c[i] == c[j] {
        var longer := Pump(deps, c, i, j, n);
        assert IsChainFrom(deps, m, longer);
      }
    }
  }

  lemma SoundIsClosedAndAcyclic(deps: Dependencies)
    requires forall m :: m in deps ==> Sound(deps, m)
    ensures ClosedAndAcyclic(deps)
  {
    forall m, d | m in deps && d in deps[m] ensures d in deps {
      assert IsChainFrom(deps, m, [m, d]);
      assert [m, d][1] in deps;
    }
    forall c | IsChain(deps, c) && |c| > 1 ensures c[0] != c[|c| - 1] {
      assert c[0] in deps && IsChainFrom(deps, c[0], c);
    }
  }

  lemma ClosedAndAcyclicIsSound(deps: Dependencies, m: Library)
    requires ClosedAndAcyclic(deps) && m in deps
    ensures Sound(deps, m)
  {
    forall c | IsChainFrom(deps, m, c) ensures AllPresent(deps, c) && NoDuplicates(c) {
      forall i | 0 <= i < |c| ensures c[i] in deps {
        if i > 0 { assert c[i - 1 + 1] in deps[c[i - 1]]; }
      }
      forall i, j | 0 <= i < j < |c| ensures c[i] != c[j] {
        ChainPart(deps, c, i, j);
      }
    }
  }

  lemma ChainPart(deps: Dependencies, c: seq<Library>, i: nat, j: nat)
    requires IsChain(deps, c) && i < j < |c|
    ensures IsChain(deps, c[i..j + 1])
  {
    var part := c[i..j + 1];
    forall k | 0 <= k < |part| - 1 ensures part[k] in deps && part[k + 1] in deps[part[k]] {
      assert c[i + k] in deps && c[(i + k) + 1] in deps[c[i + k]];
    }
  }

  /** For an arbitrary map: what is ever loaded is exactly what is sound. */
  lemma EverLoadedIffSound(deps: Dependencies, keys: seq<Library>, m: Library)
    requires IsKeyList(deps, keys)
    ensures (exists n: nat :: m in After(deps, keys, n).current) <==> Sound(deps, m)
    ensures Sound(deps, m) <==> m in After(deps, keys, |deps.Keys|).current
  {
    SoundIffBounded(deps, m);
    LoadedIffBounded(deps, keys, |deps.Keys|, m);
    forall n: nat ensures m in After(deps, keys, n).current <==> ChainsBounded(deps, m, n) {
      LoadedIffBounded(deps, keys, n, m);
    }
  }

  lemma IdleStep(deps: Dependencies, s: Lists)
    requires Ready(deps, s.pending, s.current) == []
    ensures Step(deps, s) == s
  {
    assert s.current + [] == s.current;
  }

  /** Once a step loads nothing, no later step loads anything. */
  lemma {:induction false} EmptyLayerIsForever(deps: Dependencies, keys: seq<Library>, n: nat, k: nat)
    requires Layer(deps, keys, n) == [] && n <= k
    ensures After(deps, keys, k) == After(deps, keys, n) && Layer(deps, keys, k) == []
    decreases k
  {
    hide Step, After, Ready;
    if n < k {
      EmptyLayerIsForever(deps, keys, n, k - 1);
      AfterStep(deps, keys, k - 1);
      IdleStep(deps, After(deps, keys, n));
    }
  }

  lemma PendingInMap(deps: Dependencies, keys: seq<Library>, n: nat)
    requires IsKeyList(deps, keys)
    ensures var s := After(deps, keys, n); forall i :: 0 <= i < |s.pending| ==> s.pending[i] in deps
  {
    AlwaysPartition(deps, keys, n);
  }

  lemma PendingEmptyIff(deps: Dependencies, s: Lists)
    requires Partition(deps, s)
    ensures s.pending == [] <==> forall m :: m in deps ==> m in s.current
  {
    if s.pending != [] {
      assert s.pending[0] in deps && s.pending[0] !in s.current;
    }
  }

  /** The pending list runs empty exactly for closed acyclic maps, and then within one step a library. */
  lemma RunsEmptyIff(deps: Dependencies, keys: seq<Library>)
    requires IsKeyList(deps, keys)
    ensures (exists n: nat :: After(deps, keys, n).pending == []) <==> ClosedAndAcyclic(deps)
    ensures ClosedAndAcyclic(deps) ==> After(deps, keys, |deps.Keys|).pending == []
  {
    hide After, Sound, ClosedAndAcyclic;
    forall n: nat ensures After(deps, keys, n).pending == [] <==> forall m :: m in deps ==> m in After(deps, keys, n).current {
      AlwaysPartition(deps, keys, n);
      PendingEmptyIff(deps, After(deps, keys, n));
    }
    forall m ensures (exists n: nat :: m in After(deps, keys, n).current) <==> Sound(deps, m)
             ensures Sound(deps, m) <==> m in After(deps, keys, |deps.Keys|).current
    {
      EverLoadedIffSound(deps, keys, m);
    }
    if ClosedAndAcyclic(deps) {
      forall m | m in deps ensures Sound(deps, m) { ClosedAndAcyclicIsSound(deps, m); }
    }
    if n: nat :| After(deps, keys, n).pending == [] {
      assert forall m :: m in deps ==> Sound(deps, m);
      SoundIsClosedAndAcyclic(deps);
    }
  }

  lemma RunsEmptyBy(deps: Dependencies, keys: seq<Library>, n: nat)
    requires IsKeyList(deps, keys)
    ensures After(deps, keys, n).pending == [] ==> ClosedAndAcyclic(deps)
    ensures ClosedAndAcyclic(deps) && n >= |deps.Keys| ==> After(deps, keys, n).pending == []
  {
    hide After, ClosedAndAcyclic, IsKeyList;
    RunsEmptyIff(deps, keys);
    assert After(deps, keys, n).pending == [] ==> exists k: nat :: After(deps, keys, k).pending == [];
    if ClosedAndAcyclic(deps) && n >= |deps.Keys| {
      PendingStaysEmpty(deps, keys, |deps.Keys|, n);
    }
  }

  // ---------------------------------------------------------------------------
  // The load order
  // ---------------------------------------------------------------------------

  /** Each library stands after everything it depends on. */
  ghost predicate DependenciesFirst(deps: Dependencies, order: seq<Library>) {
    forall j :: 0 <= j < |order| ==> CanBeLoaded(deps, order[j], order[..j])
  }

  /** Every library of the map once, each after everything it depends on. */
  ghost predicate IsLoadOrder(deps: Dependencies, order: seq<Library>) {
    && NoDuplicates(order)
    && (forall m :: m in order <==> m in deps)
    && DependenciesFirst(deps, order)
  }

  lemma AppendReady(deps: Dependencies, order: seq<Library>, ready: seq<Library>)
    requires DependenciesFirst(deps, order)
    requires forall m :: m in ready ==> CanBeLoaded(deps, m, order)
    ensures DependenciesFirst(deps, order + ready)
  {
    var all := order + ready;
    forall j | 0 <= j < |all| ensures CanBeLoaded(deps, all[j], all[..j]) {
      if j < |order| {
        assert all[..j] == order[..j];
      } else {
        assert all[j] in ready;
        assert all[..j] == order + ready[..j - |order|];
      }
    }
  }

  /** At every step each loaded library stands after all its dependencies. */
  lemma {:induction false} CurrentIsOrdered(deps: Dependencies, keys: seq<Library>, n: nat)
    requires IsKeyList(deps, keys)
    ensures DependenciesFirst(deps, After(deps, keys, n).current)
  {
    hide DependenciesFirst, After, Ready;
    if n > 0 {
      var s := After(deps, keys, n - 1);
      CurrentIsOrdered(deps, keys, n - 1);
      AlwaysPartition(deps, keys, n - 1);
      ReadyMembers(deps, s.pending, s.current);
      AfterStep(deps, keys, n - 1);
      AppendReady(deps, s.current, Ready(deps, s.pending, s.current));
    } else {
      NothingIsOrdered(deps, keys);
    }
  }

  lemma NothingIsOrdered(deps: Dependencies, keys: seq<Library>)
    ensures DependenciesFirst(deps, After(deps, keys, 0).current)
  {
  }

  lemma EmptyPendingIsLoadOrder(deps: Dependencies, keys: seq<Library>, n: nat)
    requires IsKeyList(deps, keys) && After(deps, keys, n).pending == []
    ensures IsLoadOrder(deps, After(deps, keys, n).current)
  {
    CurrentIsOrdered(deps, keys, n);
    AlwaysPartition(deps, keys, n);
  }

  /** The dictionary after `n` steps. */
  ghost function Steps(deps: Dependencies, keys: seq<Library>, n: nat): map<nat, seq<Library>> {
    if n == 0 then map[] else Steps(deps, keys, n - 1)[n - 1 := Layer(deps, keys, n - 1)]
  }

  lemma {:induction false} StepsAt(deps: Dependencies, keys: seq<Library>, n: nat, k: nat)
    ensures k in Steps(deps, keys, n) <==> k < n
    ensures k < n ==> Steps(deps, keys, n)[k] == Layer(deps, keys, k)
  {
    if n > 0 { StepsAt(deps, keys, n - 1, k); }
  }

  /** `step.values()` laid end to end. */
  ghost function Concatenated(deps: Dependencies, keys: seq<Library>, n: nat): seq<Library>
  {
    if n == 0 then [] else Concatenated(deps, keys, n - 1) + Layer(deps, keys, n - 1)
  }

  lemma {:induction false} ConcatenatedIsCurrent(deps: Dependencies, keys: seq<Library>, n: nat)
    ensures Concatenated(deps, keys, n) == After(deps, keys, n).current
  {
    if n > 0 { ConcatenatedIsCurrent(deps, keys, n - 1); }
  }

  lemma AfterStep(deps: Dependencies, keys: seq<Library>, n: nat)
    ensures After(deps, keys, n + 1) == Step(deps, After(deps, keys, n))
  {
  }

  lemma EmptyStaysEmpty(deps: Dependencies, s: Lists)
    requires s.pending == []
    ensures Step(deps, s).pending == []
  {
  }

  lemma {:induction false} PendingStaysEmpty(deps: Dependencies, keys: seq<Library>, n: nat, k: nat)
    requires After(deps, keys, n).pending == [] && n <= k
    ensures After(deps, keys, k).pending == []
    decreases k
  {
    hide Step, After;
    if n < k {
      PendingStaysEmpty(deps, keys, n, k - 1);
      AfterStep(deps, keys, k - 1);
      EmptyStaysEmpty(deps, After(deps, keys, k - 1));
    }
  }

  /** What is pending, and what each step loads, always comes in the order of the keys. */
  lemma {:induction false} AlwaysInKeyOrder(deps: Dependencies, keys: seq<Library>, n: nat)
    ensures InOrderOf(After(deps, keys, n).pending, keys) && InOrderOf(Layer(deps, keys, n), keys)
  {
    hide Precedes;
    var s := After(deps, keys, n);
    if n == 0 {
      InOrderOfItself(keys);
    } else {
      AlwaysInKeyOrder(deps, keys, n - 1);
      var before := After(deps, keys, n - 1);
      WithoutInOrder(before.pending, Ready(deps, before.pending, before.current));
      InOrderThrough(s.pending, before.pending, keys);
    }
    ReadyInOrder(deps, s.pending, s.current);
    InOrderThrough(Layer(deps, keys, n), s.pending, keys);
  }

  /** `x` is loaded by an earlier step than `y`, or by the same step and listed before it. */
  ghost predicate LoadedBefore(deps: Dependencies, keys: seq<Library>, x: Library, y: Library) {
    exists k: nat, l: nat ::
      x in Layer(deps, keys, k) && y in Layer(deps, keys, l) && (k < l || (k == l && Precedes(keys, x, y)))
  }

  ghost predicate IsLayered(deps: Dependencies, keys: seq<Library>, order: seq<Library>) {
    forall i, j :: 0 <= i < j < |order| ==> LoadedBefore(deps, keys, order[i], order[j])
  }

  lemma {:induction false} InSomeLayer(deps: Dependencies, keys: seq<Library>, n: nat, m: Library) returns (k: nat)
    requires m in After(deps, keys, n).current
    ensures k < n && m in Layer(deps, keys, k)
  {
    hide Ready;
    assert n > 0;
    if m in After(deps, keys, n - 1).current {
      k := InSomeLayer(deps, keys, n - 1, m);
    } else {
      k := n - 1;
    }
  }

  /** The loaded libraries come layer by layer, and within a layer in the order of the keys. */
  lemma {:induction false} CurrentIsLayered(deps: Dependencies, keys: seq<Library>, n: nat)
    ensures IsLayered(deps, keys, After(deps, keys, n).current)
  {
    hide Layer, After, IsLayered, InOrderOf;
    if n == 0 {
      NothingIsLayered(deps, keys);
    } else {
      CurrentIsLayered(deps, keys, n - 1);
      AlwaysInKeyOrder(deps, keys, n - 1);
      CurrentNext(deps, keys, n - 1);
      LayerComesNext(deps, keys, n - 1);
    }
  }

  lemma NothingIsLayered(deps: Dependencies, keys: seq<Library>)
    ensures IsLayered(deps, keys, After(deps, keys, 0).current)
  {
  }

  lemma LayerComesNext(deps: Dependencies, keys: seq<Library>, n: nat)
    requires IsLayered(deps, keys, After(deps, keys, n).current) && InOrderOf(Layer(deps, keys, n), keys)
    ensures IsLayered(deps, keys, After(deps, keys, n).current + Layer(deps, keys, n))
  {
    hide Layer, After, Precedes, LoadedBefore;
    var before, layer := After(deps, keys, n).current, Layer(deps, keys, n);
    var all := before + layer;
    forall i, j | 0 <= i < j < |all| ensures LoadedBefore(deps, keys, all[i], all[j]) {
      if j < |before| {
        assert LoadedBefore(deps, keys, before[i], before[j]);
      } else if i < |before| {
        assert before[i] in before && layer[j - |before|] in layer;
        var k := InSomeLayer(deps, keys, n, before[i]);
        ByLayers(deps, keys, all[i], all[j], k, n);
      } else {
        assert layer[i - |before|] in layer && layer[j - |before|] in layer;
        assert Precedes(keys, layer[i - |before|], layer[j - |before|]);
        ByLayers(deps, keys, all[i], all[j], n, n);
      }
    }
  }

  lemma ByLayers(deps: Dependencies, keys: seq<Library>, x: Library, y: Library, k: nat, l: nat)
    requires x in Layer(deps, keys, k) && y in Layer(deps, keys, l) && (k < l || (k == l && Precedes(keys, x, y)))
    ensures LoadedBefore(deps, keys, x, y)
  {
  }

  lemma CurrentNext(deps: Dependencies, keys: seq<Library>, n: nat)
    ensures After(deps, keys, n + 1).current == After(deps, keys, n).current + Layer(deps, keys, n)
  {
  }

  // ---------------------------------------------------------------------------
  // The program
  // ---------------------------------------------------------------------------

  /** The lists and the dictionary that the nested functions of load_modules mutate. */
  class Sorter {
    const deps: Dependencies
    ghost const keys: seq<Library>
    var pending: seq<Library>
    var current: seq<Library>
    var steps: map<nat, seq<Library>>

    constructor (deps: Dependencies, keys: seq<Library>)
      requires IsKeyList(deps, keys)
      ensures this.deps == deps && this.keys == keys && AtStep(0)
    {
      this.deps, this.keys := deps, keys;
      pending, current, steps := keys, [], map[];
    }

    /** `n` steps have been taken and recorded. */
    ghost predicate AtStep(n: nat) reads this {
      && IsKeyList(deps, keys)
      && Lists(pending, current) == After(deps, keys, n)
      && steps == Steps(deps, keys, n)
    }

    method ModulesThatCanBeLoaded() returns (modules: seq<Library>)
      requires forall i :: 0 <= i < |pending| ==> pending[i] in deps
      ensures modules == Ready(deps, pending, current)
      ensures InOrderOf(modules, pending)
      ensures forall m :: m in modules <==> m in pending && forall d :: d in deps[m] ==> d in current
    {
      ReadyInOrder(deps, pending, current);
      hide Precedes, InOrderOf;
      modules := [];
      for i := 0 to |pending|
        invariant modules == Ready(deps, pending[..i], current)
      {
        assert pending[..i + 1][..i] == pending[..i];
        var dependencies := deps[pending[i]];
        var canBeLoaded := true;
        var j := 0;
        while j < |dependencies|
          invariant 0 <= j <= |dependencies| && canBeLoaded
          invariant forall d :: d in dependencies[..j] ==> d in current
        {
          if dependencies[j] !in current {
            canBeLoaded := false;
            break;
          }
          j := j + 1;
        }
        assert canBeLoaded ==> dependencies[..j] == dependencies;
        assert canBeLoaded <==> CanBeLoaded(deps, pending[i], current);
        if !canBeLoaded {
          continue;
        }
        modules := modules + [pending[i]];
      }
      assert pending[..|pending|] == pending;
    }

    /** Moves the modules of one step from the pending list to the current one. */
    method LoadAll(stepNumber: nat, modules: seq<Library>)
      requires stepNumber in steps && steps[stepNumber] == []
      modifies this`pending, this`current, this`steps
      ensures pending == Without(old(pending), modules)
      ensures current == old(current) + modules
      ensures steps == old(steps)[stepNumber := modules]
    {
      for i := 0 to |modules|
        invariant Without(pending, modules[i..]) == Without(old(pending), modules)
        invariant current == old(current) + modules[..i]
        invariant steps == old(steps)[stepNumber := modules[..i]]
      {
        steps := steps[stepNumber := steps[stepNumber] + [modules[i]]];
        pending := RemoveFirst(pending, modules[i]);
        current := current + [modules[i]];
        assert modules[i..][1..] == modules[i + 1..];
        assert modules[..i + 1] == modules[..i] + [modules[i]];
      }
      assert modules[..|modules|] == modules;
    }

    /** `depth` is the number of nested calls the interpreter still allows; `done` is false when it
        is exceeded, which is how the source ends on a map it cannot sort. */
    method DependencyOrder(stepNumber: nat, depth: nat) returns (done: bool, ghost last: nat)
      requires AtStep(stepNumber)
      modifies this`pending, this`current, this`steps
      ensures done <==> depth > 0 && After(deps, keys, stepNumber + depth - 1).pending == []
      ensures done ==> AtStep(last) && pending == []
      ensures done ==> stepNumber <= last && (last == stepNumber || After(deps, keys, last - 1).pending != [])
      decreases depth
    {
      hide IsKeyList, Ready, Without, Partition;
      last := stepNumber;
      if depth == 0 {
        return false, last;
      }
      if |pending| == 0 {
        PendingStaysEmpty(deps, keys, stepNumber, stepNumber + depth - 1);
        return true, last;
      }
      PendingInMap(deps, keys, stepNumber);
      assert pending == After(deps, keys, stepNumber).pending;
      assert forall i :: 0 <= i < |pending| ==> pending[i] in deps;
      StepsAt(deps, keys, stepNumber, stepNumber);
      if stepNumber !in steps {
        steps := steps[stepNumber := []];
      }
      var modules := ModulesThatCanBeLoaded();
      LoadAll(stepNumber, modules);
      assert Lists(pending, current) == After(deps, keys, stepNumber + 1);
      assert AtStep(stepNumber + 1);
      done, last := DependencyOrder(stepNumber + 1, depth - 1);
    }

    /** The concatenation of the recorded steps. */
    method Concatenate(ghost last: nat) returns (sortedLibraries: seq<Library>)
      requires steps == Steps(deps, keys, last)
      ensures sortedLibraries == After(deps, keys, last).current
    {
      hide Layer, After, Steps;
      sortedLibraries := [];
      var k := 0;
      StepsAt(deps, keys, last, k);
      while k in steps
        invariant k <= last && (k in steps <==> k < last)
        invariant sortedLibraries == Concatenated(deps, keys, k)
        decreases last - k
      {
        StepsAt(deps, keys, last, k);
        StepsAt(deps, keys, last, k + 1);
        sortedLibraries := sortedLibraries + steps[k];
        k := k + 1;
      }
      ConcatenatedIsCurrent(deps, keys, last);
    }

    /** sort_to_dependencies, from a fresh sorter. */
    method SortToDependencies(depth: nat) returns (sorted: Option<seq<Library>>)
      requires AtStep(0)
      modifies this`pending, this`current, this`steps
      ensures sorted.Some? ==> IsLoadOrder(deps, sorted.value) && ClosedAndAcyclic(deps)
      ensures sorted.Some? ==> IsLayered(deps, keys, sorted.value)
      ensures ClosedAndAcyclic(deps) && depth > |deps.Keys| ==> sorted.Some?
    {
      hide IsLoadOrder, ClosedAndAcyclic, IsKeyList, After, Steps, IsLayered;
      ghost var last: nat;
      var done;
      done, last := DependencyOrder(0, depth);
      if depth > 0 {
        RunsEmptyBy(deps, keys, depth - 1);
      }
      if !done {
        return None;
      }
      EmptyPendingIsLoadOrder(deps, keys, last);
      CurrentIsLayered(deps, keys, last);
      var sortedLibraries := Concatenate(last);
      return Some(sortedLibraries);
    }
  }
}
