/** When the list of configuration paths and the list of unknown names are sorted, which is when
    Uniquefy would leave them as they are. */
module ConfigOrder {
  import opened Common
  import opened Ordering
  import opened ConfigPaths
  import opened ConfigDuplicates

  // ---------------------------------------------------------------------------
  // The order of the records
  // ---------------------------------------------------------------------------

  ghost function RecordOf(g: TypeGraph, root: TypeId, w: seq<nat>): (TypeId, string)
    requires IsWalk(g, root, w)
  {
    (End(g, root, w), PathString(Labels(g, root, w)))
  }

  /** The walk can go on through slot `k` to a type it has not visited. */
  ghost predicate GoesOn(g: TypeGraph, root: TypeId, w: seq<nat>, k: nat) {
    && IsSimpleWalk(g, root, w)
    && Slot(g, End(g, root, w), k).Some? && Slot(g, End(g, root, w), k).value.target !in Nodes(g, root, w)
  }

  /** Every step of a simple walk leads to a type that was registered later. */
  ghost predicate StepsAscend(g: TypeGraph, root: TypeId) {
    forall w, k :: GoesOn(g, root, w, k) ==>
      TypeLess(g.registry, End(g, root, w), Slot(g, End(g, root, w), k).value.target)
  }

  /** What lies behind one slot is recorded with less than what the later slots lead to. */
  ghost predicate BranchesAscend(g: TypeGraph, root: TypeId) {
    forall u, n, k :: IsLaterBranch(g, root, u, n, k) ==> BranchIsLess(g, root, u, n, k)
  }

  ghost predicate IsLaterBranch(g: TypeGraph, root: TypeId, u: seq<nat>, n: nat, k: nat) {
    IsSimpleWalk(g, root, u) && n < |u| && u[n] < k && GoesOn(g, root, u[..n], k)
  }

  ghost predicate BranchIsLess(g: TypeGraph, root: TypeId, u: seq<nat>, n: nat, k: nat) {
    && IsWalk(g, root, u) && n <= |u| && IsWalk(g, root, u[..n] + [k])
    && RecordLess(g.registry, RecordOf(g, root, u), RecordOf(g, root, u[..n] + [k]))
  }

  ghost predicate PairIsLess(g: TypeGraph, root: TypeId, u: seq<nat>, v: seq<nat>) {
    IsWalk(g, root, u) && IsWalk(g, root, v) && RecordLess(g.registry, RecordOf(g, root, u), RecordOf(g, root, v))
  }

  ghost predicate WalksAreLess(g: TypeGraph, root: TypeId) {
    forall u, v :: IsSimpleWalk(g, root, u) && IsSimpleWalk(g, root, v) && Before(u, v) ==> PairIsLess(g, root, u, v)
  }

  lemma {:induction false} BeforeAsymmetric(u: seq<nat>, v: seq<nat>)
    requires Before(u, v)
    ensures !Before(v, u)
  {
    if u != [] && u[0] == v[0] { BeforeAsymmetric(u[1..], v[1..]); }
  }

  /** Where a walk and a later one part. */
  lemma {:induction false} BeforeParts(u: seq<nat>, v: seq<nat>) returns (n: nat)
    requires Before(u, v)
    ensures n <= |u| && n < |v| && u[..n] == v[..n] && (n < |u| ==> u[n] < v[n])
  {
    if u == [] || u[0] < v[0] {
      n := 0;
    } else {
      n := BeforeParts(u[1..], v[1..]);
      n := n + 1;
      assert u[..n] == [u[0]] + u[1..][..n - 1] && v[..n] == [v[0]] + v[1..][..n - 1];
    }
  }

  lemma {:induction false} BranchIsBefore(u: seq<nat>, n: nat, k: nat)
    requires n <= |u| && (n < |u| ==> u[n] < k)
    ensures Before(u, u[..n] + [k])
  {
    var v := u[..n] + [k];
    if n > 0 {
      BranchIsBefore(u[1..], n - 1, k);
      assert v[1..] == u[1..][..n - 1] + [k];
    }
  }

  lemma SortedIffWalksAreLess(g: TypeGraph, root: TypeId)
    requires Closed(g) && root in Types(g)
    ensures SortedUnique(Gathered(g, root), RecordOrder(g.registry)) <==> WalksAreLess(g, root)
  {
    hide Closed, Types, Gathered, RecordLess, IsSimpleWalk, IsWalk, End, Labels, PathString, Before;
    var ws := GatheredIsTheSimpleWalks(g, root);
    var records, less := Gathered(g, root), RecordOrder(g.registry);
    forall i, j | 0 <= i < |ws| && 0 <= j < |ws| ensures less(records[i], records[j]) <==> PairIsLess(g, root, ws[i], ws[j]) {
    }
    if SortedUnique(records, less) {
      forall u, v | IsSimpleWalk(g, root, u) && IsSimpleWalk(g, root, v) && Before(u, v) ensures PairIsLess(g, root, u, v) {
        assert u in ws && v in ws;
        var i :| 0 <= i < |ws| && ws[i] == u;
        var j :| 0 <= j < |ws| && ws[j] == v;
        BeforeAsymmetric(u, v);
        assert i < j;
      }
    }
    if WalksAreLess(g, root) {
      forall i, j | 0 <= i < j < |records| ensures less(records[i], records[j]) {
        assert ws[i] in ws && ws[j] in ws && Before(ws[i], ws[j]);
      }
    }
  }

  lemma GoingOn(g: TypeGraph, root: TypeId, w: seq<nat>, k: nat)
    requires GoesOn(g, root, w, k)
    ensures IsSimpleWalk(g, root, w + [k])
    ensures End(g, root, w + [k]) == Slot(g, End(g, root, w), k).value.target != End(g, root, w)
  {
    ExtendSimple(g, root, w, k);
    assert End(g, root, w) in Nodes(g, root, w);
  }

  /** The last step of a simple walk is a way for the rest to go on. */
  lemma LastStep(g: TypeGraph, root: TypeId, w: seq<nat>, n: nat)
    requires IsSimpleWalk(g, root, w) && n < |w|
    ensures GoesOn(g, root, w[..n], w[n]) && IsSimpleWalk(g, root, w[..n + 1])
    ensures w[..n] + [w[n]] == w[..n + 1]
  {
    hide NoDuplicates, Slot, Nodes, Labels;
    CutWalk(g, root, w, n);
    assert w[..n] + [w[n]] == w[..n + 1];
    GoingOn(g, root, w[..n], w[n]);
  }

  lemma {:induction false} LongerIsMore(g: TypeGraph, root: TypeId, w: seq<nat>, n: nat)
    requires StepsAscend(g, root) && IsSimpleWalk(g, root, w) && n < |w|
    ensures PairIsLess(g, root, w[..n], w)
    decreases |w|
  {
    hide IsSimpleWalk, IsWalk, End, Slot, TypeLess, StrictOrder;
    var m := |w| - 1;
    LastStep(g, root, w, m);
    LastStep(g, root, w, n);
    assert w[..m + 1] == w;
    assert GoesOn(g, root, w[..m], w[m]);
    StepIsMore(g, root, w[..m], w[m]);
    if n < m {
      LongerIsMore(g, root, w[..m], n);
      assert w[..m][..n] == w[..n];
      LessThrough(g, root, w[..n], w[..m], w);
    }
  }

  lemma StepIsMore(g: TypeGraph, root: TypeId, w: seq<nat>, k: nat)
    requires StepsAscend(g, root) && GoesOn(g, root, w, k)
    ensures PairIsLess(g, root, w, w + [k])
  {
    hide TypeLess;
    GoingOn(g, root, w, k);
  }

  lemma LessThrough(g: TypeGraph, root: TypeId, u: seq<nat>, v: seq<nat>, w: seq<nat>)
    requires PairIsLess(g, root, u, v) && PairIsLess(g, root, v, w)
    ensures PairIsLess(g, root, u, w)
  {
    hide IsWalk, RecordOf, RecordLess;
    RecordOrderIsStrict(g.registry);
    var less := RecordOrder(g.registry);
    assert less(RecordOf(g, root, u), RecordOf(g, root, v)) && less(RecordOf(g, root, v), RecordOf(g, root, w));
  }

  lemma AscendingWalksAreLess(g: TypeGraph, root: TypeId, u: seq<nat>, v: seq<nat>)
    requires StepsAscend(g, root) && BranchesAscend(g, root)
    requires IsSimpleWalk(g, root, u) && IsSimpleWalk(g, root, v) && Before(u, v)
    ensures PairIsLess(g, root, u, v)
  {
    hide StepsAscend, IsSimpleWalk, IsWalk, End, Slot, RecordLess, RecordOf, GoesOn, Before;
    var n := BeforeParts(u, v);
    LastStep(g, root, v, n);
    if n == |u| {
      assert u == v[..n];
      LongerIsMore(g, root, v, n);
    } else {
      assert IsLaterBranch(g, root, u, n, v[n]);
      assert PairIsLess(g, root, u, v[..n + 1]);
      if n + 1 < |v| {
        LongerIsMore(g, root, v, n + 1);
        LessThrough(g, root, u, v[..n + 1], v);
      } else {
        assert v[..n + 1] == v;
      }
    }
  }

  lemma LessWalksAscend(g: TypeGraph, root: TypeId)
    requires WalksAreLess(g, root)
    ensures StepsAscend(g, root) && BranchesAscend(g, root)
  {
    hide IsWalk, Before, TypeLess, Slot, End;
    forall w, k | GoesOn(g, root, w, k)
      ensures TypeLess(g.registry, End(g, root, w), Slot(g, End(g, root, w), k).value.target)
    {
      GoingOn(g, root, w, k);
      BranchIsBefore(w, |w|, k);
      assert w[..|w|] == w;
      assert PairIsLess(g, root, w, w + [k]);
    }
    forall u, n, k | IsLaterBranch(g, root, u, n, k) ensures BranchIsLess(g, root, u, n, k) {
      GoingOn(g, root, u[..n], k);
      BranchIsBefore(u, n, k);
      assert PairIsLess(g, root, u, u[..n] + [k]);
    }
  }

  /** The records of one gathering are sorted if and only if every step of a simple walk leads to a type
      registered later, and of any two branches the earlier is recorded with less than where the later
      one begins. */
  lemma OneRootSortedIff(g: TypeGraph, root: TypeId)
    requires Closed(g) && root in Types(g)
    ensures SortedUnique(Gathered(g, root), RecordOrder(g.registry)) <==> StepsAscend(g, root) && BranchesAscend(g, root)
  {
    SortedIffWalksAreLess(g, root);
    hide Gathered, SortedUnique, Closed, IsSimpleWalk, Before, StepsAscend, BranchesAscend, PairIsLess;
    if WalksAreLess(g, root) { LessWalksAscend(g, root); }
    if StepsAscend(g, root) && BranchesAscend(g, root) {
      forall u, v | IsSimpleWalk(g, root, u) && IsSimpleWalk(g, root, v) && Before(u, v) ensures PairIsLess(g, root, u, v) {
        AscendingWalksAreLess(g, root, u, v);
      }
    }
  }

  /** Everything that the earlier roots lead to was registered before `root`. */
  ghost predicate AllBefore(g: TypeGraph, roots: seq<TypeId>, root: TypeId) {
    forall i, t :: 0 <= i < |roots| && Reachable(g, roots[i], t) ==> TypeLess(g.registry, t, root)
  }

  ghost predicate RootsAscend(g: TypeGraph, roots: seq<TypeId>) {
    && (forall i :: 0 <= i < |roots| ==> StepsAscend(g, roots[i]) && BranchesAscend(g, roots[i]))
    && (forall i :: 0 <= i < |roots| ==> AllBefore(g, roots[..i], roots[i]))
  }

  lemma RootsAscendNext(g: TypeGraph, roots: seq<TypeId>, root: TypeId)
    ensures RootsAscend(g, roots + [root]) <==>
              RootsAscend(g, roots) && StepsAscend(g, root) && BranchesAscend(g, root) && AllBefore(g, roots, root)
  {
    hide StepsAscend, BranchesAscend, AllBefore;
    var all := roots + [root];
    assert all[|roots|] == root && all[..|roots|] == roots;
    assert forall i :: 0 <= i < |roots| ==> all[i] == roots[i] && all[..i] == roots[..i];
  }

  lemma BeforeRootIff(registry: Registry, r: (TypeId, string), root: TypeId)
    ensures RecordLess(registry, r, (root, "")) <==> TypeLess(registry, r.0, root)
  {
  }

  /** The records of a gathering come after those of earlier ones exactly if its root does. */
  lemma GatheringComesAfterIff(g: TypeGraph, roots: seq<TypeId>, root: TypeId)
    requires Closed(g) && root in Types(g) && forall i :: 0 <= i < |roots| ==> roots[i] in Types(g)
    requires SortedUnique(Gathered(g, root), RecordOrder(g.registry))
    ensures AllBefore(g, roots, root) <==>
              forall x, y :: x in GatheredAll(g, roots) && y in Gathered(g, root) ==> RecordLess(g.registry, x, y)
  {
    hide Closed, Types, Gathered, GatheredAll, TypeLess, RecordLess, Reachable;
    var less, last := RecordOrder(g.registry), Gathered(g, root);
    RootComesFirst(g, root);
    RecordOrderIsStrict(g.registry);
    assert last[0] in last;
    if AllBefore(g, roots, root) {
      forall x, y | x in GatheredAll(g, roots) && y in last ensures RecordLess(g.registry, x, y) {
        GatheredAllReaches(g, roots, x);
        BeforeRootIff(g.registry, x, root);
        var j :| 0 <= j < |last| && last[j] == y;
        assert less(x, last[0]) && (j > 0 ==> less(last[0], last[j]));
      }
    }
    if forall x, y :: x in GatheredAll(g, roots) && y in last ==> RecordLess(g.registry, x, y) {
      forall i, t | 0 <= i < |roots| && Reachable(g, roots[i], t) ensures TypeLess(g.registry, t, root) {
        var x := RecordOfReachable(g, roots, i, t);
        BeforeRootIff(g.registry, x, root);
      }
    }
  }

  lemma GatheredAllReaches(g: TypeGraph, roots: seq<TypeId>, r: (TypeId, string))
    requires Closed(g) && forall i :: 0 <= i < |roots| ==> roots[i] in Types(g)
    requires r in GatheredAll(g, roots)
    ensures exists i :: 0 <= i < |roots| && Reachable(g, roots[i], r.0)
  {
    hide Closed, Types, Gathered, GatheredAll, Reachable;
    InGatheredAll(g, roots, r);
    var i :| 0 <= i < |roots| && r in Gathered(g, roots[i]);
    var k :| 0 <= k < |Gathered(g, roots[i])| && Gathered(g, roots[i])[k] == r;
    assert HasPath(Gathered(g, roots[i]), r.0);
    RecordedIffReachable(g, roots[i], r.0);
  }

  lemma RecordOfReachable(g: TypeGraph, roots: seq<TypeId>, i: nat, t: TypeId) returns (r: (TypeId, string))
    requires Closed(g) && forall i :: 0 <= i < |roots| ==> roots[i] in Types(g)
    requires i < |roots| && Reachable(g, roots[i], t)
    ensures r in GatheredAll(g, roots) && r.0 == t
  {
    hide Closed, Types, Gathered, GatheredAll, Reachable;
    RecordedIffReachable(g, roots[i], t);
    var k :| 0 <= k < |Gathered(g, roots[i])| && Gathered(g, roots[i])[k].0 == t;
    r := Gathered(g, roots[i])[k];
    InGatheredAll(g, roots, r);
  }

  /** The list gathered from any roots is sorted, and then free of duplicates too, if and only if each
      gathering is, and every root was registered after all that the roots before it lead to. */
  lemma {:induction false} SortedIff(g: TypeGraph, roots: seq<TypeId>)
    requires Closed(g) && forall i :: 0 <= i < |roots| ==> roots[i] in Types(g)
    ensures SortedUnique(GatheredAll(g, roots), RecordOrder(g.registry)) <==> RootsAscend(g, roots)
  {
    hide Closed, Types, Gathered, SortedUnique, StepsAscend, BranchesAscend, AllBefore, RootsAscend;
    var less := RecordOrder(g.registry);
    if roots == [] {
      NoRootsAscend(g);
    } else {
      var front, last := roots[..|roots| - 1], roots[|roots| - 1];
      assert roots == front + [last];
      SortedIff(g, front);
      OneRootSortedIff(g, last);
      RootsAscendNext(g, front, last);
      SortedUniqueConcat(GatheredAll(g, front), Gathered(g, last), less);
      if SortedUnique(Gathered(g, last), less) { GatheringComesAfterIff(g, front, last); }
    }
  }

  lemma NoRootsAscend(g: TypeGraph)
    ensures RootsAscend(g, []) && SortedUnique([], RecordOrder(g.registry))
  {
  }

  /** The root is recorded before everything it leads to, so the records are unsorted whenever it
      leads to a type that was registered earlier. */
  lemma EarlierTypeUnsorts(g: TypeGraph, root: TypeId, t: TypeId)
    requires Closed(g) && root in Types(g) && Reachable(g, root, t) && TypeLess(g.registry, t, root)
    ensures !SortedUnique(Gathered(g, root), RecordOrder(g.registry))
  {
    RecordsUnfold(g, root, [], {});
    RecordedIffReachable(g, root, t);
    hide TypeLess, Gathered, Reachable;
    var records := Gathered(g, root);
    var i :| 0 <= i < |records| && records[i].0 == t;
    assert records[0] == (root, "") by { RootComesFirst(g, root); }
    TypeLessIsOrder(g.registry, root, t, root);
    TypeLessIsOrder(g.registry, t, root, t);
    assert i > 0;
    assert !RecordLess(g.registry, records[0], records[i]);
    assert !RecordOrder(g.registry)(records[0], records[i]);
  }

  lemma RootComesFirst(g: TypeGraph, root: TypeId)
    requires Closed(g) && root in Types(g)
    ensures |Gathered(g, root)| > 0 && Gathered(g, root)[0] == (root, "")
  {
    RecordsUnfold(g, root, [], {});
  }

  /** A type aggregated with one that was registered before it, for instance. */
  lemma AggregatedWithEarlierType(objectTid: TypeId, a: TypeId, b: TypeId)
    requires a != b
    ensures var g := TypeGraph(Registry(objectTid, [b, a], map[], {}), [(a, b)]);
            Closed(g) && a in Types(g) && !SortedUnique(Gathered(g, a), RecordOrder(g.registry))
  {
    var g := TypeGraph(Registry(objectTid, [b, a], map[], {}), [(a, b)]);
    assert a in g.registry.registered && b in g.registry.registered && Closed(g);
    assert [b, a][1..] == [a];
    assert IsLinkPath(g, [a, b]);
    assert [a, b][0] == a && [a, b][1] == b && Reachable(g, a, b);
    EarlierTypeUnsorts(g, a, b);
  }

  // ---------------------------------------------------------------------------
  // The list of unknown names
  // ---------------------------------------------------------------------------

  /** The unknown names that a sequence of calls records. */
  ghost function Unknowns(registry: Registry, calls: seq<(string, string)>): seq<string> {
    if calls == [] then [] else
      var last := calls[|calls| - 1];
      Unknowns(registry, calls[..|calls| - 1])
      + (match FirstUnknown(registry, last.0, last.1) case Some(name) => [name] case None => [])
  }

  /** Later calls miss names that come later. */
  ghost predicate MissInOrder(registry: Registry, calls: seq<(string, string)>) {
    forall i, j :: 0 <= i < j < |calls| ==> InOrder(registry, calls[i], calls[j])
  }

  ghost predicate InOrder(registry: Registry, c: (string, string), d: (string, string)) {
    var x, y := FirstUnknown(registry, c.0, c.1), FirstUnknown(registry, d.0, d.1);
    x.Some? && y.Some? ==> Less(x.value, y.value)
  }

  lemma {:induction false} UnknownsMembers(registry: Registry, calls: seq<(string, string)>, name: string)
    ensures name in Unknowns(registry, calls) <==>
            exists i :: 0 <= i < |calls| && FirstUnknown(registry, calls[i].0, calls[i].1) == Some(name)
  {
    hide FirstUnknown;
    if calls != [] {
      var front, last := calls[..|calls| - 1], calls[|calls| - 1];
      UnknownsMembers(registry, front, name);
      assert forall i :: 0 <= i < |front| ==> front[i] == calls[i];
      if i :| 0 <= i < |front| && FirstUnknown(registry, front[i].0, front[i].1) == Some(name) {
        assert FirstUnknown(registry, calls[i].0, calls[i].1) == Some(name);
      }
    }
  }

  /** GetNoTypeIds returns a sorted list without repetitions if and only if the names the calls missed
      came in strictly increasing order. */
  lemma {:induction false} UnknownsSortedIff(registry: Registry, calls: seq<(string, string)>)
    ensures SortedUnique(Unknowns(registry, calls), Less) <==> MissInOrder(registry, calls)
  {
    hide Less, FirstUnknown;
    if calls != [] {
      var front, last := calls[..|calls| - 1], calls[|calls| - 1];
      UnknownsSortedIff(registry, front);
      assert forall i :: 0 <= i < |front| ==> front[i] == calls[i];
      MissInOrderNext(registry, front, last);
      assert calls == front + [last];
      match FirstUnknown(registry, last.0, last.1)
      case None => assert Unknowns(registry, calls) == Unknowns(registry, front);
      case Some(name) =>
        SortedUniqueAppend(Unknowns(registry, front), name, Less);
        forall y ensures y in Unknowns(registry, front) <==>
                         exists i :: 0 <= i < |front| && FirstUnknown(registry, front[i].0, front[i].1) == Some(y)
        {
          UnknownsMembers(registry, front, y);
        }
    }
  }

  lemma MissInOrderNext(registry: Registry, calls: seq<(string, string)>, c: (string, string))
    ensures MissInOrder(registry, calls + [c]) <==>
            MissInOrder(registry, calls) && forall i :: 0 <= i < |calls| ==> InOrder(registry, calls[i], c)
  {
    hide InOrder;
    var all := calls + [c];
    assert forall i :: 0 <= i < |calls| ==> all[i] == calls[i];
    assert all[|calls|] == c;
  }

  /** Recording the same unknown name twice leaves it on the list twice. */
  lemma UnknownNameTwice(registry: Registry, name: string, other: string)
    requires TypeId(name) !in registry.registered
    ensures Unknowns(registry, [(name, other), (name, other)]) == [name, name]
    ensures !SortedUnique(Unknowns(registry, [(name, other), (name, other)]), Less)
  {
    var calls := [(name, other), (name, other)];
    assert calls[..1] == [(name, other)] && calls[..1][..0] == [];
    assert Unknowns(registry, calls[..1]) == [name];
    LessIrreflexive(name);
    assert [name, name][0] == [name, name][1];
  }

  /** The calls of the aggregation table, made on one object. */
  method RecordAll(info: StaticInformation, calls: seq<(string, string)>) returns (missing: seq<string>)
    requires info.Valid()
    modifies info`aggregates, info`noTids
    ensures info.Valid()
    ensures missing == old(info.noTids) + Unknowns(info.registry, calls)
  {
    for n := 0 to |calls|
      invariant info.Valid()
      invariant info.noTids == old(info.noTids) + Unknowns(info.registry, calls[..n])
    {
      hide FirstUnknown;
      assert calls[..n + 1][..n] == calls[..n];
      info.RecordAggregationInfo(calls[n].0, calls[n].1);
    }
    assert calls[..|calls|] == calls;
    missing := info.GetNoTypeIds();
  }
}
