/** The configuration-path gatherer: a depth-first enumeration of the simple paths of the
    type graph, kept acyclic by a stack of the types on the current path. */
module ConfigPaths {
  import opened Common
  import opened Ordering

  datatype TypeId = TypeId(name: string)

  datatype Checker = PointerChecker(pointee: TypeId) | ObjectVectorChecker(item: TypeId) | OtherChecker

  datatype Attribute = Attribute(name: string, checker: Checker)

  /** The TypeId registry: `childOf` holds the pairs (c, t) with c.IsChildOf(t). */
  datatype Registry = Registry(
    objectTid: TypeId,
    registered: seq<TypeId>,
    attributes: map<TypeId, seq<Attribute>>,
    childOf: set<(TypeId, TypeId)>)

  datatype TypeGraph = TypeGraph(registry: Registry, aggregates: seq<(TypeId, TypeId)>)

  /** One labelled step of a configuration path. */
  datatype Edge = Edge(item: string, target: TypeId)

  // ---------------------------------------------------------------------------
  // The graph
  // ---------------------------------------------------------------------------

  function Attributes(registry: Registry, tid: TypeId): seq<Attribute> {
    if tid in registry.attributes then registry.attributes[tid] else []
  }

  function AttributeEdge(registry: Registry, info: Attribute): Option<Edge> {
    match info.checker
    case PointerChecker(pointee) =>
      if pointee == registry.objectTid then None else Some(Edge(info.name, pointee))
    case ObjectVectorChecker(item) => Some(Edge(info.name + "/[i]", item))
    case OtherChecker => None
  }

  function ChildEdge(registry: Registry, tid: TypeId, child: TypeId): Option<Edge> {
    if (child, tid) in registry.childOf then Some(Edge("$" + child.name, child)) else None
  }

  function AggregateEdge(tid: TypeId, item: (TypeId, TypeId)): Option<Edge> {
    if item.1 == tid then Some(Edge("$" + item.0.name, item.0))
    else if item.0 == tid then Some(Edge("$" + item.1.name, item.1))
    else None
  }

  /** The places where `tid` may have an outgoing edge: its attributes, then every registered
      type (a possible child), then every recorded aggregation. */
  function SlotCount(g: TypeGraph, tid: TypeId): nat {
    |Attributes(g.registry, tid)| + |g.registry.registered| + |g.aggregates|
  }

  function Slot(g: TypeGraph, tid: TypeId, k: nat): Option<Edge> {
    var attributes, registered := Attributes(g.registry, tid), g.registry.registered;
    if k < |attributes| then AttributeEdge(g.registry, attributes[k])
    else if k < |attributes| + |registered| then ChildEdge(g.registry, tid, registered[k - |attributes|])
    else if k < SlotCount(g, tid) then AggregateEdge(tid, g.aggregates[k - |attributes| - |registered|])
    else None
  }

  ghost function Types(g: TypeGraph): set<TypeId> {
    Elements(g.registry.registered)
  }

  /** Every TypeId an attribute or an aggregation mentions is registered. */
  ghost predicate Closed(g: TypeGraph) {
    && (forall tid, info :: tid in g.registry.attributes && info in g.registry.attributes[tid] ==>
          && (info.checker.PointerChecker? ==> info.checker.pointee in Types(g))
          && (info.checker.ObjectVectorChecker? ==> info.checker.item in Types(g)))
    && (forall item :: item in g.aggregates ==> item.0 in Types(g) && item.1 in Types(g))
  }

  lemma SlotTargetRegistered(g: TypeGraph, tid: TypeId, k: nat)
    requires Closed(g) && Slot(g, tid, k).Some?
    ensures Slot(g, tid, k).value.target in Types(g)
  {
  }

  /** The path item of a slot: the attribute's name, marked as a container where it is one, or "$"
      and the name of the type it leads to. */
  lemma SlotItem(g: TypeGraph, tid: TypeId, k: nat)
    requires Slot(g, tid, k).Some?
    ensures var e, attributes := Slot(g, tid, k).value, Attributes(g.registry, tid);
            if k < |attributes| then
              e.item == attributes[k].name + (if attributes[k].checker.ObjectVectorChecker? then "/[i]" else "")
            else
              e.item == "$" + e.target.name
  {
  }

  /** What each slot stands for: the attributes first, then the children in the order in which the
      types are registered, then the aggregations in the order in which they were recorded. */
  lemma SlotStandsFor(g: TypeGraph, tid: TypeId, k: nat, b: TypeId)
    ensures var attributes, registered := Attributes(g.registry, tid), g.registry.registered;
            var leads := Slot(g, tid, k).Some? && Slot(g, tid, k).value.target == b;
            var i := k - |attributes|;
            var j := i - |registered|;
            && (k < |attributes| ==> (leads <==> AttributePointsTo(g.registry, attributes[k], b)))
            && (0 <= i < |registered| ==> (leads <==> registered[i] == b && (b, tid) in g.registry.childOf))
            && (0 <= j < |g.aggregates| ==> (leads <==> g.aggregates[j] == (b, tid) || g.aggregates[j] == (tid, b)))
            && (j >= |g.aggregates| ==> Slot(g, tid, k).None?)
  {
  }

  ghost predicate AttributePointsTo(registry: Registry, info: Attribute, b: TypeId) {
    || (info.checker == PointerChecker(b) && b != registry.objectTid)
    || info.checker == ObjectVectorChecker(b)
  }

  /** The relation the gatherer follows, said without slots: a followed pointer attribute (not to
      plain Object), an object-container attribute, a child type, an aggregation in either direction. */
  ghost predicate Linked(g: TypeGraph, a: TypeId, b: TypeId) {
    || (exists info :: info in Attributes(g.registry, a) && AttributePointsTo(g.registry, info, b))
    || (b in g.registry.registered && (b, a) in g.registry.childOf)
    || (a, b) in g.aggregates
    || (b, a) in g.aggregates
  }

  lemma LinkedIffSlot(g: TypeGraph, a: TypeId, b: TypeId)
    ensures Linked(g, a, b) <==> exists k: nat :: Slot(g, a, k).Some? && Slot(g, a, k).value.target == b
  {
    var attributes, registered := Attributes(g.registry, a), g.registry.registered;
    if Linked(g, a, b) {
      var k: nat;
      if info :| info in attributes && AttributePointsTo(g.registry, info, b) {
        k :| k < |attributes| && attributes[k] == info;
      } else if b in registered && (b, a) in g.registry.childOf {
        var i :| 0 <= i < |registered| && registered[i] == b;
        k := |attributes| + i;
      } else {
        var i :| 0 <= i < |g.aggregates| && (g.aggregates[i] == (a, b) || g.aggregates[i] == (b, a));
        k := |attributes| + |registered| + i;
      }
      assert Slot(g, a, k).Some? && Slot(g, a, k).value.target == b;
    }
    if k: nat :| Slot(g, a, k).Some? && Slot(g, a, k).value.target == b {
      if k < |attributes| {
        assert attributes[k] in attributes;
      } else if k < |attributes| + |registered| {
        assert registered[k - |attributes|] in registered;
      } else {
        assert g.aggregates[k - |attributes| - |registered|] in g.aggregates;
      }
    }
  }

  // ---------------------------------------------------------------------------
  // Walks
  // ---------------------------------------------------------------------------

  /** A walk is the sequence of slots taken; parallel edges are different walks. */
  ghost predicate IsWalk(g: TypeGraph, tid: TypeId, w: seq<nat>)
    decreases |w|
  {
    w != [] ==> Slot(g, tid, w[0]).Some? && IsWalk(g, Slot(g, tid, w[0]).value.target, w[1..])
  }

  ghost function Nodes(g: TypeGraph, tid: TypeId, w: seq<nat>): (nodes: seq<TypeId>)
    requires IsWalk(g, tid, w)
    ensures |nodes| == |w| + 1 && nodes[0] == tid
    decreases |w|
  {
    [tid] + if w == [] then [] else Nodes(g, Slot(g, tid, w[0]).value.target, w[1..])
  }

  ghost function Labels(g: TypeGraph, tid: TypeId, w: seq<nat>): (labels: seq<string>)
    requires IsWalk(g, tid, w)
    ensures |labels| == |w|
    decreases |w|
  {
    if w == [] then [] else
      var e := Slot(g, tid, w[0]).value;
      [e.item] + Labels(g, e.target, w[1..])
  }

  ghost function End(g: TypeGraph, tid: TypeId, w: seq<nat>): TypeId
    requires IsWalk(g, tid, w)
  {
    Nodes(g, tid, w)[|w|]
  }

  ghost predicate IsSimpleWalk(g: TypeGraph, tid: TypeId, w: seq<nat>) {
    IsWalk(g, tid, w) && NoDuplicates(Nodes(g, tid, w))
  }

  /** A simple walk that also stays clear of the types in `avoid`. */
  ghost predicate IsSimpleWalkAvoiding(g: TypeGraph, tid: TypeId, avoid: set<TypeId>, w: seq<nat>) {
    IsSimpleWalk(g, tid, w) && forall t :: t in Nodes(g, tid, w) ==> t !in avoid
  }

  lemma AvoidingUnfolds(g: TypeGraph, tid: TypeId, avoid: set<TypeId>, w: seq<nat>)
    ensures IsSimpleWalkAvoiding(g, tid, avoid, w) <==>
            && tid !in avoid
            && (w == [] || (Slot(g, tid, w[0]).Some? &&
                            IsSimpleWalkAvoiding(g, Slot(g, tid, w[0]).value.target, avoid + {tid}, w[1..])))
  {
    if w != [] && IsWalk(g, tid, w) {
      NoDuplicatesCons(tid, Nodes(g, Slot(g, tid, w[0]).value.target, w[1..]));
    }
  }

  /** The walks a gathering from `tid` makes, in the order it makes them. */
  ghost function Walks(g: TypeGraph, tid: TypeId, avoid: set<TypeId>): seq<seq<nat>>
    requires Closed(g) && tid in Types(g)
    decreases Types(g) - avoid, 0, 0
  {
    if tid in avoid then [] else [[]] + WalksThrough(g, tid, SlotCount(g, tid), avoid + {tid})
  }

  /** The walks that leave `tid` through one of its first `k` slots. */
  ghost function WalksThrough(g: TypeGraph, tid: TypeId, k: nat, avoid: set<TypeId>): seq<seq<nat>>
    requires Closed(g)
    decreases Types(g) - avoid, 1, k
  {
    if k == 0 then [] else WalksThrough(g, tid, k - 1, avoid) + WalksVia(g, tid, k - 1, avoid)
  }

  ghost function WalksVia(g: TypeGraph, tid: TypeId, k: nat, avoid: set<TypeId>): seq<seq<nat>>
    requires Closed(g)
    decreases Types(g) - avoid, 1, k
  {
    if Slot(g, tid, k).None? then []
    else
      SlotTargetRegistered(g, tid, k);
      Prefixed(k, Walks(g, Slot(g, tid, k).value.target, avoid))
  }

  ghost function Prefixed(k: nat, ws: seq<seq<nat>>): (r: seq<seq<nat>>)
    ensures |r| == |ws| && forall i :: 0 <= i < |ws| ==> r[i] == [k] + ws[i]
  {
    seq(|ws|, i requires 0 <= i < |ws| => [k] + ws[i])
  }

  lemma InPrefixed(k: nat, ws: seq<seq<nat>>, w: seq<nat>)
    ensures w in Prefixed(k, ws) <==> w != [] && w[0] == k && w[1..] in ws
  {
    if w != [] && w[0] == k && w[1..] in ws {
      var i :| 0 <= i < |ws| && ws[i] == w[1..];
      assert Prefixed(k, ws)[i] == [k] + w[1..] == w;
    }
    if w in Prefixed(k, ws) {
      var i :| 0 <= i < |ws| && Prefixed(k, ws)[i] == w;
      assert w[1..] == ws[i];
    }
  }

  /** Soundness and completeness: the gathered walks are exactly the simple walks. */
  lemma {:induction false} WalksAreTheSimpleWalks(g: TypeGraph, tid: TypeId, avoid: set<TypeId>, w: seq<nat>)
    requires Closed(g) && tid in Types(g)
    ensures w in Walks(g, tid, avoid) <==> IsSimpleWalkAvoiding(g, tid, avoid, w)
    decreases Types(g) - avoid, 0, 0
  {
    AvoidingUnfolds(g, tid, avoid, w);
    if tid !in avoid {
      ThroughAreTheSimpleWalks(g, tid, SlotCount(g, tid), avoid + {tid}, w);
    }
  }

  lemma {:induction false} ThroughAreTheSimpleWalks(g: TypeGraph, tid: TypeId, k: nat, avoid: set<TypeId>, w: seq<nat>)
    requires Closed(g)
    ensures w in WalksThrough(g, tid, k, avoid) <==>
            w != [] && w[0] < k && Slot(g, tid, w[0]).Some? &&
            IsSimpleWalkAvoiding(g, Slot(g, tid, w[0]).value.target, avoid, w[1..])
    decreases Types(g) - avoid, 1, k
  {
    if k > 0 {
      ThroughAreTheSimpleWalks(g, tid, k - 1, avoid, w);
      if Slot(g, tid, k - 1).Some? {
        SlotTargetRegistered(g, tid, k - 1);
        var target := Slot(g, tid, k - 1).value.target;
        InPrefixed(k - 1, Walks(g, target, avoid), w);
        if w != [] {
          WalksAreTheSimpleWalks(g, target, avoid, w[1..]);
        }
      }
    }
  }

  /** Depth-first order: a walk comes before its extensions, and lower slots come first. */
  ghost predicate Before(a: seq<nat>, b: seq<nat>) {
    b != [] && (a == [] || a[0] < b[0] || (a[0] == b[0] && Before(a[1..], b[1..])))
  }

  ghost predicate Ascending(ws: seq<seq<nat>>) {
    forall i, j :: 0 <= i < j < |ws| ==> Before(ws[i], ws[j])
  }

  lemma {:induction false} BeforeIrreflexive(a: seq<nat>)
    ensures !Before(a, a)
  {
    if a != [] { BeforeIrreflexive(a[1..]); }
  }

  /** No walk is gathered twice, and they come in strict depth-first order. */
  lemma {:induction false} WalksAscend(g: TypeGraph, tid: TypeId, avoid: set<TypeId>)
    requires Closed(g) && tid in Types(g)
    ensures Ascending(Walks(g, tid, avoid)) && NoDuplicates(Walks(g, tid, avoid))
    decreases Types(g) - avoid, 0, 0
  {
    if tid !in avoid {
      ThroughAscend(g, tid, SlotCount(g, tid), avoid + {tid});
    }
    var ws := Walks(g, tid, avoid);
    forall i, j | 0 <= i < j < |ws| ensures Before(ws[i], ws[j]) && ws[i] != ws[j] {
      var rest := WalksThrough(g, tid, SlotCount(g, tid), avoid + {tid});
      assert ws[j] == rest[j - 1] && rest[j - 1] in rest;
      BeforeIrreflexive(ws[i]);
    }
  }

  lemma {:induction false} ThroughAscend(g: TypeGraph, tid: TypeId, k: nat, avoid: set<TypeId>)
    requires Closed(g)
    ensures Ascending(WalksThrough(g, tid, k, avoid))
    ensures forall w :: w in WalksThrough(g, tid, k, avoid) ==> w != [] && w[0] < k
    decreases Types(g) - avoid, 1, k
  {
    if k > 0 {
      ThroughAscend(g, tid, k - 1, avoid);
      var before, via := WalksThrough(g, tid, k - 1, avoid), WalksVia(g, tid, k - 1, avoid);
      if Slot(g, tid, k - 1).Some? {
        SlotTargetRegistered(g, tid, k - 1);
        var ws := Walks(g, Slot(g, tid, k - 1).value.target, avoid);
        WalksAscend(g, Slot(g, tid, k - 1).value.target, avoid);
        forall i, j | 0 <= i < j < |via| ensures Before(via[i], via[j]) {
          assert via[i][1..] == ws[i] && via[j][1..] == ws[j];
        }
      }
      forall i, j | 0 <= i < j < |before + via| ensures Before((before + via)[i], (before + via)[j]) {
        if i < |before| <= j {
          assert before[i] in before;
        }
      }
    }
  }

  /** A configuration path has fewer steps than there are registered types. */
  lemma SimpleWalkIsShort(g: TypeGraph, tid: TypeId, w: seq<nat>)
    requires Closed(g) && tid in Types(g) && IsSimpleWalk(g, tid, w)
    ensures |w| < |Types(g)|
  {
    NodesRegistered(g, tid, w);
    PigeonHole(Nodes(g, tid, w), Types(g));
  }

  lemma {:induction false} NodesRegistered(g: TypeGraph, tid: TypeId, w: seq<nat>)
    requires Closed(g) && tid in Types(g) && IsWalk(g, tid, w)
    ensures forall t :: t in Nodes(g, tid, w) ==> t in Types(g)
    decreases |w|
  {
    if w != [] {
      SlotTargetRegistered(g, tid, w[0]);
      NodesRegistered(g, Slot(g, tid, w[0]).value.target, w[1..]);
    }
  }

  // ---------------------------------------------------------------------------
  // What is recorded
  // ---------------------------------------------------------------------------

  ghost function PathString(path: seq<string>): string {
    if path == [] then "" else PathString(path[..|path| - 1]) + "/" + path[|path| - 1]
  }

  /** Where the i-th item of a path begins in its string: each item before it takes its length and a slash. */
  ghost function ItemStart(path: seq<string>, i: nat): nat
    requires i <= |path|
  {
    if i == 0 then 0 else ItemStart(path, i - 1) + 1 + |path[i - 1]|
  }

  ghost predicate ReadsAt(r: string, path: seq<string>, i: nat)
    requires i < |path|
  {
    var from, to := ItemStart(path, i), ItemStart(path, i + 1);
    to <= |r| && r[from] == '/' && r[from + 1..to] == path[i]
  }

  /** The string is the items one after the other, each after one slash, and nothing else. */
  ghost predicate Reads(r: string, path: seq<string>) {
    |r| == ItemStart(path, |path|) && forall i :: 0 <= i < |path| ==> ReadsAt(r, path, i)
  }

  lemma {:induction false} ItemStartOfFront(path: seq<string>, i: nat)
    requires i < |path|
    ensures ItemStart(path, i) == ItemStart(path[..|path| - 1], i) <= ItemStart(path[..|path| - 1], |path| - 1)
  {
    ItemStartMonotone(path[..|path| - 1], i, |path| - 1);
    if i > 0 { ItemStartOfFront(path, i - 1); }
  }

  lemma {:induction false} ItemStartMonotone(path: seq<string>, i: nat, j: nat)
    requires i <= j <= |path|
    ensures ItemStart(path, i) <= ItemStart(path, j)
  {
    if i < j { ItemStartMonotone(path, i, j - 1); }
  }

  /** A path string, position by position. */
  lemma {:induction false} PathStringReads(path: seq<string>)
    ensures Reads(PathString(path), path)
  {
    if path != [] {
      var n := |path| - 1;
      var front := path[..n];
      PathStringReads(front);
      ItemStartOfFront(path, n);
      var r, s := PathString(path), PathString(front);
      forall i | 0 <= i < n ensures ReadsAt(r, path, i) {
        assert ReadsAt(s, front, i);
        ItemStartOfFront(path, i);
        if i + 1 < n { ItemStartOfFront(path, i + 1); }
        assert r[ItemStart(path, i) + 1..ItemStart(path, i + 1)] == s[ItemStart(path, i) + 1..ItemStart(path, i + 1)];
      }
    }
  }

  /** The record a walk leaves behind when it starts at `tid` with `path` already on the stack. */
  ghost function Entry(g: TypeGraph, tid: TypeId, path: seq<string>, w: seq<nat>): (TypeId, string) {
    if IsWalk(g, tid, w) then (End(g, tid, w), PathString(path + Labels(g, tid, w))) else (tid, "")
  }

  ghost function Entries(g: TypeGraph, tid: TypeId, path: seq<string>, ws: seq<seq<nat>>): (r: seq<(TypeId, string)>)
    ensures |r| == |ws| && forall i :: 0 <= i < |ws| ==> r[i] == Entry(g, tid, path, ws[i])
  {
    seq(|ws|, i requires 0 <= i < |ws| => Entry(g, tid, path, ws[i]))
  }

  /** Entering slot `k` pushes its label. */
  lemma EntriesVia(g: TypeGraph, tid: TypeId, path: seq<string>, k: nat, ws: seq<seq<nat>>)
    requires Slot(g, tid, k).Some?
    requires forall w :: w in ws ==> IsWalk(g, Slot(g, tid, k).value.target, w)
    ensures Entries(g, tid, path, Prefixed(k, ws))
         == Entries(g, Slot(g, tid, k).value.target, path + [Slot(g, tid, k).value.item], ws)
  {
    var e := Slot(g, tid, k).value;
    forall i | 0 <= i < |ws|
      ensures Entry(g, tid, path, [k] + ws[i]) == Entry(g, e.target, path + [e.item], ws[i])
    {
      var w := [k] + ws[i];
      assert w[1..] == ws[i] && ws[i] in ws;
      assert path + Labels(g, tid, w) == path + [e.item] + Labels(g, e.target, ws[i]);
      assert Nodes(g, tid, w)[|w|] == Nodes(g, e.target, ws[i])[|ws[i]|];
    }
  }

  /** The records made while going through the first `k` slots of `tid`. */
  ghost function RecordsThrough(g: TypeGraph, tid: TypeId, path: seq<string>, k: nat, avoid: set<TypeId>)
    : seq<(TypeId, string)>
    requires Closed(g)
  {
    Entries(g, tid, path, WalksThrough(g, tid, k, avoid))
  }

  /** The records made by a gathering from `tid` with `path` on the stack. */
  ghost function Records(g: TypeGraph, tid: TypeId, path: seq<string>, avoid: set<TypeId>): seq<(TypeId, string)>
    requires Closed(g) && tid in Types(g)
  {
    Entries(g, tid, path, Walks(g, tid, avoid))
  }

  lemma RecordsUnfold(g: TypeGraph, tid: TypeId, path: seq<string>, avoid: set<TypeId>)
    requires Closed(g) && tid in Types(g)
    ensures tid in avoid ==> Records(g, tid, path, avoid) == []
    ensures RecordsThrough(g, tid, path, 0, avoid + {tid}) == []
    ensures tid !in avoid ==>
              Records(g, tid, path, avoid)
              == [(tid, PathString(path))] + RecordsThrough(g, tid, path, SlotCount(g, tid), avoid + {tid})
  {
    assert path + Labels(g, tid, []) == path;
  }

  /** What descending through slot `k` adds to the records of the slots before it. */
  lemma RecordsThroughNext(g: TypeGraph, tid: TypeId, path: seq<string>, k: nat, avoid: set<TypeId>)
    requires Closed(g)
    ensures Slot(g, tid, k).None? ==>
              RecordsThrough(g, tid, path, k + 1, avoid) == RecordsThrough(g, tid, path, k, avoid)
    ensures Slot(g, tid, k).Some? ==>
              var e := Slot(g, tid, k).value;
              e.target in Types(g) &&
              RecordsThrough(g, tid, path, k + 1, avoid)
              == RecordsThrough(g, tid, path, k, avoid) + Records(g, e.target, path + [e.item], avoid)
  {
    var before, via := WalksThrough(g, tid, k, avoid), WalksVia(g, tid, k, avoid);
    assert WalksThrough(g, tid, k + 1, avoid) == before + via;
    assert Entries(g, tid, path, before + via) == Entries(g, tid, path, before) + Entries(g, tid, path, via);
    if Slot(g, tid, k).Some? {
      var e := Slot(g, tid, k).value;
      SlotTargetRegistered(g, tid, k);
      WalksAreWalks(g, e.target, avoid);
      EntriesVia(g, tid, path, k, Walks(g, e.target, avoid));
    }
  }

  lemma WalksAreWalks(g: TypeGraph, tid: TypeId, avoid: set<TypeId>)
    requires Closed(g) && tid in Types(g)
    ensures forall w :: w in Walks(g, tid, avoid) ==> IsWalk(g, tid, w)
  {
    forall w | w in Walks(g, tid, avoid) ensures IsWalk(g, tid, w) {
      WalksAreTheSimpleWalks(g, tid, avoid, w);
    }
  }

  /** Everything one complete gathering from `root` records. */
  ghost function Gathered(g: TypeGraph, root: TypeId): seq<(TypeId, string)>
    requires Closed(g) && root in Types(g)
  {
    Records(g, root, [], {})
  }

  /** The enumeration theorem: one record per simple walk, none for anything else. The walks behind
      the records are distinct, in depth-first order, and are all the simple walks there are. */
  lemma GatheredIsTheSimpleWalks(g: TypeGraph, root: TypeId) returns (ws: seq<seq<nat>>)
    requires Closed(g) && root in Types(g)
    ensures Ascending(ws) && NoDuplicates(ws)
    ensures forall w :: w in ws <==> IsSimpleWalk(g, root, w)
    ensures |Gathered(g, root)| == |ws|
    ensures forall i :: 0 <= i < |ws| ==>
              (IsWalk(g, root, ws[i]) && Gathered(g, root)[i] == (End(g, root, ws[i]), PathString(Labels(g, root, ws[i]))))
    ensures forall i :: 0 <= i < |ws| ==> IsWalk(g, root, ws[i]) && Reads(Gathered(g, root)[i].1, Labels(g, root, ws[i]))
  {
    ws := Walks(g, root, {});
    WalksAscend(g, root, {});
    forall w ensures w in ws <==> IsSimpleWalk(g, root, w) {
      WalksAreTheSimpleWalks(g, root, {}, w);
    }
    forall i | 0 <= i < |ws|
      ensures IsWalk(g, root, ws[i]) && Gathered(g, root)[i] == (End(g, root, ws[i]), PathString(Labels(g, root, ws[i])))
      ensures Reads(Gathered(g, root)[i].1, Labels(g, root, ws[i]))
    {
      assert ws[i] in ws;
      PathStringReads(Labels(g, root, ws[i]));
      assert [] + Labels(g, root, ws[i]) == Labels(g, root, ws[i]);
    }
  }

  // ---------------------------------------------------------------------------
  // Reachability
  // ---------------------------------------------------------------------------

  ghost predicate IsLinkPath(g: TypeGraph, path: seq<TypeId>) {
    path != [] && forall i :: 0 <= i < |path| - 1 ==> Linked(g, path[i], path[i + 1])
  }

  ghost predicate Reachable(g: TypeGraph, root: TypeId, t: TypeId) {
    exists path :: IsLinkPath(g, path) && path[0] == root && path[|path| - 1] == t
  }

  lemma {:induction false} WalkIsLinkPath(g: TypeGraph, tid: TypeId, w: seq<nat>)
    requires IsWalk(g, tid, w)
    ensures IsLinkPath(g, Nodes(g, tid, w))
    decreases |w|
  {
    if w != [] {
      var target := Slot(g, tid, w[0]).value.target;
      WalkIsLinkPath(g, target, w[1..]);
      LinkedIffSlot(g, tid, target);
      var rest := Nodes(g, target, w[1..]);
      assert forall i :: 0 < i < |w| ==> Nodes(g, tid, w)[i] == rest[i - 1] && Nodes(g, tid, w)[i + 1] == rest[i];
    }
  }

  /** Cutting a walk short after `n` steps keeps its first nodes. */
  lemma {:induction false} WalkPrefix(g: TypeGraph, tid: TypeId, w: seq<nat>, n: nat)
    requires IsWalk(g, tid, w) && n <= |w|
    ensures IsWalk(g, tid, w[..n]) && Nodes(g, tid, w[..n]) == Nodes(g, tid, w)[..n + 1]
    decreases |w|
  {
    if n > 0 {
      WalkPrefix(g, Slot(g, tid, w[0]).value.target, w[1..], n - 1);
      assert w[..n][1..] == w[1..][..n - 1];
    }
  }

  lemma {:induction false} WalkExtend(g: TypeGraph, tid: TypeId, w: seq<nat>, k: nat)
    requires IsWalk(g, tid, w) && Slot(g, End(g, tid, w), k).Some?
    ensures IsWalk(g, tid, w + [k])
    ensures Nodes(g, tid, w + [k]) == Nodes(g, tid, w) + [Slot(g, End(g, tid, w), k).value.target]
    decreases |w|
  {
    if w == [] {
      assert (w + [k])[1..] == [];
    } else {
      WalkExtend(g, Slot(g, tid, w[0]).value.target, w[1..], k);
      assert (w + [k])[1..] == w[1..] + [k];
    }
  }

  /** Loops can be cut out: what a link path reaches, a simple walk reaches. */
  lemma {:induction false} SimpleWalkTo(g: TypeGraph, path: seq<TypeId>) returns (w: seq<nat>)
    requires IsLinkPath(g, path)
    ensures IsSimpleWalk(g, path[0], w) && End(g, path[0], w) == path[|path| - 1]
    decreases |path|
  {
    if |path| == 1 {
      w := [];
    } else {
      var root, t := path[0], path[|path| - 1];
      var front := path[..|path| - 1];
      w := SimpleWalkTo(g, front);
      assert Linked(g, path[|path| - 2], path[|path| - 2 + 1]);
      var nodes := Nodes(g, root, w);
      if n: nat :| n < |nodes| && nodes[n] == t {
        WalkPrefix(g, root, w, n);
        w := w[..n];
      } else {
        LinkedIffSlot(g, End(g, root, w), t);
        var k: nat :| Slot(g, End(g, root, w), k).Some? && Slot(g, End(g, root, w), k).value.target == t;
        WalkExtend(g, root, w, k);
        w := w + [k];
      }
    }
  }

  ghost predicate HasPath(output: seq<(TypeId, string)>, t: TypeId) {
    exists i :: 0 <= i < |output| && output[i].0 == t
  }

  lemma RecordedIsReachable(g: TypeGraph, root: TypeId, t: TypeId)
    requires Closed(g) && root in Types(g) && HasPath(Gathered(g, root), t)
    ensures Reachable(g, root, t)
  {
    var ws := GatheredIsTheSimpleWalks(g, root);
    var i :| 0 <= i < |Gathered(g, root)| && Gathered(g, root)[i].0 == t;
    WalkIsLinkPath(g, root, ws[i]);
    var nodes := Nodes(g, root, ws[i]);
    assert IsLinkPath(g, nodes) && nodes[0] == root && nodes[|nodes| - 1] == t;
  }

  lemma ReachableIsRecorded(g: TypeGraph, root: TypeId, t: TypeId)
    requires Closed(g) && root in Types(g) && Reachable(g, root, t)
    ensures HasPath(Gathered(g, root), t)
  {
    var ws := GatheredIsTheSimpleWalks(g, root);
    var path :| IsLinkPath(g, path) && path[0] == root && path[|path| - 1] == t;
    var w := SimpleWalkTo(g, path);
    assert w in ws;
    var i :| 0 <= i < |ws| && ws[i] == w;
    assert Gathered(g, root)[i].0 == t;
  }

  /** A type gets at least one configuration path exactly when it can be reached from the root. */
  lemma RecordedIffReachable(g: TypeGraph, root: TypeId, t: TypeId)
    requires Closed(g) && root in Types(g)
    ensures HasPath(Gathered(g, root), t) <==> Reachable(g, root, t)
  {
    hide HasPath, Gathered, Reachable;
    if HasPath(Gathered(g, root), t) { RecordedIsReachable(g, root, t); }
    if Reachable(g, root, t) { ReachableIsRecorded(g, root, t); }
  }

  // ---------------------------------------------------------------------------
  // The class
  // ---------------------------------------------------------------------------

  ghost function PathsOf(output: seq<(TypeId, string)>, tid: TypeId): seq<string> {
    if output == [] then [] else
      var front, last := output[..|output| - 1], output[|output| - 1];
      PathsOf(front, tid) + if last.0 == tid then [last.1] else []
  }

  lemma {:induction false} PathsOfMembers(output: seq<(TypeId, string)>, tid: TypeId, path: string)
    ensures path in PathsOf(output, tid) <==> (tid, path) in output
  {
    if output != [] {
      PathsOfMembers(output[..|output| - 1], tid, path);
      assert output == output[..|output| - 1] + [output[|output| - 1]];
    }
  }

  /** The paths of a type are those of its records, one for each, in the order of the records. */
  lemma {:induction false} PathsOfInOrder(output: seq<(TypeId, string)>, tid: TypeId) returns (at: seq<nat>)
    ensures Positions(at, |output|) && forall i: nat :: i in at <==> i < |output| && output[i].0 == tid
    ensures |PathsOf(output, tid)| == |at| && forall k :: 0 <= k < |at| ==> PathsOf(output, tid)[k] == output[at[k]].1
  {
    at := [];
    if output != [] {
      var n := |output| - 1;
      at := PathsOfInOrder(output[..n], tid);
      PositionsNext(at, n);
      if output[n].0 == tid { at := at + [n]; }
    }
  }

  lemma PathsOfEmptyIff(output: seq<(TypeId, string)>, tid: TypeId)
    ensures PathsOf(output, tid) != [] <==> HasPath(output, tid)
  {
    if PathsOf(output, tid) != [] {
      PathsOfMembers(output, tid, PathsOf(output, tid)[0]);
    }
    forall i | 0 <= i < |output| && output[i].0 == tid ensures PathsOf(output, tid) != [] {
      PathsOfMembers(output, tid, output[i].1);
    }
  }

  /** Registration numbers, which TypeIds are ordered by; unregistered types come last. */
  function Position(registered: seq<TypeId>, t: TypeId): nat {
    if registered == [] || registered[0] == t then 0 else 1 + Position(registered[1..], t)
  }

  lemma {:induction false} PositionIs(registered: seq<TypeId>, t: TypeId)
    requires t in registered
    ensures var i := Position(registered, t); i < |registered| && registered[i] == t && t !in registered[..i]
  {
    if registered[0] != t {
      assert registered == [registered[0]] + registered[1..];
      PositionIs(registered[1..], t);
      var i := Position(registered[1..], t);
      assert registered[..i + 1] == [registered[0]] + registered[1..][..i];
    }
  }

  predicate TypeLess(registry: Registry, a: TypeId, b: TypeId) {
    var i, j := Position(registry.registered, a), Position(registry.registered, b);
    i < j || (i == j && Less(a.name, b.name))
  }

  /** The order of std::pair<TypeId, std::string>. */
  predicate RecordLess(registry: Registry, r: (TypeId, string), s: (TypeId, string)) {
    TypeLess(registry, r.0, s.0) || (r.0 == s.0 && Less(r.1, s.1))
  }

  function RecordOrder(registry: Registry): ((TypeId, string), (TypeId, string)) -> bool {
    (r, s) => RecordLess(registry, r, s)
  }

  lemma TypeLessIsOrder(registry: Registry, a: TypeId, b: TypeId, c: TypeId)
    ensures !TypeLess(registry, a, a)
    ensures a == b || TypeLess(registry, a, b) || TypeLess(registry, b, a)
    ensures TypeLess(registry, a, b) && TypeLess(registry, b, c) ==> TypeLess(registry, a, c)
  {
    LessIsStrictOrder();
    hide Position, Less;
  }

  lemma RecordOrderIsStrict(registry: Registry)
    ensures StrictOrder(RecordOrder(registry))
  {
    LessIsStrictOrder();
    hide TypeLess, Less;
    var less := RecordOrder(registry);
    forall r, s, t
      ensures !less(r, r) && (r == s || less(r, s) || less(s, r)) && (less(r, s) && less(s, t) ==> less(r, t))
    {
      TypeLessIsOrder(registry, r.0, s.0, t.0);
      TypeLessIsOrder(registry, t.0, s.0, r.0);
    }
  }

  /** The first name of a recorded pair that no registered type has. */
  function FirstUnknown(registry: Registry, a: string, b: string): Option<string> {
    if TypeId(a) !in registry.registered then Some(a)
    else if TypeId(b) !in registry.registered then Some(b)
    else None
  }

  class StaticInformation {
    const registry: Registry
    var output: seq<(TypeId, string)>
    var currentPath: seq<string>
    var alreadyProcessed: seq<TypeId>
    var aggregates: seq<(TypeId, TypeId)>
    var noTids: seq<string>

    ghost function Graph(): TypeGraph reads this`aggregates {
      TypeGraph(registry, aggregates)
    }

    /** Between public calls both stacks are empty. */
    ghost predicate Valid() reads this {
      Closed(Graph()) && currentPath == [] && alreadyProcessed == []
    }

    constructor (registry: Registry)
      requires Closed(TypeGraph(registry, []))
      ensures Valid() && this.registry == registry
      ensures output == [] && aggregates == [] && noTids == []
    {
      this.registry := registry;
      output, currentPath, alreadyProcessed, aggregates, noTids := [], [], [], [], [];
    }

    /** TypeId::LookupByNameFailSafe */
    method LookupByName(name: string) returns (r: Option<TypeId>)
      ensures r.Some? <==> TypeId(name) in registry.registered
      ensures r.Some? ==> r.value == TypeId(name)
    {
      r := if TypeId(name) in registry.registered then Some(TypeId(name)) else None;
    }

    /** Two known names are recorded as one pair; otherwise only the first unknown name is kept. */
    method RecordAggregationInfo(a: string, b: string)
      requires Valid()
      modifies this`aggregates, this`noTids
      ensures Valid()
      ensures match FirstUnknown(registry, a, b)
              case None => aggregates == old(aggregates) + [(TypeId(a), TypeId(b))] && noTids == old(noTids)
              case Some(name) => aggregates == old(aggregates) && noTids == old(noTids) + [name]
      ensures TypeId(a) in registry.registered && TypeId(b) in registry.registered ==>
                aggregates == old(aggregates) + [(TypeId(a), TypeId(b))] && noTids == old(noTids)
      ensures TypeId(a) !in registry.registered ==> aggregates == old(aggregates) && noTids == old(noTids) + [a]
      ensures TypeId(a) in registry.registered && TypeId(b) !in registry.registered ==>
                aggregates == old(aggregates) && noTids == old(noTids) + [b]
    {
      var aTid := LookupByName(a);
      if aTid.None? {
        noTids := noTids + [a];
        return;
      }
      var bTid := LookupByName(b);
      if bTid.None? {
        noTids := noTids + [b];
        return;
      }
      aggregates := aggregates + [(aTid.value, bTid.value)];
      assert Types(Graph()) == old(Types(Graph()));
    }

    method GetCurrentPath() returns (r: string)
      ensures r == PathString(currentPath) && Reads(r, currentPath)
    {
      PathStringReads(currentPath);
      r := "";
      for i := 0 to |currentPath|
        invariant r == PathString(currentPath[..i])
      {
        assert currentPath[..i + 1][..i] == currentPath[..i];
        r := r + "/" + currentPath[i];
      }
      assert currentPath[..|currentPath|] == currentPath;
    }

    method RecordOutput(tid: TypeId)
      modifies this`output
      ensures output == old(output) + [(tid, PathString(currentPath))]
    {
      var path := GetCurrentPath();
      output := output + [(tid, path)];
    }

    method HasAlreadyBeenProcessed(tid: TypeId) returns (r: bool)
      ensures r <==> tid in alreadyProcessed
    {
      for i := 0 to |alreadyProcessed|
        invariant tid !in alreadyProcessed[..i]
      {
        if alreadyProcessed[i] == tid {
          return true;
        }
      }
      return false;
    }

    method Get(tid: TypeId) returns (paths: seq<string>)
      ensures paths == PathsOf(output, tid)
    {
      paths := [];
      for i := 0 to |output|
        invariant paths == PathsOf(output[..i], tid)
      {
        assert output[..i + 1][..i] == output[..i];
        if output[i].0 == tid {
          paths := paths + [output[i].1];
        }
      }
      assert output[..|output|] == output;
    }

    /** Goes through one slot: if there is an edge, push, gather, pop. */
    method Follow(tid: TypeId, slot: Option<Edge>, ghost k: nat, ghost base: seq<(TypeId, string)>)
      requires Closed(Graph()) && tid in Types(Graph()) && tid !in alreadyProcessed
      requires slot == Slot(Graph(), tid, k)
      requires output == base + RecordsThrough(Graph(), tid, currentPath, k, Elements(alreadyProcessed) + {tid})
      modifies this`output, this`currentPath, this`alreadyProcessed
      ensures currentPath == old(currentPath) && alreadyProcessed == old(alreadyProcessed)
      ensures output == base + RecordsThrough(Graph(), tid, currentPath, k + 1, Elements(alreadyProcessed) + {tid})
      decreases Types(Graph()) - Elements(alreadyProcessed), 0
    {
      hide RecordsThrough, Records, Slot, Closed;
      RecordsThroughNext(Graph(), tid, currentPath, k, Elements(alreadyProcessed) + {tid});
      match slot
      case None =>
      case Some(e) =>
        currentPath := currentPath + [e.item];
        alreadyProcessed := alreadyProcessed + [tid];
        assert Elements(alreadyProcessed) == old(Elements(alreadyProcessed)) + {tid};
        DoGather(e.target);
        alreadyProcessed := alreadyProcessed[..|alreadyProcessed| - 1];
        currentPath := currentPath[..|currentPath| - 1];
    }

    method DoGather(tid: TypeId)
      requires Closed(Graph()) && tid in Types(Graph())
      modifies this`output, this`currentPath, this`alreadyProcessed
      ensures currentPath == old(currentPath) && alreadyProcessed == old(alreadyProcessed)
      ensures output == old(output) + Records(Graph(), tid, currentPath, Elements(alreadyProcessed))
      decreases Types(Graph()) - Elements(alreadyProcessed), 1
    {
      hide RecordsThrough, Records, Closed;
      ghost var g, avoid := Graph(), Elements(alreadyProcessed) + {tid};
      RecordsUnfold(g, tid, currentPath, Elements(alreadyProcessed));
      var seen := HasAlreadyBeenProcessed(tid);
      if seen {
        return;
      }
      RecordOutput(tid);
      ghost var base := output;
      var attributes := Attributes(registry, tid);
      for i := 0 to |attributes|
        invariant currentPath == old(currentPath) && alreadyProcessed == old(alreadyProcessed)
        invariant output == base + RecordsThrough(g, tid, currentPath, i, avoid)
      {
        Follow(tid, AttributeEdge(registry, attributes[i]), i, base);
      }
      for j := 0 to |registry.registered|
        invariant currentPath == old(currentPath) && alreadyProcessed == old(alreadyProcessed)
        invariant output == base + RecordsThrough(g, tid, currentPath, |attributes| + j, avoid)
      {
        Follow(tid, ChildEdge(registry, tid, registry.registered[j]), |attributes| + j, base);
      }
      ghost var first := |attributes| + |registry.registered|;
      for m := 0 to |aggregates|
        invariant currentPath == old(currentPath) && alreadyProcessed == old(alreadyProcessed)
        invariant output == base + RecordsThrough(g, tid, currentPath, first + m, avoid)
      {
        Follow(tid, AggregateEdge(tid, aggregates[m]), first + m, base);
      }
    }

    /** The list is returned as recorded: Uniquefy sorts and shortens a copy. */
    method GetNoTypeIds() returns (r: seq<string>)
      ensures r == noTids
    {
      LessIsStrictOrder();
      var copy := Uniquefy(noTids, Less);
      r := noTids;
    }

    /** One complete gathering, and the by-value Uniquefy that follows it. */
    method Gather(tid: TypeId)
      requires Valid() && tid in Types(Graph())
      modifies this`output, this`currentPath, this`alreadyProcessed
      ensures Valid()
      ensures output == old(output) + Gathered(Graph(), tid)
    {
      hide StrictOrder, RecordOrder;
      assert Elements(alreadyProcessed) == {};
      DoGather(tid);
      RecordOrderIsStrict(registry);
      var copy := Uniquefy(output, RecordOrder(registry));
    }
  }

  /** Everything gathered from a list of roots, one after the other. */
  ghost function GatheredAll(g: TypeGraph, roots: seq<TypeId>): seq<(TypeId, string)>
    requires Closed(g) && forall i :: 0 <= i < |roots| ==> roots[i] in Types(g)
  {
    if roots == [] then [] else GatheredAll(g, roots[..|roots| - 1]) + Gathered(g, roots[|roots| - 1])
  }

  ghost predicate ReachableFromAny(g: TypeGraph, roots: seq<TypeId>, t: TypeId) {
    exists i :: 0 <= i < |roots| && Reachable(g, roots[i], t)
  }

  lemma HasPathConcat(a: seq<(TypeId, string)>, b: seq<(TypeId, string)>, t: TypeId)
    ensures HasPath(a + b, t) <==> HasPath(a, t) || HasPath(b, t)
  {
    forall i | 0 <= i < |a| ensures (a + b)[i] == a[i] {}
    forall i | 0 <= i < |b| ensures (a + b)[|a| + i] == b[i] {}
    if HasPath(b, t) {
      var i :| 0 <= i < |b| && b[i].0 == t;
      assert (a + b)[|a| + i].0 == t;
    }
    if HasPath(a, t) {
      var i :| 0 <= i < |a| && a[i].0 == t;
      assert (a + b)[i].0 == t;
    }
  }

  /** A type gets a path from a list of roots exactly when one of them reaches it. */
  lemma {:induction false} GatheredAllIffReachable(g: TypeGraph, roots: seq<TypeId>, t: TypeId)
    requires Closed(g) && forall i :: 0 <= i < |roots| ==> roots[i] in Types(g)
    ensures HasPath(GatheredAll(g, roots), t) <==> ReachableFromAny(g, roots, t)
  {
    hide Closed, Types, HasPath, Gathered, Reachable;
    if roots == [] {
      EmptyHasNoPath(t);
    } else {
      var front, last := roots[..|roots| - 1], roots[|roots| - 1];
      GatheredAllIffReachable(g, front, t);
      RecordedIffReachable(g, last, t);
      HasPathConcat(GatheredAll(g, front), Gathered(g, last), t);
      if i :| 0 <= i < |front| && Reachable(g, front[i], t) { assert Reachable(g, roots[i], t); }
      if Reachable(g, last, t) { assert Reachable(g, roots[|roots| - 1], t); }
    }
  }

  lemma EmptyHasNoPath(t: TypeId)
    ensures !HasPath([], t)
  {
  }

  /** The program's own loop: gather every root object's type into one object. */
  method GatherAll(info: StaticInformation, roots: seq<TypeId>)
    requires info.Valid() && forall i :: 0 <= i < |roots| ==> roots[i] in Types(info.Graph())
    modifies info`output, info`currentPath, info`alreadyProcessed
    ensures info.Valid()
    ensures info.output == old(info.output) + GatheredAll(info.Graph(), roots)
  {
    hide Gathered, Closed, Types;
    ghost var g := info.Graph();
    for n := 0 to |roots|
      invariant info.Valid()
      invariant info.output == old(info.output) + GatheredAll(g, roots[..n])
    {
      assert roots[..n + 1][..n] == roots[..n];
      info.Gather(roots[n]);
    }
    assert roots[..|roots|] == roots;
  }

  /** After any roots have been gathered, Get finds a path for a type exactly when it had one before
      or some gathered root reaches it. */
  method GatherAndGet(info: StaticInformation, roots: seq<TypeId>, t: TypeId) returns (paths: seq<string>)
    requires info.Valid() && forall i :: 0 <= i < |roots| ==> roots[i] in Types(info.Graph())
    modifies info`output, info`currentPath, info`alreadyProcessed
    ensures paths != [] <==> HasPath(old(info.output), t) || ReachableFromAny(info.Graph(), roots, t)
  {
    hide *;
    assert Closed(info.Graph()) by { ValidIsClosed(info); }
    GatherAll(info, roots);
    paths := info.Get(t);
    PathsOfEmptyIff(info.output, t);
    HasPathConcat(old(info.output), GatheredAll(info.Graph(), roots), t);
    GatheredAllIffReachable(info.Graph(), roots, t);
  }

  lemma ValidIsClosed(info: StaticInformation)
    requires info.Valid()
    ensures Closed(info.Graph())
  {
  }
}
