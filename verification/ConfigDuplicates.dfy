/** When the list of configuration paths holds the same record twice. The walks of one gathering are
    distinct, but two walks from one root, or from two roots, can read the same; this is exactly when. */
module ConfigDuplicates {
  import opened Common
  import opened ConfigPaths

  // ---------------------------------------------------------------------------
  // Reading a path string back
  // ---------------------------------------------------------------------------

  ghost predicate NoSlash(s: string) {
    forall i :: 0 <= i < |s| ==> s[i] != '/'
  }

  /** A name that can be told apart from the container mark. */
  ghost predicate IsName(s: string) {
    NoSlash(s) && s != "[i]"
  }

  ghost predicate IsContainerOf(s: string, name: string) {
    IsName(name) && s == name + "/" + "[i]"
  }

  /** What one step of a walk pushes on the path. */
  ghost predicate IsItem(s: string) {
    IsName(s) || exists name :: IsContainerOf(s, name)
  }

  ghost predicate AllItems(path: seq<string>) {
    forall i :: 0 <= i < |path| ==> IsItem(path[i])
  }

  /** The last slash comes no later in one reading than in the other. */
  lemma SlashNoLater(a: string, x: string, b: string, y: string)
    requires a + "/" + x == b + "/" + y && NoSlash(y)
    ensures |a| <= |b|
  {
    var s := b + "/" + y;
    assert (a + "/" + x)[|a|] == '/';
    forall i | |b| < i < |s| ensures s[i] != '/' {
      assert s[i] == y[i - |b| - 1];
    }
  }

  /** A string splits at its last slash in one way only. */
  lemma LastSlash(a: string, x: string, b: string, y: string)
    requires a + "/" + x == b + "/" + y && NoSlash(x) && NoSlash(y)
    ensures a == b && x == y
  {
    SlashNoLater(a, x, b, y);
    SlashNoLater(b, y, a, x);
    var s, t := a + "/" + x, b + "/" + y;
    assert a == s[..|a|] && b == t[..|b|];
    assert x == s[|a| + 1..] && y == t[|b| + 1..];
  }

  lemma MarkHasNoSlash()
    ensures NoSlash("[i]")
  {
  }

  /** A plain name at the end cannot be the mark of a container. */
  lemma NameIsNoContainer(a: string, x: string, b: string, y: string, name: string)
    requires IsName(x) && IsContainerOf(y, name)
    ensures a + "/" + x != b + "/" + y
  {
    MarkHasNoSlash();
    var front := b + "/" + name;
    assert b + "/" + y == front + "/" + "[i]";
    if a + "/" + x == front + "/" + "[i]" {
      LastSlash(a, x, front, "[i]");
    }
  }

  lemma LastItem(a: string, x: string, b: string, y: string)
    requires a + "/" + x == b + "/" + y && IsItem(x) && IsItem(y)
    ensures a == b && x == y
  {
    if IsName(x) && IsName(y) {
      LastSlash(a, x, b, y);
    } else if IsName(x) {
      var name :| IsContainerOf(y, name);
      NameIsNoContainer(a, x, b, y, name);
    } else if IsName(y) {
      var name :| IsContainerOf(x, name);
      NameIsNoContainer(b, y, a, x, name);
    } else {
      var m :| IsContainerOf(x, m);
      var n :| IsContainerOf(y, n);
      MarkHasNoSlash();
      assert a + "/" + x == (a + "/" + m) + "/" + "[i]";
      assert b + "/" + y == (b + "/" + n) + "/" + "[i]";
      LastSlash(a + "/" + m, "[i]", b + "/" + n, "[i]");
      LastSlash(a, m, b, n);
    }
  }

  /** A path string determines the items it was built from. */
  lemma {:induction false} PathStringInjective(p: seq<string>, q: seq<string>)
    requires AllItems(p) && AllItems(q) && PathString(p) == PathString(q)
    ensures p == q
    decreases |p|
  {
    hide IsItem;
    if p != [] && q != [] {
      var m, n := |p| - 1, |q| - 1;
      LastItem(PathString(p[..m]), p[m], PathString(q[..n]), q[n]);
      PathStringInjective(p[..m], q[..n]);
      assert p == p[..m] + [p[m]] && q == q[..n] + [q[n]];
    }
  }

  // ---------------------------------------------------------------------------
  // Legible registries
  // ---------------------------------------------------------------------------

  /** Attribute names carry no slash, are not the container mark, do not look like a type reference
      and are unique in their type; type names carry no slash. */
  ghost predicate Legible(registry: Registry) {
    && (forall tid, i :: tid in registry.attributes && 0 <= i < |registry.attributes[tid]| ==>
          IsAttributeName(registry.attributes[tid][i].name))
    && (forall tid, i, j :: tid in registry.attributes && 0 <= i < j < |registry.attributes[tid]| ==>
          registry.attributes[tid][i].name != registry.attributes[tid][j].name)
    && (forall t :: t in registry.registered ==> NoSlash(t.name))
  }

  ghost predicate IsAttributeName(name: string) {
    IsName(name) && (name != [] ==> name[0] != '$')
  }

  lemma DollarIsName(name: string)
    requires NoSlash(name)
    ensures IsName("$" + name)
  {
    assert ("$" + name)[0] == '$';
  }

  lemma SlotItemReads(g: TypeGraph, tid: TypeId, k: nat)
    requires Closed(g) && Legible(g.registry) && Slot(g, tid, k).Some?
    ensures IsItem(Slot(g, tid, k).value.item)
  {
    SlotItem(g, tid, k);
    SlotTargetRegistered(g, tid, k);
    var e, attributes := Slot(g, tid, k).value, Attributes(g.registry, tid);
    if k < |attributes| {
      var name := attributes[k].name;
      assert IsAttributeName(name);
      assert name + "" == name && name + "/[i]" == name + "/" + "[i]";
      assert attributes[k].checker.ObjectVectorChecker? ==> IsContainerOf(e.item, name);
    } else {
      DollarIsName(e.target.name);
    }
  }

  lemma AttributeIsNoTypeReference(g: TypeGraph, tid: TypeId, j: nat, k: nat)
    requires Legible(g.registry) && Slot(g, tid, j).Some? && Slot(g, tid, k).Some?
    requires j < |Attributes(g.registry, tid)| <= k
    ensures Slot(g, tid, j).value.item != Slot(g, tid, k).value.item
  {
    SlotItem(g, tid, j);
    SlotItem(g, tid, k);
    var name := Attributes(g.registry, tid)[j].name;
    assert IsAttributeName(name);
    var item := Slot(g, tid, j).value.item;
    assert Slot(g, tid, k).value.item[0] == '$';
    assert name != [] ==> item[0] == name[0];
    assert name == [] ==> item == "" || item == "/[i]";
  }

  lemma AttributeItemsDiffer(g: TypeGraph, tid: TypeId, j: nat, k: nat)
    requires Legible(g.registry) && Slot(g, tid, j).Some? && Slot(g, tid, k).Some?
    requires j < |Attributes(g.registry, tid)| && k < |Attributes(g.registry, tid)| && j != k
    ensures Slot(g, tid, j).value.item != Slot(g, tid, k).value.item
  {
    SlotItem(g, tid, j);
    SlotItem(g, tid, k);
    var a, b := Attributes(g.registry, tid)[j], Attributes(g.registry, tid)[k];
    assert IsAttributeName(a.name) && IsAttributeName(b.name) && a.name != b.name;
    MarkedNamesDiffer(a.name, a.checker.ObjectVectorChecker?, b.name, b.checker.ObjectVectorChecker?);
  }

  lemma MarkedNamesDiffer(x: string, xMarked: bool, y: string, yMarked: bool)
    requires NoSlash(x) && NoSlash(y) && x != y
    ensures x + (if xMarked then "/[i]" else "") != y + (if yMarked then "/[i]" else "")
  {
    var s, t := x + (if xMarked then "/[i]" else ""), y + (if yMarked then "/[i]" else "");
    assert xMarked ==> s[|x|] == '/' && |s| == |x| + 4;
    assert yMarked ==> t[|y|] == '/' && |t| == |y| + 4;
    assert !xMarked ==> s == x;
    assert !yMarked ==> t == y;
    assert s[..|x|] == x && t[..|y|] == y;
  }

  /** In a legible registry the item of a slot determines where it leads. */
  lemma SameItemSameEdge(g: TypeGraph, tid: TypeId, j: nat, k: nat)
    requires Closed(g) && Legible(g.registry) && Slot(g, tid, j).Some? && Slot(g, tid, k).Some?
    requires Slot(g, tid, j).value.item == Slot(g, tid, k).value.item
    ensures Slot(g, tid, j) == Slot(g, tid, k)
  {
    hide Legible, Slot;
    var n := |Attributes(g.registry, tid)|;
    if j < n && k < n {
      if j != k { AttributeItemsDiffer(g, tid, j, k); }
    } else if j < n {
      AttributeIsNoTypeReference(g, tid, j, k);
    } else if k < n {
      AttributeIsNoTypeReference(g, tid, k, j);
    } else {
      SlotItem(g, tid, j);
      SlotItem(g, tid, k);
      SameReference(Slot(g, tid, j).value, Slot(g, tid, k).value);
    }
  }

  lemma SameReference(d: Edge, e: Edge)
    requires d.item == "$" + d.target.name && e.item == "$" + e.target.name && d.item == e.item
    ensures d == e
  {
    assert d.target.name == d.item[1..] && e.target.name == e.item[1..];
  }

  // ---------------------------------------------------------------------------
  // Twins
  // ---------------------------------------------------------------------------

  /** Two different slots of the type at the end of a simple walk carry the same edge to a type
      that the walk has not visited. */
  ghost predicate AreTwins(g: TypeGraph, root: TypeId, w: seq<nat>, j: nat, k: nat) {
    && IsSimpleWalk(g, root, w) && j != k
    && Slot(g, End(g, root, w), j).Some? && Slot(g, End(g, root, w), j) == Slot(g, End(g, root, w), k)
    && Slot(g, End(g, root, w), j).value.target !in Nodes(g, root, w)
  }

  ghost predicate HasTwins(g: TypeGraph, root: TypeId) {
    exists w, j, k :: AreTwins(g, root, w, j, k)
  }

  lemma {:induction false} LabelsExtend(g: TypeGraph, tid: TypeId, w: seq<nat>, k: nat)
    requires IsWalk(g, tid, w) && Slot(g, End(g, tid, w), k).Some?
    ensures IsWalk(g, tid, w + [k])
    ensures Labels(g, tid, w + [k]) == Labels(g, tid, w) + [Slot(g, End(g, tid, w), k).value.item]
    decreases |w|
  {
    WalkExtend(g, tid, w, k);
    if w == [] {
      assert (w + [k])[1..] == [];
    } else {
      LabelsExtend(g, Slot(g, tid, w[0]).value.target, w[1..], k);
      assert (w + [k])[1..] == w[1..] + [k];
    }
  }

  lemma ExtendSimple(g: TypeGraph, root: TypeId, w: seq<nat>, k: nat)
    requires IsSimpleWalk(g, root, w) && Slot(g, End(g, root, w), k).Some?
    requires Slot(g, End(g, root, w), k).value.target !in Nodes(g, root, w)
    ensures IsSimpleWalk(g, root, w + [k])
    ensures End(g, root, w + [k]) == Slot(g, End(g, root, w), k).value.target
    ensures Labels(g, root, w + [k]) == Labels(g, root, w) + [Slot(g, End(g, root, w), k).value.item]
  {
    WalkExtend(g, root, w, k);
    LabelsExtend(g, root, w, k);
    NoDuplicatesConcat(Nodes(g, root, w), [Slot(g, End(g, root, w), k).value.target]);
  }

  /** Twins make two records alike, whatever the names. */
  lemma TwinsMakeDuplicates(g: TypeGraph, root: TypeId, w: seq<nat>, j: nat, k: nat)
    requires Closed(g) && root in Types(g) && AreTwins(g, root, w, j, k)
    ensures !NoDuplicates(Gathered(g, root))
  {
    ExtendSimple(g, root, w, j);
    ExtendSimple(g, root, w, k);
    assert (w + [j])[|w|] != (w + [k])[|w|];
    AlikeWalksRepeat(g, root, w + [j], w + [k]);
  }

  lemma AlikeWalksRepeat(g: TypeGraph, root: TypeId, u: seq<nat>, v: seq<nat>)
    requires Closed(g) && root in Types(g) && u != v
    requires IsSimpleWalk(g, root, u) && IsSimpleWalk(g, root, v)
    requires End(g, root, u) == End(g, root, v) && Labels(g, root, u) == Labels(g, root, v)
    ensures !NoDuplicates(Gathered(g, root))
  {
    hide Gathered, Closed, IsSimpleWalk, IsWalk, End, Labels, PathString;
    var ws := GatheredIsTheSimpleWalks(g, root);
    assert u in ws && v in ws;
    var a :| 0 <= a < |ws| && ws[a] == u;
    var b :| 0 <= b < |ws| && ws[b] == v;
    assert Gathered(g, root)[a] == Gathered(g, root)[b];
  }

  /** Step `n` of a walk: the slot taken there, its item and where it leads. */
  lemma {:induction false} StepAt(g: TypeGraph, tid: TypeId, w: seq<nat>, n: nat)
    requires IsWalk(g, tid, w) && n < |w|
    ensures var slot := Slot(g, Nodes(g, tid, w)[n], w[n]);
            slot == Some(Edge(Labels(g, tid, w)[n], Nodes(g, tid, w)[n + 1]))
    decreases |w|
  {
    if n > 0 {
      StepAt(g, Slot(g, tid, w[0]).value.target, w[1..], n - 1);
    }
  }

  lemma WalkItems(g: TypeGraph, root: TypeId, w: seq<nat>)
    requires Closed(g) && Legible(g.registry) && IsWalk(g, root, w)
    ensures AllItems(Labels(g, root, w))
  {
    forall n | 0 <= n < |w| ensures IsItem(Labels(g, root, w)[n]) {
      StepAt(g, root, w, n);
      SlotItemReads(g, Nodes(g, root, w)[n], w[n]);
    }
  }

  lemma FirstDifference(u: seq<nat>, v: seq<nat>) returns (n: nat)
    requires |u| == |v| && u != v
    ensures n < |u| && u[n] != v[n] && u[..n] == v[..n]
  {
    if u[0] != v[0] {
      n := 0;
    } else {
      assert u == [u[0]] + u[1..] && v == [v[0]] + v[1..];
      n := FirstDifference(u[1..], v[1..]);
      n := n + 1;
      assert u[..n] == [u[0]] + u[1..][..n - 1] && v[..n] == [v[0]] + v[1..][..n - 1];
    }
  }

  /** Different simple walks that read the same part at twins. */
  lemma TwinsWhereTheyPart(g: TypeGraph, root: TypeId, u: seq<nat>, v: seq<nat>)
    requires Closed(g) && Legible(g.registry)
    requires IsSimpleWalk(g, root, u) && IsSimpleWalk(g, root, v) && u != v
    requires Labels(g, root, u) == Labels(g, root, v)
    ensures HasTwins(g, root)
  {
    var n := FirstDifference(u, v);
    var w := u[..n];
    WalkPrefix(g, root, u, n);
    WalkPrefix(g, root, v, n);
    StepAt(g, root, u, n);
    StepAt(g, root, v, n);
    var nodes := Nodes(g, root, u);
    assert Nodes(g, root, w) == nodes[..n + 1] == Nodes(g, root, v)[..n + 1];
    assert End(g, root, w) == nodes[n] == Nodes(g, root, v)[n];
    SameItemSameEdge(g, nodes[n], u[n], v[n]);
    PrefixIsFresh(nodes, n + 1);
    assert AreTwins(g, root, w, u[n], v[n]);
  }

  lemma PrefixIsFresh(nodes: seq<TypeId>, n: nat)
    requires NoDuplicates(nodes) && n < |nodes|
    ensures NoDuplicates(nodes[..n]) && nodes[n] !in nodes[..n]
  {
  }

  /** The records of one complete gathering are free of duplicates if and only if no simple walk from
      the root ends at a type with two equal edges to a type not on the walk. */
  lemma OneRootDuplicateFreeIff(g: TypeGraph, root: TypeId)
    requires Closed(g) && root in Types(g) && Legible(g.registry)
    ensures NoDuplicates(Gathered(g, root)) <==> !HasTwins(g, root)
  {
    if HasTwins(g, root) {
      var w, j, k :| AreTwins(g, root, w, j, k);
      TwinsMakeDuplicates(g, root, w, j, k);
    }
    if !NoDuplicates(Gathered(g, root)) {
      DuplicatesHaveTwins(g, root);
    }
  }

  lemma DuplicatesHaveTwins(g: TypeGraph, root: TypeId)
    requires Closed(g) && root in Types(g) && Legible(g.registry)
    requires !NoDuplicates(Gathered(g, root))
    ensures HasTwins(g, root)
  {
    hide Gathered, HasTwins, Legible, Closed;
    var ws := GatheredIsTheSimpleWalks(g, root);
    var records := Gathered(g, root);
    var i, j :| 0 <= i < j < |records| && records[i] == records[j];
    var u, v := ws[i], ws[j];
    assert u in ws && v in ws && u != v;
    WalkItems(g, root, u);
    WalkItems(g, root, v);
    PathStringInjective(Labels(g, root, u), Labels(g, root, v));
    TwinsWhereTheyPart(g, root, u, v);
  }

  // ---------------------------------------------------------------------------
  // Several roots
  // ---------------------------------------------------------------------------

  /** Simple walks from two roots with the same labels end at different types, and both types carry
      the same edge to a type on neither walk. */
  ghost predicate WalksMeet(g: TypeGraph, a: TypeId, b: TypeId, u: seq<nat>, v: seq<nat>, j: nat, k: nat) {
    && IsSimpleWalk(g, a, u) && IsSimpleWalk(g, b, v) && Labels(g, a, u) == Labels(g, b, v)
    && End(g, a, u) != End(g, b, v)
    && Slot(g, End(g, a, u), j).Some? && Slot(g, End(g, a, u), j) == Slot(g, End(g, b, v), k)
    && Slot(g, End(g, a, u), j).value.target !in Nodes(g, a, u)
    && Slot(g, End(g, a, u), j).value.target !in Nodes(g, b, v)
  }

  ghost predicate RootsMeet(g: TypeGraph, a: TypeId, b: TypeId) {
    exists u, v, j, k :: WalksMeet(g, a, b, u, v, j, k)
  }

  ghost predicate ShareRecord(g: TypeGraph, a: TypeId, b: TypeId)
    requires Closed(g) && a in Types(g) && b in Types(g)
  {
    exists r :: r in Gathered(g, a) && r in Gathered(g, b)
  }

  lemma RecordOfWalk(g: TypeGraph, root: TypeId, w: seq<nat>)
    requires Closed(g) && root in Types(g) && IsSimpleWalk(g, root, w)
    ensures (End(g, root, w), PathString(Labels(g, root, w))) in Gathered(g, root)
  {
    hide Gathered, IsSimpleWalk, PathString, Closed;
    var ws := GatheredIsTheSimpleWalks(g, root);
    assert w in ws;
    var i :| 0 <= i < |ws| && ws[i] == w;
    assert Gathered(g, root)[i] in Gathered(g, root);
  }

  lemma WalkOfRecord(g: TypeGraph, root: TypeId, r: (TypeId, string)) returns (w: seq<nat>)
    requires Closed(g) && root in Types(g) && r in Gathered(g, root)
    ensures IsSimpleWalk(g, root, w) && r == (End(g, root, w), PathString(Labels(g, root, w)))
  {
    hide Gathered, PathString, Closed;
    var ws := GatheredIsTheSimpleWalks(g, root);
    var i :| 0 <= i < |Gathered(g, root)| && Gathered(g, root)[i] == r;
    w := ws[i];
    assert w in ws;
  }

  /** Where two node lists of different origin and the same end come together. */
  lemma FirstMeeting(m: seq<TypeId>, n: seq<TypeId>) returns (i: nat)
    requires |m| == |n| > 0 && m[0] != n[0] && m[|m| - 1] == n[|n| - 1]
    ensures i + 1 < |m| && m[i] != n[i] && m[i + 1] == n[i + 1]
  {
    i := 0;
    while m[i + 1] != n[i + 1]
      invariant i + 1 < |m| && m[i] != n[i]
      decreases |m| - i
    {
      i := i + 1;
    }
  }

  lemma {:induction false} LabelsPrefix(g: TypeGraph, tid: TypeId, w: seq<nat>, n: nat)
    requires IsWalk(g, tid, w) && n <= |w|
    ensures IsWalk(g, tid, w[..n]) && Labels(g, tid, w[..n]) == Labels(g, tid, w)[..n]
    decreases |w|
  {
    WalkPrefix(g, tid, w, n);
    if n > 0 {
      LabelsPrefix(g, Slot(g, tid, w[0]).value.target, w[1..], n - 1);
      assert w[..n][1..] == w[1..][..n - 1];
    }
  }

  /** A simple walk cut short at step `n`: what it looks like, and the step it goes on with. */
  lemma CutWalk(g: TypeGraph, root: TypeId, w: seq<nat>, n: nat)
    requires IsSimpleWalk(g, root, w) && n < |w|
    ensures IsSimpleWalk(g, root, w[..n])
    ensures End(g, root, w[..n]) == Nodes(g, root, w)[n]
    ensures Labels(g, root, w[..n]) == Labels(g, root, w)[..n]
    ensures Slot(g, End(g, root, w[..n]), w[n]) == Some(Edge(Labels(g, root, w)[n], Nodes(g, root, w)[n + 1]))
    ensures Nodes(g, root, w)[n + 1] !in Nodes(g, root, w[..n])
  {
    WalkPrefix(g, root, w, n);
    LabelsPrefix(g, root, w, n);
    StepAt(g, root, w, n);
    PrefixIsFresh(Nodes(g, root, w), n + 1);
  }

  lemma AlikeWalksMeet(g: TypeGraph, a: TypeId, b: TypeId, u: seq<nat>, v: seq<nat>)
    requires a != b && IsSimpleWalk(g, a, u) && IsSimpleWalk(g, b, v)
    requires Labels(g, a, u) == Labels(g, b, v) && End(g, a, u) == End(g, b, v)
    ensures RootsMeet(g, a, b)
  {
    hide NoDuplicates, Slot, Nodes, Labels;
    var n := FirstMeeting(Nodes(g, a, u), Nodes(g, b, v));
    CutWalk(g, a, u, n);
    CutWalk(g, b, v, n);
    assert WalksMeet(g, a, b, u[..n], v[..n], u[n], v[n]);
  }

  lemma MeetingMakesDuplicates(g: TypeGraph, a: TypeId, b: TypeId)
    requires Closed(g) && a in Types(g) && b in Types(g) && RootsMeet(g, a, b)
    ensures ShareRecord(g, a, b)
  {
    var u, v, j, k :| WalksMeet(g, a, b, u, v, j, k);
    ExtendSimple(g, a, u, j);
    ExtendSimple(g, b, v, k);
    hide Gathered, PathString;
    RecordOfWalk(g, a, u + [j]);
    RecordOfWalk(g, b, v + [k]);
  }

  /** The gatherings from two different roots share a record if and only if walks from them meet. */
  lemma ShareRecordIff(g: TypeGraph, a: TypeId, b: TypeId)
    requires Closed(g) && Legible(g.registry) && a in Types(g) && b in Types(g) && a != b
    ensures ShareRecord(g, a, b) <==> RootsMeet(g, a, b)
  {
    hide Closed, Legible, Gathered, RootsMeet;
    if RootsMeet(g, a, b) { MeetingMakesDuplicates(g, a, b); }
    if ShareRecord(g, a, b) {
      var r :| r in Gathered(g, a) && r in Gathered(g, b);
      var u := WalkOfRecord(g, a, r);
      var v := WalkOfRecord(g, b, r);
      WalkItems(g, a, u);
      WalkItems(g, b, v);
      PathStringInjective(Labels(g, a, u), Labels(g, b, v));
      AlikeWalksMeet(g, a, b, u, v);
    }
  }

  lemma RootIsRecorded(g: TypeGraph, root: TypeId)
    requires Closed(g) && root in Types(g)
    ensures (root, "") in Gathered(g, root)
  {
    assert Nodes(g, root, []) == [root];
    RecordOfWalk(g, root, []);
  }

  /** Nothing recorded from `roots` comes up again from `root`. */
  ghost predicate NoneRepeats(g: TypeGraph, roots: seq<TypeId>, root: TypeId) {
    forall i :: 0 <= i < |roots| ==> roots[i] != root && !RootsMeet(g, roots[i], root)
  }

  /** The roots are distinct, none has twins, and no two of them meet. */
  ghost predicate AreClean(g: TypeGraph, roots: seq<TypeId>) {
    && NoDuplicates(roots)
    && (forall i :: 0 <= i < |roots| ==> !HasTwins(g, roots[i]))
    && (forall i, j :: 0 <= i < j < |roots| ==> !RootsMeet(g, roots[i], roots[j]))
  }

  lemma AreCleanNext(g: TypeGraph, roots: seq<TypeId>, root: TypeId)
    ensures AreClean(g, roots + [root]) <==> AreClean(g, roots) && !HasTwins(g, root) && NoneRepeats(g, roots, root)
  {
    hide HasTwins, RootsMeet;
    var all := roots + [root];
    assert all[|roots|] == root;
    assert forall i :: 0 <= i < |roots| ==> all[i] == roots[i];
    if AreClean(g, all) {
      forall i | 0 <= i < |roots| ensures roots[i] != root && !RootsMeet(g, roots[i], root) && !HasTwins(g, roots[i]) {
        assert all[i] != all[|roots|] && !RootsMeet(g, all[i], all[|roots|]);
      }
      forall i, j | 0 <= i < j < |roots| ensures roots[i] != roots[j] && !RootsMeet(g, roots[i], roots[j]) {
        assert all[i] != all[j] && !RootsMeet(g, all[i], all[j]);
      }
    }
  }

  lemma {:induction false} InGatheredAll(g: TypeGraph, roots: seq<TypeId>, r: (TypeId, string))
    requires Closed(g) && forall i :: 0 <= i < |roots| ==> roots[i] in Types(g)
    ensures r in GatheredAll(g, roots) <==> exists i :: 0 <= i < |roots| && r in Gathered(g, roots[i])
  {
    hide Closed, Types, Gathered;
    if roots != [] {
      var front := roots[..|roots| - 1];
      InGatheredAll(g, front, r);
      if i :| 0 <= i < |front| && r in Gathered(g, front[i]) { assert r in Gathered(g, roots[i]); }
    }
  }

  lemma NoneRepeatsIff(g: TypeGraph, roots: seq<TypeId>, root: TypeId)
    requires Closed(g) && Legible(g.registry) && root in Types(g) && forall i :: 0 <= i < |roots| ==> roots[i] in Types(g)
    ensures NoneRepeats(g, roots, root) <==> forall r :: r in GatheredAll(g, roots) ==> r !in Gathered(g, root)
  {
    hide Closed, Legible, Types, Gathered, RootsMeet, GatheredAll;
    forall i | 0 <= i < |roots|
      ensures ShareRecord(g, roots[i], root) <==> roots[i] == root || RootsMeet(g, roots[i], root)
    {
      if roots[i] == root { RootIsRecorded(g, root); } else { ShareRecordIff(g, roots[i], root); }
    }
    forall r ensures r in GatheredAll(g, roots) <==> exists i :: 0 <= i < |roots| && r in Gathered(g, roots[i]) {
      InGatheredAll(g, roots, r);
    }
    if !NoneRepeats(g, roots, root) {
      var i :| 0 <= i < |roots| && (roots[i] == root || RootsMeet(g, roots[i], root));
      assert ShareRecord(g, roots[i], root);
      var r :| r in Gathered(g, roots[i]) && r in Gathered(g, root);
      assert r in GatheredAll(g, roots);
    }
    if r :| r in GatheredAll(g, roots) && r in Gathered(g, root) {
      var i :| 0 <= i < |roots| && r in Gathered(g, roots[i]);
      assert ShareRecord(g, roots[i], root);
    }
  }

  lemma NoDuplicatesConcatIff<T(!new)>(s: seq<T>, t: seq<T>)
    ensures NoDuplicates(s + t) <==> NoDuplicates(s) && NoDuplicates(t) && forall x :: x in s ==> x !in t
  {
    var all := s + t;
    assert forall i :: 0 <= i < |s| ==> all[i] == s[i];
    assert forall i :: 0 <= i < |t| ==> all[|s| + i] == t[i];
    if NoDuplicates(all) {
      forall i, j | 0 <= i < j < |s| ensures s[i] != s[j] { assert all[i] != all[j]; }
      forall i, j | 0 <= i < j < |t| ensures t[i] != t[j] { assert all[|s| + i] != all[|s| + j]; }
      forall x | x in s ensures x !in t {
        var i :| 0 <= i < |s| && s[i] == x;
        forall j | 0 <= j < |t| ensures t[j] != x { assert all[i] != all[|s| + j]; }
      }
    } else if NoDuplicates(s) && NoDuplicates(t) && forall x :: x in s ==> x !in t {
      NoDuplicatesConcat(s, t);
    }
  }

  /** The list gathered from any roots, one after the other, is free of duplicates if and only if the
      roots are distinct, none of them has twins, and no walks from two of them meet. */
  lemma {:induction false} DuplicateFreeIff(g: TypeGraph, roots: seq<TypeId>)
    requires Closed(g) && Legible(g.registry) && forall i :: 0 <= i < |roots| ==> roots[i] in Types(g)
    ensures NoDuplicates(GatheredAll(g, roots)) <==> AreClean(g, roots)
  {
    hide Closed, Legible, Types, Gathered, AreClean, NoneRepeats, HasTwins, NoDuplicates;
    if roots == [] {
      NoRootsAreClean(g);
    } else {
      var front, last := roots[..|roots| - 1], roots[|roots| - 1];
      assert roots == front + [last];
      DuplicateFreeIff(g, front);
      OneRootDuplicateFreeIff(g, last);
      NoneRepeatsIff(g, front, last);
      AreCleanNext(g, front, last);
      NoDuplicatesConcatIff(GatheredAll(g, front), Gathered(g, last));
    }
  }

  lemma NoRootsAreClean(g: TypeGraph)
    ensures AreClean(g, []) && NoDuplicates<(TypeId, string)>([])
  {
  }

  // ---------------------------------------------------------------------------
  // What can be checked beforehand
  // ---------------------------------------------------------------------------

  /** Two different slots of one type carry the same edge to another type. */
  ghost predicate AreTwinSlots(g: TypeGraph, tid: TypeId, j: nat, k: nat) {
    j != k && Slot(g, tid, j).Some? && Slot(g, tid, j) == Slot(g, tid, k) && Slot(g, tid, j).value.target != tid
  }

  ghost predicate HasTwinSlots(g: TypeGraph, tid: TypeId) {
    exists j, k :: AreTwinSlots(g, tid, j, k)
  }

  ghost predicate SamePair(p: (TypeId, TypeId), q: (TypeId, TypeId)) {
    p == q || p == (q.1, q.0)
  }

  /** Some aggregation of two different types is recorded twice, in either orientation. */
  ghost predicate RepeatsAggregation(g: TypeGraph) {
    exists i, j :: 0 <= i < j < |g.aggregates| && SamePair(g.aggregates[i], g.aggregates[j])
                   && g.aggregates[i].0 != g.aggregates[i].1
  }

  ghost predicate IsChildEdge(g: TypeGraph, a: TypeId, b: TypeId) {
    a != b && ((a, b) in g.registry.childOf || (b, a) in g.registry.childOf)
  }

  /** Some aggregation joins a type and its descendant. */
  ghost predicate AggregatesChild(g: TypeGraph) {
    exists i :: 0 <= i < |g.aggregates| && IsChildEdge(g, g.aggregates[i].0, g.aggregates[i].1)
  }

  ghost predicate EachRootIsClean(g: TypeGraph)
    requires Closed(g)
  {
    forall root :: root in Types(g) ==> NoDuplicates(Gathered(g, root))
  }

  lemma TwinSlotsAreTwins(g: TypeGraph, tid: TypeId)
    requires HasTwinSlots(g, tid)
    ensures HasTwins(g, tid)
  {
    var j, k :| AreTwinSlots(g, tid, j, k);
    assert Nodes(g, tid, []) == [tid];
    assert AreTwins(g, tid, [], j, k);
  }

  lemma TwinsHaveTwinSlots(g: TypeGraph, root: TypeId) returns (tid: TypeId)
    requires Closed(g) && root in Types(g) && HasTwins(g, root)
    ensures tid in Types(g) && HasTwinSlots(g, tid)
  {
    var w, j, k :| AreTwins(g, root, w, j, k);
    tid := End(g, root, w);
    NodesRegistered(g, root, w);
    assert tid in Nodes(g, root, w);
    assert AreTwinSlots(g, tid, j, k);
  }

  /** Position of an aggregation among the slots of either of its ends. */
  lemma AggregateSlot(g: TypeGraph, i: nat, tid: TypeId, other: TypeId) returns (k: nat)
    requires i < |g.aggregates| && SamePair(g.aggregates[i], (tid, other))
    ensures k == |Attributes(g.registry, tid)| + |g.registry.registered| + i
    ensures Slot(g, tid, k) == Some(Edge("$" + other.name, other))
  {
    k := |Attributes(g.registry, tid)| + |g.registry.registered| + i;
  }

  lemma ChildSlot(g: TypeGraph, child: TypeId, tid: TypeId) returns (k: nat)
    requires child in g.registry.registered && (child, tid) in g.registry.childOf
    ensures k < |Attributes(g.registry, tid)| + |g.registry.registered|
    ensures Slot(g, tid, k) == Some(Edge("$" + child.name, child))
  {
    var i :| 0 <= i < |g.registry.registered| && g.registry.registered[i] == child;
    k := |Attributes(g.registry, tid)| + i;
  }

  lemma RepeatedAggregationHasTwins(g: TypeGraph) returns (tid: TypeId)
    requires Closed(g) && RepeatsAggregation(g)
    ensures tid in Types(g) && HasTwinSlots(g, tid)
  {
    var i, j :| 0 <= i < j < |g.aggregates| && SamePair(g.aggregates[i], g.aggregates[j])
                && g.aggregates[i].0 != g.aggregates[i].1;
    var item := g.aggregates[i];
    assert item in g.aggregates;
    tid := item.0;
    var m := AggregateSlot(g, i, item.0, item.1);
    var n := AggregateSlot(g, j, item.0, item.1);
    assert AreTwinSlots(g, tid, m, n);
  }

  lemma AggregatedChildHasTwins(g: TypeGraph) returns (tid: TypeId)
    requires Closed(g) && AggregatesChild(g)
    ensures tid in Types(g) && HasTwinSlots(g, tid)
  {
    var i :| 0 <= i < |g.aggregates| && IsChildEdge(g, g.aggregates[i].0, g.aggregates[i].1);
    var item := g.aggregates[i];
    assert item in g.aggregates;
    var child: TypeId;
    tid, child := item.0, item.1;
    if (item.0, item.1) in g.registry.childOf {
      tid, child := item.1, item.0;
    }
    var m := ChildSlot(g, child, tid);
    var n := AggregateSlot(g, i, tid, child);
    assert AreTwinSlots(g, tid, m, n);
  }

  lemma TwinSlotsComeFrom(g: TypeGraph, tid: TypeId, j: nat, k: nat)
    requires Legible(g.registry) && NoDuplicates(g.registry.registered)
    requires AreTwinSlots(g, tid, j, k) && j < k
    ensures RepeatsAggregation(g) || AggregatesChild(g)
  {
    var n, m := |Attributes(g.registry, tid)|, |g.registry.registered|;
    var target := Slot(g, tid, j).value.target;
    if k < n {
      AttributeItemsDiffer(g, tid, j, k);
    } else if j < n {
      AttributeIsNoTypeReference(g, tid, j, k);
    } else {
      hide Legible;
      if n + m <= j {
        assert SamePair(g.aggregates[j - n - m], (tid, target)) && SamePair(g.aggregates[k - n - m], (tid, target));
        assert RepeatsAggregation(g);
      } else if n + m <= k {
        assert g.registry.registered[j - n] == target && (target, tid) in g.registry.childOf;
        assert SamePair(g.aggregates[k - n - m], (tid, target));
        assert IsChildEdge(g, g.aggregates[k - n - m].0, g.aggregates[k - n - m].1);
      }
    }
  }

  /** Gathering is free of duplicates from every root if and only if no aggregation of two types is
      recorded twice, in either orientation, and none joins a type and its descendant. */
  lemma EveryRootDuplicateFreeIff(g: TypeGraph)
    requires Closed(g) && Legible(g.registry) && NoDuplicates(g.registry.registered)
    ensures EachRootIsClean(g) <==> !RepeatsAggregation(g) && !AggregatesChild(g)
  {
    hide Legible, Closed, Gathered, HasTwins, HasTwinSlots, RepeatsAggregation, AggregatesChild;
    if RepeatsAggregation(g) || AggregatesChild(g) {
      var tid: TypeId;
      if RepeatsAggregation(g) { tid := RepeatedAggregationHasTwins(g); } else { tid := AggregatedChildHasTwins(g); }
      TwinSlotsAreTwins(g, tid);
      OneRootDuplicateFreeIff(g, tid);
    } else {
      forall root | root in Types(g) ensures NoDuplicates(Gathered(g, root)) {
        OneRootDuplicateFreeIff(g, root);
        if HasTwins(g, root) { TwinsNeedAggregations(g, root); }
      }
    }
  }

  ghost predicate Carries(g: TypeGraph, tid: TypeId, e: Edge) {
    exists k :: Slot(g, tid, k) == Some(e)
  }

  ghost predicate AreMates(g: TypeGraph, a: TypeId, b: TypeId, e: Edge) {
    && a in Types(g) && b in Types(g) && a != b
    && e.target != a && e.target != b && Carries(g, a, e) && Carries(g, b, e)
  }

  /** Two different types carry the same edge to a third one. */
  ghost predicate HasMates(g: TypeGraph) {
    exists a, b, e :: AreMates(g, a, b, e)
  }

  /** Whatever distinct roots are gathered, in whatever order. */
  ghost predicate AllRootsAreClean(g: TypeGraph)
    requires Closed(g)
  {
    forall roots :: NoDuplicates(roots) && (forall i :: 0 <= i < |roots| ==> roots[i] in Types(g)) ==>
      NoDuplicates(GatheredAll(g, roots))
  }

  lemma MeetingNeedsMates(g: TypeGraph, a: TypeId, b: TypeId)
    requires Closed(g) && a in Types(g) && b in Types(g) && RootsMeet(g, a, b)
    ensures HasMates(g)
  {
    var u, v, j, k :| WalksMeet(g, a, b, u, v, j, k);
    NodesRegistered(g, a, u);
    NodesRegistered(g, b, v);
    var x, y := End(g, a, u), End(g, b, v);
    assert x in Nodes(g, a, u) && y in Nodes(g, b, v);
    assert AreMates(g, x, y, Slot(g, x, j).value);
  }

  lemma MatesMeet(g: TypeGraph, a: TypeId, b: TypeId, e: Edge)
    requires AreMates(g, a, b, e)
    ensures RootsMeet(g, a, b)
  {
    var j :| Slot(g, a, j) == Some(e);
    var k :| Slot(g, b, k) == Some(e);
    assert Nodes(g, a, []) == [a] && Nodes(g, b, []) == [b];
    assert WalksMeet(g, a, b, [], [], j, k);
  }

  /** Gathering is free of duplicates from every list of distinct roots if and only if no aggregation
      of two types is recorded twice, none joins a type and its descendant, and no two types carry the
      same edge to a third one. */
  lemma AlwaysDuplicateFreeIff(g: TypeGraph)
    requires Closed(g) && Legible(g.registry) && NoDuplicates(g.registry.registered)
    ensures AllRootsAreClean(g) <==> !RepeatsAggregation(g) && !AggregatesChild(g) && !HasMates(g)
  {
    hide Legible, Closed, Types, Gathered, GatheredAll, HasTwins, RootsMeet, RepeatsAggregation, AggregatesChild, HasMates;
    EveryRootDuplicateFreeIff(g);
    if AllRootsAreClean(g) {
      forall root | root in Types(g) ensures NoDuplicates(Gathered(g, root)) {
        OneRootIsGathered(g, root);
        assert NoDuplicates([root]);
      }
      if HasMates(g) { MatesSpoilTwoRoots(g); }
    } else {
      var roots :| NoDuplicates(roots) && (forall i :: 0 <= i < |roots| ==> roots[i] in Types(g))
                   && !NoDuplicates(GatheredAll(g, roots));
      DuplicateFreeIff(g, roots);
      if i :| 0 <= i < |roots| && HasTwins(g, roots[i]) {
        OneRootDuplicateFreeIff(g, roots[i]);
      } else {
        var i, j :| 0 <= i < j < |roots| && RootsMeet(g, roots[i], roots[j]);
        MeetingNeedsMates(g, roots[i], roots[j]);
      }
    }
  }

  lemma OneRootIsGathered(g: TypeGraph, root: TypeId)
    requires Closed(g) && root in Types(g)
    ensures GatheredAll(g, [root]) == Gathered(g, root)
  {
    assert [root][..0] == [];
    assert GatheredAll(g, []) == [];
  }

  lemma MatesSpoilTwoRoots(g: TypeGraph)
    requires Closed(g) && Legible(g.registry) && HasMates(g)
    ensures !AllRootsAreClean(g)
  {
    hide Legible, Closed, Types, Gathered, GatheredAll;
    var a, b, e :| AreMates(g, a, b, e);
    MatesRepeat(g, a, b, e);
    assert NoDuplicates([a, b]);
  }

  lemma MatesRepeat(g: TypeGraph, a: TypeId, b: TypeId, e: Edge)
    requires Closed(g) && Legible(g.registry) && AreMates(g, a, b, e)
    ensures a in Types(g) && b in Types(g) && !NoDuplicates(GatheredAll(g, [a, b]))
  {
    hide Legible, Closed, Types, GatheredAll, HasTwins, RootsMeet;
    MatesMeet(g, a, b, e);
    DuplicateFreeIff(g, [a, b]);
    assert RootsMeet(g, [a, b][0], [a, b][1]);
  }

  lemma TwinsNeedAggregations(g: TypeGraph, root: TypeId)
    requires Closed(g) && Legible(g.registry) && NoDuplicates(g.registry.registered)
    requires root in Types(g) && HasTwins(g, root)
    ensures RepeatsAggregation(g) || AggregatesChild(g)
  {
    var tid := TwinsHaveTwinSlots(g, root);
    hide Legible, Closed, RepeatsAggregation, AggregatesChild;
    var j, k :| AreTwinSlots(g, tid, j, k);
    if j < k { TwinSlotsComeFrom(g, tid, j, k); } else { TwinSlotsComeFrom(g, tid, k, j); }
  }

  /** The program's own table records the aggregation of ns3::Node and ns3::Icmpv4L4Protocol twice,
      so the list gathered from ns3::Node holds a record twice. */
  lemma NodeAggregatesIcmpTwice()
    ensures var node, icmp := TypeId("ns3::Node"), TypeId("ns3::Icmpv4L4Protocol");
            var g := TypeGraph(Registry(TypeId("ns3::Object"), [node, icmp], map[], {}), [(node, icmp), (node, icmp)]);
            Closed(g) && node in Types(g) && !NoDuplicates(Gathered(g, node))
  {
    var node, icmp := TypeId("ns3::Node"), TypeId("ns3::Icmpv4L4Protocol");
    assert node.name[5] != icmp.name[5];
    TwiceAggregated(TypeId("ns3::Object"), node, icmp);
  }

  lemma TwiceAggregated(objectTid: TypeId, a: TypeId, b: TypeId)
    requires a != b
    ensures var g := TypeGraph(Registry(objectTid, [a, b], map[], {}), [(a, b), (a, b)]);
            Closed(g) && a in Types(g) && !NoDuplicates(Gathered(g, a))
  {
    var g := TypeGraph(Registry(objectTid, [a, b], map[], {}), [(a, b), (a, b)]);
    assert a in g.registry.registered && b in g.registry.registered;
    assert Closed(g) && Slot(g, a, 2) == Slot(g, a, 3) == Some(Edge("$" + b.name, b));
    assert Nodes(g, a, []) == [a];
    TwinsMakeDuplicates(g, a, [], 2, 3);
  }

  /** Two roots aggregated with the same type repeat its record, although neither gathering does so
      by itself. */
  lemma TwoRootsRepeat(objectTid: TypeId, a: TypeId, b: TypeId, c: TypeId)
    requires a != b && a != c && b != c && Legible(Registry(objectTid, [a, b, c], map[], {}))
    ensures var g := TypeGraph(Registry(objectTid, [a, b, c], map[], {}), [(a, c), (b, c)]);
            && Closed(g) && (forall t :: t in [a, b, c] ==> t in Types(g))
            && !RepeatsAggregation(g) && !AggregatesChild(g) && EachRootIsClean(g)
            && !NoDuplicates(GatheredAll(g, [a, b]))
  {
    var g, e := TypeGraph(Registry(objectTid, [a, b, c], map[], {}), [(a, c), (b, c)]), Edge("$" + c.name, c);
    BothAggregated(objectTid, a, b, c);
    hide Closed, Legible, Types, Slot, RepeatsAggregation, AggregatesChild, GatheredAll;
    assert Carries(g, a, e) && Carries(g, b, e) && AreMates(g, a, b, e);
    EveryRootDuplicateFreeIff(g);
    MatesRepeat(g, a, b, e);
  }

  lemma BothAggregated(objectTid: TypeId, a: TypeId, b: TypeId, c: TypeId)
    requires a != b && a != c && b != c
    ensures var g := TypeGraph(Registry(objectTid, [a, b, c], map[], {}), [(a, c), (b, c)]);
            && Closed(g) && (forall t :: t in [a, b, c] ==> t in Types(g)) && a in Types(g) && b in Types(g)
            && NoDuplicates(g.registry.registered) && !RepeatsAggregation(g) && !AggregatesChild(g)
            && Slot(g, a, 3) == Some(Edge("$" + c.name, c)) == Slot(g, b, 4)
  {
    var g := TypeGraph(Registry(objectTid, [a, b, c], map[], {}), [(a, c), (b, c)]);
    assert a in [a, b, c] && b in [a, b, c] && c in [a, b, c];
    assert forall t :: t in [a, b, c] <==> t in Types(g);
  }

  /** Gathering a root again repeats all it recorded. */
  lemma SameRootRepeats(g: TypeGraph, root: TypeId)
    requires Closed(g) && root in Types(g)
    ensures !NoDuplicates(GatheredAll(g, [root, root]))
  {
    hide Closed, Types, Gathered, GatheredAll, NoDuplicates;
    var roots := [root, root];
    assert roots[..1] == [root];
    OneRootIsGathered(g, root);
    RootIsRecorded(g, root);
    GatheredAllNext(g, roots);
    NoDuplicatesConcatIff(Gathered(g, root), Gathered(g, root));
  }

  lemma GatheredAllNext(g: TypeGraph, roots: seq<TypeId>)
    requires roots != [] && Closed(g) && forall i :: 0 <= i < |roots| ==> roots[i] in Types(g)
    ensures GatheredAll(g, roots) == GatheredAll(g, roots[..|roots| - 1]) + Gathered(g, roots[|roots| - 1])
  {
  }
}
