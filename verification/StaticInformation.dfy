/** Configuration paths of registered types: the walks of the type graph that repeat no type. */
module StaticInformation {
  import opened Basics

  /** Type identifiers are 16-bit numbers. */
  type TypeId = t: nat | t < 0x10000

  datatype Attribute =
    | Pointer(name: string, pointee: TypeId)
    | Container(name: string, item: TypeId)
    | Plain(name: string)

  /** What the type system answers. */
  datatype Registry = Registry(
    attributes: TypeId -> seq<Attribute>,
    isChildOf: (TypeId, TypeId) -> bool,
    nameOf: TypeId -> string,
    lookup: string -> seq<TypeId>,
    registered: seq<TypeId>,
    objectType: TypeId)

  datatype Edge = Edge(name: string, target: TypeId)

  // ---- The type graph ----

  function AttributeEdge(reg: Registry, attribute: Attribute): Option<Edge> {
    match attribute
    case Pointer(name, pointee) => if pointee == reg.objectType then None else Some(Edge(name, pointee))
    case Container(name, item) => Some(Edge(name + "/[i]", item))
    case Plain(_) => None
  }

  function ChildEdge(reg: Registry, tid: TypeId, child: TypeId): Option<Edge> {
    if reg.isChildOf(child, tid) then Some(Edge("$" + reg.nameOf(child), child)) else None
  }

  function AggregateEdge(reg: Registry, tid: TypeId, pair: (TypeId, TypeId)): Option<Edge> {
    if pair.1 == tid then Some(Edge("$" + reg.nameOf(pair.0), pair.0))
    else if pair.0 == tid then Some(Edge("$" + reg.nameOf(pair.1), pair.1))
    else None
  }

  function AttributeEdges(reg: Registry, attributes: seq<Attribute>): seq<Edge> {
    Picked(attributes, attribute => AttributeEdge(reg, attribute))
  }

  function ChildEdges(reg: Registry, types: seq<TypeId>, tid: TypeId): seq<Edge> {
    Picked(types, child => ChildEdge(reg, tid, child))
  }

  function AggregateEdges(reg: Registry, pairs: seq<(TypeId, TypeId)>, tid: TypeId): seq<Edge> {
    Picked(pairs, pair => AggregateEdge(reg, tid, pair))
  }

  /** The types that tid leads to: attributes first, then derived types, then aggregated types. */
  function Edges(reg: Registry, pairs: seq<(TypeId, TypeId)>, tid: TypeId): seq<Edge> {
    AttributeEdges(reg, reg.attributes(tid)) + ChildEdges(reg, reg.registered, tid) + AggregateEdges(reg, pairs, tid)
  }

  lemma AttributeEdgesAre(reg: Registry, attributes: seq<Attribute>, e: Edge)
    ensures e in AttributeEdges(reg, attributes) <==>
            exists i :: 0 <= i < |attributes| &&
              ((attributes[i] == Pointer(e.name, e.target) && e.target != reg.objectType) ||
               (attributes[i].Container? && e == Edge(attributes[i].name + "/[i]", attributes[i].item)))
  {
    InPicked(attributes, attribute => AttributeEdge(reg, attribute), e);
  }

  lemma ChildEdgesAre(reg: Registry, types: seq<TypeId>, tid: TypeId, e: Edge)
    ensures e in ChildEdges(reg, types, tid) <==>
            e.target in types && reg.isChildOf(e.target, tid) && e.name == "$" + reg.nameOf(e.target)
  {
    InPicked(types, child => ChildEdge(reg, tid, child), e);
  }

  lemma AggregateEdgesAre(reg: Registry, pairs: seq<(TypeId, TypeId)>, tid: TypeId, e: Edge)
    ensures e in AggregateEdges(reg, pairs, tid) <==>
            ((tid, e.target) in pairs || (e.target, tid) in pairs) && e.name == "$" + reg.nameOf(e.target)
  {
    InPicked(pairs, pair => AggregateEdge(reg, tid, pair), e);
    if (tid, e.target) in pairs {
      var i :| 0 <= i < |pairs| && pairs[i] == (tid, e.target);
    }
    if (e.target, tid) in pairs {
      var i :| 0 <= i < |pairs| && pairs[i] == (e.target, tid);
    }
  }

  /** The edges in order: one for each attribute that has one, then one for each registered type derived from
      tid, then one for each pair that holds tid. */
  lemma EdgesInOrder(reg: Registry, pairs: seq<(TypeId, TypeId)>, tid: TypeId)
    returns (attributes: seq<nat>, children: seq<nat>, aggregates: seq<nat>)
    ensures |Edges(reg, pairs, tid)| == |attributes| + |children| + |aggregates|
    ensures var edges, a, c := Edges(reg, pairs, tid), |attributes|, |attributes| + |children|;
            && InOrder(reg.attributes(tid), x => AttributeEdge(reg, x), edges[..a], attributes)
            && InOrder(reg.registered, x => ChildEdge(reg, tid, x), edges[a..c], children)
            && InOrder(pairs, x => AggregateEdge(reg, tid, x), edges[c..], aggregates)
  {
    attributes := PickedInOrder(reg.attributes(tid), x => AttributeEdge(reg, x));
    children := PickedInOrder(reg.registered, x => ChildEdge(reg, tid, x));
    aggregates := PickedInOrder(pairs, x => AggregateEdge(reg, tid, x));
  }

  /** The graph: pointers other than to Object, containers, derived types, and aggregation in both directions. */
  lemma EdgesAre(reg: Registry, pairs: seq<(TypeId, TypeId)>, tid: TypeId, e: Edge)
    ensures e in Edges(reg, pairs, tid) <==>
            || (Pointer(e.name, e.target) in reg.attributes(tid) && e.target != reg.objectType)
            || (exists name :: Container(name, e.target) in reg.attributes(tid) && e.name == name + "/[i]")
            || (e.name == "$" + reg.nameOf(e.target) &&
                ((e.target in reg.registered && reg.isChildOf(e.target, tid)) ||
                 (tid, e.target) in pairs || (e.target, tid) in pairs))
  {
    var attributes := reg.attributes(tid);
    AttributeEdgesAre(reg, attributes, e);
    ChildEdgesAre(reg, reg.registered, tid, e);
    AggregateEdgesAre(reg, pairs, tid, e);
    hide AttributeEdges;
    hide ChildEdges;
    hide AggregateEdges;
    if name :| Container(name, e.target) in attributes && e.name == name + "/[i]" {
      var i :| 0 <= i < |attributes| && attributes[i] == Container(name, e.target);
    }
    if i :| 0 <= i < |attributes| && attributes[i].Container? &&
            e == Edge(attributes[i].name + "/[i]", attributes[i].item) {
      assert Container(attributes[i].name, e.target) in attributes;
    }
  }

  /** w chooses an edge of the current type at each step, starting from root. */
  ghost predicate IsWalk(reg: Registry, pairs: seq<(TypeId, TypeId)>, root: TypeId, w: seq<nat>)
    decreases |w|
  {
    w == [] ||
    (w[0] < |Edges(reg, pairs, root)| && IsWalk(reg, pairs, Edges(reg, pairs, root)[w[0]].target, w[1..]))
  }

  ghost function Visits(reg: Registry, pairs: seq<(TypeId, TypeId)>, root: TypeId, w: seq<nat>): (r: seq<TypeId>)
    requires IsWalk(reg, pairs, root, w)
    ensures |r| == |w| + 1
    decreases |w|
  {
    [root] + if w == [] then [] else Visits(reg, pairs, Edges(reg, pairs, root)[w[0]].target, w[1..])
  }

  ghost function Labels(reg: Registry, pairs: seq<(TypeId, TypeId)>, root: TypeId, w: seq<nat>): seq<string>
    requires IsWalk(reg, pairs, root, w)
    decreases |w|
  {
    if w == [] then [] else
      var e := Edges(reg, pairs, root)[w[0]];
      [e.name] + Labels(reg, pairs, e.target, w[1..])
  }

  ghost function End(reg: Registry, pairs: seq<(TypeId, TypeId)>, root: TypeId, w: seq<nat>): TypeId
    requires IsWalk(reg, pairs, root, w)
  {
    Visits(reg, pairs, root, w)[|w|]
  }

  /** A walk from root that visits no type twice and none of avoid. */
  ghost predicate SimpleWalk(reg: Registry, pairs: seq<(TypeId, TypeId)>, avoid: set<TypeId>, root: TypeId,
                             w: seq<nat>) {
    && IsWalk(reg, pairs, root, w)
    && NoDup(Visits(reg, pairs, root, w))
    && forall t :: t in Visits(reg, pairs, root, w) ==> t !in avoid
  }

  // ---- The walks in the order in which they are gathered ----

  ghost function TypesBelow(n: nat): (s: set<TypeId>)
    requires n <= 0x10000
    ensures forall t: TypeId :: t in s <==> t < n
  {
    if n == 0 then {} else TypesBelow(n - 1) + {n - 1}
  }

  ghost function AllTypes(): set<TypeId> {
    TypesBelow(0x10000)
  }

  ghost function Prepend(k: nat, ws: seq<seq<nat>>): (r: seq<seq<nat>>)
    ensures |r| == |ws| && forall i :: 0 <= i < |ws| ==> r[i] == [k] + ws[i]
  {
    seq(|ws|, i requires 0 <= i < |ws| => [k] + ws[i])
  }

  ghost function WalksFrom(reg: Registry, pairs: seq<(TypeId, TypeId)>, avoid: set<TypeId>, tid: TypeId): seq<seq<nat>>
    decreases AllTypes() - avoid, 0
  {
    if tid in avoid then [] else
      assert tid in AllTypes() - avoid;
      [[]] + WalksVia(reg, pairs, avoid + {tid}, Edges(reg, pairs, tid))
  }

  ghost function WalksVia(reg: Registry, pairs: seq<(TypeId, TypeId)>, avoid: set<TypeId>,
                          edges: seq<Edge>): seq<seq<nat>>
    decreases AllTypes() - avoid, |edges|
  {
    if edges == [] then [] else
      var n := |edges| - 1;
      WalksVia(reg, pairs, avoid, edges[..n]) + Prepend(n, WalksFrom(reg, pairs, avoid, edges[n].target))
  }

  lemma NoDupCons<T>(x: T, s: seq<T>)
    ensures NoDup([x] + s) <==> x !in s && NoDup(s)
  {
    var t := [x] + s;
    assert forall i :: 0 <= i < |s| ==> t[i + 1] == s[i];
    if x in s {
      var i :| 0 <= i < |s| && s[i] == x;
      assert t[0] == t[i + 1];
    }
  }

  lemma SimpleStep(reg: Registry, pairs: seq<(TypeId, TypeId)>, avoid: set<TypeId>, tid: TypeId, w: seq<nat>)
    requires w != [] && w[0] < |Edges(reg, pairs, tid)|
    ensures SimpleWalk(reg, pairs, avoid, tid, w) <==>
            tid !in avoid && SimpleWalk(reg, pairs, avoid + {tid}, Edges(reg, pairs, tid)[w[0]].target, w[1..])
  {
    var next := Edges(reg, pairs, tid)[w[0]].target;
    hide Edges;
    hide NoDup;
    if IsWalk(reg, pairs, next, w[1..]) {
      var vs, rest := Visits(reg, pairs, tid, w), Visits(reg, pairs, next, w[1..]);
      assert vs == [tid] + rest;
      NoDupCons(tid, rest);
      hide Visits;
      assert forall t :: t in vs <==> t == tid || t in rest;
    }
  }

  lemma {:induction false} InWalksVia(reg: Registry, pairs: seq<(TypeId, TypeId)>, avoid: set<TypeId>,
                                      edges: seq<Edge>, w: seq<nat>)
    ensures w in WalksVia(reg, pairs, avoid, edges) <==>
            w != [] && w[0] < |edges| && w[1..] in WalksFrom(reg, pairs, avoid, edges[w[0]].target)
    decreases |edges|
  {
    hide WalksFrom;
    if edges != [] {
      var n := |edges| - 1;
      InWalksVia(reg, pairs, avoid, edges[..n], w);
      var from := WalksFrom(reg, pairs, avoid, edges[n].target);
      if w != [] && w[0] == n && w[1..] in from {
        var i :| 0 <= i < |from| && from[i] == w[1..];
        assert Prepend(n, from)[i] == w;
      }
    }
  }

  /** The gathered walks are exactly the walks that repeat no type. */
  lemma {:induction false} WalksAreSimple(reg: Registry, pairs: seq<(TypeId, TypeId)>, avoid: set<TypeId>,
                                        tid: TypeId, w: seq<nat>)
    ensures w in WalksFrom(reg, pairs, avoid, tid) <==> SimpleWalk(reg, pairs, avoid, tid, w)
    decreases |w|
  {
    hide Edges;
    if tid in avoid {
      if IsWalk(reg, pairs, tid, w) {
        assert Visits(reg, pairs, tid, w)[0] == tid;
      }
    } else if w == [] {
      assert WalksFrom(reg, pairs, avoid, tid)[0] == [];
    } else {
      var edges := Edges(reg, pairs, tid);
      InWalksVia(reg, pairs, avoid + {tid}, edges, w);
      if w[0] < |edges| {
        SimpleStep(reg, pairs, avoid, tid, w);
        WalksAreSimple(reg, pairs, avoid + {tid}, edges[w[0]].target, w[1..]);
      }
    }
  }

  /** No walk is gathered twice. */
  lemma {:induction false} WalksAreDistinct(reg: Registry, pairs: seq<(TypeId, TypeId)>, avoid: set<TypeId>,
                                        tid: TypeId)
    ensures NoDup(WalksFrom(reg, pairs, avoid, tid))
    decreases AllTypes() - avoid, 0
  {
    if tid !in avoid {
      assert tid in AllTypes() - avoid;
      var edges := Edges(reg, pairs, tid);
      ViaAreDistinct(reg, pairs, avoid + {tid}, edges);
      InWalksVia(reg, pairs, avoid + {tid}, edges, []);
    }
  }

  lemma {:induction false} ViaAreDistinct(reg: Registry, pairs: seq<(TypeId, TypeId)>, avoid: set<TypeId>,
                                        edges: seq<Edge>)
    ensures NoDup(WalksVia(reg, pairs, avoid, edges))
    decreases AllTypes() - avoid, |edges|
  {
    hide WalksFrom;
    if edges != [] {
      var n := |edges| - 1;
      ViaAreDistinct(reg, pairs, avoid, edges[..n]);
      WalksAreDistinct(reg, pairs, avoid, edges[n].target);
      var early, late := WalksVia(reg, pairs, avoid, edges[..n]), WalksFrom(reg, pairs, avoid, edges[n].target);
      forall i, j | 0 <= i < |early| && 0 <= j < |late|
        ensures early[i] != Prepend(n, late)[j]
      {
        assert early[i] in early;
        InWalksVia(reg, pairs, avoid, edges[..n], early[i]);
      }
      forall i, j | 0 <= i < j < |late|
        ensures Prepend(n, late)[i] != Prepend(n, late)[j]
      {
        assert Prepend(n, late)[i][1..] == late[i] && Prepend(n, late)[j][1..] == late[j];
      }
    }
  }

  // ---- Paths as text ----

  ghost function PathString(path: seq<string>): string {
    if path == [] then "" else PathString(path[..|path| - 1]) + "/" + path[|path| - 1]
  }

  /** Where the i-th label starts in the text: each label before it takes its length and a slash. */
  ghost function Offset(path: seq<string>, i: nat): nat
    requires i <= |path|
  {
    if i == 0 then 0 else Offset(path, i - 1) + 1 + |path[i - 1]|
  }

  /** From place o on, the text has a slash and the label. */
  ghost predicate LabelAt(text: string, o: nat, name: string) {
    o + 1 + |name| <= |text| && text[o] == '/' && text[o + 1..o + 1 + |name|] == name
  }

  ghost predicate HasLabel(text: string, path: seq<string>, i: nat)
    requires i < |path|
  {
    LabelAt(text, Offset(path, i), path[i])
  }

  /** The text is each label of the path with a slash before it, and nothing else. */
  ghost predicate IsPathText(text: string, path: seq<string>) {
    |text| == Offset(path, |path|) && forall i :: 0 <= i < |path| ==> HasLabel(text, path, i)
  }

  lemma OffsetStep(path: seq<string>, i: nat)
    requires i < |path|
    ensures Offset(path, i + 1) == Offset(path, i) + 1 + |path[i]| && Offset(path, 0) == 0
  {
  }

  lemma {:induction false} OffsetOfPrefix(path: seq<string>, i: nat, n: nat)
    requires i <= n <= |path|
    ensures Offset(path[..n], i) == Offset(path, i)
  {
    if i > 0 {
      OffsetOfPrefix(path, i - 1, n);
    }
  }

  lemma {:induction false} OffsetGrows(path: seq<string>, i: nat, n: nat)
    requires i <= n <= |path|
    ensures Offset(path, i) <= Offset(path, n)
    decreases n
  {
    if i < n {
      OffsetGrows(path, i, n - 1);
    }
  }

  lemma LabelOfPrefix(text: string, o: nat, name: string, end: nat)
    requires o + 1 + |name| <= end <= |text|
    ensures LabelAt(text[..end], o, name) <==> LabelAt(text, o, name)
  {
    assert text[..end][o + 1..o + 1 + |name|] == text[o + 1..o + 1 + |name|];
  }

  lemma LabelInPrefix(text: string, path: seq<string>, n: nat, i: nat)
    requires i < n < |path| && Offset(path, n) <= |text|
    ensures HasLabel(text[..Offset(path, n)], path[..n], i) <==> HasLabel(text, path, i)
  {
    hide LabelAt;
    hide Offset;
    OffsetStep(path, i);
    OffsetOfPrefix(path, i, n);
    OffsetGrows(path, i + 1, n);
    LabelOfPrefix(text, Offset(path, i), path[i], Offset(path, n));
  }

  /** The text ends in a slash, which stands at o, and the label. */
  ghost predicate EndsIn(text: string, o: nat, name: string) {
    o <= |text| && text == text[..o] + "/" + name
  }

  lemma LastLabel(text: string, o: nat, name: string)
    ensures EndsIn(text, o, name) <==> LabelAt(text, o, name) && |text| == o + 1 + |name|
  {
    if o + 1 + |name| == |text| {
      assert text == text[..o] + [text[o]] + text[o + 1..];
      var other := text[..o] + "/" + name;
      assert other[o] == '/' && other[o + 1..] == name;
    }
  }

  /** A text is the path's exactly when it is the text of all labels but the last, a slash and the last label. */
  lemma PathTextStep(text: string, path: seq<string>, n: nat, o: nat)
    requires |path| == n + 1 && o == Offset(path, n)
    ensures IsPathText(text, path) <==> EndsIn(text, o, path[n]) && IsPathText(text[..o], path[..n])
  {
    OffsetStep(path, n);
    OffsetOfPrefix(path, n, n);
    LastLabel(text, o, path[n]);
    assert HasLabel(text, path, n) <==> LabelAt(text, o, path[n]);
    hide EndsIn;
    hide Offset;
    hide LabelAt;
    hide HasLabel;
    if |text| == o + 1 + |path[n]| {
      forall i | 0 <= i < n
        ensures HasLabel(text[..o], path[..n], i) <==> HasLabel(text, path, i)
      {
        LabelInPrefix(text, path, n, i);
      }
    }
  }

  lemma {:induction false} PathStringIsText(path: seq<string>, text: string)
    ensures IsPathText(text, path) <==> text == PathString(path)
    decreases |path|
  {
    if path != [] {
      var n, o := |path| - 1, Offset(path, |path| - 1);
      var init := PathString(path[..n]);
      assert PathString(path) == init + "/" + path[n];
      assert |init| == o by {
        PathStringIsText(path[..n], init);
        OffsetOfPrefix(path, n, n);
        hide PathString;
        hide Offset;
      }
      hide *;
      PathTextStep(text, path, n, o);
      if o <= |text| {
        PathStringIsText(path[..n], text[..o]);
      }
      SameEnd(text, o, path[n], init);
    }
  }

  lemma SameEnd(text: string, o: nat, name: string, init: string)
    requires |init| == o
    ensures text == init + "/" + name <==> EndsIn(text, o, name) && text[..o] == init
  {
    if text == init + "/" + name {
      assert text[..o] == init;
    }
  }

  ghost predicate AreWalks(reg: Registry, pairs: seq<(TypeId, TypeId)>, root: TypeId, ws: seq<seq<nat>>) {
    forall i :: 0 <= i < |ws| ==> IsWalk(reg, pairs, root, ws[i])
  }

  /** What is recorded for a walk from root when path is the current path at root. */
  ghost function Record(reg: Registry, pairs: seq<(TypeId, TypeId)>, root: TypeId, path: seq<string>,
                        w: seq<nat>): (TypeId, string)
    requires IsWalk(reg, pairs, root, w)
  {
    (End(reg, pairs, root, w), PathString(path + Labels(reg, pairs, root, w)))
  }

  ghost function Records(reg: Registry, pairs: seq<(TypeId, TypeId)>, root: TypeId, path: seq<string>,
                         ws: seq<seq<nat>>): (r: seq<(TypeId, string)>)
    requires AreWalks(reg, pairs, root, ws)
    ensures |r| == |ws| && forall i :: 0 <= i < |ws| ==> r[i] == Record(reg, pairs, root, path, ws[i])
  {
    seq(|ws|, i requires 0 <= i < |ws| => Record(reg, pairs, root, path, ws[i]))
  }

  lemma WalksAreWalks(reg: Registry, pairs: seq<(TypeId, TypeId)>, avoid: set<TypeId>, tid: TypeId)
    ensures AreWalks(reg, pairs, tid, WalksFrom(reg, pairs, avoid, tid))
  {
    var ws := WalksFrom(reg, pairs, avoid, tid);
    forall i | 0 <= i < |ws| ensures IsWalk(reg, pairs, tid, ws[i]) {
      assert ws[i] in ws;
      WalksAreSimple(reg, pairs, avoid, tid, ws[i]);
    }
  }

  /** The records of the walks that start with one of the given first edges of tid. */
  ghost function RecordsVia(reg: Registry, pairs: seq<(TypeId, TypeId)>, avoid: set<TypeId>, path: seq<string>,
                            edges: seq<Edge>): seq<(TypeId, string)>
  {
    if edges == [] then [] else
      var e := edges[|edges| - 1];
      WalksAreWalks(reg, pairs, avoid, e.target);
      RecordsVia(reg, pairs, avoid, path, edges[..|edges| - 1]) +
      Records(reg, pairs, e.target, path + [e.name], WalksFrom(reg, pairs, avoid, e.target))
  }

  lemma ViaAreWalks(reg: Registry, pairs: seq<(TypeId, TypeId)>, avoid: set<TypeId>, tid: TypeId, edges: seq<Edge>)
    requires edges <= Edges(reg, pairs, tid)
    ensures AreWalks(reg, pairs, tid, WalksVia(reg, pairs, avoid, edges))
  {
    hide Edges;
    var ws := WalksVia(reg, pairs, avoid, edges);
    forall i | 0 <= i < |ws| ensures IsWalk(reg, pairs, tid, ws[i]) {
      var w := ws[i];
      assert w in ws;
      InWalksVia(reg, pairs, avoid, edges, w);
      WalksAreSimple(reg, pairs, avoid, edges[w[0]].target, w[1..]);
    }
  }

  lemma RecordStep(reg: Registry, pairs: seq<(TypeId, TypeId)>, tid: TypeId, path: seq<string>, n: nat, w: seq<nat>)
    requires n < |Edges(reg, pairs, tid)| && IsWalk(reg, pairs, Edges(reg, pairs, tid)[n].target, w)
    ensures IsWalk(reg, pairs, tid, [n] + w)
    ensures var e := Edges(reg, pairs, tid)[n];
            Record(reg, pairs, tid, path, [n] + w) == Record(reg, pairs, e.target, path + [e.name], w)
  {
    hide Edges;
    hide PathString;
    var e := Edges(reg, pairs, tid)[n];
    assert ([n] + w)[1..] == w;
    assert path + Labels(reg, pairs, tid, [n] + w) == path + [e.name] + Labels(reg, pairs, e.target, w);
  }

  /** Recording along the edges one after the other is recording the walks through them. */
  lemma {:induction false} RecordsAlongEdges(reg: Registry, pairs: seq<(TypeId, TypeId)>, avoid: set<TypeId>,
                                        tid: TypeId, path: seq<string>, edges: seq<Edge>)
    requires edges <= Edges(reg, pairs, tid)
    requires AreWalks(reg, pairs, tid, WalksVia(reg, pairs, avoid, edges))
    ensures RecordsVia(reg, pairs, avoid, path, edges) ==
            Records(reg, pairs, tid, path, WalksVia(reg, pairs, avoid, edges))
    decreases |edges|
  {
    hide Edges;
    hide WalksFrom;
    if edges != [] {
      var n, e := |edges| - 1, edges[|edges| - 1];
      var early, late := WalksVia(reg, pairs, avoid, edges[..n]), WalksFrom(reg, pairs, avoid, e.target);
      ViaAreWalks(reg, pairs, avoid, tid, edges[..n]);
      RecordsAlongEdges(reg, pairs, avoid, tid, path, edges[..n]);
      WalksAreWalks(reg, pairs, avoid, e.target);
      forall i | 0 <= i < |late|
        ensures Record(reg, pairs, tid, path, [n] + late[i]) == Record(reg, pairs, e.target, path + [e.name], late[i])
      {
        RecordStep(reg, pairs, tid, path, n, late[i]);
      }
      hide Record;
    }
  }

  lemma RecordsCons(reg: Registry, pairs: seq<(TypeId, TypeId)>, tid: TypeId, path: seq<string>, ws: seq<seq<nat>>)
    requires AreWalks(reg, pairs, tid, ws)
    ensures AreWalks(reg, pairs, tid, [[]] + ws)
    ensures Records(reg, pairs, tid, path, [[]] + ws) == [(tid, PathString(path))] + Records(reg, pairs, tid, path, ws)
  {
    hide Edges;
    hide PathString;
    assert path + Labels(reg, pairs, tid, []) == path;
    assert Record(reg, pairs, tid, path, []) == (tid, PathString(path));
    hide Record;
  }

  /** All records of the walks from tid: the empty walk first, then edge by edge. */
  lemma RecordsFrom(reg: Registry, pairs: seq<(TypeId, TypeId)>, avoid: set<TypeId>, tid: TypeId, path: seq<string>)
    requires tid !in avoid
    ensures AreWalks(reg, pairs, tid, WalksFrom(reg, pairs, avoid, tid))
    ensures Records(reg, pairs, tid, path, WalksFrom(reg, pairs, avoid, tid)) ==
            [(tid, PathString(path))] + RecordsVia(reg, pairs, avoid + {tid}, path, Edges(reg, pairs, tid))
  {
    var edges := Edges(reg, pairs, tid);
    assert WalksFrom(reg, pairs, avoid, tid) == [[]] + WalksVia(reg, pairs, avoid + {tid}, edges);
    hide *;
    WalksAreWalks(reg, pairs, avoid, tid);
    ViaAreWalks(reg, pairs, avoid + {tid}, tid, edges);
    RecordsAlongEdges(reg, pairs, avoid + {tid}, tid, path, edges);
    RecordsCons(reg, pairs, tid, path, WalksVia(reg, pairs, avoid + {tid}, edges));
  }

  // ---- The class ----

  lemma AttributeStep(reg: Registry, attributes: seq<Attribute>, i: nat)
    requires i < |attributes|
    ensures var edges, next := AttributeEdges(reg, attributes[..i]), AttributeEdge(reg, attributes[i]);
            AttributeEdges(reg, attributes[..i + 1]) == if next.Some? then edges + [next.value] else edges
  {
    PickedStep(attributes, i, attribute => AttributeEdge(reg, attribute));
  }

  lemma ChildStep(reg: Registry, before: seq<Edge>, types: seq<TypeId>, j: nat, tid: TypeId)
    requires j < |types|
    ensures var edges, next := before + ChildEdges(reg, types[..j], tid), ChildEdge(reg, tid, types[j]);
            before + ChildEdges(reg, types[..j + 1], tid) == if next.Some? then edges + [next.value] else edges
  {
    PickedStep(types, j, child => ChildEdge(reg, tid, child));
  }

  lemma AggregateStep(reg: Registry, before: seq<Edge>, pairs: seq<(TypeId, TypeId)>, k: nat, tid: TypeId)
    requires k < |pairs|
    ensures var edges, next := before + AggregateEdges(reg, pairs[..k], tid), AggregateEdge(reg, tid, pairs[k]);
            before + AggregateEdges(reg, pairs[..k + 1], tid) == if next.Some? then edges + [next.value] else edges
  {
    PickedStep(pairs, k, pair => AggregateEdge(reg, tid, pair));
  }

  lemma NoEdges(reg: Registry, pairs: seq<(TypeId, TypeId)>, avoid: set<TypeId>, path: seq<string>, tid: TypeId)
    ensures RecordsVia(reg, pairs, avoid, path, []) == []
    ensures AttributeEdges(reg, []) == [] && ChildEdges(reg, [], tid) == [] && AggregateEdges(reg, [], tid) == []
  {
  }

  class StaticInformation {
    const reg: Registry
    var output: seq<(TypeId, string)>
    var currentPath: seq<string>
    var alreadyProcessed: seq<TypeId>
    var aggregates: seq<(TypeId, TypeId)>
    var noTids: seq<string>

    constructor (reg: Registry)
      ensures this.reg == reg
      ensures output == [] && currentPath == [] && alreadyProcessed == [] && aggregates == [] && noTids == []
    {
      this.reg := reg;
      output, currentPath, alreadyProcessed, aggregates, noTids := [], [], [], [], [];
    }

    method RecordAggregationInfo(a: string, b: string)
      modifies this`aggregates, this`noTids
      ensures aggregates == old(aggregates) +
        if reg.lookup(a) != [] && reg.lookup(b) != [] then [(reg.lookup(a)[0], reg.lookup(b)[0])] else []
      ensures noTids == old(noTids) +
        if reg.lookup(a) == [] then [a] else if reg.lookup(b) == [] then [b] else []
    {
      var aTid := reg.lookup(a);
      if aTid == [] {
        noTids := noTids + [a];
        return;
      }
      var bTid := reg.lookup(b);
      if bTid == [] {
        noTids := noTids + [b];
        return;
      }
      aggregates := aggregates + [(aTid[0], bTid[0])];
    }

    method GetCurrentPath() returns (s: string)
      ensures IsPathText(s, currentPath)
      ensures s == PathString(currentPath)
    {
      s := "";
      for i := 0 to |currentPath|
        invariant s == PathString(currentPath[..i])
      {
        assert currentPath[..i + 1][..i] == currentPath[..i];
        s := s + "/" + currentPath[i];
      }
      assert currentPath[..|currentPath|] == currentPath;
      PathStringIsText(currentPath, s);
    }

    method RecordOutput(tid: TypeId)
      modifies this`output
      ensures output == old(output) + [(tid, PathString(currentPath))]
    {
      var path := GetCurrentPath();
      output := output + [(tid, path)];
    }

    method HasAlreadyBeenProcessed(tid: TypeId) returns (found: bool)
      ensures found <==> tid in alreadyProcessed
    {
      for i := 0 to |alreadyProcessed|
        invariant tid !in alreadyProcessed[..i]
      {
        if alreadyProcessed[i] == tid {
          return true;
        }
      }
      return false;
    }

    /** Push, gather, pop: along one more edge of tid, when the earlier edges have been gathered. */
    method Descend(tid: TypeId, name: string, target: TypeId, ghost start: seq<(TypeId, string)>,
                   ghost edges: seq<Edge>)
      requires tid !in alreadyProcessed
      requires output == start +
        RecordsVia(reg, aggregates, Elems(alreadyProcessed) + {tid}, currentPath, edges)
      modifies this`output, this`currentPath, this`alreadyProcessed
      ensures currentPath == old(currentPath) && alreadyProcessed == old(alreadyProcessed)
      ensures output == start +
        RecordsVia(reg, aggregates, Elems(alreadyProcessed) + {tid}, currentPath, edges + [Edge(name, target)])
      decreases AllTypes() - (Elems(alreadyProcessed) + {tid}), 1
    {
      hide RecordsVia;
      hide WalksFrom;
      hide Records;
      hide AreWalks;
      hide TypesBelow;
      hide AllTypes;
      hide PathString;
      ghost var path, avoid := currentPath, Elems(alreadyProcessed) + {tid};
      RecordsStep(reg, aggregates, avoid, path, edges, Edge(name, target));
      ghost var early := RecordsVia(reg, aggregates, avoid, path, edges);
      ghost var late := Records(reg, aggregates, target, path + [name], WalksFrom(reg, aggregates, avoid, target));
      assert start + early + late == start + (early + late);
      assert Elems(alreadyProcessed + [tid]) == avoid;
      hide Elems;
      currentPath := currentPath + [name];
      alreadyProcessed := alreadyProcessed + [tid];
      DoGather(target);
      alreadyProcessed := alreadyProcessed[..|alreadyProcessed| - 1];
      currentPath := currentPath[..|currentPath| - 1];
      assert currentPath == path && alreadyProcessed == old(alreadyProcessed);
    }

    method DoGather(tid: TypeId)
      modifies this`output, this`currentPath, this`alreadyProcessed
      ensures currentPath == old(currentPath) && alreadyProcessed == old(alreadyProcessed)
      ensures var walks := WalksFrom(reg, aggregates, Elems(alreadyProcessed), tid);
        AreWalks(reg, aggregates, tid, walks) &&
        output == old(output) + Records(reg, aggregates, tid, currentPath, walks)
      decreases AllTypes() - Elems(alreadyProcessed), 0
    {
      hide WalksFrom;
      hide Records;
      hide RecordsVia;
      hide AttributeEdges;
      hide ChildEdges;
      hide AggregateEdges;
      hide PathString;
      hide AreWalks;
      hide TypesBelow;
      var processed := HasAlreadyBeenProcessed(tid);
      if processed {
        NothingToGather(reg, aggregates, Elems(alreadyProcessed), tid, currentPath);
        return;
      }
      ghost var done := Elems(alreadyProcessed);
      ghost var avoid := done + {tid};
      assert tid in AllTypes() - done;
      RecordsFrom(reg, aggregates, done, tid, currentPath);
      RecordOutput(tid);
      ghost var start := output;
      var attributes := reg.attributes(tid);
      NoEdges(reg, aggregates, avoid, currentPath, tid);
      var i := 0;
      assert attributes[..0] == [];
      while i < |attributes|
        invariant 0 <= i <= |attributes|
        invariant currentPath == old(currentPath) && alreadyProcessed == old(alreadyProcessed)
        invariant output == start +
          RecordsVia(reg, aggregates, avoid, currentPath, AttributeEdges(reg, attributes[..i]))
      {
        AttributeStep(reg, attributes, i);
        var info := attributes[i];
        i := i + 1;
        if info.Pointer? {
          if reg.objectType == info.pointee {
            continue;
          }
          Descend(tid, info.name, info.pointee, start, AttributeEdges(reg, attributes[..i - 1]));
          continue;
        }
        if info.Container? {
          Descend(tid, info.name + "/[i]", info.item, start, AttributeEdges(reg, attributes[..i - 1]));
          continue;
        }
      }
      assert attributes[..i] == attributes;
      ghost var edges := AttributeEdges(reg, attributes);
      var j := 0;
      assert reg.registered[..0] == [] && edges + [] == edges;
      while j < |reg.registered|
        invariant 0 <= j <= |reg.registered|
        invariant currentPath == old(currentPath) && alreadyProcessed == old(alreadyProcessed)
        invariant output == start +
          RecordsVia(reg, aggregates, avoid, currentPath, edges + ChildEdges(reg, reg.registered[..j], tid))
      {
        ChildStep(reg, edges, reg.registered, j, tid);
        var child := reg.registered[j];
        if reg.isChildOf(child, tid) {
          var childName := "$" + reg.nameOf(child);
          Descend(tid, childName, child, start, edges + ChildEdges(reg, reg.registered[..j], tid));
        }
        j := j + 1;
      }
      assert reg.registered[..j] == reg.registered;
      edges := edges + ChildEdges(reg, reg.registered, tid);
      var k := 0;
      assert aggregates[..0] == [] && edges + [] == edges;
      while k < |aggregates|
        invariant 0 <= k <= |aggregates|
        invariant currentPath == old(currentPath) && alreadyProcessed == old(alreadyProcessed)
        invariant output == start +
          RecordsVia(reg, aggregates, avoid, currentPath, edges + AggregateEdges(reg, aggregates[..k], tid))
      {
        AggregateStep(reg, edges, aggregates, k, tid);
        var (first, second) := aggregates[k];
        if first == tid || second == tid {
          var other := 0;
          if first == tid {
            other := second;
          }
          if second == tid {
            other := first;
          }
          var name := "$" + reg.nameOf(other);
          Descend(tid, name, other, start, edges + AggregateEdges(reg, aggregates[..k], tid));
        }
        k := k + 1;
      }
      assert aggregates[..k] == aggregates;
    }

    /** Gathering from empty stacks. The final uniquifying step works on a copy of the output. */
    method Gather(tid: TypeId)
      modifies this`output, this`currentPath, this`alreadyProcessed
      ensures currentPath == old(currentPath) && alreadyProcessed == old(alreadyProcessed)
      ensures var walks := WalksFrom(reg, aggregates, Elems(alreadyProcessed), tid);
        AreWalks(reg, aggregates, tid, walks) &&
        output == old(output) + Records(reg, aggregates, tid, currentPath, walks)
    {
      DoGather(tid);
    }

    method Get(tid: TypeId) returns (paths: seq<string>)
      ensures paths == PathsOf(output, tid)
    {
      paths := [];
      for i := 0 to |output|
        invariant paths == PathsOf(output[..i], tid)
      {
        PickedStep(output, i, record => PathFor(record, tid));
        var tmp := output[i];
        if tmp.0 == tid {
          paths := paths + [tmp.1];
        }
      }
      assert output[..|output|] == output;
    }
  }

  lemma NothingToGather(reg: Registry, pairs: seq<(TypeId, TypeId)>, avoid: set<TypeId>, tid: TypeId, path: seq<string>)
    requires tid in avoid
    ensures AreWalks(reg, pairs, tid, WalksFrom(reg, pairs, avoid, tid))
    ensures Records(reg, pairs, tid, path, WalksFrom(reg, pairs, avoid, tid)) == []
  {
  }

  lemma RecordsStep(reg: Registry, pairs: seq<(TypeId, TypeId)>, avoid: set<TypeId>, path: seq<string>,
                    edges: seq<Edge>, e: Edge)
    ensures AreWalks(reg, pairs, e.target, WalksFrom(reg, pairs, avoid, e.target))
    ensures RecordsVia(reg, pairs, avoid, path, edges + [e]) == RecordsVia(reg, pairs, avoid, path, edges) +
            Records(reg, pairs, e.target, path + [e.name], WalksFrom(reg, pairs, avoid, e.target))
  {
    WalksAreWalks(reg, pairs, avoid, e.target);
    assert (edges + [e])[..|edges|] == edges;
  }

  /** The recorded paths of one type, in order. */
  function PathsOf(output: seq<(TypeId, string)>, tid: TypeId): seq<string> {
    Picked(output, record => PathFor(record, tid))
  }

  function PathFor(record: (TypeId, string), tid: TypeId): Option<string> {
    if record.0 == tid then Some(record.1) else None
  }

  lemma InPathsOf(output: seq<(TypeId, string)>, tid: TypeId, p: string)
    ensures p in PathsOf(output, tid) <==> (tid, p) in output
  {
    InPicked(output, record => PathFor(record, tid), p);
    if (tid, p) in output {
      var i :| 0 <= i < |output| && output[i] == (tid, p);
    }
  }

  /** Each record of the type gives its path, once and in order. */
  lemma PathsInOrder(output: seq<(TypeId, string)>, tid: TypeId) returns (at: seq<nat>)
    ensures InOrder(output, (record: (TypeId, string)) => if record.0 == tid then Some(record.1) else None,
                    PathsOf(output, tid), at)
  {
    at := PickedInOrder(output, record => PathFor(record, tid));
  }

  /** p is the text of a walk from root to tid that repeats no type. */
  ghost predicate LeadsTo(reg: Registry, pairs: seq<(TypeId, TypeId)>, root: TypeId, tid: TypeId, p: string) {
    exists w :: SimpleWalk(reg, pairs, {}, root, w) && End(reg, pairs, root, w) == tid &&
                IsPathText(p, Labels(reg, pairs, root, w))
  }

  lemma RecordsAreExact(reg: Registry, pairs: seq<(TypeId, TypeId)>, root: TypeId, tid: TypeId, p: string)
    ensures AreWalks(reg, pairs, root, WalksFrom(reg, pairs, {}, root))
    ensures (tid, p) in Records(reg, pairs, root, [], WalksFrom(reg, pairs, {}, root)) <==>
            LeadsTo(reg, pairs, root, tid, p)
  {
    hide WalksFrom;
    hide IsWalk;
    hide End;
    hide Labels;
    hide PathString;
    WalksAreWalks(reg, pairs, {}, root);
    var walks := WalksFrom(reg, pairs, {}, root);
    var records := Records(reg, pairs, root, [], walks);
    forall w: seq<nat> ensures w in walks <==> SimpleWalk(reg, pairs, {}, root, w) {
      WalksAreSimple(reg, pairs, {}, root, w);
    }
    forall w | IsWalk(reg, pairs, root, w)
      ensures Record(reg, pairs, root, [], w) == (End(reg, pairs, root, w), PathString(Labels(reg, pairs, root, w)))
    {
      assert [] + Labels(reg, pairs, root, w) == Labels(reg, pairs, root, w);
    }
    hide IsPathText;
    if (tid, p) in records {
      var i :| 0 <= i < |records| && records[i] == (tid, p);
      assert walks[i] in walks;
      PathStringIsText(Labels(reg, pairs, root, walks[i]), p);
    }
    if w :| SimpleWalk(reg, pairs, {}, root, w) && End(reg, pairs, root, w) == tid &&
            IsPathText(p, Labels(reg, pairs, root, w)) {
      PathStringIsText(Labels(reg, pairs, root, w), p);
      var i :| 0 <= i < |walks| && walks[i] == w;
      assert records[i] == (tid, p);
    }
  }

  ghost predicate Reaches(reg: Registry, pairs: seq<(TypeId, TypeId)>, root: TypeId, tid: TypeId) {
    exists w :: IsWalk(reg, pairs, root, w) && End(reg, pairs, root, w) == tid
  }

  lemma {:induction false} Suffix(reg: Registry, pairs: seq<(TypeId, TypeId)>, root: TypeId, w: seq<nat>, j: nat)
    requires IsWalk(reg, pairs, root, w) && j <= |w|
    ensures var vs := Visits(reg, pairs, root, w);
            IsWalk(reg, pairs, vs[j], w[j..]) && Visits(reg, pairs, vs[j], w[j..]) == vs[j..]
    decreases j
  {
    hide Edges;
    if j == 0 {
      assert w[0..] == w && Visits(reg, pairs, root, w)[0] == root;
    } else {
      var next := Edges(reg, pairs, root)[w[0]].target;
      var vs, rest := Visits(reg, pairs, root, w), Visits(reg, pairs, next, w[1..]);
      assert vs == [root] + rest;
      hide *;
      Suffix(reg, pairs, next, w[1..], j - 1);
      assert w[1..][j - 1..] == w[j..];
      assert vs[j] == rest[j - 1] && vs[j..] == rest[j - 1..];
    }
  }

  lemma NoDupFrom<T>(s: seq<T>, j: nat)
    requires NoDup(s) && j <= |s|
    ensures NoDup(s[j..])
  {
  }

  /** Whatever a walk reaches, a walk that repeats no type reaches: a round trip can be left out. */
  lemma {:induction false} WalkToSimple(reg: Registry, pairs: seq<(TypeId, TypeId)>, root: TypeId, w: seq<nat>)
    returns (v: seq<nat>)
    requires IsWalk(reg, pairs, root, w)
    ensures SimpleWalk(reg, pairs, {}, root, v) && End(reg, pairs, root, v) == End(reg, pairs, root, w)
    decreases |w|
  {
    hide Edges;
    if w == [] {
      return [];
    }
    hide NoDup;
    var next := Edges(reg, pairs, root)[w[0]].target;
    var rest := WalkToSimple(reg, pairs, next, w[1..]);
    var vs := Visits(reg, pairs, next, rest);
    assert Visits(reg, pairs, root, w) == [root] + Visits(reg, pairs, next, w[1..]);
    if root in vs {
      var j :| 0 <= j < |vs| && vs[j] == root;
      Suffix(reg, pairs, next, rest, j);
      v := rest[j..];
      NoDupFrom(vs, j);
    } else {
      v := [w[0]] + rest;
      assert v[1..] == rest && Visits(reg, pairs, root, v) == [root] + vs;
      NoDupCons(root, vs);
    }
  }

  /** A type without a path from the root is one that no walk from the root reaches. */
  lemma LeadsToAllReached(reg: Registry, pairs: seq<(TypeId, TypeId)>, root: TypeId, tid: TypeId)
    ensures Reaches(reg, pairs, root, tid) <==> exists p :: LeadsTo(reg, pairs, root, tid, p)
  {
    if Reaches(reg, pairs, root, tid) {
      var w :| IsWalk(reg, pairs, root, w) && End(reg, pairs, root, w) == tid;
      var v := WalkToSimple(reg, pairs, root, w);
      PathStringIsText(Labels(reg, pairs, root, v), PathString(Labels(reg, pairs, root, v)));
      assert LeadsTo(reg, pairs, root, tid, PathString(Labels(reg, pairs, root, v)));
    }
  }

  // ---- The typical aggregations ----

  function Aggregate(reg: Registry, names: (string, string)): Option<(TypeId, TypeId)> {
    if reg.lookup(names.0) != [] && reg.lookup(names.1) != []
    then Some((reg.lookup(names.0)[0], reg.lookup(names.1)[0])) else None
  }

  function Aggregates(reg: Registry, names: seq<(string, string)>): seq<(TypeId, TypeId)> {
    Picked(names, pair => Aggregate(reg, pair))
  }

  ghost function RootRecords(reg: Registry, pairs: seq<(TypeId, TypeId)>, root: TypeId): seq<(TypeId, string)> {
    WalksAreWalks(reg, pairs, {}, root);
    Records(reg, pairs, root, [], WalksFrom(reg, pairs, {}, root))
  }

  /** What gathering the roots one after the other records. */
  ghost function Gathered(reg: Registry, pairs: seq<(TypeId, TypeId)>, roots: seq<TypeId>): seq<(TypeId, string)> {
    if roots == [] then [] else
      Gathered(reg, pairs, roots[..|roots| - 1]) + RootRecords(reg, pairs, roots[|roots| - 1])
  }

  /** Gathering roots from empty stacks gives a type exactly the texts of the simple walks to it. */
  lemma {:induction false} PathsAreExact(reg: Registry, pairs: seq<(TypeId, TypeId)>, roots: seq<TypeId>,
                                         tid: TypeId, p: string)
    ensures p in PathsOf(Gathered(reg, pairs, roots), tid) <==>
            exists root :: root in roots && LeadsTo(reg, pairs, root, tid, p)
  {
    hide WalksFrom;
    hide Records;
    hide PathsOf;
    hide LeadsTo;
    hide AreWalks;
    InPathsOf(Gathered(reg, pairs, roots), tid, p);
    if roots != [] {
      var n := |roots| - 1;
      PathsAreExact(reg, pairs, roots[..n], tid, p);
      InPathsOf(Gathered(reg, pairs, roots[..n]), tid, p);
      RecordsAreExact(reg, pairs, roots[n], tid, p);
      assert roots == roots[..n] + [roots[n]];
    }
  }

  /** A type has no path exactly when no walk from a root reaches it. */
  lemma NoPathMeansUnreached(reg: Registry, pairs: seq<(TypeId, TypeId)>, roots: seq<TypeId>, tid: TypeId)
    ensures PathsOf(Gathered(reg, pairs, roots), tid) == [] <==>
            forall root :: root in roots ==> !Reaches(reg, pairs, root, tid)
  {
    hide *;
    var paths := PathsOf(Gathered(reg, pairs, roots), tid);
    if paths != [] {
      PathsAreExact(reg, pairs, roots, tid, paths[0]);
      var root :| root in roots && LeadsTo(reg, pairs, root, tid, paths[0]);
      LeadsToAllReached(reg, pairs, root, tid);
    } else {
      forall root | root in roots ensures !Reaches(reg, pairs, root, tid) {
        LeadsToAllReached(reg, pairs, root, tid);
        if p :| LeadsTo(reg, pairs, root, tid, p) {
          PathsAreExact(reg, pairs, roots, tid, p);
        }
      }
    }
  }

  lemma AggregatesStep(reg: Registry, names: seq<(string, string)>, i: nat)
    requires i < |names|
    ensures var (a, b) := names[i];
            Aggregates(reg, names[..i + 1]) == Aggregates(reg, names[..i]) +
            if reg.lookup(a) != [] && reg.lookup(b) != [] then [(reg.lookup(a)[0], reg.lookup(b)[0])] else []
  {
    PickedStep(names, i, pair => Aggregate(reg, pair));
  }

  /** Each root adds its records behind those of the roots before it. */
  lemma {:induction false} GatheredConcat(reg: Registry, pairs: seq<(TypeId, TypeId)>, a: seq<TypeId>, b: seq<TypeId>)
    ensures Gathered(reg, pairs, a + b) == Gathered(reg, pairs, a) + Gathered(reg, pairs, b)
    decreases |b|
  {
    hide RootRecords;
    if b == [] {
      assert a + b == a;
    } else {
      var n := |b| - 1;
      GatheredConcat(reg, pairs, a, b[..n]);
      assert (a + b)[..|a + b| - 1] == a + b[..n];
    }
  }

  lemma GatheredStep(reg: Registry, pairs: seq<(TypeId, TypeId)>, roots: seq<TypeId>, i: nat)
    requires i < |roots|
    ensures AreWalks(reg, pairs, roots[i], WalksFrom(reg, pairs, {}, roots[i]))
    ensures Gathered(reg, pairs, roots[..i + 1]) ==
            Gathered(reg, pairs, roots[..i]) + Records(reg, pairs, roots[i], [], WalksFrom(reg, pairs, {}, roots[i]))
  {
    hide WalksFrom;
    hide Records;
    hide AreWalks;
    WalksAreWalks(reg, pairs, {}, roots[i]);
    assert roots[..i + 1][..i] == roots[..i];
  }

  method GetTypicalAggregations(reg: Registry, names: seq<(string, string)>, roots: seq<TypeId>)
    returns (info: StaticInformation)
    ensures fresh(info) && info.reg == reg && info.aggregates == Aggregates(reg, names)
    ensures info.output == Gathered(reg, info.aggregates, roots)
  {
    hide WalksFrom;
    hide Records;
    hide AreWalks;
    info := new StaticInformation(reg);
    assert Elems<TypeId>([]) == {};
    for i := 0 to |names|
      invariant fresh(info) && info.reg == reg && info.aggregates == Aggregates(reg, names[..i])
      invariant info.output == [] && info.currentPath == [] && info.alreadyProcessed == []
    {
      hide *;
      AggregatesStep(reg, names, i);
      info.RecordAggregationInfo(names[i].0, names[i].1);
    }
    assert names[..|names|] == names;
    for i := 0 to |roots|
      invariant fresh(info) && info.reg == reg && info.aggregates == Aggregates(reg, names)
      invariant info.output == Gathered(reg, info.aggregates, roots[..i])
      invariant info.currentPath == [] && info.alreadyProcessed == []
    {
      hide *;
      GatheredStep(reg, info.aggregates, roots, i);
      info.Gather(roots[i]);
    }
    assert roots[..|roots|] == roots;
  }

  /** From a fresh object: the paths given for a type are exactly the texts of the walks from a root to it
      that repeat no type, and none exactly when no walk from a root gets there. */
  method ConfigPaths(reg: Registry, names: seq<(string, string)>, roots: seq<TypeId>, tid: TypeId)
    returns (paths: seq<string>)
    ensures forall p :: p in paths <==>
      exists root :: root in roots && LeadsTo(reg, Aggregates(reg, names), root, tid, p)
    ensures paths == [] <==> forall root :: root in roots ==> !Reaches(reg, Aggregates(reg, names), root, tid)
  {
    hide *;
    var info := GetTypicalAggregations(reg, names, roots);
    paths := info.Get(tid);
    forall p
      ensures p in paths <==> exists root :: root in roots && LeadsTo(reg, Aggregates(reg, names), root, tid, p)
    {
      PathsAreExact(reg, Aggregates(reg, names), roots, tid, p);
    }
    NoPathMeansUnreached(reg, Aggregates(reg, names), roots, tid);
  }
}
