/** Kahn's algorithm over a mutable parent-count dictionary, flat and level by level. */
module TopSort {
  import opened Basics
  import opened DepGraph

  datatype SortResult<T> =
    | Sorted(answer: seq<T>)
    | CycleError(answer: seq<T>, numParents: map<T, int>, children: map<T, seq<T>>)

  datatype LevelsEnd<T> =
    | StopIteration
    | LevelsCycleError(numParents: map<T, int>, children: map<T, seq<T>>)

  /** How many pairs make an element outside done a parent of c. */
  ghost function InCount<T>(pairs: seq<(T, T)>, done: set<T>, c: T): nat {
    if pairs == [] then 0 else
      var (p, x) := pairs[|pairs| - 1];
      InCount(pairs[..|pairs| - 1], done, c) + if x == c && p !in done then 1 else 0
  }

  ghost function PairsInto<T>(pairs: seq<(T, T)>, done: set<T>, c: T): set<nat> {
    set i | 0 <= i < |pairs| && pairs[i].1 == c && pairs[i].0 !in done
  }

  lemma {:induction false} InCountCounts<T>(pairs: seq<(T, T)>, done: set<T>, c: T)
    ensures InCount(pairs, done, c) == |set i | 0 <= i < |pairs| && pairs[i].1 == c && pairs[i].0 !in done|
  {
    if pairs != [] {
      var n := |pairs| - 1;
      InCountCounts(pairs[..n], done, c);
      assert PairsInto(pairs, done, c) ==
             PairsInto(pairs[..n], done, c) + if pairs[n].1 == c && pairs[n].0 !in done then {n} else {};
    }
  }

  /** The children of p, one entry per pair, in pair order. */
  ghost function Kids<T>(pairs: seq<(T, T)>, p: T): seq<T> {
    if pairs == [] then [] else
      var (q, x) := pairs[|pairs| - 1];
      Kids(pairs[..|pairs| - 1], p) + if q == p then [x] else []
  }

  lemma LastPair<T(!new)>(pairs: seq<(T, T)>)
    requires pairs != []
    ensures forall p, c :: (p, c) in pairs <==> (p, c) in pairs[..|pairs| - 1] || (p, c) == pairs[|pairs| - 1]
  {
  }

  lemma {:induction false} InCountIsZero<T(!new)>(pairs: seq<(T, T)>, done: set<T>, c: T)
    ensures InCount(pairs, done, c) == 0 <==> forall p :: (p, c) in pairs ==> p in done
  {
    if pairs != [] {
      var rest, e := pairs[..|pairs| - 1], pairs[|pairs| - 1];
      InCountIsZero(rest, done, c);
      LastPair(pairs);
      if e.1 == c && e.0 !in done {
        assert (e.0, c) in pairs;
      } else {
        assert InCount(pairs, done, c) == InCount(rest, done, c);
        assert forall p :: (p, c) in pairs && (p, c) !in rest ==> p in done;
      }
    }
  }

  lemma {:induction false} KidsAreChildren<T(!new)>(pairs: seq<(T, T)>, p: T, c: T)
    ensures c in Kids(pairs, p) <==> (p, c) in pairs
  {
    if pairs != [] {
      KidsAreChildren(pairs[..|pairs| - 1], p, c);
      LastPair(pairs);
    }
  }

  /** Finishing p takes away exactly its own entries in every parent count. */
  lemma {:induction false} FinishParent<T>(pairs: seq<(T, T)>, done: set<T>, p: T, c: T)
    requires p !in done
    ensures InCount(pairs, done, c) == InCount(pairs, done + {p}, c) + multiset(Kids(pairs, p))[c]
  {
    if pairs != [] {
      FinishParent(pairs[..|pairs| - 1], done, p, c);
    }
  }

  lemma FinishParentAll<T(!new)>(pairs: seq<(T, T)>, done: set<T>, p: T)
    requires p !in done
    ensures forall c :: InCount(pairs, done, c) == InCount(pairs, done + {p}, c) + multiset(Kids(pairs, p))[c]
  {
  }

  // ---- The dictionaries ----

  /** numParents holds the elements not yet done, with the pairs from parents not yet done. */
  ghost predicate Counts<T>(pairs: seq<(T, T)>, all: set<T>, done: set<T>, numParents: map<T, int>) {
    && numParents.Keys == all - done
    && forall c :: c in numParents ==> numParents[c] == InCount(pairs, done, c)
  }

  /** children holds the child lists of the elements not yet done; elements without children may be missing. */
  ghost predicate ChildLists<T(!new)>(pairs: seq<(T, T)>, done: set<T>, children: map<T, seq<T>>) {
    && (forall p :: p in children ==> p !in done && children[p] == Kids(pairs, p))
    && (forall p :: p !in done && p !in children ==> Kids(pairs, p) == [])
  }

  ghost predicate NoneEmpty<T(!new)>(children: map<T, seq<T>>) {
    forall p :: p in children ==> children[p] != []
  }

  lemma OneMoreChild<T(!new)>(children: map<T, seq<T>>, parent: T, child: T)
    requires NoneEmpty(children)
    ensures NoneEmpty(children[parent := (if parent in children then children[parent] else []) + [child]])
  {
  }

  lemma OneListLess<T(!new)>(children: map<T, seq<T>>, parent: T)
    ensures NoneEmpty(children) ==> NoneEmpty(children - {parent})
  {
  }

  /** The elements a cycle keeps from being sorted. */
  ghost function Stuck<T(!new)>(pairs: seq<(T, T)>, all: set<T>): set<T> {
    set x | x in all && BelowCycle(pairs, x)
  }

  /** What a cycle error reports: the stuck elements, each with the number of pairs
      from stuck parents, and the child lists of exactly the stuck elements. */
  ghost predicate ReportsStuck<T(!new)>(pairs: seq<(T, T)>, all: set<T>, numParents: map<T, int>,
                                        children: map<T, seq<T>>) {
    && Counts(pairs, all, all - Stuck(pairs, all), numParents)
    && ChildLists(pairs, all - Stuck(pairs, all), children)
  }

  lemma AppendPair<T>(before: seq<(T, T)>, parent: T, child: T, c: T)
    ensures var now := before + [(parent, child)];
            && Nodes(now) == Nodes(before) + {parent, child}
            && InCount(now, {}, c) == InCount(before, {}, c) + if child == c then 1 else 0
  {
    assert (before + [(parent, child)])[..|before|] == before;
  }

  lemma UnknownHasNoParent<T(!new)>(pairs: seq<(T, T)>, c: T)
    ensures c !in Nodes(pairs) ==> InCount(pairs, {}, c) == 0
  {
    InCountIsZero(pairs, {}, c);
  }

  lemma CountPair<T(!new)>(before: seq<(T, T)>, parent: T, child: T, numParents: map<T, int>)
    requires Counts(before, Nodes(before), {}, numParents)
    ensures var now := before + [(parent, child)];
            var n1 := if parent in numParents then numParents else numParents[parent := 0];
            var n2 := if child in n1 then n1 else n1[child := 0];
            Counts(now, Nodes(now), {}, n2[child := n2[child] + 1])
  {
    hide InCount;
    hide Nodes;
    var now := before + [(parent, child)];
    AppendPair(before, parent, child, child);
    UnknownHasNoParent(before, parent);
    UnknownHasNoParent(before, child);
    forall c ensures InCount(now, {}, c) == InCount(before, {}, c) + if child == c then 1 else 0 {
      AppendPair(before, parent, child, c);
    }
  }

  lemma ListPair<T(!new)>(before: seq<(T, T)>, parent: T, child: T, children: map<T, seq<T>>)
    requires ChildLists(before, {}, children)
    ensures ChildLists(before + [(parent, child)], {},
                       children[parent := (if parent in children then children[parent] else []) + [child]])
  {
  }

  /** What one pair does to both dictionaries, as the loop writes it. */
  lemma TakePair<T(!new)>(pairlist: seq<(T, T)>, i: nat, numParents: map<T, int>, children: map<T, seq<T>>)
    requires i < |pairlist|
    requires Counts(pairlist[..i], Nodes(pairlist[..i]), {}, numParents) && ChildLists(pairlist[..i], {}, children)
    ensures var (parent, child) := pairlist[i];
            var n1 := if parent in numParents then numParents else numParents[parent := 0];
            var n2 := if child in n1 then n1 else n1[child := 0];
            Counts(pairlist[..i + 1], Nodes(pairlist[..i + 1]), {}, n2[child := n2[child] + 1])
    ensures var (parent, child) := pairlist[i];
            ChildLists(pairlist[..i + 1], {},
                       children[parent := (if parent in children then children[parent] else []) + [child]])
  {
    hide *;
    var (parent, child) := pairlist[i];
    assert pairlist[..i + 1] == pairlist[..i] + [(parent, child)];
    CountPair(pairlist[..i], parent, child, numParents);
    ListPair(pairlist[..i], parent, child, children);
  }

  method CountParents<T(==, !new)>(pairlist: seq<(T, T)>)
    returns (numParents: map<T, int>, children: map<T, seq<T>>)
    ensures Counts(pairlist, Nodes(pairlist), {}, numParents)
    ensures ChildLists(pairlist, {}, children) && NoneEmpty(children)
  {
    numParents, children := map[], map[];
    var i := 0;
    while i < |pairlist|
      invariant 0 <= i <= |pairlist|
      invariant Counts(pairlist[..i], Nodes(pairlist[..i]), {}, numParents)
      invariant ChildLists(pairlist[..i], {}, children) && NoneEmpty(children)
    {
      hide *;
      OneMoreChild(children, pairlist[i].0, pairlist[i].1);
      TakePair(pairlist, i, numParents, children);
      var (parent, child) := pairlist[i];
      if parent !in numParents {
        numParents := numParents[parent := 0];
      }
      if child !in numParents {
        numParents := numParents[child := 0];
      }
      numParents := numParents[child := numParents[child] + 1];
      children := children[parent := (if parent in children then children[parent] else []) + [child]];
      i := i + 1;
    }
    assert pairlist[..i] == pairlist;
  }

  /** The keys without a parent, in whatever order the dictionary lists them. */
  method WithoutParent<T(==)>(numParents: map<T, int>) returns (xs: seq<T>)
    ensures NoDup(xs)
    ensures forall x :: x in xs <==> x in numParents && numParents[x] == 0
  {
    xs := [];
    var todo := numParents.Keys;
    while todo != {}
      invariant todo <= numParents.Keys
      invariant NoDup(xs)
      invariant forall x :: x in xs <==> x in numParents && numParents[x] == 0 && x !in todo
      decreases todo
    {
      var x :| x in todo;
      todo := todo - {x};
      if numParents[x] == 0 {
        xs := xs + [x];
      }
    }
  }

  // ---- topsort ----

  /** Each element once, every parent before its children. */
  ghost predicate ParentsFirst<T(!new)>(pairs: seq<(T, T)>, order: seq<T>) {
    NoDup(order) &&
    forall j, p :: 0 <= j < |order| && (p, order[j]) in pairs ==> p in order[..j]
  }

  /** depths lists the depths of the elements of order, and never falls. */
  ghost predicate DepthOrdered<T(!new)>(pairs: seq<(T, T)>, order: seq<T>, depths: seq<nat>) {
    && |depths| == |order|
    && (forall j :: 0 <= j < |order| ==> HasDepth(pairs, order[j], depths[j]))
    && (forall i, j :: 0 <= i < j < |order| ==> depths[i] <= depths[j])
  }

  /** The unprocessed part order[i..] is exactly the elements whose count has fallen to zero. */
  ghost predicate Ready<T>(all: set<T>, order: seq<T>, i: nat, numParents: map<T, int>) {
    && i <= |order|
    && Elems(order) <= all
    && NoDup(order)
    && forall c :: c in numParents ==> (numParents[c] == 0 <==> c in order[i..])
  }

  /** Depths never fall along order, and stay within one of the depth of the element at i. */
  ghost predicate DepthQueue<T(!new)>(pairs: seq<(T, T)>, order: seq<T>, i: nat) {
    exists depths ::
      DepthOrdered(pairs, order, depths) && (i < |order| ==> depths[|order| - 1] <= depths[i] + 1)
  }

  ghost predicate Root<T(!new)>(pairs: seq<(T, T)>, x: T) {
    forall p :: (p, x) !in pairs
  }

  /** order[i] is the parent of x that comes last in order. */
  ghost predicate LastParent<T(!new)>(pairs: seq<(T, T)>, order: seq<T>, x: T, i: int) {
    0 <= i < |order| && (order[i], x) in pairs && forall p :: (p, x) in pairs ==> p in order[..i + 1]
  }

  /** x stands in kids at k and not behind it. */
  ghost predicate LastAt<T>(kids: seq<T>, x: T, k: int) {
    0 <= k < |kids| && kids[k] == x && x !in kids[k + 1..]
  }

  /** The roots come first; the others in the order of their last parents, and those with the same last parent
      in the order in which they stand last among its children. */
  ghost predicate FreedInOrder<T(!new)>(pairs: seq<(T, T)>, order: seq<T>) {
    && (forall a, b :: 0 <= a < b < |order| && Root(pairs, order[b]) ==> Root(pairs, order[a]))
    && forall a, b, i, j, k, m ::
         0 <= a < b < |order| && FreedBy(pairs, order, order[a], i, k) && FreedBy(pairs, order, order[b], j, m) ==>
         i < j || (i == j && k < m)
  }

  /** order[i] is the last parent of x, which stands last at k among its children. */
  ghost predicate FreedBy<T(!new)>(pairs: seq<(T, T)>, order: seq<T>, x: T, i: int, k: int) {
    LastParent(pairs, order, x, i) && LastAt(Kids(pairs, order[i]), x, k)
  }

  /** The invariant of the outer loop: order[..i] has been processed. */
  ghost predicate Outer<T(!new)>(pairs: seq<(T, T)>, all: set<T>, order: seq<T>, i: nat,
                                 numParents: map<T, int>, children: map<T, seq<T>>) {
    && Ready(all, order, i, numParents)
    && Counts(pairs, all, Elems(order[..i]), numParents)
    && ChildLists(pairs, Elems(order[..i]), children)
    && ParentsFirst(pairs, order)
    && DepthQueue(pairs, order, i)
    && FreedInOrder(pairs, order)
  }

  /** The invariant of the inner loop: the first j children of order[i] have been knocked down. */
  ghost predicate Inner<T(!new)>(pairs: seq<(T, T)>, all: set<T>, order: seq<T>, i: nat,
                                 kids: seq<T>, j: nat, numParents: map<T, int>, children: map<T, seq<T>>) {
    && i < |order| && j <= |kids| && kids == Kids(pairs, order[i])
    && ChildLists(pairs, Elems(order[..i]), children)
    && Ready(all, order, i + 1, numParents)
    && PartCounts(pairs, all, Elems(order[..i + 1]), kids[j..], numParents)
    && ParentsFirst(pairs, order)
    && DepthQueue(pairs, order, i)
    && FreedInOrder(pairs, order)
  }

  /** The counts when the pairs from done to the elements of rest are still included. */
  ghost predicate PartCounts<T>(pairs: seq<(T, T)>, all: set<T>, done: set<T>, rest: seq<T>, numParents: map<T, int>) {
    && numParents.Keys == all - done
    && forall c :: c in numParents ==> numParents[c] == InCount(pairs, done, c) + multiset(rest)[c]
  }

  lemma AppendParentsFirst<T(!new)>(pairs: seq<(T, T)>, order: seq<T>, child: T)
    requires ParentsFirst(pairs, order) && child !in order
    requires forall q :: (q, child) in pairs ==> q in order
    ensures ParentsFirst(pairs, order + [child])
  {
    var order' := order + [child];
    forall j, p | 0 <= j < |order'| && (p, order'[j]) in pairs
      ensures p in order'[..j]
    {
      assert order'[..j] == order[..j];
      assert j < |order| ==> order'[j] == order[j];
    }
  }

  lemma DepthBounds<T(!new)>(pairs: seq<(T, T)>, x: T, j: nat, k: nat)
    requires HasDepth(pairs, x, j) && j <= k
    ensures Shallow(pairs, x, k + 1)
  {
  }

  lemma AppendDepth<T(!new)>(pairs: seq<(T, T)>, order: seq<T>, i: nat, child: T)
    requires i < |order| && DepthQueue(pairs, order, i) && (order[i], child) in pairs
    requires forall q :: (q, child) in pairs ==> q in order[..i + 1]
    ensures DepthQueue(pairs, order + [child], i)
  {
    hide HasDepth;
    hide Shallow;
    var depths :| DepthOrdered(pairs, order, depths) && depths[|order| - 1] <= depths[i] + 1;
    forall q | (q, child) in pairs
      ensures Shallow(pairs, q, depths[i] + 1)
    {
      var j :| 0 <= j < i + 1 && order[j] == q;
      DepthBounds(pairs, order[j], depths[j], depths[i]);
    }
    DepthStep(pairs, child, order[i], depths[i]);
    assert DepthOrdered(pairs, order + [child], depths + [depths[i] + 1]);
  }

  lemma LastParentIsUnique<T(!new)>(pairs: seq<(T, T)>, order: seq<T>, x: T, i: int, j: int)
    requires NoDup(order) && LastParent(pairs, order, x, i) && LastParent(pairs, order, x, j)
    ensures i == j
  {
  }

  lemma FreedByStays<T(!new)>(pairs: seq<(T, T)>, order: seq<T>, y: T, a: nat, i: int, k: int)
    requires a < |order| && ParentsFirst(pairs, order) && y !in order
    requires FreedBy(pairs, order + [y], order[a], i, k)
    ensures i < a && FreedBy(pairs, order, order[a], i, k)
  {
    var p := (order + [y])[i];
    assert p in order[..a];
    assert (order + [y])[..i + 1] == order[..i + 1] && p == order[i];
  }

  /** child is freed by order[i], after all that stand in the queue already. */
  lemma AppendFreed<T(!new)>(pairs: seq<(T, T)>, order: seq<T>, i: nat, kids: seq<T>, j: nat)
    requires i < |order| && j < |kids| && kids == Kids(pairs, order[i])
    requires kids[j] !in order && kids[j] !in kids[j + 1..]
    requires FreedInOrder(pairs, order) && ParentsFirst(pairs, order) && (order[i], kids[j]) in pairs
    requires forall p :: (p, kids[j]) in pairs ==> p in order[..i + 1]
    requires forall a, p :: i < a < |order| && (p, order[a]) in pairs ==> p in order[..i + 1]
    requires forall a :: i < a < |order| ==> order[a] !in kids[j..]
    ensures FreedInOrder(pairs, order + [kids[j]])
  {
    hide Kids;
    var child, order' := kids[j], order + [kids[j]];
    assert order'[..i + 1] == order[..i + 1];
    assert LastParent(pairs, order', child, i);
    assert order'[|order|] == child && forall a :: 0 <= a < |order| ==> order'[a] == order[a];
    forall a, b, u, v, k, m | 0 <= a < b < |order'| &&
         FreedBy(pairs, order', order'[a], u, k) && FreedBy(pairs, order', order'[b], v, m)
      ensures u < v || (u == v && k < m)
    {
      FreedByStays(pairs, order, child, a, u, k);
      if b < |order| {
        FreedByStays(pairs, order, child, b, v, m);
        FreedBefore(pairs, order, a, b, u, k, v, m);
      } else {
        AppendNoDup(order, child);
        LastParentIsUnique(pairs, order', child, v, i);
        AtJ(kids, j, m);
        if a > i {
          LastParentWithin(pairs, order, order[a], u, i);
          if u == i {
            NotBehind(kids, order[a], j, k);
          }
        }
      }
    }
  }

  lemma FreedBefore<T(!new)>(pairs: seq<(T, T)>, order: seq<T>, a: nat, b: nat, i: int, k: int, j: int, m: int)
    requires FreedInOrder(pairs, order) && a < b < |order|
    requires FreedBy(pairs, order, order[a], i, k) && FreedBy(pairs, order, order[b], j, m)
    ensures i < j || (i == j && k < m)
  {
  }

  lemma AtJ<T>(kids: seq<T>, j: nat, m: int)
    requires j < |kids| && kids[j] !in kids[j + 1..] && LastAt(kids, kids[j], m)
    ensures m == j
  {
    assert forall q :: m < q < |kids| ==> kids[q] in kids[m + 1..];
    assert forall q :: j < q < |kids| ==> kids[q] in kids[j + 1..];
  }

  lemma NotBehind<T>(kids: seq<T>, x: T, j: nat, k: int)
    requires j <= |kids| && x !in kids[j..] && LastAt(kids, x, k)
    ensures k < j
  {
    assert forall m :: j <= m < |kids| ==> kids[m] in kids[j..];
  }

  lemma AppendNoDup<T>(s: seq<T>, x: T)
    requires NoDup(s) && x !in s
    ensures NoDup(s + [x])
  {
  }

  lemma LastParentWithin<T(!new)>(pairs: seq<(T, T)>, order: seq<T>, x: T, u: int, i: nat)
    requires NoDup(order) && i < |order| && LastParent(pairs, order, x, u)
    requires forall p :: (p, x) in pairs ==> p in order[..i + 1]
    ensures u <= i
  {
  }

  /** The list of a parent being processed only names elements still in numParents. */
  lemma ChildIsLeft<T(!new)>(pairs: seq<(T, T)>, order: seq<T>, i: nat, child: T)
    requires i < |order| && ParentsFirst(pairs, order)
    requires child in Kids(pairs, order[i])
    ensures (order[i], child) in pairs && child in Nodes(pairs)
    ensures child !in Elems(order[..i + 1])
  {
    KidsAreChildren(pairs, order[i], child);
  }

  lemma StartParent<T(!new)>(pairs: seq<(T, T)>, all: set<T>, order: seq<T>, i: nat,
                             numParents: map<T, int>, children: map<T, seq<T>>)
    requires i < |order| && Outer(pairs, all, order, i, numParents, children)
    ensures order[i] in numParents
    ensures Inner(pairs, all, order, i, if order[i] in children then children[order[i]] else [], 0,
                  numParents - {order[i]}, children)
  {
    hide InCount;
    hide Kids;
    hide ParentsFirst;
    hide DepthQueue;
    var parent, done := order[i], Elems(order[..i]);
    assert parent !in done;
    assert Elems(order[..i + 1]) == done + {parent};
    FinishParentAll(pairs, done, parent);
    var kids := Kids(pairs, parent);
    assert kids[0..] == kids;
    assert order[i..] == [parent] + order[i + 1..];
  }

  lemma FinishParentStep<T(!new)>(pairs: seq<(T, T)>, all: set<T>, order: seq<T>, i: nat, kids: seq<T>,
                                  numParents: map<T, int>, children: map<T, seq<T>>)
    requires Inner(pairs, all, order, i, kids, |kids|, numParents, children)
    ensures Outer(pairs, all, order, i + 1, numParents, children - {order[i]})
  {
    hide ParentsFirst;
    hide Ready;
    hide DepthQueue;
    hide Counts;
    hide PartCounts;
    hide ChildLists;
    hide Kids;
    DepthQueueNext(pairs, order, i);
    assert Elems(order[..i + 1]) == Elems(order[..i]) + {order[i]};
    assert kids[|kids|..] == [];
    AllKnockedDown(pairs, all, Elems(order[..i + 1]), kids[|kids|..], numParents);
    DropChildren(pairs, Elems(order[..i]), order[i], children);
  }

  lemma DepthQueueNext<T(!new)>(pairs: seq<(T, T)>, order: seq<T>, i: nat)
    requires i < |order| && DepthQueue(pairs, order, i)
    ensures DepthQueue(pairs, order, i + 1)
  {
  }

  /** A child whose count is knocked down to zero joins the queue, any other child stays out of it. */
  lemma ReadyStep<T>(all: set<T>, order: seq<T>, i: nat, numParents: map<T, int>, child: T)
    requires Ready(all, order, i, numParents) && numParents.Keys <= all - Elems(order[..i])
    requires child in numParents && numParents[child] > 0
    ensures child !in order
    ensures var count := numParents[child] - 1;
            Ready(all, if count == 0 then order + [child] else order, i, numParents[child := count])
  {
    var count, order' := numParents[child] - 1, order + [child];
    assert child !in order by {
      assert order == order[..i] + order[i..];
    }
    assert order'[i..] == order[i..] + [child];
    assert Elems(order') == Elems(order) + {child};
  }

  lemma PartCountsStep<T>(pairs: seq<(T, T)>, all: set<T>, done: set<T>, rest: seq<T>, numParents: map<T, int>)
    requires rest != [] && PartCounts(pairs, all, done, rest, numParents) && rest[0] in numParents
    ensures numParents[rest[0]] > 0
    ensures PartCounts(pairs, all, done, rest[1..], numParents[rest[0] := numParents[rest[0]] - 1])
  {
    hide InCount;
    assert rest == [rest[0]] + rest[1..];
  }

  /** Knocking the count of the next child down, and queueing that child if the count is zero. */
  lemma KnockDown<T(!new)>(pairs: seq<(T, T)>, all: set<T>, order: seq<T>, i: nat,
                           kids: seq<T>, j: nat, numParents: map<T, int>, children: map<T, seq<T>>)
    requires j < |kids| && Inner(pairs, all, order, i, kids, j, numParents, children) && Nodes(pairs) <= all
    ensures kids[j] in numParents
    ensures var count := numParents[kids[j]] - 1;
            Inner(pairs, all, if count == 0 then order + [kids[j]] else order, i, kids, j + 1,
                  numParents[kids[j] := count], children)
  {
    hide InCount;
    hide Kids;
    hide DepthQueue;
    hide Ready;
    hide ParentsFirst;
    hide ChildLists;
    var child, done := kids[j], Elems(order[..i + 1]);
    ChildIsLeft(pairs, order, i, child);
    PartCountsStep(pairs, all, done, kids[j..], numParents);
    ReadyStep(all, order, i + 1, numParents, child);
    if numParents[child] == 1 {
      InCountIsZero(pairs, done, child);
      assert kids[j..] == [child] + kids[j + 1..];
      var order' := order + [child];
      assert order'[..i + 1] == order[..i + 1] && order'[..i] == order[..i];
      forall q | (q, child) in pairs
        ensures q in order[..i + 1] && q in order
      {
        assert q in done;
      }
      AppendParentsFirst(pairs, order, child);
      AppendDepth(pairs, order, i, child);
      QueueIsFree(pairs, all, order, i, kids, j, numParents);
      AppendFreed(pairs, order, i, kids, j);
    }
  }

  /** What is in the queue has all its parents processed and is not named again. */
  lemma QueueIsFree<T(!new)>(pairs: seq<(T, T)>, all: set<T>, order: seq<T>, i: nat, kids: seq<T>, j: nat,
                             numParents: map<T, int>)
    requires i < |order| && j <= |kids| && Ready(all, order, i + 1, numParents)
    requires PartCounts(pairs, all, Elems(order[..i + 1]), kids[j..], numParents)
    ensures forall a, p :: i < a < |order| && (p, order[a]) in pairs ==> p in order[..i + 1]
    ensures forall a :: i < a < |order| ==> order[a] !in kids[j..]
  {
    hide InCount;
    var done := Elems(order[..i + 1]);
    forall a | i < a < |order|
      ensures order[a] !in kids[j..] && forall p :: (p, order[a]) in pairs ==> p in order[..i + 1]
    {
      assert order[i + 1..][a - i - 1] == order[a];
      assert order[a] !in done && order[a] in numParents && numParents[order[a]] == 0;
      InCountIsZero(pairs, done, order[a]);
    }
  }

  /** With no element left whose count is zero, exactly the stuck elements are left. */
  lemma NothingReady<T(!new)>(pairs: seq<(T, T)>, all: set<T>, done: set<T>, numParents: map<T, int>)
    requires Nodes(pairs) <= all && done <= all && Counts(pairs, all, done, numParents)
    requires forall c :: c in numParents ==> numParents[c] != 0
    requires forall x :: x in done ==> exists k: nat :: Shallow(pairs, x, k)
    ensures done == all - Stuck(pairs, all)
    ensures numParents == map[] <==> Acyclic(pairs)
  {
    forall y | y in all - done
      ensures HasParentIn(pairs, all - done, y)
    {
      assert y in numParents.Keys;
      InCountIsZero(pairs, done, y);
      var p :| (p, y) in pairs && p !in done;
      assert p in Nodes(pairs);
    }
    LeftoversAreBelowCycles(pairs, all, done);
    if !Acyclic(pairs) {
      var x := CyclicHasNodeBelow(pairs);
      assert x in numParents.Keys;
    }
    if numParents != map[] {
      var x :| x in numParents.Keys;
      BelowCycleMeansCyclic(pairs, x);
    }
  }

  lemma StartSorting<T(!new)>(pairs: seq<(T, T)>, order: seq<T>, numParents: map<T, int>, children: map<T, seq<T>>)
    requires Counts(pairs, Nodes(pairs), {}, numParents) && ChildLists(pairs, {}, children)
    requires NoDup(order) && forall x :: x in order <==> x in numParents && numParents[x] == 0
    ensures Outer(pairs, Nodes(pairs), order, 0, numParents, children)
  {
    hide Kids;
    hide InCount;
    hide HasDepth;
    hide Nodes;
    forall j | 0 <= j < |order|
      ensures HasDepth(pairs, order[j], 0) && forall p :: (p, order[j]) !in pairs
    {
      assert order[j] in order;
      InCountIsZero(pairs, {}, order[j]);
      DepthZero(pairs, order[j]);
    }
    assert order[0..] == order && Elems(order[..0]) == {};
    assert DepthOrdered(pairs, order, seq(|order|, _ => 0));
  }

  lemma FinishSorting<T(!new)>(pairs: seq<(T, T)>, order: seq<T>, numParents: map<T, int>, children: map<T, seq<T>>)
    requires Outer(pairs, Nodes(pairs), order, |order|, numParents, children)
    ensures ParentsFirst(pairs, order)
    ensures Elems(order) == Nodes(pairs) - Stuck(pairs, Nodes(pairs))
    ensures exists depths :: DepthOrdered(pairs, order, depths)
    ensures FreedInOrder(pairs, order)
    ensures numParents == map[] <==> Acyclic(pairs)
    ensures ReportsStuck(pairs, Nodes(pairs), numParents, children)
  {
    hide InCount;
    hide Kids;
    hide HasDepth;
    hide ParentsFirst;
    hide Nodes;
    var all := Nodes(pairs);
    assert order[..|order|] == order;
    var depths :| DepthOrdered(pairs, order, depths);
    forall x | x in Elems(order)
      ensures exists k: nat :: Shallow(pairs, x, k)
    {
      var j :| 0 <= j < |order| && order[j] == x;
      DepthBounds(pairs, x, depths[j], depths[j]);
    }
    NothingReady(pairs, all, Elems(order), numParents);
    assert all - Stuck(pairs, all) == Elems(order);
  }

  method Topsort<T(==, !new)>(pairlist: seq<(T, T)>) returns (r: SortResult<T>)
    ensures r.Sorted? <==> Acyclic(pairlist)
    ensures ParentsFirst(pairlist, r.answer)
    ensures Elems(r.answer) == Nodes(pairlist) - Stuck(pairlist, Nodes(pairlist))
    ensures exists depths :: DepthOrdered(pairlist, r.answer, depths)
    ensures FreedInOrder(pairlist, r.answer)
    ensures r.CycleError? ==>
      ReportsStuck(pairlist, Nodes(pairlist), r.numParents, r.children) && NoneEmpty(r.children)
  {
    hide *;
    ghost var all := Nodes(pairlist);
    var numParents, children := CountParents(pairlist);
    var answer := WithoutParent(numParents);
    StartSorting(pairlist, answer, numParents, children);
    var i := 0;
    while i < |answer|
      invariant i <= |answer| && Outer(pairlist, all, answer, i, numParents, children) && NoneEmpty(children)
      decreases |numParents.Keys|
    {
      var parent := answer[i];
      StartParent(pairlist, all, answer, i, numParents, children);
      numParents := numParents - {parent};
      ghost var left := numParents.Keys;
      if parent in children {
        var kids := children[parent];
        var j := 0;
        while j < |kids|
          invariant j <= |kids|
          invariant i < |answer| && answer[i] == parent && numParents.Keys == left
          invariant Inner(pairlist, all, answer, i, kids, j, numParents, children)
        {
          var child := kids[j];
          KnockDown(pairlist, all, answer, i, kids, j, numParents, children);
          numParents := numParents[child := numParents[child] - 1];
          if numParents[child] == 0 {
            answer := answer + [child];
          }
          j := j + 1;
        }
        FinishParentStep(pairlist, all, answer, i, kids, numParents, children);
        OneListLess(children, parent);
        children := children - {parent};
      } else {
        FinishParentStep(pairlist, all, answer, i, [], numParents, children);
        assert children - {parent} == children;
      }
      i := i + 1;
    }
    FinishSorting(pairlist, answer, numParents, children);
    if numParents != map[] {
      return CycleError(answer, numParents, children);
    }
    return Sorted(answer);
  }

  /** Children are listed in pair order. */
  lemma {:induction false} KidsInOrder<T(!new)>(pairs: seq<(T, T)>, p: T) returns (at: seq<nat>)
    ensures InOrder(pairs, (e: (T, T)) => if e.0 == p then Some(e.1) else None, Kids(pairs, p), at)
  {
    at := [];
    if pairs != [] {
      var n := |pairs| - 1;
      at := KidsInOrder(pairs[..n], p);
      OrderGrows(pairs, (e: (T, T)) => if e.0 == p then Some(e.1) else None, Kids(pairs[..n], p), at);
      hide InOrder;
      if pairs[n].0 == p {
        at := at + [n];
      }
    }
  }

  lemma {:induction false} LastParentExists<T(!new)>(pairs: seq<(T, T)>, order: seq<T>, x: T, n: nat) returns (i: int)
    requires n <= |order| && !Root(pairs, x) && forall p :: (p, x) in pairs ==> p in order[..n]
    ensures i < n && LastParent(pairs, order, x, i)
  {
    if (order[n - 1], x) in pairs {
      i := n - 1;
    } else {
      i := LastParentExists(pairs, order, x, n - 1);
    }
  }

  lemma {:induction false} LastAtExists<T>(kids: seq<T>, x: T) returns (k: int)
    requires x in kids
    ensures LastAt(kids, x, k)
  {
    var n := |kids| - 1;
    if kids[n] == x {
      k := n;
    } else {
      assert kids == kids[..n] + [kids[n]];
      k := LastAtExists(kids[..n], x);
      assert kids[k + 1..] == kids[..n][k + 1..] + [kids[n]];
    }
  }

  /** What frees x is decided by a beginning that holds its parents. */
  lemma FreedByBoth<T(!new)>(pairs: seq<(T, T)>, one: seq<T>, two: seq<T>, x: T, k: nat) returns (i: int, m: int)
    requires k <= |one| && k <= |two| && one[..k] == two[..k]
    requires !Root(pairs, x) && forall p :: (p, x) in pairs ==> p in one[..k]
    ensures FreedBy(pairs, one, x, i, m) && FreedBy(pairs, two, x, i, m)
  {
    i := LastParentExists(pairs, one, x, k);
    assert one[..i + 1] == one[..k][..i + 1] == two[..k][..i + 1] == two[..i + 1];
    assert one[..i + 1][i] == one[i] && two[..i + 1][i] == two[i];
    KidsAreChildren(pairs, one[i], x);
    m := LastAtExists(Kids(pairs, one[i]), x);
  }

  /** After the same beginning the same element is freed next. */
  lemma SameNext<T(!new)>(pairs: seq<(T, T)>, one: seq<T>, two: seq<T>, k: nat)
    requires ParentsFirst(pairs, one) && FreedInOrder(pairs, one)
    requires ParentsFirst(pairs, two) && FreedInOrder(pairs, two)
    requires k < |one| && k < |two| && one[..k] == two[..k] && Elems(one) == Elems(two)
    requires !Root(pairs, one[k]) && !Root(pairs, two[k])
    ensures one[k] == two[k]
  {
    if one[k] != two[k] {
      var b := PlaceBehind(one, two, k);
      var a := PlaceBehind(two, one, k);
      var i, u := FreedByBoth(pairs, one, two, one[k], k);
      var j, v := FreedByBoth(pairs, one, two, two[k], k);
      hide *;
      FreedBefore(pairs, one, k, b, i, u, j, v);
      FreedBefore(pairs, two, k, a, j, v, i, u);
    }
  }

  lemma PlaceBehind<T>(one: seq<T>, two: seq<T>, k: nat) returns (b: nat)
    requires NoDup(two) && k < |one| && k < |two| && one[..k] == two[..k] && Elems(one) == Elems(two)
    requires one[k] != two[k]
    ensures k < b < |one| && one[b] == two[k]
  {
    assert two[k] in Elems(two);
    assert forall m :: 0 <= m < k ==> one[..k][m] == one[m] && two[..k][m] == two[m];
    b :| 0 <= b < |one| && one[b] == two[k];
  }

  lemma SameLength<T>(one: seq<T>, two: seq<T>)
    requires NoDup(one) && NoDup(two) && Elems(one) == Elems(two)
    ensures |one| == |two|
  {
    NoDupSize(one);
    NoDupSize(two);
  }

  lemma {:induction false} NoDupSize<T>(s: seq<T>)
    requires NoDup(s)
    ensures |Elems(s)| == |s|
  {
    if s != [] {
      var n := |s| - 1;
      NoDupSize(s[..n]);
      assert Elems(s) == Elems(s[..n]) + {s[n]};
    }
  }

  lemma LongerPrefix<T>(one: seq<T>, two: seq<T>, k: nat)
    requires k < |one| && k < |two| && one[..k] == two[..k] && one[k] == two[k]
    ensures one[..k + 1] == two[..k + 1]
  {
    assert one[..k + 1] == one[..k] + [one[k]];
    assert two[..k + 1] == two[..k] + [two[k]];
  }

  /** The answers agree up to k, when those behind the roots are no roots. */
  lemma {:induction false} SamePrefix<T(!new)>(pairs: seq<(T, T)>, one: seq<T>, two: seq<T>, roots: nat, k: nat)
    requires ParentsFirst(pairs, one) && FreedInOrder(pairs, one)
    requires ParentsFirst(pairs, two) && FreedInOrder(pairs, two)
    requires Elems(one) == Elems(two) && roots <= k <= |one| == |two| && one[..roots] == two[..roots]
    requires forall m :: roots <= m < |one| ==> !Root(pairs, one[m]) && !Root(pairs, two[m])
    ensures one[..k] == two[..k]
    decreases k
  {
    hide *;
    if k > roots {
      SamePrefix(pairs, one, two, roots, k - 1);
      SameNext(pairs, one, two, k - 1);
      LongerPrefix(one, two, k - 1);
    }
  }

  /** The order in which the dictionary lists the roots decides the whole answer. */
  lemma AnswerIsDetermined<T(!new)>(pairs: seq<(T, T)>, one: seq<T>, two: seq<T>, roots: nat)
    requires ParentsFirst(pairs, one) && FreedInOrder(pairs, one)
    requires ParentsFirst(pairs, two) && FreedInOrder(pairs, two)
    requires Elems(one) == Elems(two) && roots <= |one| && roots <= |two| && one[..roots] == two[..roots]
    requires forall m :: roots <= m < |one| ==> !Root(pairs, one[m])
    requires forall m :: roots <= m < |two| ==> !Root(pairs, two[m])
    ensures one == two
  {
    SameLength(one, two);
    hide *;
    SamePrefix(pairs, one, two, roots, |one|);
    assert one[..|one|] == one && two[..|one|] == two;
  }

  // ---- topsort_levels ----

  /** The elements that no walk of more than k elements leads to. */
  ghost function UpTo<T(!new)>(pairs: seq<(T, T)>, all: set<T>, k: nat): set<T> {
    set x | x in all && Shallow(pairs, x, k)
  }

  /** level lists each element of depth k once. */
  ghost predicate IsLevel<T(!new)>(pairs: seq<(T, T)>, all: set<T>, level: seq<T>, k: nat) {
    NoDup(level) && forall x :: x in level <==> x in all && HasDepth(pairs, x, k)
  }

  ghost predicate AreLevels<T(!new)>(pairs: seq<(T, T)>, all: set<T>, levels: seq<seq<T>>) {
    forall k :: 0 <= k < |levels| ==> levels[k] != [] && IsLevel(pairs, all, levels[k], k)
  }

  lemma NextLevel<T(!new)>(pairs: seq<(T, T)>, all: set<T>, k: nat, numParents: map<T, int>, level: seq<T>)
    requires Nodes(pairs) <= all && Counts(pairs, all, UpTo(pairs, all, k), numParents)
    requires NoDup(level) && forall x :: x in level <==> x in numParents && numParents[x] == 0
    ensures IsLevel(pairs, all, level, k)
    ensures UpTo(pairs, all, k + 1) == UpTo(pairs, all, k) + Elems(level)
    ensures UpTo(pairs, all, k) !! Elems(level)
    ensures forall p, c :: (p, c) in pairs && p in level ==> c in all && c !in UpTo(pairs, all, k) && c !in level
  {
    hide InCount;
    hide Shallow;
    hide HasDepth;
    var done := UpTo(pairs, all, k);
    forall x | x in all
      ensures x in level <==> HasDepth(pairs, x, k)
      ensures Shallow(pairs, x, k + 1) <==> x in done || x in level
    {
      assert x !in done <==> x in numParents.Keys;
      InCountIsZero(pairs, done, x);
      ShallowByParents(pairs, x, k);
      DepthByShallow(pairs, x, k);
      ShallowGrows(pairs, x, k);
      assert forall p :: (p, x) in pairs ==> (p in done <==> Shallow(pairs, p, k)) by {
        assert forall p :: (p, x) in pairs ==> p in Nodes(pairs);
      }
    }
    forall p, c | (p, c) in pairs && p in level
      ensures c in all && c !in done && c !in level
    {
      assert c in Nodes(pairs) && p in Nodes(pairs);
      ShallowByParents(pairs, c, k);
      ShallowGrows(pairs, c, k);
      assert p !in done;
    }
  }

  lemma ShallowGrows<T(!new)>(pairs: seq<(T, T)>, x: T, k: nat)
    ensures Shallow(pairs, x, k) ==> Shallow(pairs, x, k + 1)
  {
  }

  lemma DepthIsBelowLevels<T(!new)>(pairs: seq<(T, T)>, all: set<T>, x: T, k: nat, n: nat)
    requires x in all && HasDepth(pairs, x, k)
    requires UpTo(pairs, all, n) == all - Stuck(pairs, all)
    ensures k < n
  {
    if BelowCycle(pairs, x) {
      BelowCycleIsNotShallow(pairs, x, k + 1);
    }
    assert x in UpTo(pairs, all, n);
  }

  /** Counts once p, the next parent of the level, is gone but its children are still to be knocked down. */
  lemma DropParent<T(!new)>(pairs: seq<(T, T)>, all: set<T>, done: set<T>, p: T, numParents: map<T, int>)
    requires p !in done && Counts(pairs, all, done, numParents)
    ensures PartCounts(pairs, all, done + {p}, Kids(pairs, p), numParents - {p})
  {
    hide InCount;
    hide Kids;
    FinishParentAll(pairs, done, p);
  }

  lemma AllKnockedDown<T>(pairs: seq<(T, T)>, all: set<T>, done: set<T>, rest: seq<T>, numParents: map<T, int>)
    requires rest == [] && PartCounts(pairs, all, done, rest, numParents)
    ensures Counts(pairs, all, done, numParents)
  {
  }

  lemma DropChildren<T(!new)>(pairs: seq<(T, T)>, done: set<T>, p: T, children: map<T, seq<T>>)
    requires ChildLists(pairs, done, children)
    ensures ChildLists(pairs, done + {p}, children - {p})
    ensures p !in done ==> Kids(pairs, p) == if p in children then children[p] else []
  {
  }

  method TopsortLevels<T(==, !new)>(pairlist: seq<(T, T)>) returns (levels: seq<seq<T>>, end: LevelsEnd<T>)
    ensures AreLevels(pairlist, Nodes(pairlist), levels)
    ensures forall x, k: nat :: x in Nodes(pairlist) && HasDepth(pairlist, x, k) ==> k < |levels|
    ensures end.StopIteration? <==> Acyclic(pairlist)
    ensures end.LevelsCycleError? ==>
      ReportsStuck(pairlist, Nodes(pairlist), end.numParents, end.children) && NoneEmpty(end.children)
  {
    var numParents, children := CountParents(pairlist);
    levels, end := TopsortLevelsCore(numParents, children, pairlist, Nodes(pairlist));
  }

  lemma NothingUpToZero<T(!new)>(pairs: seq<(T, T)>, all: set<T>)
    ensures UpTo(pairs, all, 0) == {}
  {
    forall x: T ensures !Shallow(pairs, x, 0) {
      NothingIsShallowAtZero(pairs, x);
    }
  }

  /** When no element is ready after n levels, the levels are complete and what is left is stuck. */
  lemma LevelsAreDone<T(!new)>(pairs: seq<(T, T)>, all: set<T>, n: nat, numParents: map<T, int>,
                               children: map<T, seq<T>>)
    requires Nodes(pairs) <= all && Counts(pairs, all, UpTo(pairs, all, n), numParents)
    requires ChildLists(pairs, UpTo(pairs, all, n), children)
    requires forall c :: c in numParents ==> numParents[c] != 0
    ensures numParents == map[] <==> Acyclic(pairs)
    ensures ReportsStuck(pairs, all, numParents, children)
    ensures forall x, k: nat :: x in all && HasDepth(pairs, x, k) ==> k < n
  {
    hide InCount;
    hide Kids;
    hide HasDepth;
    hide Shallow;
    hide Counts;
    hide ChildLists;
    hide Nodes;
    NothingReady(pairs, all, UpTo(pairs, all, n), numParents);
    assert all - Stuck(pairs, all) == UpTo(pairs, all, n);
    forall x, k: nat | x in all && HasDepth(pairs, x, k)
      ensures k < n
    {
      DepthIsBelowLevels(pairs, all, x, k, n);
    }
  }

  lemma LevelPrefix<T>(level: seq<T>, m: nat, done: set<T>)
    requires NoDup(level) && m < |level| && level[m] !in done
    ensures level[m] !in done + Elems(level[..m])
    ensures done + Elems(level[..m + 1]) == done + Elems(level[..m]) + {level[m]}
  {
    assert level[..m + 1] == level[..m] + [level[m]];
  }

  /** The next child of a parent of the level is still in the dictionary. */
  lemma KidStep<T(!new)>(pairs: seq<(T, T)>, all: set<T>, done: set<T>, parent: T, kids: seq<T>, j: nat,
                         numParents: map<T, int>)
    requires kids == Kids(pairs, parent) && j < |kids| && PartCounts(pairs, all, done, kids[j..], numParents)
    requires forall c :: (parent, c) in pairs ==> c in all - done
    ensures kids[j] in numParents
    ensures PartCounts(pairs, all, done, kids[j + 1..], numParents[kids[j] := numParents[kids[j]] - 1])
  {
    hide InCount;
    hide Kids;
    KidsAreChildren(pairs, parent, kids[j]);
    PartCountsStep(pairs, all, done, kids[j..], numParents);
    assert kids[j..][1..] == kids[j + 1..];
  }

  /** Takes a level out of the dictionaries: its elements, one after the other, with their child lists. */
  method FinishLevel<T(==, !new)>(level: seq<T>, numParents0: map<T, int>, children0: map<T, seq<T>>,
                                  ghost pairs: seq<(T, T)>, ghost all: set<T>, ghost done: set<T>)
    returns (numParents: map<T, int>, children: map<T, seq<T>>)
    requires NoDup(level) && done !! Elems(level)
    requires forall p, c :: (p, c) in pairs && p in level ==> c in all && c !in done && c !in level
    requires Counts(pairs, all, done, numParents0) && ChildLists(pairs, done, children0)
    ensures Counts(pairs, all, done + Elems(level), numParents)
    ensures ChildLists(pairs, done + Elems(level), children)
    ensures NoneEmpty(children0) ==> NoneEmpty(children)
  {
    hide InCount;
    hide Kids;
    hide Counts;
    hide ChildLists;
    hide NoneEmpty;
    numParents, children := numParents0, children0;
    var m := 0;
    assert done + Elems(level[..m]) == done;
    while m < |level|
      invariant 0 <= m <= |level|
      invariant Counts(pairs, all, done + Elems(level[..m]), numParents)
      invariant ChildLists(pairs, done + Elems(level[..m]), children)
      invariant NoneEmpty(children0) ==> NoneEmpty(children)
    {
      var parent := level[m];
      ghost var before := done + Elems(level[..m]);
      LevelPrefix(level, m, done);
      assert forall c :: (parent, c) in pairs ==> c in all - (before + {parent});
      hide *;
      DropParent(pairs, all, before, parent, numParents);
      DropChildren(pairs, before, parent, children);
      numParents := numParents - {parent};
      if parent in children {
        var kids := children[parent];
        var j := 0;
        assert kids[0..] == kids;
        while j < |kids|
          invariant 0 <= j <= |kids|
          invariant PartCounts(pairs, all, before + {parent}, kids[j..], numParents)
        {
          var child := kids[j];
          KidStep(pairs, all, before + {parent}, parent, kids, j, numParents);
          numParents := numParents[child := numParents[child] - 1];
          j := j + 1;
        }
        AllKnockedDown(pairs, all, before + {parent}, kids[j..], numParents);
        OneListLess(children, parent);
        children := children - {parent};
      } else {
        AllKnockedDown(pairs, all, before + {parent}, [], numParents);
        assert children - {parent} == children;
      }
      m := m + 1;
    }
    assert level[..m] == level;
  }

  /** The dictionaries must describe some list of pairs; elements in no pair are allowed. */
  method TopsortLevelsCore<T(==, !new)>(numParents0: map<T, int>, children0: map<T, seq<T>>,
                                        ghost pairs: seq<(T, T)>, ghost all: set<T>)
    returns (levels: seq<seq<T>>, end: LevelsEnd<T>)
    requires Nodes(pairs) <= all && Counts(pairs, all, {}, numParents0) && ChildLists(pairs, {}, children0)
    ensures AreLevels(pairs, all, levels)
    ensures forall x, k: nat :: x in all && HasDepth(pairs, x, k) ==> k < |levels|
    ensures end.StopIteration? <==> Acyclic(pairs)
    ensures end.LevelsCycleError? ==>
      ReportsStuck(pairs, all, end.numParents, end.children) && (NoneEmpty(children0) ==> NoneEmpty(end.children))
  {
    hide InCount;
    hide Kids;
    hide HasDepth;
    hide Shallow;
    hide Counts;
    hide ChildLists;
    hide IsLevel;
    hide Nodes;
    hide NoneEmpty;
    var numParents, children := numParents0, children0;
    levels := [];
    ghost var done: set<T> := {};
    NothingUpToZero(pairs, all);
    while true
      invariant done == UpTo(pairs, all, |levels|)
      invariant Counts(pairs, all, done, numParents) && ChildLists(pairs, done, children)
      invariant AreLevels(pairs, all, levels) && (NoneEmpty(children0) ==> NoneEmpty(children))
      decreases all - done
    {
      var level := WithoutParent(numParents);
      NextLevel(pairs, all, |levels|, numParents, level);
      if level == [] {
        break;
      }
      levels := levels + [level];
      numParents, children := FinishLevel(level, numParents, children, pairs, all, done);
      assert level[0] in Elems(level);
      done := done + Elems(level);
    }
    LevelsAreDone(pairs, all, |levels|, numParents, children);
    hide *;
    if numParents != map[] {
      return levels, LevelsCycleError(numParents, children);
    }
    return levels, StopIteration;
  }

  // ---- How the two answers fit together ----

  /** The number of elements in the first k levels. */
  ghost function Offset<T>(levels: seq<seq<T>>, k: nat): nat
    requires k <= |levels|
  {
    if k == 0 then 0 else Offset(levels, k - 1) + |levels[k - 1]|
  }

  lemma {:induction false} NoDupCounts<T>(s: seq<T>, x: T)
    requires NoDup(s)
    ensures multiset(s)[x] == if x in s then 1 else 0
  {
    if s != [] {
      var rest, last := s[..|s| - 1], s[|s| - 1];
      NoDupCounts(rest, x);
      assert s == rest + [last];
    }
  }

  lemma SameElements<T(!new)>(s: seq<T>, t: seq<T>)
    requires NoDup(s) && NoDup(t) && forall x :: x in s <==> x in t
    ensures multiset(s) == multiset(t) && |s| == |t|
  {
    forall x ensures multiset(s)[x] == multiset(t)[x] {
      NoDupCounts(s, x);
      NoDupCounts(t, x);
    }
    assert |multiset(s)| == |s| && |multiset(t)| == |t|;
  }

  /** The end of the run of depth-n elements that starts at a. */
  lemma DepthRun(depths: seq<nat>, a: nat, n: nat) returns (b: nat)
    requires forall i, j :: 0 <= i < j < |depths| ==> depths[i] <= depths[j]
    requires a <= |depths| && forall j :: 0 <= j < |depths| ==> (j < a <==> depths[j] < n)
    ensures a <= b <= |depths| && forall j :: 0 <= j < |depths| ==> (j < b <==> depths[j] < n + 1)
  {
    b := a;
    while b < |depths| && depths[b] == n
      invariant a <= b <= |depths| && forall j :: 0 <= j < b ==> depths[j] < n + 1
    {
      b := b + 1;
    }
  }

  /** The k-th run of order, of the length of the k-th level, is a rearrangement of that level. */
  ghost predicate RunIsLevel<T>(order: seq<T>, levels: seq<seq<T>>, k: nat)
    requires k < |levels|
  {
    && Offset(levels, k + 1) <= |order|
    && multiset(order[Offset(levels, k)..Offset(levels, k + 1)]) == multiset(levels[k])
  }

  lemma DepthRunIsLevel<T(!new)>(pairs: seq<(T, T)>, all: set<T>, order: seq<T>, depths: seq<nat>,
                                 level: seq<T>, k: nat, a: nat, b: nat)
    requires NoDup(order) && DepthOrdered(pairs, order, depths) && Elems(order) == all - Stuck(pairs, all)
    requires IsLevel(pairs, all, level, k)
    requires a <= b <= |order| && forall j :: 0 <= j < |order| ==> (a <= j < b <==> depths[j] == k)
    ensures multiset(order[a..b]) == multiset(level) && b - a == |level|
  {
    hide HasDepth;
    hide BelowCycle;
    var run := order[a..b];
    forall x
      ensures x in run <==> x in level
    {
      if x in run {
        var j :| a <= j < b && order[j] == x;
        assert x in Elems(order);
        assert HasDepth(pairs, order[j], depths[j]);
      }
      if x in level {
        NotStuck(pairs, x, k);
        assert x in Elems(order);
        var j :| 0 <= j < |order| && order[j] == x;
        DepthIsUnique(pairs, x, depths[j], k);
        assert run[j - a] == x;
      }
    }
    SameElements(run, level);
  }

  lemma {:induction false} LevelsFillOrder<T(!new)>(pairs: seq<(T, T)>, all: set<T>, order: seq<T>, depths: seq<nat>,
                                                    levels: seq<seq<T>>, n: nat)
    requires NoDup(order) && DepthOrdered(pairs, order, depths) && Elems(order) == all - Stuck(pairs, all)
    requires AreLevels(pairs, all, levels) && n <= |levels|
    ensures Offset(levels, n) <= |order|
    ensures forall j :: 0 <= j < |order| ==> (j < Offset(levels, n) <==> depths[j] < n)
    ensures forall k :: 0 <= k < n ==> RunIsLevel(order, levels, k)
  {
    hide HasDepth;
    hide IsLevel;
    hide NoDup;
    hide Stuck;
    if n > 0 {
      LevelsFillOrder(pairs, all, order, depths, levels, n - 1);
      var a := Offset(levels, n - 1);
      var b := DepthRun(depths, a, n - 1);
      DepthRunIsLevel(pairs, all, order, depths, levels[n - 1], n - 1, a, b);
    }
  }

  lemma NotStuck<T(!new)>(pairs: seq<(T, T)>, x: T, k: nat)
    requires HasDepth(pairs, x, k)
    ensures !BelowCycle(pairs, x)
  {
    if BelowCycle(pairs, x) {
      BelowCycleIsNotShallow(pairs, x, k + 1);
    }
  }

  /** Whatever order the dictionaries are listed in, topsort's answer is the levels of
      topsort_levels one after the other, each in some order. */
  lemma AnswerIsTheLevels<T(!new)>(pairs: seq<(T, T)>, all: set<T>, order: seq<T>, levels: seq<seq<T>>)
    requires NoDup(order) && Elems(order) == all - Stuck(pairs, all)
    requires exists depths :: DepthOrdered(pairs, order, depths)
    requires AreLevels(pairs, all, levels)
    requires forall x, k: nat :: x in all && HasDepth(pairs, x, k) ==> k < |levels|
    ensures |order| == Offset(levels, |levels|)
    ensures forall k :: 0 <= k < |levels| ==> RunIsLevel(order, levels, k)
  {
    hide HasDepth;
    hide IsLevel;
    hide Stuck;
    var depths :| DepthOrdered(pairs, order, depths);
    LevelsFillOrder(pairs, all, order, depths, levels, |levels|);
    if order != [] {
      var j := |order| - 1;
      assert order[j] in Elems(order) && HasDepth(pairs, order[j], depths[j]);
    }
  }

  /** Two reports on the same pairs list the same elements with the same counts. */
  lemma ReportsAgree<T(!new)>(pairs: seq<(T, T)>, all: set<T>, n: map<T, int>, c: map<T, seq<T>>,
                              n': map<T, int>, c': map<T, seq<T>>)
    requires ReportsStuck(pairs, all, n, c) && ReportsStuck(pairs, all, n', c')
    ensures n == n'
    ensures forall x :: x in all && BelowCycle(pairs, x) ==>
      (if x in c then c[x] else []) == (if x in c' then c'[x] else [])
  {
  }
}
