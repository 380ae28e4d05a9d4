/** Enumeration of all simple cycles with a stack of paths. */
module FindCycles {
  import opened Basics
  import opened Rotation

  ghost predicate Edge<T>(g: map<T, seq<T>>, a: T, b: T) {
    a in g && b in g[a]
  }

  ghost predicate Path<T>(g: map<T, seq<T>>, w: seq<T>) {
    Linked((a, b) => Edge(g, a, b), w)
  }

  /** A path from root that meets no element twice. */
  ghost predicate SimplePath<T>(g: map<T, seq<T>>, root: T, w: seq<T>) {
    Path(g, w) && w[0] == root && NoDup(w)
  }

  /** Distinct elements, each a parent of the next one and the last a parent of the first. */
  ghost predicate SimpleCycle<T>(g: map<T, seq<T>>, c: seq<T>) {
    Path(g, c) && NoDup(c) && Edge(g, c[|c| - 1], c[0])
  }

  ghost predicate Reaches<T(!new)>(g: map<T, seq<T>>, a: T, b: T) {
    exists w :: Path(g, w) && w[0] == a && w[|w| - 1] == b
  }

  /** Some rotation of c has been yielded. */
  ghost predicate Found<T>(cycles: seq<seq<T>>, c: seq<T>) {
    exists i :: 0 <= i < |cycles| && IsRotation(cycles[i], c)
  }

  ghost predicate Sound<T>(g: map<T, seq<T>>, cycles: seq<seq<T>>) {
    && (forall i :: 0 <= i < |cycles| ==> SimpleCycle(g, cycles[i]))
    && (forall i, j :: 0 <= i < j < |cycles| ==> !IsRotation(cycles[i], cycles[j]))
  }

  /** Every cycle that root can reach has been yielded. */
  ghost predicate Handled<T(!new)>(g: map<T, seq<T>>, cycles: seq<seq<T>>, root: T) {
    forall c, x :: SimpleCycle(g, c) && x in c && Reaches(g, root, x) ==> Found(cycles, c)
  }

  /** path.index(x) */
  function IndexOf<T(==)>(path: seq<T>, x: T): (i: nat)
    requires x in path
    ensures i < |path| && path[i] == x && x !in path[..i]
  {
    if path[0] == x then 0 else 1 + IndexOf(path[1..], x)
  }

  /** The cycles that one more step from the end of path closes have been yielded. */
  ghost predicate Expanded<T(!new)>(g: map<T, seq<T>>, cycles: seq<seq<T>>, path: seq<T>)
    requires path != []
  {
    forall x :: x in path && Edge(g, path[|path| - 1], x) ==> Found(cycles, path[IndexOf(path, x)..])
  }

  ghost predicate Pending<T>(paths: seq<seq<T>>, path: seq<T>) {
    exists i :: 0 <= i < |paths| && paths[i] <= path
  }

  /** Every simple path from root has been expanded or extends a path of the stack. */
  ghost predicate Frontier<T(!new)>(g: map<T, seq<T>>, cycles: seq<seq<T>>, root: T, paths: seq<seq<T>>) {
    forall p :: SimplePath(g, root, p) ==> Expanded(g, cycles, p) || Pending(paths, p)
  }

  // ---- Walks ----

  lemma ReachesFurther<T(!new)>(g: map<T, seq<T>>, a: T, b: T, c: T)
    requires Reaches(g, a, b) && Reaches(g, b, c)
    ensures Reaches(g, a, c)
  {
    var v :| Path(g, v) && v[0] == a && v[|v| - 1] == b;
    var w :| Path(g, w) && w[0] == b && w[|w| - 1] == c;
    var u := v + w[1..];
    assert Path(g, u) && u[0] == a && u[|u| - 1] == c;
  }

  /** A walk that ends in goal contains the elements of a simple path that meets goal only at its end. */
  lemma {:induction false} ShortestInto<T>(g: map<T, seq<T>>, w: seq<T>, goal: seq<T>) returns (p: seq<T>)
    requires Path(g, w) && w[|w| - 1] in goal
    ensures SimplePath(g, w[0], p) && p[|p| - 1] in goal
    ensures forall i :: 0 <= i < |p| - 1 ==> p[i] !in goal
    decreases |w|
  {
    if i :| 0 <= i < |w| - 1 && w[i] in goal {
      p := ShortestInto(g, w[..i + 1], goal);
    } else if i, j :| 0 <= i < j < |w| && w[i] == w[j] {
      p := ShortestInto(g, w[..i] + w[j..], goal);
    } else {
      p := w;
    }
  }

  lemma RotateCycle<T>(g: map<T, seq<T>>, c: seq<T>, k: nat)
    requires SimpleCycle(g, c) && k < |c|
    ensures SimpleCycle(g, Rotate(c, k)) && Rotate(c, k)[0] == c[k]
    ensures forall x :: x in Rotate(c, k) <==> x in c
  {
  }

  /** Going to a cycle and once around it is a simple path, whose expansion closes that cycle. */
  lemma OnceAround<T(!new)>(g: map<T, seq<T>>, cycles: seq<seq<T>>, root: T, p: seq<T>, c: seq<T>)
    requires SimplePath(g, root, p) && SimpleCycle(g, c) && p[|p| - 1] == c[0]
    requires forall i :: 0 <= i < |p| - 1 ==> p[i] !in c
    requires Frontier(g, cycles, root, [])
    ensures Found(cycles, c)
  {
    var q := p + c[1..];
    assert SimplePath(g, root, q) by {
      assert forall i :: 0 < i < |c| ==> Edge(g, c[i - 1], c[i]);
      assert forall i :: |p| - 1 <= i < |q| ==> q[i] == c[i - (|p| - 1)];
    }
    assert q[|p| - 1] == c[0];
    assert q[|q| - 1] == c[|c| - 1];
    assert Expanded(g, cycles, q);
    assert IndexOf(q, c[0]) == |p| - 1;
    assert q[|p| - 1..] == c;
  }

  /** An empty stack means that the root is handled. */
  lemma EmptyStackHandles<T(!new)>(g: map<T, seq<T>>, cycles: seq<seq<T>>, root: T)
    requires Frontier(g, cycles, root, [])
    ensures Handled(g, cycles, root)
  {
    hide Frontier;
    forall c, x | SimpleCycle(g, c) && x in c && Reaches(g, root, x)
      ensures Found(cycles, c)
    {
      hide SimpleCycle;
      var w :| Path(g, w) && w[0] == root && w[|w| - 1] == x;
      var p := ShortestInto(g, w, c);
      var k := IndexOf(c, p[|p| - 1]);
      RotateCycle(g, c, k);
      OnceAround(g, cycles, root, p, Rotate(c, k));
      var i :| 0 <= i < |cycles| && IsRotation(cycles[i], Rotate(c, k));
      assert IsRotation(c, Rotate(c, k));
      RotationIsSymmetric(c, Rotate(c, k));
      RotationIsTransitive(cycles[i], Rotate(c, k), c);
    }
  }

  // ---- One pop of the stack ----

  /** While the children of the popped path are scanned: a simple path from root has been expanded,
      extends a path of the stack, is the popped path, or extends it by a child still to be scanned. */
  ghost predicate Scanning<T(!new)>(g: map<T, seq<T>>, cycles: seq<seq<T>>, root: T, paths: seq<seq<T>>,
                                    path: seq<T>, rest: seq<T>) {
    forall p :: SimplePath(g, root, p) ==>
      Expanded(g, cycles, p) || Pending(paths, p) || p == path ||
      (path < p && p[|path|] in rest)
  }

  /** The cycles closed by the children scanned so far have been yielded. */
  ghost predicate Closed<T(!new)>(cycles: seq<seq<T>>, path: seq<T>, scanned: seq<T>) {
    forall x :: x in scanned && x in path ==> Found(cycles, path[IndexOf(path, x)..])
  }

  lemma PendingAppend<T>(paths: seq<seq<T>>, path: seq<T>, p: seq<T>)
    ensures Pending(paths + [path], p) <==> Pending(paths, p) || path <= p
  {
    var paths' := paths + [path];
    assert paths'[|paths|] == path && forall i :: 0 <= i < |paths| ==> paths'[i] == paths[i];
  }

  lemma PrefixStep<T>(path: seq<T>, p: seq<T>, x: T)
    requires path < p
    ensures path + [x] <= p <==> p[|path|] == x
  {
  }

  lemma PopPath<T(!new)>(g: map<T, seq<T>>, cycles: seq<seq<T>>, root: T, paths: seq<seq<T>>)
    requires paths != [] && Frontier(g, cycles, root, paths)
    requires SimplePath(g, root, paths[|paths| - 1])
    ensures var path := paths[|paths| - 1]; var parent := path[|path| - 1];
            Scanning(g, cycles, root, paths[..|paths| - 1], path, if parent in g then g[parent] else [])
  {
  }

  lemma FoundStays<T>(cycles: seq<seq<T>>, c: seq<T>, more: seq<seq<T>>)
    requires Found(cycles, c)
    ensures Found(cycles + more, c)
  {
    var i :| 0 <= i < |cycles| && IsRotation(cycles[i], c);
    assert (cycles + more)[i] == cycles[i];
  }

  lemma ClosedStep<T(!new)>(cycles: seq<seq<T>>, more: seq<seq<T>>, path: seq<T>, scanned: seq<T>, child: T)
    requires Closed(cycles, path, scanned)
    requires child in path ==> Found(cycles + more, path[IndexOf(path, child)..])
    ensures Closed(cycles + more, path, scanned + [child])
  {
    forall x | x in scanned + [child] && x in path
      ensures Found(cycles + more, path[IndexOf(path, x)..])
    {
      if x in scanned {
        FoundStays(cycles, path[IndexOf(path, x)..], more);
      }
    }
  }

  /** A child off the path: the longer path joins the stack. */
  lemma ScanForward<T(!new)>(g: map<T, seq<T>>, cycles: seq<seq<T>>, root: T, paths: seq<seq<T>>,
                             path: seq<T>, rest: seq<T>)
    requires rest != [] && Scanning(g, cycles, root, paths, path, rest)
    ensures Scanning(g, cycles, root, paths + [path + [rest[0]]], path, rest[1..])
  {
    hide Expanded;
    var paths' := paths + [path + [rest[0]]];
    forall p | SimplePath(g, root, p) && !Expanded(g, cycles, p) && !Pending(paths', p) && p != path
      ensures path < p && p[|path|] in rest[1..]
    {
      PendingAppend(paths, path + [rest[0]], p);
      if path < p {
        PrefixStep(path, p, rest[0]);
      }
    }
  }

  lemma FinishPath<T(!new)>(g: map<T, seq<T>>, cycles: seq<seq<T>>, root: T, paths: seq<seq<T>>, path: seq<T>)
    requires path != [] && Scanning(g, cycles, root, paths, path, [])
    requires Closed(cycles, path, if path[|path| - 1] in g then g[path[|path| - 1]] else [])
    ensures Frontier(g, cycles, root, paths)
  {
  }

  // ---- Termination ----

  /** The number of paths that extend a path by up to unused more elements, with at most degree ways each. */
  ghost function Weight(degree: nat, unused: nat): nat
    decreases unused, 1
  {
    1 + degree * Fan(degree, unused)
  }

  ghost function Fan(degree: nat, unused: nat): nat
    decreases unused, 0
  {
    if unused == 0 then 0 else Weight(degree, unused - 1)
  }

  ghost predicate Bounded<T>(g: map<T, seq<T>>, all: set<T>, degree: nat) {
    && g.Keys <= all
    && forall x :: x in g ==> |g[x]| <= degree && Elems(g[x]) <= all
  }

  ghost predicate PathsFit<T>(all: set<T>, paths: seq<seq<T>>) {
    forall i :: 0 <= i < |paths| ==> NoDup(paths[i]) && Elems(paths[i]) <= all
  }

  ghost function Unused<T>(all: set<T>, path: seq<T>): nat
    requires NoDup(path) && Elems(path) <= all
  {
    NoDupFits(path, all);
    |all| - |path|
  }

  ghost function StackWeight<T>(all: set<T>, degree: nat, paths: seq<seq<T>>): nat
    requires PathsFit(all, paths)
  {
    if paths == [] then 0 else
      StackWeight(all, degree, paths[..|paths| - 1]) + Weight(degree, Unused(all, paths[|paths| - 1]))
  }

  lemma PushWeight<T>(all: set<T>, degree: nat, paths: seq<seq<T>>, path: seq<T>, child: T)
    requires PathsFit(all, paths) && NoDup(path) && Elems(path) <= all && child !in path && child in all
    ensures PathsFit(all, paths + [path + [child]])
    ensures StackWeight(all, degree, paths + [path + [child]]) ==
            StackWeight(all, degree, paths) + Fan(degree, Unused(all, path))
  {
  }

  lemma {:induction false} SomeBound<T>(g: map<T, seq<T>>, keys: set<T>) returns (all: set<T>, degree: nat)
    requires keys <= g.Keys
    ensures keys <= all && forall x :: x in keys ==> |g[x]| <= degree && Elems(g[x]) <= all
    decreases keys
  {
    if keys == {} {
      all, degree := {}, 0;
    } else {
      var k :| k in keys;
      all, degree := SomeBound(g, keys - {k});
      all := all + {k} + Elems(g[k]);
      degree := degree + |g[k]|;
    }
  }

  // ---- find_cycles ----

  ghost predicate StackSound<T(!new)>(g: map<T, seq<T>>, root: T, seen: set<T>, paths: seq<seq<T>>) {
    && (forall i :: 0 <= i < |paths| ==> SimplePath(g, root, paths[i]))
    && forall x :: x in seen ==> Reaches(g, root, x)
  }

  ghost predicate AllHandled<T(!new)>(g: map<T, seq<T>>, cycles: seq<seq<T>>, xs: set<T>) {
    forall x :: x in xs ==> Handled(g, cycles, x)
  }

  /** The invariant while the stack of root is being emptied. */
  ghost predicate Searching<T(!new)>(g: map<T, seq<T>>, cycles: seq<seq<T>>, root: T, seen: set<T>,
                                     paths: seq<seq<T>>) {
    Sound(g, cycles) && StackSound(g, root, seen, paths) && Frontier(g, cycles, root, paths)
  }

  /** The invariant while children[j..] are still to be scanned from the end of path. */
  ghost predicate Branching<T(!new)>(g: map<T, seq<T>>, cycles: seq<seq<T>>, root: T, seen: set<T>,
                                     paths: seq<seq<T>>, path: seq<T>, children: seq<T>, j: nat)
  {
    && j <= |children|
    && SimplePath(g, root, path) && path[|path| - 1] in g && children == g[path[|path| - 1]]
    && Sound(g, cycles) && StackSound(g, root, seen, paths)
    && Scanning(g, cycles, root, paths, path, children[j..])
    && Closed(cycles, path, children[..j])
  }

  lemma StartRoot<T(!new)>(g: map<T, seq<T>>, all: set<T>, degree: nat, cycles: seq<seq<T>>, root: T)
    requires Sound(g, cycles) && Bounded(g, all, degree) && root in g
    ensures PathsFit(all, [[root]]) && Searching(g, cycles, root, {}, [[root]])
  {
    hide Expanded;
    forall p | SimplePath(g, root, p)
      ensures Pending([[root]], p)
    {
      assert [[root]][0] <= p;
    }
  }

  lemma FinishRoot<T(!new)>(g: map<T, seq<T>>, cycles: seq<seq<T>>, root: T, seen: set<T>)
    requires Searching(g, cycles, root, seen, [])
    ensures Sound(g, cycles) && AllHandled(g, cycles, seen + {root})
  {
    EmptyStackHandles(g, cycles, root);
    hide Frontier;
    hide Reaches;
    hide SimpleCycle;
    forall y, c, x | y in seen && SimpleCycle(g, c) && x in c && Reaches(g, y, x)
      ensures Found(cycles, c)
    {
      ReachesFurther(g, root, y, x);
    }
  }

  lemma AllHandledStays<T(!new)>(g: map<T, seq<T>>, cycles: seq<seq<T>>, cycles': seq<seq<T>>, xs: set<T>)
    requires AllHandled(g, cycles, xs) && cycles <= cycles'
    ensures AllHandled(g, cycles', xs)
  {
  }

  /** The stack of root is empty: root and everything it visited is handled, and what was handled stays so. */
  lemma RootDone<T(!new)>(g: map<T, seq<T>>, cycles0: seq<seq<T>>, cycles: seq<seq<T>>, root: T, seen: set<T>,
                          handled: set<T>)
    requires Searching(g, cycles, root, seen, [])
    requires AllHandled(g, cycles0, handled) && cycles0 <= cycles
    ensures Sound(g, cycles) && AllHandled(g, cycles, handled + {root} + seen)
  {
    FinishRoot(g, cycles, root, seen);
    AllHandledStays(g, cycles0, cycles, handled);
    hide Handled;
  }

  /** When every key is handled, the yielded cycles are all the simple cycles, each once up to rotation. */
  lemma EverythingFound<T(!new)>(g: map<T, seq<T>>, cycles: seq<seq<T>>, handled: set<T>)
    requires Sound(g, cycles) && AllHandled(g, cycles, handled) && g.Keys <= handled
    ensures forall i :: 0 <= i < |cycles| ==> SimpleCycle(g, cycles[i])
    ensures forall i, j :: 0 <= i < j < |cycles| ==> !IsRotation(cycles[i], cycles[j])
    ensures forall c :: SimpleCycle(g, c) ==> Found(cycles, c)
  {
    hide Found;
    forall c | SimpleCycle(g, c)
      ensures Found(cycles, c)
    {
      assert c[|c| - 1] in g.Keys && Handled(g, cycles, c[|c| - 1]);
      assert Path(g, [c[|c| - 1]]);
      assert Reaches(g, c[|c| - 1], c[|c| - 1]);
    }
  }

  lemma StartPath<T(!new)>(g: map<T, seq<T>>, cycles: seq<seq<T>>, root: T, seen: set<T>, paths: seq<seq<T>>)
    requires paths != [] && Searching(g, cycles, root, seen, paths)
    ensures var base, path := paths[..|paths| - 1], paths[|paths| - 1];
            && path != []
            && (path[|path| - 1] !in g ==> Searching(g, cycles, root, seen, base))
            && (path[|path| - 1] in g ==> Branching(g, cycles, root, seen, base, path, g[path[|path| - 1]], 0))
  {
    hide Frontier;
    hide Scanning;
    var base, path := paths[..|paths| - 1], paths[|paths| - 1];
    PopPath(g, cycles, root, paths);
    if path[|path| - 1] !in g {
      FinishPath(g, cycles, root, base, path);
    } else {
      var children := g[path[|path| - 1]];
      assert children[0..] == children;
    }
  }

  lemma ChildCloses<T(!new)>(g: map<T, seq<T>>, cycles: seq<seq<T>>, root: T, seen: set<T>,
                             paths: seq<seq<T>>, path: seq<T>, children: seq<T>, j: nat)
    requires Branching(g, cycles, root, seen, paths, path, children, j)
    requires j < |children| && children[j] in path
    ensures Sound(g, cycles) && SimpleCycle(g, path[IndexOf(path, children[j])..])
  {
  }

  lemma ChildOnPath<T(!new)>(g: map<T, seq<T>>, cycles: seq<seq<T>>, cycles': seq<seq<T>>, root: T, seen: set<T>,
                             paths: seq<seq<T>>, path: seq<T>, children: seq<T>, j: nat)
    requires Branching(g, cycles, root, seen, paths, path, children, j)
    requires j < |children| && children[j] in path
    requires cycles <= cycles' && Sound(g, cycles') && Found(cycles', path[IndexOf(path, children[j])..])
    ensures Branching(g, cycles', root, seen, paths, path, children, j + 1)
  {
  }

  lemma ChildOffPath<T(!new)>(g: map<T, seq<T>>, cycles: seq<seq<T>>, root: T, seen: set<T>,
                              paths: seq<seq<T>>, path: seq<T>, children: seq<T>, j: nat)
    requires Branching(g, cycles, root, seen, paths, path, children, j)
    requires j < |children| && children[j] !in path
    ensures Branching(g, cycles, root, seen + {children[j]}, paths + [path + [children[j]]], path, children, j + 1)
  {
    hide Sound;
    hide Scanning;
    hide Closed;
    hide Found;
    var child := children[j];
    assert children[j..][1..] == children[j + 1..] && children[..j] + [child] == children[..j + 1];
    ScanForward(g, cycles, root, paths, path, children[j..]);
    assert cycles + [] == cycles;
    ClosedStep(cycles, [], path, children[..j], child);
    var longer := path + [child];
    assert SimplePath(g, root, longer);
    assert Path(g, longer) && longer[0] == root && longer[|longer| - 1] == child;
  }

  lemma FinishBranching<T(!new)>(g: map<T, seq<T>>, cycles: seq<seq<T>>, root: T, seen: set<T>,
                                 paths: seq<seq<T>>, path: seq<T>, children: seq<T>)
    requires Branching(g, cycles, root, seen, paths, path, children, |children|)
    ensures Searching(g, cycles, root, seen, paths)
  {
  }

  lemma PopWeight<T>(g: map<T, seq<T>>, all: set<T>, degree: nat, paths: seq<seq<T>>)
    requires paths != [] && PathsFit(all, paths) && Bounded(g, all, degree)
    ensures var base, path := paths[..|paths| - 1], paths[|paths| - 1];
            && PathsFit(all, base) && NoDup(path) && Elems(path) <= all
            && StackWeight(all, degree, base) < StackWeight(all, degree, paths)
            && forall x :: x in g ==>
              Elems(g[x]) <= all &&
              StackWeight(all, degree, base) + |g[x]| * Fan(degree, Unused(all, path)) <
              StackWeight(all, degree, paths)
  {
  }

  lemma GraphBound<T>(g: map<T, seq<T>>) returns (all: set<T>, degree: nat)
    ensures Bounded(g, all, degree)
  {
    all, degree := SomeBound(g, g.Keys);
  }

  lemma ChildFits<T>(all: set<T>, children: seq<T>, child: T)
    requires child in children && Elems(children) <= all
    ensures child in all
  {
  }

  lemma NextFan(j: nat, fan: nat)
    ensures 0 * fan == 0 && (j + 1) * fan == j * fan + fan
  {
  }

  lemma NothingYet<T(!new)>(g: map<T, seq<T>>)
    ensures Sound(g, []) && AllHandled(g, [], {})
  {
  }

  /** Yield cycle unless a rotation of it has been yielded before. */
  method YieldOnce<T(==)>(g: map<T, seq<T>>, cycles: seq<seq<T>>, cycle: seq<T>) returns (r: seq<seq<T>>)
    requires Sound(g, cycles) && SimpleCycle(g, cycle)
    ensures cycles <= r && Sound(g, r) && Found(r, cycle)
    ensures r == cycles || r == cycles + [cycle]
  {
    var isDup := false;
    var i := 0;
    while i < |cycles|
      invariant 0 <= i <= |cycles| && !isDup
      invariant forall j :: 0 <= j < i ==> !IsRotation(cycles[j], cycle)
    {
      var verdict := IsRotated(cycles[i], cycle);
      if verdict.rotated {
        isDup := true;
        break;
      }
      i := i + 1;
    }
    r := cycles;
    if !isDup {
      r := cycles + [cycle];
      RotationIsReflexive(cycle);
      assert IsRotation(r[|cycles|], cycle);
    }
  }

  method FindCycles<T(==, !new)>(parentChildren: map<T, seq<T>>) returns (cycles: seq<seq<T>>)
    ensures forall i :: 0 <= i < |cycles| ==> SimpleCycle(parentChildren, cycles[i])
    ensures forall i, j :: 0 <= i < j < |cycles| ==> !IsRotation(cycles[i], cycles[j])
    ensures forall c :: SimpleCycle(parentChildren, c) ==> Found(cycles, c)
  {
    NothingYet(parentChildren);
    hide *;
    ghost var g := parentChildren;
    ghost var all, degree := GraphBound(g);
    cycles := [];
    var visitedNodes: set<T> := {};
    ghost var handled: set<T> := {};
    assert handled + visitedNodes == {};
    var todo := parentChildren.Keys;
    while todo != {}
      invariant todo + handled == g.Keys
      invariant Sound(g, cycles) && AllHandled(g, cycles, handled + visitedNodes)
      decreases todo
    {
      var root :| root in todo;
      todo := todo - {root};
      if root in visitedNodes {
        assert handled + {root} + visitedNodes == handled + visitedNodes;
        handled := handled + {root};
        continue;
      }
      var paths := [[root]];
      StartRoot(g, all, degree, cycles, root);
      ghost var seen: set<T> := {};
      ghost var visited0, cycles0 := visitedNodes, cycles;
      while paths != []
        invariant visitedNodes == visited0 + seen && cycles0 <= cycles
        invariant PathsFit(all, paths) && Searching(g, cycles, root, seen, paths)
        decreases if PathsFit(all, paths) then StackWeight(all, degree, paths) else 0
      {
        var path := paths[|paths| - 1];
        PopWeight(g, all, degree, paths);
        StartPath(g, cycles, root, seen, paths);
        paths := paths[..|paths| - 1];
        var parent := path[|path| - 1];
        if parent !in parentChildren {
          continue;
        }
        var children := parentChildren[parent];
        ghost var weight, fan := StackWeight(all, degree, paths), Fan(degree, Unused(all, path));
        var j := 0;
        while j < |children|
          invariant 0 <= j <= |children|
          invariant visitedNodes == visited0 + seen && cycles0 <= cycles
          invariant PathsFit(all, paths) && StackWeight(all, degree, paths) <= weight + j * fan
          invariant Branching(g, cycles, root, seen, paths, path, children, j)
        {
          var child := children[j];
          NextFan(j, fan);
          if child in path {
            ChildCloses(g, cycles, root, seen, paths, path, children, j);
            var cycles' := YieldOnce(parentChildren, cycles, path[IndexOf(path, child)..]);
            ChildOnPath(g, cycles, cycles', root, seen, paths, path, children, j);
            cycles := cycles';
          } else {
            ChildOffPath(g, cycles, root, seen, paths, path, children, j);
            ChildFits(all, children, child);
            PushWeight(all, degree, paths, path, child);
            paths := paths + [path + [child]];
            visitedNodes := visitedNodes + {child};
            seen := seen + {child};
          }
          j := j + 1;
        }
        FinishBranching(g, cycles, root, seen, paths, path, children);
      }
      RootDone(g, cycles0, cycles, root, seen, handled + visited0);
      assert handled + {root} + visitedNodes == handled + visited0 + {root} + seen;
      handled := handled + {root};
    }
    EverythingFound(g, cycles, handled + visitedNodes);
  }
}
