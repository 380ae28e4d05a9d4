/** Directed graphs given as a list of (parent, child) pairs: walks, cycles and
    the longest-incoming-path depth, independently of any sorting algorithm. */
module DepGraph {
  import opened Basics

  /** Every element that a pair mentions. */
  ghost function Nodes<T>(pairs: seq<(T, T)>): set<T> {
    (set e | e in pairs :: e.0) + (set e | e in pairs :: e.1)
  }

  /** A non-empty sequence in which each element is a parent of the next one. */
  ghost predicate IsWalk<T>(pairs: seq<(T, T)>, w: seq<T>) {
    Linked((a, b) => (a, b) in pairs, w)
  }

  ghost predicate WalkTo<T>(pairs: seq<(T, T)>, w: seq<T>, x: T) {
    IsWalk(pairs, w) && w[|w| - 1] == x
  }

  /** A closed walk along at least one edge; its first element is repeated at the end. */
  ghost predicate IsCycle<T>(pairs: seq<(T, T)>, c: seq<T>) {
    |c| >= 2 && IsWalk(pairs, c) && c[0] == c[|c| - 1]
  }

  ghost predicate Acyclic<T(!new)>(pairs: seq<(T, T)>) {
    forall c :: !IsCycle(pairs, c)
  }

  /** p leads from an element of the cycle c to x. */
  ghost predicate Leads<T>(pairs: seq<(T, T)>, c: seq<T>, p: seq<T>, x: T) {
    IsCycle(pairs, c) && WalkTo(pairs, p, x) && p[0] == c[0]
  }

  /** x is on a cycle or reachable from one. */
  ghost predicate BelowCycle<T(!new)>(pairs: seq<(T, T)>, x: T) {
    exists c, p :: Leads(pairs, c, p, x)
  }

  /** No walk to x has more than k elements. */
  ghost predicate Shallow<T(!new)>(pairs: seq<(T, T)>, x: T, k: nat) {
    forall w :: WalkTo(pairs, w, x) ==> |w| <= k
  }

  /** The longest walk to x has exactly k edges. */
  ghost predicate HasDepth<T(!new)>(pairs: seq<(T, T)>, x: T, k: nat) {
    (exists w :: WalkTo(pairs, w, x) && |w| == k + 1) && Shallow(pairs, x, k + 1)
  }

  // ---- Depth ----

  lemma DepthIsUnique<T(!new)>(pairs: seq<(T, T)>, x: T, j: nat, k: nat)
    requires HasDepth(pairs, x, j) && HasDepth(pairs, x, k)
    ensures j == k
  {
  }

  /** x is within k + 1 elements exactly when each of its parents is within k. */
  lemma ShallowByParents<T(!new)>(pairs: seq<(T, T)>, x: T, k: nat)
    ensures Shallow(pairs, x, k + 1) <==> forall p :: (p, x) in pairs ==> Shallow(pairs, p, k)
  {
    if Shallow(pairs, x, k + 1) {
      forall p, w | (p, x) in pairs && WalkTo(pairs, w, p)
        ensures |w| <= k
      {
        assert WalkTo(pairs, w + [x], x);
      }
    }
    if forall p :: (p, x) in pairs ==> Shallow(pairs, p, k) {
      forall w | WalkTo(pairs, w, x)
        ensures |w| <= k + 1
      {
        if |w| > 1 {
          var v := w[..|w| - 1];
          assert WalkTo(pairs, v, v[|v| - 1]);
        }
      }
    }
  }

  lemma NothingIsShallowAtZero<T(!new)>(pairs: seq<(T, T)>, x: T)
    ensures !Shallow(pairs, x, 0)
  {
    assert WalkTo(pairs, [x], x);
  }

  /** Depth k is being within k + 1 elements but not within k. */
  lemma DepthByShallow<T(!new)>(pairs: seq<(T, T)>, x: T, k: nat)
    ensures HasDepth(pairs, x, k) <==> Shallow(pairs, x, k + 1) && !Shallow(pairs, x, k)
  {
  }

  /** A child whose parents all have depth at most d, one of them exactly d, has depth d + 1. */
  lemma DepthStep<T(!new)>(pairs: seq<(T, T)>, x: T, p: T, d: nat)
    requires (p, x) in pairs && HasDepth(pairs, p, d)
    requires forall q :: (q, x) in pairs ==> Shallow(pairs, q, d + 1)
    ensures HasDepth(pairs, x, d + 1)
  {
    ShallowByParents(pairs, x, d + 1);
    var w :| WalkTo(pairs, w, p) && |w| == d + 1;
    assert WalkTo(pairs, w + [x], x);
  }

  lemma DepthZero<T(!new)>(pairs: seq<(T, T)>, x: T)
    requires forall q :: (q, x) !in pairs
    ensures HasDepth(pairs, x, 0)
  {
    ShallowByParents(pairs, x, 0);
    assert WalkTo(pairs, [x], x);
  }

  // ---- Cycles make walks of any length ----

  lemma {:induction false} Pump<T>(pairs: seq<(T, T)>, c: seq<T>, p: seq<T>, x: T, n: nat) returns (w: seq<T>)
    requires Leads(pairs, c, p, x)
    ensures Leads(pairs, c, w, x) && |w| >= n
    decreases n
  {
    if n == 0 {
      w := p;
    } else {
      var v := Pump(pairs, c, p, x, n - 1);
      w := c[..|c| - 1] + v;
    }
  }

  lemma BelowCycleIsNotShallow<T(!new)>(pairs: seq<(T, T)>, x: T, k: nat)
    requires BelowCycle(pairs, x)
    ensures !Shallow(pairs, x, k)
  {
    var c, p :| Leads(pairs, c, p, x);
    var w := Pump(pairs, c, p, x, k + 1);
    assert WalkTo(pairs, w, x);
  }

  ghost predicate HasParentIn<T>(pairs: seq<(T, T)>, left: set<T>, y: T) {
    exists p :: p in left && (p, y) in pairs
  }

  /** Where every element has a parent, walks can be extended backwards for ever. */
  lemma {:induction false} WalkBack<T>(pairs: seq<(T, T)>, left: set<T>, x: T, n: nat) returns (w: seq<T>)
    requires x in left && forall y :: y in left ==> HasParentIn(pairs, left, y)
    ensures WalkTo(pairs, w, x) && |w| == n + 1 && forall i :: 0 <= i < |w| ==> w[i] in left
    decreases n
  {
    if n == 0 {
      w := [x];
    } else {
      var v := WalkBack(pairs, left, x, n - 1);
      assert HasParentIn(pairs, left, v[0]);
      var p :| p in left && (p, v[0]) in pairs;
      w := [p] + v;
    }
  }

  lemma EndlessParentsMeanCycle<T(!new)>(pairs: seq<(T, T)>, left: set<T>, x: T)
    requires x in left && forall y :: y in left ==> HasParentIn(pairs, left, y)
    ensures BelowCycle(pairs, x)
  {
    var w := WalkBack(pairs, left, x, |left|);
    if NoDup(w) {
      NoDupFits(w, left);
    } else {
      var i, j :| 0 <= i < j < |w| && w[i] == w[j];
      assert Leads(pairs, w[i..j + 1], w[i..], x);
    }
  }

  lemma BelowCycleMeansCyclic<T(!new)>(pairs: seq<(T, T)>, x: T)
    requires BelowCycle(pairs, x)
    ensures !Acyclic(pairs)
  {
  }

  /** In a cyclic graph the elements of a cycle are nodes below that cycle. */
  lemma CyclicHasNodeBelow<T(!new)>(pairs: seq<(T, T)>) returns (x: T)
    requires !Acyclic(pairs)
    ensures x in Nodes(pairs) && BelowCycle(pairs, x)
  {
    var c :| IsCycle(pairs, c);
    x := c[0];
    assert (c[0], c[1]) in pairs;
    assert Leads(pairs, c, [x], x);
  }

  /** Removing elements of bounded depth until every other one has a parent left
      leaves exactly the elements below a cycle. */
  lemma LeftoversAreBelowCycles<T(!new)>(pairs: seq<(T, T)>, all: set<T>, done: set<T>)
    requires done <= all
    requires forall x :: x in done ==> exists k: nat :: Shallow(pairs, x, k)
    requires forall y :: y in all - done ==> HasParentIn(pairs, all - done, y)
    ensures forall x :: x in all ==> (x !in done <==> BelowCycle(pairs, x))
  {
    forall x | x in all
      ensures x !in done <==> BelowCycle(pairs, x)
    {
      if x in done {
        var k: nat :| Shallow(pairs, x, k);
        if BelowCycle(pairs, x) {
          BelowCycleIsNotShallow(pairs, x, k);
        }
      } else {
        EndlessParentsMeanCycle(pairs, all - done, x);
      }
    }
  }
}
