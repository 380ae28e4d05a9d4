/** Notions that several modules share. */
module Basics {

  datatype Option<+T> = None | Some(value: T)

  ghost predicate NoDup<T>(s: seq<T>) {
    forall i, j :: 0 <= i < j < |s| ==> s[i] != s[j]
  }

  ghost function Elems<T>(s: seq<T>): set<T> {
    set x | x in s
  }

  /** Pigeonhole: distinct elements of a finite set are at most as many as the set has. */
  lemma {:induction false} NoDupFits<T>(s: seq<T>, u: set<T>)
    requires NoDup(s) && forall i :: 0 <= i < |s| ==> s[i] in u
    ensures |s| <= |u|
  {
    if s != [] {
      NoDupFits(s[..|s| - 1], u - {s[|s| - 1]});
    }
  }

  /** A non-empty sequence with an edge from each element to the next one. */
  ghost predicate Linked<T>(edge: (T, T) -> bool, w: seq<T>) {
    |w| > 0 && forall i :: 0 < i < |w| ==> edge(w[i - 1], w[i])
  }

  /** What pick gives for the items, in their order. */
  function Picked<A, B>(items: seq<A>, pick: A -> Option<B>): seq<B> {
    if items == [] then [] else
      var n := |items| - 1;
      Picked(items[..n], pick) + if pick(items[n]).Some? then [pick(items[n]).value] else []
  }

  lemma PickedStep<A, B>(items: seq<A>, i: nat, pick: A -> Option<B>)
    requires i < |items|
    ensures Picked(items[..i + 1], pick) ==
            Picked(items[..i], pick) + if pick(items[i]).Some? then [pick(items[i]).value] else []
  {
    assert items[..i + 1][..i] == items[..i];
  }

  lemma {:induction false} InPicked<A, B>(items: seq<A>, pick: A -> Option<B>, b: B)
    ensures b in Picked(items, pick) <==> exists i :: 0 <= i < |items| && pick(items[i]) == Some(b)
  {
    if items != [] {
      var n := |items| - 1;
      InPicked(items[..n], pick, b);
      assert items == items[..n] + [items[n]];
    }
  }

  /** The k-th of out comes from the item at[k]; the items with a value come once each, in their order. */
  ghost predicate InOrder<A, B>(items: seq<A>, pick: A -> Option<B>, out: seq<B>, at: seq<nat>) {
    && |at| == |out|
    && (forall j, k :: 0 <= j < k < |at| ==> at[j] < at[k])
    && (forall k :: 0 <= k < |at| ==> at[k] < |items| && pick(items[at[k]]) == Some(out[k]))
    && (forall i :: 0 <= i < |items| && pick(items[i]).Some? ==> i in at)
  }

  lemma OrderGrows<A, B>(items: seq<A>, pick: A -> Option<B>, out: seq<B>, at: seq<nat>)
    requires items != [] && InOrder(items[..|items| - 1], pick, out, at)
    ensures var n := |items| - 1;
            if pick(items[n]).Some? then InOrder(items, pick, out + [pick(items[n]).value], at + [n])
            else InOrder(items, pick, out, at)
  {
    var n := |items| - 1;
    assert forall k :: 0 <= k < |at| ==> items[..n][at[k]] == items[at[k]];
    forall i | 0 <= i < n && pick(items[i]).Some? ensures i in at {
      assert items[..n][i] == items[i];
    }
  }

  lemma {:induction false} PickedInOrder<A, B>(items: seq<A>, pick: A -> Option<B>) returns (at: seq<nat>)
    ensures InOrder(items, pick, Picked(items, pick), at)
  {
    at := [];
    if items != [] {
      var n := |items| - 1;
      at := PickedInOrder(items[..n], pick);
      OrderGrows(items, pick, Picked(items[..n], pick), at);
      hide InOrder;
      if pick(items[n]).Some? {
        at := at + [n];
      }
    }
  }

  function Pow2(n: nat): (p: nat)
    ensures p > 0
  {
    if n == 0 then 1 else 2 * Pow2(n - 1)
  }
}
