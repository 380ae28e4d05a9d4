/** Rotations of lists and the is_rotated test. */
module Rotation {

  datatype Verdict = Value(rotated: bool) | IndexError

  /** s turned so that the element at k comes first. */
  ghost function Rotate<T>(s: seq<T>, k: nat): (r: seq<T>)
    requires k <= |s|
    ensures |r| == |s|
  {
    s[k..] + s[..k]
  }

  ghost predicate IsRotation<T>(s: seq<T>, t: seq<T>) {
    exists k: nat :: k <= |s| && t == Rotate(s, k)
  }

  lemma RotateTwice<T>(s: seq<T>, j: nat, k: nat)
    requires j <= |s| && k <= |s|
    ensures Rotate(Rotate(s, j), k) == Rotate(s, if j + k <= |s| then j + k else j + k - |s|)
  {
  }

  lemma RotationIsReflexive<T>(s: seq<T>)
    ensures IsRotation(s, s)
  {
    assert Rotate(s, 0) == s;
  }

  lemma RotationIsSymmetric<T>(s: seq<T>, t: seq<T>)
    requires IsRotation(s, t)
    ensures IsRotation(t, s)
  {
    var k: nat :| k <= |s| && t == Rotate(s, k);
    RotateTwice(s, k, |s| - k);
    assert Rotate(s, |s|) == s;
    assert s == Rotate(t, |s| - k);
  }

  lemma RotationIsTransitive<T>(s: seq<T>, t: seq<T>, u: seq<T>)
    requires IsRotation(s, t) && IsRotation(t, u)
    ensures IsRotation(s, u)
  {
    var j: nat :| j <= |s| && t == Rotate(s, j);
    var k: nat :| k <= |t| && u == Rotate(t, k);
    RotateTwice(s, j, k);
  }

  /** Only rotations that start with the head of t can be t. */
  lemma NoStartNoRotation<T>(s: seq<T>, t: seq<T>, starts: seq<nat>)
    requires |s| == |t| > 0
    requires forall k: nat :: k < |s| && s[k] == t[0] ==> k in starts
    requires forall m :: 0 <= m < |starts| ==> starts[m] <= |s| && Rotate(s, starts[m]) != t
    ensures !IsRotation(s, t)
  {
    forall k: nat | k <= |s|
      ensures Rotate(s, k) != t
    {
      var start := if k == |s| then 0 else k;
      assert Rotate(s, k) == Rotate(s, start);
      assert Rotate(s, start)[0] == s[start];
    }
  }

  /** Reading the head of seq2 fails on two empty lists; otherwise the answer is exact. */
  method IsRotated<T(==)>(seq1: seq<T>, seq2: seq<T>) returns (r: Verdict)
    ensures r.IndexError? <==> seq1 == [] && seq2 == []
    ensures r.Value? ==> (r.rotated <==> IsRotation(seq1, seq2))
  {
    if |seq1| != |seq2| {
      return Value(false);
    }
    if seq2 == [] {
      return IndexError;
    }
    var startIndexes: seq<nat> := [];
    var headItem := seq2[0];
    for index1 := 0 to |seq1|
      invariant forall k :: k in startIndexes <==> 0 <= k < index1 && seq1[k] == headItem
    {
      if seq1[index1] == headItem {
        startIndexes := startIndexes + [index1];
      }
    }
    var doubleSeq1 := seq1 + seq1;
    forall k: nat | k < |seq1|
      ensures doubleSeq1[k..k + |seq1|] == Rotate(seq1, k)
    {
    }
    assert forall m :: 0 <= m < |startIndexes| ==> startIndexes[m] in startIndexes;
    for i := 0 to |startIndexes|
      invariant forall m :: 0 <= m < i ==> Rotate(seq1, startIndexes[m]) != seq2
    {
      var index1 := startIndexes[i];
      if doubleSeq1[index1..index1 + |seq1|] == seq2 {
        return Value(true);
      }
    }
    NoStartNoRotation(seq1, seq2, startIndexes);
    return Value(false);
  }
}
