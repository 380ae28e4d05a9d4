/** Gray encoding of natural numbers, i ^ (i >> 1). */
module GrayCode {
  import opened Basics

  /** Bit k of x. */
  function Bit(x: nat, k: nat): nat
    decreases k
  {
    if k == 0 then x % 2 else Bit(x / 2, k - 1)
  }

  /** Bitwise exclusive or. */
  function Xor(a: nat, b: nat): nat
    decreases a + b
  {
    if a == 0 && b == 0 then 0
    else 2 * Xor(a / 2, b / 2) + if a % 2 != b % 2 then 1 else 0
  }

  lemma {:induction false} XorBits(a: nat, b: nat, k: nat)
    ensures Bit(Xor(a, b), k) == if Bit(a, k) != Bit(b, k) then 1 else 0
    decreases k
  {
    assert Xor(a, b) / 2 == Xor(a / 2, b / 2);
    if k > 0 {
      XorBits(a / 2, b / 2, k - 1);
    }
  }

  function GrayEncode(i: nat): nat {
    Xor(i, i / 2)
  }

  /** One digit of the code: the parity of i compared with that of its half. */
  lemma EncodeStep(i: nat)
    ensures GrayEncode(i) == 2 * GrayEncode(i / 2) + if i % 2 != i / 2 % 2 then 1 else 0
  {
  }

  /** Bit k of the code tells whether the bits k and k + 1 of the number differ. */
  lemma {:induction false} EncodeBits(i: nat, k: nat)
    ensures Bit(GrayEncode(i), k) == if Bit(i, k) != Bit(i, k + 1) then 1 else 0
  {
    XorBits(i, i / 2, k);
    assert Bit(i, k + 1) == Bit(i / 2, k);
  }

  ghost predicate DifferOnlyAt(a: nat, b: nat, k: nat) {
    forall j: nat :: Bit(a, j) != Bit(b, j) <==> j == k
  }

  lemma LowBits(a: nat, b: nat)
    requires a / 2 == b / 2 && a % 2 != b % 2
    ensures DifferOnlyAt(a, b, 0)
  {
  }

  lemma SameBits(a: nat, b: nat, k: nat)
    requires DifferOnlyAt(a / 2, b / 2, k) && a % 2 == b % 2
    ensures DifferOnlyAt(a, b, k + 1)
  {
  }

  /** The codes of neighbours differ in exactly one bit. */
  lemma {:induction false} NeighboursDifferOnce(i: nat) returns (k: nat)
    ensures DifferOnlyAt(GrayEncode(i), GrayEncode(i + 1), k)
  {
    hide Xor;
    hide DifferOnlyAt;
    EncodeStep(i);
    EncodeStep(i + 1);
    hide GrayEncode;
    var a, b := GrayEncode(i), GrayEncode(i + 1);
    if i % 2 == 0 {
      k := 0;
      LowBits(a, b);
    } else {
      k := NeighboursDifferOnce(i / 2);
      assert (i + 1) / 2 == i / 2 + 1;
      SameBits(a, b, k);
      k := k + 1;
    }
  }

  function GrayDecode(g: nat): nat {
    if g == 0 then 0 else
      var h := GrayDecode(g / 2);
      2 * h + if g % 2 != h % 2 then 1 else 0
  }

  lemma {:induction false} DecodeOfEncode(i: nat)
    ensures GrayDecode(GrayEncode(i)) == i
    decreases i
  {
    EncodeStep(i);
    if i > 0 {
      DecodeOfEncode(i / 2);
    }
  }

  lemma {:induction false} EncodeOfDecode(g: nat)
    ensures GrayEncode(GrayDecode(g)) == g
    decreases g
  {
    if g > 0 {
      EncodeOfDecode(g / 2);
      var h, x := GrayDecode(g / 2), GrayDecode(g);
      assert x / 2 == h && (x % 2 != h % 2 <==> g % 2 == 1);
      EncodeStep(x);
    }
  }

  lemma {:induction false} EncodeInRange(i: nat, n: nat)
    ensures i < Pow2(n) <==> GrayEncode(i) < Pow2(n)
    decreases n
  {
    EncodeStep(i);
    if n > 0 {
      EncodeInRange(i / 2, n - 1);
    } else if i > 0 {
      DecodeOfEncode(i);
    }
  }

  ghost predicate IsCodeBelow(g: nat, n: nat) {
    exists i: nat :: i < Pow2(n) && GrayEncode(i) == g
  }

  /** On the numbers below 2^n the encoding is a bijection onto themselves. */
  lemma EncodeIsBijective(n: nat)
    ensures forall i: nat :: i < Pow2(n) ==> GrayEncode(i) < Pow2(n)
    ensures forall i: nat, j: nat :: GrayEncode(i) == GrayEncode(j) ==> i == j
    ensures forall g: nat :: g < Pow2(n) ==> IsCodeBelow(g, n)
  {
    forall i: nat ensures i < Pow2(n) <==> GrayEncode(i) < Pow2(n) { EncodeInRange(i, n); }
    forall i: nat ensures GrayDecode(GrayEncode(i)) == i { DecodeOfEncode(i); }
    forall g: nat | g < Pow2(n) ensures IsCodeBelow(g, n) {
      EncodeOfDecode(g);
      EncodeInRange(GrayDecode(g), n);
    }
  }
}
