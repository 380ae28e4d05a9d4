/** Binary numerals: int2bin, bin2int and binary_range. */
module BinaryStrings {
  import opened Basics

  datatype Outcome = Text(text: string) | ValueError | KeyError

  predicate IsBinary(s: string) {
    forall i :: 0 <= i < |s| ==> s[i] == '0' || s[i] == '1'
  }

  function Digit(c: char): nat {
    if c == '1' then 1 else 0
  }

  /** The number a numeral stands for, most significant digit first. */
  function Value(s: string): nat {
    if s == "" then 0 else 2 * Value(s[..|s| - 1]) + Digit(s[|s| - 1])
  }

  lemma {:induction false} ValueConcat(a: string, b: string)
    ensures Value(a + b) == Value(a) * Pow2(|b|) + Value(b)
    decreases |b|
  {
    if b == "" {
      assert a + b == a;
    } else {
      var m := |b| - 1;
      ValueConcat(a, b[..m]);
      assert (a + b)[..|a + b| - 1] == a + b[..m];
      assert Value(a) * Pow2(|b|) == 2 * (Value(a) * Pow2(m));
    }
  }

  lemma {:induction false} ValueBound(s: string)
    ensures Value(s) < Pow2(|s|)
  {
    if s != "" {
      ValueBound(s[..|s| - 1]);
    }
  }

  /** A numeral is zero exactly when it has no digit 1. */
  lemma {:induction false} ValueZero(s: string)
    requires IsBinary(s)
    ensures Value(s) == 0 <==> '1' !in s
  {
    if s != "" {
      var n := |s| - 1;
      ValueZero(s[..n]);
      assert s == s[..n] + [s[n]];
    }
  }

  lemma {:induction false} ValueIsInjective(s: string, t: string)
    requires IsBinary(s) && IsBinary(t) && |s| == |t| && Value(s) == Value(t)
    ensures s == t
  {
    if s != "" {
      var n := |s| - 1;
      var a, b := Value(s[..n]), Value(t[..n]);
      assert Value(s) == 2 * a + Digit(s[n]) && Value(t) == 2 * b + Digit(t[n]);
      hide Value;
      ValueIsInjective(s[..n], t[..n]);
      assert s == s[..n] + [s[n]] && t == t[..n] + [t[n]];
    }
  }

  // ---- int2bin ----

  function HexToBin(digit: nat): string
    requires digit < 16
  {
    ["0000", "0001", "0010", "0011", "0100", "0101", "0110", "0111",
     "1000", "1001", "1010", "1011", "1100", "1101", "1110", "1111"][digit]
  }

  function HexDigits(i: nat): (r: seq<nat>)
    ensures forall k :: 0 <= k < |r| ==> r[k] < 16
  {
    if i < 16 then [i] else HexDigits(i / 16) + [i % 16]
  }

  function Expand(digits: seq<nat>): string
    requires forall k :: 0 <= k < |digits| ==> digits[k] < 16
  {
    if digits == [] then "" else Expand(digits[..|digits| - 1]) + HexToBin(digits[|digits| - 1])
  }

  /** s[:k] and s[k:] for any integer k, counted from the end when negative. */
  function SliceTo(s: string, k: int): string {
    if k >= |s| then s else if k >= 0 then s[..k] else if |s| + k >= 0 then s[..|s| + k] else ""
  }

  function SliceFrom(s: string, k: int): string {
    if k >= |s| then "" else if k >= 0 then s[k..] else if |s| + k >= 0 then s[|s| + k..] else s
  }

  function Zeros(n: int): (z: string)
    ensures |z| == (if n < 0 then 0 else n) && IsBinary(z) && '1' !in z
  {
    if n <= 0 then "" else Zeros(n - 1) + "0"
  }

  /** The text of a negative number is cut off between its 0 and its x, and the table has no x. */
  function Int2Bin(i: int, n: int): Outcome {
    if i < 0 then KeyError else
      var result := Expand(HexDigits(i));
      if '1' in SliceTo(result, -n) then ValueError
      else
        var shrunk := SliceFrom(result, -n);
        Text(Zeros(n - |shrunk|) + shrunk)
  }

  lemma Int2BinFails(i: int, n: int)
    ensures Int2Bin(i, n).KeyError? <==> i < 0
  {
  }

  /** int(s, 2) on strings of the digits 0 and 1. */
  function Bin2Int(s: string): Option<nat> {
    if s == "" || !IsBinary(s) then None else Some(Value(s))
  }

  /** bin2int refuses exactly the texts that int2bin gives for no number and no positive width. */
  lemma Bin2IntRefuses(s: string)
    ensures Bin2Int(s).None? <==> forall i: nat, n: nat :: n >= 1 ==> Int2Bin(i, n) != Text(s)
  {
    if Bin2Int(s).None? {
      forall i: nat, n: nat | n >= 1
        ensures Int2Bin(i, n) != Text(s)
      {
        Int2BinIsExact(i, n);
      }
    } else {
      Bin2IntRoundTrip(s);
    }
  }

  lemma NibbleValue(digit: nat)
    requires digit < 16
    ensures var h := HexToBin(digit); |h| == 4 && IsBinary(h) && Value(h) == digit
  {
    var h := HexToBin(digit);
    assert h[..3][..2] == h[..2] && h[..2][..1] == h[..1] && h[..1][..0] == "";
    assert Value(h[..1]) == Digit(h[0]);
    assert Value(h[..2]) == 2 * Digit(h[0]) + Digit(h[1]);
    assert Value(h[..3]) == 4 * Digit(h[0]) + 2 * Digit(h[1]) + Digit(h[2]);
  }

  lemma {:induction false} ExpandValue(i: nat)
    ensures var s := Expand(HexDigits(i)); IsBinary(s) && Value(s) == i
    decreases i
  {
    if i < 16 {
      NibbleValue(i);
      assert HexDigits(i)[..0] == [];
      assert Expand(HexDigits(i)) == "" + HexToBin(i) == HexToBin(i);
    } else {
      ExpandValue(i / 16);
      NibbleValue(i % 16);
      var digits := HexDigits(i);
      assert digits[..|digits| - 1] == HexDigits(i / 16);
      ValueConcat(Expand(HexDigits(i / 16)), HexToBin(i % 16));
      assert Pow2(4) == 16;
    }
  }

  /** The first k digits are zeros exactly when the number fits into the others. */
  lemma CutAt(s: string, k: nat)
    requires IsBinary(s) && k <= |s|
    ensures '1' in s[..k] <==> Value(s) >= Pow2(|s| - k)
    ensures '1' !in s[..k] ==> Value(s[k..]) == Value(s)
  {
    var head, tail := s[..k], s[k..];
    assert s == head + tail;
    ValueConcat(head, tail);
    ValueZero(head);
    ValueBound(tail);
    hide *;
    if '1' in head {
      AtLeast(Value(head), Pow2(|tail|));
    }
  }

  /** Digits are cut off exactly when the value does not fit. */
  lemma CutOff(s: string, n: nat)
    requires IsBinary(s) && n >= 1
    ensures var head, tail := SliceTo(s, 0 - n), SliceFrom(s, 0 - n);
            && IsBinary(tail) && |tail| <= n
            && ('1' in head <==> Value(s) >= Pow2(n))
            && ('1' !in head ==> Value(tail) == Value(s))
  {
    CutAt(s, if n <= |s| then |s| - n else 0);
    ValueBound(s);
    PowGrows(|s|, if n <= |s| then |s| else n);
  }

  lemma Padded(zeros: string, tail: string)
    requires IsBinary(zeros) && '1' !in zeros
    ensures Value(zeros + tail) == Value(tail)
  {
    ValueConcat(zeros, tail);
    ValueZero(zeros);
  }

  /** For a positive width: the number is refused exactly when it does not fit, and otherwise
      the answer is the numeral of that width, which bin2int reads back. */
  lemma Int2BinIsExact(i: nat, n: nat)
    requires n >= 1
    ensures Int2Bin(i, n).ValueError? <==> i >= Pow2(n)
    ensures i < Pow2(n) ==>
      var r := Int2Bin(i, n);
      r.Text? && |r.text| == n && IsBinary(r.text) && Value(r.text) == i && Bin2Int(r.text) == Some(i)
  {
    ExpandValue(i);
    var s := Expand(HexDigits(i));
    CutOff(s, n);
    var tail := SliceFrom(s, 0 - n);
    Padded(Zeros(n - |tail|), tail);
    hide Value;
    hide Pow2;
    hide HexDigits;
    hide Expand;
    hide Zeros;
    hide SliceFrom;
    hide SliceTo;
  }

  lemma AtLeast(k: nat, p: nat)
    requires k >= 1
    ensures k * p >= p
  {
  }

  lemma {:induction false} PowGrows(m: nat, n: nat)
    requires m <= n
    ensures Pow2(m) <= Pow2(n)
  {
    if m < n {
      PowGrows(m, n - 1);
    }
  }

  /** A width of zero never refuses and never shortens: every number is written out in full. */
  lemma Int2BinWidthZero(i: nat)
    ensures Int2Bin(i, 0) == Text(Expand(HexDigits(i))) && Value(Int2Bin(i, 0).text) == i
  {
    ExpandValue(i);
    var s := Expand(HexDigits(i));
    assert s != "" && SliceTo(s, 0) == "" && SliceFrom(s, 0) == s;
    assert Zeros(0 - |s|) + s == s;
  }

  /** A negative width takes that many digits off the front: the number is refused exactly when it does
      not fit into the digits left, and is otherwise written with them, without padding. */
  lemma Int2BinNegativeWidth(i: nat, m: nat)
    requires m > 0
    ensures var size := 4 * |HexDigits(i)|;
            var left := if m <= size then size - m else 0;
            if i >= Pow2(left) then Int2Bin(i, 0 - m) == ValueError
            else Int2Bin(i, 0 - m).Text? && |Int2Bin(i, 0 - m).text| == left && Value(Int2Bin(i, 0 - m).text) == i
  {
    ExpandValue(i);
    ExpandSize(HexDigits(i));
    var s := Expand(HexDigits(i));
    var k := if m <= |s| then m else |s|;
    CutAt(s, k);
    Sliced(s, m);
    assert Zeros(0 - m - |s[k..]|) + s[k..] == s[k..];
    hide Value;
    hide Pow2;
    hide HexDigits;
    hide Expand;
    hide Zeros;
    hide SliceFrom;
    hide SliceTo;
  }

  lemma Sliced(s: string, m: nat)
    ensures var k := if m <= |s| then m else |s|; SliceTo(s, m) == s[..k] && SliceFrom(s, m) == s[k..]
  {
  }

  lemma {:induction false} ExpandSize(digits: seq<nat>)
    requires forall k :: 0 <= k < |digits| ==> digits[k] < 16
    ensures |Expand(digits)| == 4 * |digits|
  {
    if digits != [] {
      ExpandSize(digits[..|digits| - 1]);
    }
  }

  lemma {:induction false} LeadingDigit(i: nat)
    requires i > 0
    ensures |HexDigits(i)| >= 1 && i >= Pow2(4 * |HexDigits(i)| - 4)
    decreases i
  {
    if i >= 16 {
      LeadingDigit(i / 16);
      var n := 4 * |HexDigits(i / 16)|;
      assert Pow2(n) == 2 * Pow2(n - 1) == 4 * Pow2(n - 2) == 8 * Pow2(n - 3) == 16 * Pow2(n - 4);
    }
  }

  /** Taking four digits off leaves nothing of any number but zero. */
  lemma FourDigitsOff(i: nat, m: nat)
    requires m >= 4
    ensures Int2Bin(i, 0 - m) == (if i == 0 then Text("") else ValueError)
  {
    hide Int2Bin;
    hide Value;
    Int2BinNegativeWidth(i, m);
    assert i == 0 ==> |HexDigits(i)| == 1;
    assert Pow2(0) == 1;
    hide *;
    var size := 4 * |HexDigits(i)|;
    if i > 0 {
      LeadingDigit(i);
      PowGrows(if m <= size then size - m else 0, size - 4);
    }
  }

  /** Reading a numeral and writing it with its own width gives it back. */
  lemma Bin2IntRoundTrip(s: string)
    requires s != "" && IsBinary(s)
    ensures Int2Bin(Value(s), |s|) == Text(s)
  {
    ValueBound(s);
    Int2BinIsExact(Value(s), |s|);
    ValueIsInjective(s, Int2Bin(Value(s), |s|).text);
  }

  // ---- binary_range ----

  function Reverse(s: string): (r: string)
    ensures |r| == |s| && forall i :: 0 <= i < |s| ==> r[i] == s[|s| - 1 - i]
  {
    if s == "" then "" else Reverse(s[1..]) + [s[0]]
  }

  /** The value of a counter whose lowest digit comes first. */
  function LowFirst(v: string): nat {
    if v == "" then 0 else Digit(v[0]) + 2 * LowFirst(v[1..])
  }

  lemma {:induction false} ReverseValue(v: string)
    ensures Value(Reverse(v)) == LowFirst(v)
  {
    if v != "" {
      ReverseValue(v[1..]);
      assert Reverse(v)[..|v| - 1] == Reverse(v[1..]);
    }
  }

  /** A run of ones turned into zeros and the zero behind it into a one: one more. */
  lemma {:induction false} Increment(v: string, w: string, m: nat)
    requires m < |v| == |w| && v[m] == '0' && w[m] == '1' && v[m + 1..] == w[m + 1..]
    requires forall j :: 0 <= j < m ==> v[j] == '1' && w[j] == '0'
    ensures LowFirst(w) == LowFirst(v) + 1
  {
    if m > 0 {
      assert v[1..][m..] == v[m + 1..] && w[1..][m..] == w[m + 1..];
      Increment(v[1..], w[1..], m - 1);
    }
  }

  lemma {:induction false} AllOnes(v: string)
    requires forall j :: 0 <= j < |v| ==> v[j] == '1'
    ensures LowFirst(v) == Pow2(|v|) - 1
  {
    if v != "" {
      AllOnes(v[1..]);
    }
  }

  lemma {:induction false} AllZeros(v: string)
    requires forall j :: 0 <= j < |v| ==> v[j] == '0'
    ensures LowFirst(v) == 0
  {
    if v != "" {
      AllZeros(v[1..]);
    }
  }

  /** The list holds the numerals of all numbers of the width, in order. */
  ghost predicate CountsUp(l: seq<string>, bits: nat) {
    forall k :: 0 <= k < |l| ==> |l[k]| == bits && IsBinary(l[k]) && Value(l[k]) == k
  }

  /** What one pass of the carry leaves of the counter. */
  ghost predicate Carried(v0: string, v: string, toggle: seq<int>, i: nat) {
    && |toggle| == |v| + 1 && |v| == |v0| && i <= |v| && IsBinary(v0) && IsBinary(v)
    && (forall j :: i < j <= |v| ==> toggle[j] == 0)
    && (toggle[i] == 1 || toggle[i] == 0)
    && (toggle[i] == 1 ==> v[i..] == v0[i..] && forall j :: 0 <= j < i ==> v0[j] == '1' && v[j] == '0')
    && (toggle[i] == 0 ==>
         && i > 0 && v0[i - 1] == '0' && v[i - 1] == '1' && v[i..] == v0[i..]
         && forall j :: 0 <= j < i - 1 ==> v0[j] == '1' && v[j] == '0')
  }

  lemma CarryDone(v0: string, v: string, toggle: seq<int>, i: nat)
    requires Carried(v0, v, toggle, i) && (i == |v| || toggle[i] != 1)
    ensures toggle[|v|] == 1 ==> LowFirst(v0) == Pow2(|v|) - 1
    ensures toggle[|v|] != 1 ==> LowFirst(v) == LowFirst(v0) + 1
  {
    if toggle[i] == 1 {
      AllOnes(v0);
    } else {
      Increment(v0, v, i - 1);
    }
  }

  lemma CarryStart(v0: string, toggle: seq<int>)
    requires IsBinary(v0) && toggle == [1] + seq(|v0|, _ => 0)
    ensures Carried(v0, v0, toggle, 0)
  {
  }

  lemma CarryStep(v0: string, v: string, toggle: seq<int>, i: nat)
    requires Carried(v0, v, toggle, i) && i < |v| && toggle[i] == 1
    ensures var zero := v[i] == '0';
            Carried(v0, v[i := if zero then '1' else '0'], toggle[i + 1 := if zero then 0 else 1], i + 1)
  {
  }

  lemma CarriedShape(v0: string, v: string, toggle: seq<int>, i: nat)
    requires Carried(v0, v, toggle, i)
    ensures |toggle| == |v| + 1 && |v| == |v0| && i <= |v| && IsBinary(v)
  {
  }

  method BinaryRange(bits: nat) returns (l: seq<string>)
    ensures bits == 0 ==> l == []
    ensures bits >= 1 ==> |l| == Pow2(bits) && CountsUp(l, bits)
  {
    hide Carried;
    hide LowFirst;
    hide Value;
    l := [];
    var v: string := Zeros(bits);
    var toggle: seq<int> := [1] + seq(bits, _ => 0);
    assert forall j :: 0 <= j < bits ==> v[j] in v;
    AllZeros(v);
    while toggle[bits] != 1
      invariant |v| == bits && IsBinary(v) && |toggle| == bits + 1
      invariant CountsUp(l, bits)
      invariant bits == 0 ==> l == [] && toggle[bits] == 1
      invariant toggle[bits] != 1 ==> LowFirst(v) == |l|
      invariant toggle[bits] == 1 && bits > 0 ==> |l| == Pow2(bits)
      decreases Pow2(bits) - |l|, if toggle[bits] != 1 then 1 else 0
    {
      ReverseValue(v);
      ValueBound(Reverse(v));
      l := l + [Reverse(v)];
      ghost var v0 := v;
      toggle := [1] + seq(bits, _ => 0);
      var i := 0;
      CarryStart(v0, toggle);
      while i < bits && toggle[i] == 1
        invariant 0 <= i <= bits && |v| == bits && |toggle| == bits + 1 && Carried(v0, v, toggle, i)
        decreases bits - i
      {
        CarryStep(v0, v, toggle, i);
        if v[i] == '0' {
          v := v[i := '1'];
          toggle := toggle[i + 1 := 0];
        } else {
          v := v[i := '0'];
          toggle := toggle[i + 1 := 1];
        }
        i := i + 1;
      }
      CarryDone(v0, v, toggle, i);
      CarriedShape(v0, v, toggle, i);
    }
  }

  /** The k-th entry is what int2bin gives for k. */
  lemma RangeIsInt2Bin(l: seq<string>, bits: nat, k: nat)
    requires bits >= 1 && CountsUp(l, bits) && |l| == Pow2(bits) && k < |l|
    ensures Int2Bin(k, bits) == Text(l[k])
  {
    Bin2IntRoundTrip(l[k]);
  }
}
