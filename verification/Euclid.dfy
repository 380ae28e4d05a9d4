/** gcf, lcm and reduce_fraction on signed integers. */
module Euclid {

  function Abs(x: int): nat {
    if x < 0 then -x else x
  }

  /** Python's remainder: it has the sign of the divisor. */
  function FloorMod(a: int, b: int): (r: int)
    requires b != 0
    ensures if b > 0 then 0 <= r < b else b < r <= 0
  {
    if b > 0 then a % b
    else if a % b == 0 then 0
    else a % b + b
  }

  /** Python's quotient, rounded down. */
  function FloorDiv(a: int, b: int): int
    requires b != 0
  {
    if b > 0 then a / b
    else if a % b == 0 then a / b
    else a / b - 1
  }

  lemma FloorLaw(a: int, b: int)
    requires b != 0
    ensures a == b * FloorDiv(a, b) + FloorMod(a, b)
  {
  }

  ghost predicate Divides(d: int, a: int) {
    exists k: int :: Times(d, k) == a
  }

  ghost function Times(d: int, k: int): int {
    d * k
  }

  /** The non-negative common divisor that every common divisor divides; it is 0 for 0 and 0. */
  ghost predicate IsGcd(g: int, a: int, b: int) {
    g >= 0 && Divides(g, a) && Divides(g, b) && forall d: int :: Divides(d, a) && Divides(d, b) ==> Divides(d, g)
  }

  /** The non-negative common multiple that divides every common multiple. */
  ghost predicate IsLcm(l: int, a: int, b: int) {
    l >= 0 && Divides(a, l) && Divides(b, l) && forall m: int :: Divides(a, m) && Divides(b, m) ==> Divides(l, m)
  }

  ghost function Combine(a: int, b: int, x: int, y: int): int {
    a * x + b * y
  }

  /** g is a sum of multiples of a and b. */
  ghost predicate IsCombination(g: int, a: int, b: int) {
    exists x: int, y: int :: Combine(a, b, x, y) == g
  }

  lemma DividesTimes(d: int, k: int)
    ensures Divides(d, d * k)
  {
    assert Times(d, k) == d * k;
  }

  lemma DividesCombination(d: int, a: int, b: int, x: int, y: int)
    requires Divides(d, a) && Divides(d, b)
    ensures Divides(d, a * x + b * y)
  {
    var k: int :| Times(d, k) == a;
    var l: int :| Times(d, l) == b;
    assert a * x + b * y == d * (k * x + l * y) by {
      assert d * k * x == d * (k * x) && d * l * y == d * (l * y);
    }
    DividesTimes(d, k * x + l * y);
  }

  lemma DividesSign(d: int, a: int)
    requires Divides(d, a)
    ensures Divides(-d, a) && Divides(d, -a)
  {
    var k: int :| Times(d, k) == a;
    assert Times(-d, -k) == a && Times(d, -k) == -a;
  }

  lemma CombinationSign(g: int, a: int, b: int)
    requires IsCombination(g, a, b)
    ensures IsCombination(-g, a, b)
  {
    var x: int, y: int :| Combine(a, b, x, y) == g;
    assert Combine(a, b, -x, -y) == -g;
  }

  lemma CombinationIsGcd(g: int, a: int, b: int)
    requires g >= 0 && Divides(g, a) && Divides(g, b) && IsCombination(g, a, b)
    ensures IsGcd(g, a, b)
  {
    var x: int, y: int :| Combine(a, b, x, y) == g;
    forall d: int | Divides(d, a) && Divides(d, b) ensures Divides(d, g) {
      DividesCombination(d, a, b, x, y);
    }
  }

  /** u and v have the same common divisors as a and b, and are combinations of them. */
  ghost predicate SameDivisors(u: int, v: int, a: int, b: int) {
    && (forall d: int :: Divides(d, u) && Divides(d, v) ==> Divides(d, a) && Divides(d, b))
    && IsCombination(u, a, b) && IsCombination(v, a, b)
  }

  lemma SameStart(a: int, b: int)
    ensures SameDivisors(a, b, a, b) && SameDivisors(b, a, a, b)
  {
    assert Combine(a, b, 1, 0) == a && Combine(a, b, 0, 1) == b;
  }

  lemma EuclidStep(u: int, v: int, a: int, b: int)
    requires v != 0 && SameDivisors(u, v, a, b)
    ensures SameDivisors(v, FloorMod(u, v), a, b)
  {
    var q, r := FloorDiv(u, v), FloorMod(u, v);
    FloorLaw(u, v);
    forall d: int | Divides(d, v) && Divides(d, r) ensures Divides(d, a) && Divides(d, b) {
      DividesCombination(d, v, r, q, 1);
      assert v * q + r * 1 == u;
    }
    var x: int, y: int :| Combine(a, b, x, y) == u;
    var z: int, w: int :| Combine(a, b, z, w) == v;
    Eliminate(a, b, x, y, z, w, q);
    assert r == u - v * q;
  }

  lemma Eliminate(a: int, b: int, x: int, y: int, z: int, w: int, q: int)
    ensures IsCombination(Combine(a, b, x, y) - Combine(a, b, z, w) * q, a, b)
  {
    assert a * (x - z * q) == a * x - a * z * q;
    assert b * (y - w * q) == b * y - b * w * q;
    assert (a * z + b * w) * q == a * z * q + b * w * q;
    assert Combine(a, b, x - z * q, y - w * q) == Combine(a, b, x, y) - Combine(a, b, z, w) * q;
  }

  method Gcf(a: int, b: int) returns (g: int)
    ensures IsGcd(g, a, b) && IsCombination(g, a, b)
    ensures g == 0 <==> a == 0 && b == 0
  {
    hide Divides;
    hide IsCombination;
    var result, remainder := if a >= b then a else b, if a >= b then b else a;
    SameStart(a, b);
    while remainder != 0
      invariant SameDivisors(result, remainder, a, b)
      decreases Abs(remainder)
    {
      EuclidStep(result, remainder, a, b);
      var newRemainder := FloorMod(result, remainder);
      result := remainder;
      remainder := newRemainder;
    }
    g := Abs(result);
    Finished(result, a, b);
  }

  lemma Finished(r: int, a: int, b: int)
    requires SameDivisors(r, 0, a, b)
    ensures IsGcd(Abs(r), a, b) && IsCombination(Abs(r), a, b)
    ensures Abs(r) == 0 <==> a == 0 && b == 0
  {
    DividesTimes(r, 1);
    DividesTimes(r, 0);
    assert Divides(r, a) && Divides(r, b);
    if r < 0 {
      DividesSign(r, a);
      DividesSign(r, b);
      CombinationSign(r, a, b);
    }
    CombinationIsGcd(Abs(r), a, b);
    if r == 0 {
      var k: int :| Times(r, k) == a;
      var l: int :| Times(r, l) == b;
    }
    if a == 0 && b == 0 {
      var x: int, y: int :| Combine(a, b, x, y) == r;
    }
  }

  /** The greatest common divisor is unique, so Gcf decides it. */
  lemma GcdIsUnique(g: int, h: int, a: int, b: int)
    requires IsGcd(g, a, b) && IsGcd(h, a, b)
    ensures g == h
  {
  }

  lemma DivisorIsSmaller(d: int, k: int)
    requires d > 0 && d * k > 0
    ensures d <= d * k
  {
  }

  method Lcm(a: int, b: int) returns (l: int)
    ensures IsLcm(Abs(l), a, b)
    ensures exists g :: IsGcd(g, a, b) && Times(g, l) == a * b && g * Abs(l) == Abs(a * b)
  {
    hide IsCombination;
    var denom := Gcf(a, b);
    if denom == 0 {
      l := 0;
      ZeroLcm();
    } else {
      l := a * FloorDiv(b, denom);
      LcmIsExact(denom, a, b);
    }
  }

  lemma ZeroLcm()
    ensures IsLcm(0, 0, 0)
  {
    DividesTimes(0, 0);
  }

  lemma ExactQuotient(g: int, b: int)
    requires g > 0 && Divides(g, b)
    ensures b == g * FloorDiv(b, g)
  {
    var k: int :| Times(g, k) == b;
    QuotientOfProduct(g, k);
  }

  lemma QuotientOfProduct(g: int, k: int)
    requires g > 0
    ensures g * k / g == k
  {
    var q, r := g * k / g, g * k % g;
    assert g * k == g * q + r && 0 <= r < g;
    assert g * (k - q) == r;
    if k - q >= 1 {
      DivisorIsSmaller(g, k - q);
    }
    if k - q <= -1 {
      assert g * (q - k) == -r;
      DivisorIsSmaller(g, q - k);
    }
  }

  lemma LcmIsExact(g: int, a: int, b: int)
    requires g > 0 && IsGcd(g, a, b) && IsCombination(g, a, b)
    ensures var l := a * FloorDiv(b, g); IsLcm(Abs(l), a, b) && Times(g, l) == a * b && g * Abs(l) == Abs(a * b)
  {
    var q, p := FloorDiv(b, g), FloorDiv(a, g);
    var l := a * q;
    ExactQuotient(g, a);
    ExactQuotient(g, b);
    assert g * l == a * b by {
      assert g * (a * q) == a * (g * q);
    }
    assert l == b * p by {
      assert a * q == g * p * q && b * p == g * q * p;
    }
    DividesTimes(a, q);
    DividesTimes(b, p);
    forall m: int | Divides(a, m) && Divides(b, m) ensures Divides(l, m) {
      MultipleOfLcm(g, l, a, b, m);
    }
    AbsTimes(g, l);
    if l < 0 {
      DividesSign(a, l);
      DividesSign(b, l);
      forall m: int | Divides(a, m) && Divides(b, m) ensures Divides(-l, m) {
        DividesSign(l, m);
      }
    }
  }

  lemma AbsTimes(g: int, l: int)
    requires g > 0
    ensures g * Abs(l) == Abs(g * l)
  {
  }

  /** A common multiple m: with g = ax + by, gm is a multiple of ab = gl, so m is a multiple of l. */
  lemma MultipleOfLcm(g: int, l: int, a: int, b: int, m: int)
    requires g > 0 && g * l == a * b && IsCombination(g, a, b) && Divides(a, m) && Divides(b, m)
    ensures Divides(l, m)
  {
    var x: int, y: int :| Combine(a, b, x, y) == g;
    var k: int :| Times(a, k) == m;
    var h: int :| Times(b, h) == m;
    var c := h * x + k * y;
    Swap(a, x, b, h);
    Swap(b, y, a, k);
    Distribute(a * x, b * y, m);
    Distribute(h * x, k * y, a * b);
    assert g * m == a * b * c;
    Swap(g, l, c, 1);
    CancelFactor(g, m, l * c);
    DividesTimes(l, c);
  }

  lemma Swap(p: int, q: int, r: int, s: int)
    ensures (p * q) * (r * s) == (s * q) * (p * r) == (p * r) * (q * s) == p * (q * (r * s))
  {
  }

  lemma Distribute(p: int, q: int, r: int)
    ensures (p + q) * r == p * r + q * r
  {
  }

  lemma CancelFactor(g: int, m: int, n: int)
    requires g > 0 && g * m == g * n
    ensures m == n
  {
  }

  datatype Fraction = Fraction(numerator: int, denominator: int)

  datatype Reduced = Value(fraction: Fraction) | ZeroDivisionError

  /** The reduced fraction is coprime and in the same ratio; only 0/0 fails. */
  method ReduceFraction(fraction: Fraction) returns (r: Reduced)
    ensures r.ZeroDivisionError? <==> fraction.numerator == 0 && fraction.denominator == 0
    ensures r.Value? ==>
      var n, d := r.fraction.numerator, r.fraction.denominator;
      && IsGcd(1, n, d)
      && n * fraction.denominator == fraction.numerator * d
      && exists g: int :: g > 0 && fraction.numerator == Times(g, n) && fraction.denominator == Times(g, d)
  {
    var commonFactor := Gcf(fraction.numerator, fraction.denominator);
    if commonFactor == 0 {
      return ZeroDivisionError;
    }
    var n, d := FloorDiv(fraction.numerator, commonFactor), FloorDiv(fraction.denominator, commonFactor);
    ReducedIsCoprime(commonFactor, fraction.numerator, fraction.denominator);
    r := Value(Fraction(n, d));
  }

  lemma ReducedIsCoprime(g: int, a: int, b: int)
    requires g > 0 && Divides(g, a) && Divides(g, b) && IsCombination(g, a, b)
    ensures var n, d := FloorDiv(a, g), FloorDiv(b, g);
            IsGcd(1, n, d) && n * b == a * d && a == Times(g, n) && b == Times(g, d)
  {
    var n, d := FloorDiv(a, g), FloorDiv(b, g);
    ExactQuotient(g, a);
    ExactQuotient(g, b);
    var x: int, y: int :| Combine(a, b, x, y) == g;
    assert g * (n * x + d * y) == g * 1 by {
      assert g * n * x == g * (n * x) && g * d * y == g * (d * y);
    }
    CancelFactor(g, n * x + d * y, 1);
    assert Combine(n, d, x, y) == 1;
    assert Times(1, n) == n && Times(1, d) == d;
    CombinationIsGcd(1, n, d);
    assert n * (g * d) == g * n * d;
  }
}
