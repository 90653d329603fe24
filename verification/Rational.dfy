/** The exact rational arithmetic of testsuit/chan/powser1.go.
    A rat is a pair of integers; the pair is canonical when its denominator is positive and
    the fraction is in lowest terms.  A zero denominator marks the end of a series. */
module Rational {
  import opened NumberTheory

  datatype Rat = Rat(num: int, den: int)

  const ZERO := Rat(0, 1)
  const ONE := Rat(1, 1)
  const FINIS := Rat(-1, 0)

  ghost predicate Canonical(r: Rat) { r.den > 0 && Coprime(r.num, r.den) }

  /** The number a rat stands for; the end mark stands for zero. */
  ghost function Value(r: Rat): real {
    if r.den == 0 then 0.0 else r.num as real / r.den as real
  }

  // Go's remainder takes the sign of the dividend and Go's quotient truncates toward zero.

  function GoRem(v: int, u: int): (r: int)
    requires u != 0
    ensures (if u < 0 then u else -u) < r < (if u < 0 then -u else u)
  {
    var m := if u < 0 then -u else u;
    if v >= 0 then v % m else -((-v) % m)
  }

  function GoQuot(v: int, u: int): int
    requires u != 0
  {
    if v >= 0 then v / u else -((-v) / u)
  }

  lemma GoQuotExact(v: int, u: int, k: int)
    requires u != 0 && v == u * k
    ensures GoQuot(v, u) == k
  {
    if v >= 0 {
      ExactQuotient(v, u, k);
    } else {
      assert -v == u * (-k);
      ExactQuotient(-v, u, -k);
    }
  }

  lemma ExactQuotient(v: int, u: int, k: int)
    requires u != 0 && v == u * k
    ensures v / u == k
  {
    var q := v / u;
    assert v == u * q + v % u;
    assert u * (k - q) == u * k - u * q;
    SmallMultiple(u, k - q, v % u);
  }

  lemma SmallMultiple(u: int, d: int, r: int)
    requires u * d == r && 0 <= r < (if u < 0 then -u else u)
    ensures d == 0
  {
    if d != 0 { MultipleIsLarge(u, d); }
  }

  lemma GoRemDecomposes(v: int, u: int) returns (q: int)
    requires u > 0
    ensures v == u * q + GoRem(v, u)
  {
    if v >= 0 {
      q := v / u;
    } else {
      q := -((-v) / u);
      assert -v == u * ((-v) / u) + (-v) % u;
      assert u * q == -(u * ((-v) / u));
    }
  }

  function Gcd(u: int, v: int): int
    decreases if u < 0 then -u else u, u < 0
  {
    if u < 0 then Gcd(-u, v)
    else if u == 0 then v
    else Gcd(GoRem(v, u), u)
  }

  /** gcd is a combination of its arguments and a common divisor of them; it is positive
      when its first argument is nonzero and is the second argument otherwise. */
  lemma {:induction false} GcdSpec(u: int, v: int) returns (x: int, y: int)
    ensures Gcd(u, v) == u * x + v * y
    ensures Divides(Gcd(u, v), u) && Divides(Gcd(u, v), v)
    ensures u != 0 ==> Gcd(u, v) > 0
    ensures u == 0 ==> Gcd(u, v) == v
    decreases if u < 0 then -u else u, u < 0
  {
    hide Divides, GoRem;
    if u < 0 {
      x, y := GcdSpec(-u, v);
      BezoutNegated(u, v, Gcd(u, v), x, y);
      x := -x;
    } else if u == 0 {
      x, y := 0, 1;
      DividesByWitness(v, 0, 0);
      DividesByWitness(v, v, 1);
    } else {
      var q := GoRemDecomposes(v, u);
      var x', y' := GcdSpec(GoRem(v, u), u);
      y := x';
      x := BezoutStep(u, v, q, GoRem(v, u), Gcd(u, v), x', y');
    }
  }

  /** The result is the greatest common divisor: every common divisor divides it. */
  lemma GcdGreatest(u: int, v: int, d: int)
    requires Divides(d, u) && Divides(d, v)
    ensures Divides(d, Gcd(u, v))
  {
    var x, y := GcdSpec(u, v);
    DividesLinear(d, u, x, v, y);
  }

  /** Dividing both arguments by their gcd leaves coprime cofactors. */
  lemma GcdCofactors(u: int, v: int) returns (a: int, b: int)
    requires Gcd(u, v) != 0
    ensures u == Gcd(u, v) * a && v == Gcd(u, v) * b
    ensures GoQuot(u, Gcd(u, v)) == a && GoQuot(v, Gcd(u, v)) == b
    ensures Coprime(a, b)
  {
    var g := Gcd(u, v);
    var x, y := GcdSpec(u, v);
    a := Cofactor(g, u);
    b := Cofactor(g, v);
    GoQuotExact(u, g, a);
    GoQuotExact(v, g, b);
    FactorOut(g, a, x, b, y);
    CancelFactor(g, a * x + b * y, 1);
    CoprimeByBezout(a, b, x, y);
  }

  lemma FactorOut(g: int, a: int, x: int, b: int, y: int)
    ensures (g * a) * x + (g * b) * y == g * (a * x + b * y)
  {
    assert (g * a) * x == g * (a * x);
    assert (g * b) * y == g * (b * y);
  }

  lemma CancelFactor(g: int, a: int, b: int)
    requires g != 0 && g * a == g * b
    ensures a == b
  {
    assert g * (a - b) == 0;
  }

  lemma GcdNonzero(u: int, v: int)
    ensures Gcd(u, v) == 0 <==> u == 0 && v == 0
  {
    var x, y := GcdSpec(u, v);
  }

  // Making a rat.  i2tor divides by the gcd, so it is defined unless both arguments are zero.

  function MakeRat(u: int, v: int): Rat
    requires Gcd(u, v) != 0
  {
    var g := Gcd(u, v);
    if v > 0 then Rat(GoQuot(u, g), GoQuot(v, g)) else Rat(GoQuot(-u, g), GoQuot(-v, g))
  }

  function FromInt(u: int): Rat
    requires Gcd(u, 1) != 0
  {
    MakeRat(u, 1)
  }

  lemma MakeRatFields(u: int, v: int) returns (a: int, b: int)
    requires Gcd(u, v) != 0
    ensures u == Gcd(u, v) * a && v == Gcd(u, v) * b && Coprime(a, b)
    ensures MakeRat(u, v) == if v > 0 then Rat(a, b) else Rat(-a, -b)
  {
    var g := Gcd(u, v);
    a, b := GcdCofactors(u, v);
    assert g * -a == -(g * a) && g * -b == -(g * b);
    GoQuotExact(-u, g, -a);
    GoQuotExact(-v, g, -b);
  }

  /** i2tor yields the canonical form of u/v exactly when v is nonzero and the pair is not
      zero over a negative number. */
  lemma MakeRatSpec(u: int, v: int)
    requires Gcd(u, v) != 0
    ensures Canonical(MakeRat(u, v)) <==> v > 0 || (v < 0 && u != 0)
    ensures v != 0 ==> MakeRat(u, v).den != 0 && u as real == Value(MakeRat(u, v)) * v as real
    ensures v == 0 ==> MakeRat(u, v).den == 0
  {
    hide Gcd, MakeRat, Value, Coprime, GoQuot;
    var g := Gcd(u, v);
    var _, _ := GcdSpec(u, v);
    var a, b := MakeRatFields(u, v);
    if v > 0 {
      SameSign(g, b);
      ScaledValue(a, b, g);
    } else if v == 0 {
      CancelFactor(g, b, 0);
    } else if u == 0 {
      CancelFactor(g, b, 1);
      CancelFactor(g, a, 0);
      ZeroValue();
    } else {
      SameSign(g, b);
      CoprimeNegated(a, b);
      assert -g * -a == g * a && -g * -b == g * b;
      ScaledValue(-a, -b, -g);
    }
  }

  lemma ZeroValue()
    ensures Value(Rat(0, -1)) == 0.0
  {}

  lemma SameSign(g: int, b: int)
    requires g > 0
    ensures g * b > 0 <==> b > 0
    ensures g * b < 0 <==> b < 0
  {}

  lemma CoprimeNegated(a: int, b: int)
    requires Coprime(a, b)
    ensures Coprime(-a, -b)
  {
    var x, y := Bezout(a, b);
    CoprimeByBezout(-a, -b, -x, -y);
  }

  lemma ScaledValue(a: int, b: int, g: int)
    requires b != 0
    ensures (g * a) as real == Value(Rat(a, b)) * (g * b) as real
  {
    var x, rb, rg := Value(Rat(a, b)), b as real, g as real;
    assert a as real == x * rb;
    assert rg * (x * rb) == x * (rg * rb);
    assert (g * a) as real == rg * a as real && (g * b) as real == rg * rb;
  }

  lemma QuotientByProduct(p: real, q: real, v: real)
    requires q != 0.0 && p == v * q
    ensures p / q == v
  {}

  // The operations.

  predicate End(r: Rat) { r.den == 0 }

  lemma SumDenominatorPositive(u: int, v: int)
    requires u > 0 && v > 0
    ensures Gcd(u, v) > 0 && u * GoQuot(v, Gcd(u, v)) > 0
  {
    var _, _ := GcdSpec(u, v);
    var a, b := GcdCofactors(u, v);
    SameSign(Gcd(u, v), b);
    SameSign(u, b);
  }

  function Add(u: Rat, v: Rat): Rat
    requires u.den > 0 && v.den > 0
  {
    SumDenominatorPositive(u.den, v.den);
    var g := Gcd(u.den, v.den);
    var n, d := u.num * GoQuot(v.den, g) + v.num * GoQuot(u.den, g), u.den * GoQuot(v.den, g);
    GcdNonzero(n, d);
    MakeRat(n, d)
  }

  function Mul(u: Rat, v: Rat): Rat
    requires Gcd(u.num, v.den) != 0 && Gcd(u.den, v.num) != 0
  {
    var g1, g2 := Gcd(u.num, v.den), Gcd(u.den, v.num);
    Rat(GoQuot(u.num, g1) * GoQuot(v.num, g2), GoQuot(u.den, g2) * GoQuot(v.den, g1))
  }

  /** mul divides by zero. */
  predicate MulPanics(u: Rat, v: Rat) { Gcd(u.num, v.den) == 0 || Gcd(u.den, v.num) == 0 }

  function Neg(u: Rat): Rat
    requires u.den > 0
  {
    GcdNonzero(-u.num, u.den);
    MakeRat(-u.num, u.den)
  }

  function Sub(u: Rat, v: Rat): Rat
    requires u.den > 0 && v.den > 0
    requires Neg(v).den > 0
  {
    Add(u, Neg(v))
  }

  /** inv panics on a zero numerator. */
  function Inv(u: Rat): Rat
    requires u.num != 0
  {
    GcdNonzero(u.den, u.num);
    MakeRat(u.den, u.num)
  }

  lemma NumIsValueTimesDen(u: Rat)
    requires u.den != 0
    ensures u.num as real == Value(u) * u.den as real
  {}

  lemma SumOfFractions(x: real, y: real, g: real, a: real, b: real, p: real, q: real)
    requires p == x * (g * a) && q == y * (g * b)
    ensures p * b + q * a == (x + y) * (g * a * b)
  {
    assert p * b == x * (g * a * b);
    assert q * a == y * (g * a * b);
  }

  lemma MakeRatValue(n: int, d: int, x: real)
    requires d > 0 && n as real == x * d as real
    ensures Gcd(n, d) != 0 && Canonical(MakeRat(n, d)) && Value(MakeRat(n, d)) == x
  {
    hide Gcd, MakeRat, Value, Coprime, GoQuot;
    GcdNonzero(n, d);
    MakeRatSpec(n, d);
    CancelReal(d as real, Value(MakeRat(n, d)), x);
  }

  lemma SumOverCommonDenominator(u: Rat, v: Rat, g: int, a: int, b: int)
    requires u.den == g * a && v.den == g * b && u.den > 0 && v.den > 0
    ensures (u.num * b + v.num * a) as real == (Value(u) + Value(v)) * (u.den * b) as real
  {
    NumIsValueTimesDen(u);
    NumIsValueTimesDen(v);
    var rg, ra, rb := g as real, a as real, b as real;
    assert u.den as real == rg * ra && v.den as real == rg * rb;
    SumOfFractions(Value(u), Value(v), rg, ra, rb, u.num as real, v.num as real);
  }

  lemma AddSpec(u: Rat, v: Rat)
    requires u.den > 0 && v.den > 0
    ensures Canonical(Add(u, v)) && Value(Add(u, v)) == Value(u) + Value(v)
  {
    SumDenominatorPositive(u.den, v.den);
    var g := Gcd(u.den, v.den);
    var a, b := GcdCofactors(u.den, v.den);
    SumOverCommonDenominator(u, v, g, a, b);
    MakeRatValue(u.num * b + v.num * a, u.den * b, Value(u) + Value(v));
  }

  lemma MulValue(x: real, y: real, g1: real, g2: real, a: real, b: real, c: real, d: real)
    requires g1 != 0.0 && g2 != 0.0
    requires g1 * a == x * (g2 * c) && g2 * d == y * (g1 * b)
    ensures a * d == (x * y) * (c * b)
  {
    calc {
      (g1 * g2) * (a * d);
      (g1 * a) * (g2 * d);
      (x * (g2 * c)) * (y * (g1 * b));
      (g1 * g2) * ((x * y) * (c * b));
    }
    CancelReal(g1 * g2, a * d, (x * y) * (c * b));
  }

  lemma CancelReal(g: real, a: real, b: real)
    requires g != 0.0 && g * a == g * b
    ensures a == b
  {
    assert g * (a - b) == 0.0;
  }

  lemma MulDefined(u: Rat, v: Rat)
    requires u.den > 0 && v.den > 0
    ensures Gcd(u.num, v.den) > 0 && Gcd(u.den, v.num) > 0
  {
    var _, _ := GcdSpec(u.num, v.den);
    var _, _ := GcdSpec(u.den, v.num);
  }

  /** mul cancels across before multiplying and never reduces afterwards, and the product of
      canonical rats is canonical all the same. */
  lemma MulSpec(u: Rat, v: Rat)
    requires Canonical(u) && Canonical(v)
    ensures Gcd(u.num, v.den) != 0 && Gcd(u.den, v.num) != 0
    ensures Canonical(Mul(u, v)) && Value(Mul(u, v)) == Value(u) * Value(v)
  {
    MulDefined(u, v);
    var g1, g2 := Gcd(u.num, v.den), Gcd(u.den, v.num);
    var a, b := GcdCofactors(u.num, v.den);
    var c, d := GcdCofactors(u.den, v.num);
    SameSign(g1, b);
    SameSign(g2, c);
    SameSign(c, b);
    CrossCoprime(u, v, a, b, c, d, g1, g2);
    CrossValue(u, v, a, b, c, d, g1, g2);
    assert Mul(u, v) == Rat(a * d, c * b);
  }

  lemma CrossValue(u: Rat, v: Rat, a: int, b: int, c: int, d: int, g1: int, g2: int)
    requires u.num == g1 * a && v.den == g1 * b && u.den == g2 * c && v.num == g2 * d
    requires u.den != 0 && v.den != 0 && c * b != 0
    ensures Value(Rat(a * d, c * b)) == Value(u) * Value(v)
  {
    NumIsValueTimesDen(u);
    NumIsValueTimesDen(v);
    CrossValueOf(Value(u), Value(v), u, v, a, b, c, d, g1, g2);
    QuotientByProduct((a * d) as real, (c * b) as real, Value(u) * Value(v));
  }

  lemma CrossValueOf(x: real, y: real, u: Rat, v: Rat, a: int, b: int, c: int, d: int, g1: int, g2: int)
    requires u.num == g1 * a && v.den == g1 * b && u.den == g2 * c && v.num == g2 * d
    requires u.den != 0 && v.den != 0
    requires u.num as real == x * u.den as real && v.num as real == y * v.den as real
    ensures (a * d) as real == (x * y) * (c * b) as real
  {
    var r1, r2, ra, rb, rc, rd := g1 as real, g2 as real, a as real, b as real, c as real, d as real;
    assert u.num as real == r1 * ra && u.den as real == r2 * rc;
    assert v.num as real == r2 * rd && v.den as real == r1 * rb;
    MulValue(x, y, r1, r2, ra, rb, rc, rd);
    assert (a * d) as real == ra * rd && (c * b) as real == rc * rb;
  }

  lemma CrossCoprime(u: Rat, v: Rat, a: int, b: int, c: int, d: int, g1: int, g2: int)
    requires Coprime(u.num, u.den) && Coprime(v.num, v.den)
    requires u.num == g1 * a && v.den == g1 * b && u.den == g2 * c && v.num == g2 * d
    requires Coprime(a, b) && Coprime(c, d)
    ensures Coprime(a * d, c * b)
  {
    DividesByWitness(a, u.num, g1);
    DividesByWitness(b, v.den, g1);
    DividesByWitness(c, u.den, g2);
    DividesByWitness(d, v.num, g2);
    CoprimeDivisors(u.num, u.den, a, c);
    CoprimeDivisors(v.num, v.den, d, b);
    CoprimeProduct(a, d, c);
    CoprimeProduct(a, d, b);
    CoprimeProduct(c, b, a * d);
  }

  lemma NegSpec(u: Rat)
    requires u.den > 0
    ensures Canonical(Neg(u)) && Value(Neg(u)) == -Value(u)
  {
    NumIsValueTimesDen(u);
    MakeRatValue(-u.num, u.den, -Value(u));
  }

  lemma SubSpec(u: Rat, v: Rat)
    requires u.den > 0 && v.den > 0
    ensures Neg(v).den > 0
    ensures Canonical(Sub(u, v)) && Value(Sub(u, v)) == Value(u) - Value(v)
  {
    NegSpec(v);
    AddSpec(u, Neg(v));
  }

  /** inv inverts every nonzero rat.  It also accepts the end mark, of which it makes neither a number in
      canonical form nor an end mark. */
  lemma InvSpec(u: Rat)
    requires (u.den > 0 && u.num != 0) || u == FINIS
    ensures u != FINIS ==> Canonical(Inv(u)) && Value(u) != 0.0 && Value(Inv(u)) * Value(u) == 1.0
    ensures u == FINIS ==> Inv(u) == Rat(0, -1) && !Canonical(Inv(u)) && !End(Inv(u))
  {
    hide Gcd, MakeRat, Value, Coprime, GoQuot;
    if u == FINIS {
      InvOfEnd();
    } else {
      GcdNonzero(u.den, u.num);
      MakeRatSpec(u.den, u.num);
      NumIsValueTimesDen(u);
      ReciprocalValue(u.num as real, u.den as real, Value(u), Value(Inv(u)));
    }
  }

  lemma InvOfEnd()
    ensures Inv(FINIS) == Rat(0, -1)
  {
    assert Gcd(0, -1) == -1;
  }

  lemma ReciprocalValue(p: real, q: real, x: real, y: real)
    requires p != 0.0 && q != 0.0 && p == x * q && q == y * p
    ensures x != 0.0 && y * x == 1.0
  {
    calc {
      q * (y * x);
      y * (x * q);
      y * p;
      q;
      q * 1.0;
    }
    CancelReal(q, y * x, 1.0);
  }

  /** Canonical form is unique, so equality of rats is equality of the numbers they stand for. */
  lemma CanonicalUnique(u: Rat, v: Rat)
    requires Canonical(u) && Canonical(v)
    ensures u == v <==> Value(u) == Value(v)
  {
    if Value(u) == Value(v) {
      CrossMultiply(u, v);
      DividesByWitness(u.den, v.den * u.num, v.num);
      assert u.num * v.den == v.den * u.num;
      CoprimeSymmetric(u.num, u.den);
      EuclidLemma(u.den, u.num, v.den);
      DividesByWitness(v.den, u.den * v.num, u.num);
      assert v.num * u.den == u.den * v.num;
      CoprimeSymmetric(v.num, v.den);
      EuclidLemma(v.den, v.num, u.den);
      MutualDivisors(u.den, v.den);
      CancelFactor(u.den, u.num, v.num);
    }
  }

  lemma CrossMultiply(u: Rat, v: Rat)
    requires u.den != 0 && v.den != 0 && Value(u) == Value(v)
    ensures v.den * u.num == u.den * v.num
  {
    NumIsValueTimesDen(u);
    NumIsValueTimesDen(v);
    var x, p, q := Value(u), u.den as real, v.den as real;
    assert (v.den * u.num) as real == q * (x * p);
    assert (u.den * v.num) as real == p * (x * q);
  }

  lemma MutualDivisors(a: int, b: int)
    requires a > 0 && b > 0 && Divides(a, b) && Divides(b, a)
    ensures a == b
  {
    var i := Cofactor(a, b);
    var j := Cofactor(b, a);
    SameSign(a, i);
    SameSign(b, j);
    assert a * i >= a;
    assert b * j >= b;
  }

  lemma Constants()
    ensures Canonical(ZERO) && Value(ZERO) == 0.0
    ensures Canonical(ONE) && Value(ONE) == 1.0
    ensures !Canonical(FINIS)
    ensures Gcd(1, 0) != 0 && MakeRat(1, 0) == FINIS
  {
    CoprimeByBezout(0, 1, 0, 1);
    CoprimeByBezout(1, 1, 0, 1);
    assert Gcd(1, 0) == 1;
  }

  /** Multiplying the end mark by a nonzero rat yields an end mark, and the very same one when
      the mark is on the left or the factor is positive.  A zero factor makes mul divide by zero. */
  lemma MulFinis(c: Rat)
    requires Canonical(c)
    ensures Gcd(c.num, FINIS.den) == 0 <==> c.num == 0
    ensures Gcd(FINIS.den, c.num) == 0 <==> c.num == 0
    ensures Gcd(c.den, FINIS.num) != 0 && Gcd(FINIS.num, c.den) != 0
    ensures c.num != 0 ==> End(Mul(c, FINIS)) && Mul(FINIS, c) == FINIS
    ensures c.num > 0 ==> Mul(c, FINIS) == FINIS
  {
    GcdNonzero(c.num, 0);
    GcdNonzero(0, c.num);
    GcdWithUnit(c.den);
    if c.num != 0 {
      GoQuotExact(c.num, c.num, 1);
      GoQuotExact(0, c.num, 0);
    }
  }

  /** A coefficient times a rat is always defined; an end mark times a rat is not exactly when that is zero. */
  lemma MulPanicsWhen(u: Rat, c: Rat)
    requires (Canonical(u) || u == FINIS) && Canonical(c)
    ensures MulPanics(u, c) <==> End(u) && c.num == 0
  {
    hide Gcd, Coprime;
    if u == FINIS { MulFinis(c); } else { MulDefined(u, c); }
  }

  lemma GcdWithUnit(d: int)
    requires d > 0
    ensures Gcd(d, -1) == 1 && Gcd(-1, d) == 1
  {
    var x, y := GcdSpec(d, -1);
    DivisorOfMinusOne(Gcd(d, -1));
    var u, v := GcdSpec(-1, d);
    DivisorOfMinusOne(Gcd(-1, d));
  }

  lemma DivisorOfMinusOne(g: int)
    requires g > 0 && Divides(g, -1)
    ensures g == 1
  {
    DividesMultiple(g, -1, -1);
    DivisorOfOne(g);
  }
}
