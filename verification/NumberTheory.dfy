/** Divisibility, Bezout coefficients, coprimality and primes over unbounded integers. */
module NumberTheory {

  ghost predicate IsProduct(n: int, d: int, k: int) { n == d * k }

  ghost predicate Divides(d: int, n: int) { exists k :: IsProduct(n, d, k) }

  ghost predicate Coprime(a: int, b: int) {
    forall d :: Divides(d, a) && Divides(d, b) ==> d == 1 || d == -1
  }

  lemma DividesByWitness(d: int, n: int, k: int)
    requires n == d * k
    ensures Divides(d, n)
  {
    assert IsProduct(n, d, k);
  }

  lemma Cofactor(d: int, n: int) returns (k: int)
    requires Divides(d, n)
    ensures n == d * k
  {
    k :| IsProduct(n, d, k);
  }

  lemma DividesLinear(d: int, a: int, x: int, b: int, y: int)
    requires Divides(d, a) && Divides(d, b)
    ensures Divides(d, a * x + b * y)
  {
    var i := Cofactor(d, a);
    var j := Cofactor(d, b);
    calc {
      a * x + b * y;
      (d * i) * x + (d * j) * y;
      { assert (d * i) * x == d * (i * x) && (d * j) * y == d * (j * y); }
      d * (i * x) + d * (j * y);
      d * (i * x + j * y);
    }
    DividesByWitness(d, a * x + b * y, i * x + j * y);
  }

  lemma DividesTransitive(d: int, e: int, n: int)
    requires Divides(d, e) && Divides(e, n)
    ensures Divides(d, n)
  {
    var i := Cofactor(d, e);
    var j := Cofactor(e, n);
    assert d * (i * j) == n by { assert (d * i) * j == d * (i * j); }
    DividesByWitness(d, n, i * j);
  }

  lemma DividesMultiple(d: int, a: int, b: int)
    requires Divides(d, a)
    ensures Divides(d, a * b) && Divides(d, b * a)
  {
    var i := Cofactor(d, a);
    assert a * b == d * (i * b) by { assert (d * i) * b == d * (i * b); }
    DividesByWitness(d, a * b, i * b);
    assert a * b == b * a;
  }

  lemma DivisorOfOne(d: int)
    requires Divides(d, 1)
    ensures d == 1 || d == -1
  {
    var k := Cofactor(d, 1);
  }

  lemma CoprimeByBezout(a: int, b: int, x: int, y: int)
    requires a * x + b * y == 1
    ensures Coprime(a, b)
  {
    forall d | Divides(d, a) && Divides(d, b) ensures d == 1 || d == -1 {
      DividesLinear(d, a, x, b, y);
      DivisorOfOne(d);
    }
  }

  lemma CoprimeSymmetric(a: int, b: int)
    requires Coprime(a, b)
    ensures Coprime(b, a)
  {}

  /** One division step: coefficients for (r, u) become coefficients for (u, u*q + r). */
  lemma BezoutStep(u: int, v: int, q: int, r: int, g: int, x: int, y: int) returns (z: int)
    requires v == u * q + r
    requires g == r * x + u * y && Divides(g, r) && Divides(g, u)
    ensures g == u * z + v * x && Divides(g, v)
  {
    hide Divides;
    z := y - q * x;
    assert u * (q * x) == (u * q) * x;
    assert u * z == u * y - u * (q * x);
    assert v * x == (u * q) * x + r * x;
    DividesLinear(g, u, q, r, 1);
  }

  lemma BezoutNegated(u: int, v: int, g: int, x: int, y: int)
    requires g == -u * x + v * y && Divides(g, -u)
    ensures g == u * -x + v * y && Divides(g, u)
  {
    hide Divides;
    assert u * -x == -u * x;
    DividesMultiple(g, -u, -1);
  }

  /** Every pair has Bezout coefficients for some common divisor. */
  lemma {:induction false} SomeBezout(a: nat, b: int) returns (g: int, x: int, y: int)
    ensures g == a * x + b * y
    ensures Divides(g, a) && Divides(g, b)
    decreases a
  {
    if a == 0 {
      g, x, y := b, 0, 1;
      DividesByWitness(b, 0, 0);
      DividesByWitness(b, b, 1);
    } else {
      var q, r := b / a, b % a;
      var x', y';
      g, x', y' := SomeBezout(r, a);
      y := x';
      x := BezoutStep(a, b, q, r, g, x', y');
    }
  }

  lemma Bezout(a: int, b: int) returns (x: int, y: int)
    requires Coprime(a, b)
    ensures a * x + b * y == 1
  {
    var m: nat := if a < 0 then -a else a;
    var g, u, v := SomeBezout(m, b);
    DividesLinear(g, m, if a < 0 then -1 else 1, 0, 0) by {
      DividesByWitness(g, 0, 0);
    }
    assert Divides(g, a);
    x, y := if a < 0 then -u else u, v;
    assert a * x + b * y == g;
    if g == -1 {
      x, y := -x, -y;
    }
  }

  lemma EuclidLemma(a: int, b: int, c: int)
    requires Coprime(a, b) && Divides(a, b * c)
    ensures Divides(a, c)
  {
    var x, y := Bezout(a, b);
    DividesByWitness(a, a, 1);
    DividesLinear(a, a, x * c, b * c, y);
    calc {
      a * (x * c) + (b * c) * y;
      (a * x + b * y) * c;
      c;
    }
  }

  lemma CoprimeProduct(a: int, b: int, c: int)
    requires Coprime(a, c) && Coprime(b, c)
    ensures Coprime(a * b, c)
  {
    var x, y := Bezout(a, c);
    var u, v := Bezout(b, c);
    calc {
      1;
      (a * x + c * y) * (b * u + c * v);
      (a * x) * (b * u) + (a * x) * (c * v) + (c * y) * (b * u + c * v);
      { assert (a * x) * (b * u) == (a * b) * (x * u);
        assert (a * x) * (c * v) == c * (a * x * v);
        assert (c * y) * (b * u + c * v) == c * (y * (b * u + c * v)); }
      (a * b) * (x * u) + c * (a * x * v) + c * (y * (b * u + c * v));
      (a * b) * (x * u) + c * (a * x * v + y * (b * u + c * v));
    }
    CoprimeByBezout(a * b, c, x * u, a * x * v + y * (b * u + c * v));
  }

  lemma CoprimeDivisors(a: int, b: int, c: int, d: int)
    requires Coprime(a, b) && Divides(c, a) && Divides(d, b)
    ensures Coprime(c, d)
  {
    forall e | Divides(e, c) && Divides(e, d) ensures e == 1 || e == -1 {
      DividesTransitive(e, c, a);
      DividesTransitive(e, d, b);
    }
  }

  lemma MultipleIsLarge(u: int, d: int)
    requires d != 0
    ensures u * d >= (if u < 0 then -u else u) || u * d <= (if u < 0 then u else -u)
  {
    if d > 0 && u >= 0 { assert u * d >= u; }
    if d < 0 && u >= 0 { assert u * d <= -u; }
    if d > 0 && u < 0 { assert u * d <= u; }
    if d < 0 && u < 0 { assert u * d >= -u; }
  }
}
