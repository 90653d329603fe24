/** Formal power series over the reals: the Cauchy product, its ring laws and the product rule. */
module Convolution {

  type Coefs = nat -> real

  function Tail(a: Coefs): Coefs { (n: nat) => a(n + 1) }

  function Unit(): Coefs { (n: nat) => if n == 0 then 1.0 else 0.0 }

  function Plus(a: Coefs, b: Coefs): Coefs { (n: nat) => a(n) + b(n) }

  function Deriv(a: Coefs): Coefs { (n: nat) => (n + 1) as real * a(n + 1) }

  /** The first k terms of the sum of a(i) * b(n - i). */
  function ConvUpTo(a: Coefs, b: Coefs, n: nat, k: nat): real
    requires k <= n + 1
  {
    if k == 0 then 0.0 else ConvUpTo(a, b, n, k - 1) + a(k - 1) * b(n - (k - 1))
  }

  function Conv(a: Coefs, b: Coefs, n: nat): real { ConvUpTo(a, b, n, n + 1) }

  function Times(a: Coefs, b: Coefs): Coefs { (n: nat) => Conv(a, b, n) }

  ghost predicate Agree(a: Coefs, b: Coefs, n: nat) {
    forall i: nat :: i <= n ==> a(i) == b(i)
  }

  /** Coefficient n of a product depends only on coefficients up to n of the factors. */
  lemma {:induction false} ConvCongruent(a: Coefs, a': Coefs, b: Coefs, b': Coefs, n: nat, k: nat)
    requires k <= n + 1 && Agree(a, a', n) && Agree(b, b', n)
    ensures ConvUpTo(a, b, n, k) == ConvUpTo(a', b', n, k)
  {
    if k > 0 {
      ConvCongruent(a, a', b, b', n, k - 1);
      assert a(k - 1) == a'(k - 1) && b(n - (k - 1)) == b'(n - (k - 1));
    }
  }

  lemma {:induction false} SplitFirst(a: Coefs, b: Coefs, n: nat, k: nat)
    requires 1 <= k <= n + 1 && n >= 1
    ensures ConvUpTo(a, b, n, k) == a(0) * b(n) + ConvUpTo(Tail(a), b, n - 1, k - 1)
  {
    if k > 1 {
      SplitFirst(a, b, n, k - 1);
      assert Tail(a)(k - 2) == a(k - 1);
      assert b(n - 1 - (k - 2)) == b(n - (k - 1));
    }
  }

  lemma {:induction false} ShiftSecond(a: Coefs, b: Coefs, n: nat, k: nat)
    requires k <= n && n >= 1
    ensures ConvUpTo(a, b, n, k) == ConvUpTo(a, Tail(b), n - 1, k)
  {
    if k > 0 {
      ShiftSecond(a, b, n, k - 1);
      assert Tail(b)(n - 1 - (k - 1)) == b(n - (k - 1));
    }
  }

  lemma ConvFirst(a: Coefs, b: Coefs, n: nat)
    requires n >= 1
    ensures Conv(a, b, n) == a(0) * b(n) + Conv(Tail(a), b, n - 1)
  {
    SplitFirst(a, b, n, n + 1);
  }

  lemma ConvLast(a: Coefs, b: Coefs, n: nat)
    requires n >= 1
    ensures Conv(a, b, n) == Conv(a, Tail(b), n - 1) + a(n) * b(0)
  {
    ShiftSecond(a, b, n, n);
  }

  lemma {:induction false} ConvCommutes(a: Coefs, b: Coefs, n: nat)
    ensures Conv(a, b, n) == Conv(b, a, n)
    decreases n
  {
    if n == 0 {
      assert ConvUpTo(a, b, 0, 0) == 0.0 && ConvUpTo(b, a, 0, 0) == 0.0;
      assert Conv(a, b, 0) == a(0) * b(0) && Conv(b, a, 0) == b(0) * a(0);
    } else {
      ConvFirst(a, b, n);
      ConvLast(b, a, n);
      ConvCommutes(Tail(a), b, n - 1);
    }
  }

  /** If f is c*b + x*g up to n, then f*d is c*(b*d) + x*(g*d). */
  lemma {:induction false} ConvOfScaledShift(f: Coefs, c: real, b: Coefs, g: Coefs, d: Coefs, n: nat, k: nat)
    requires n >= 1 && 1 <= k <= n + 1
    requires f(0) == c * b(0)
    requires forall i: nat :: 1 <= i <= n ==> f(i) == c * b(i) + g(i - 1)
    ensures ConvUpTo(f, d, n, k) == c * ConvUpTo(b, d, n, k) + ConvUpTo(g, d, n - 1, k - 1)
  {
    var t := d(n - (k - 1));
    var s, sf := ConvUpTo(b, d, n, k - 1), ConvUpTo(f, d, n, k - 1);
    if k == 1 {
      ScaledTerm(c, b(0), 0.0, f(0), t, s, 0.0, sf);
    } else {
      ConvOfScaledShift(f, c, b, g, d, n, k - 1);
      assert d(n - 1 - (k - 2)) == t;
      ScaledTerm(c, b(k - 1), g(k - 2), f(k - 1), t, s, ConvUpTo(g, d, n - 1, k - 2), sf);
    }
  }

  lemma ScaledTerm(c: real, p: real, q: real, r: real, t: real, s: real, w: real, sf: real)
    requires r == c * p + q && sf == c * s + w
    ensures sf + r * t == c * (s + p * t) + (w + q * t)
  {
    var z := p * t;
    assert (c * p) * t == c * z;
    assert r * t == c * z + q * t;
  }

  lemma {:induction false} ConvAssociates(a: Coefs, b: Coefs, c: Coefs, n: nat)
    ensures Conv(Times(a, b), c, n) == Conv(a, Times(b, c), n)
    decreases n
  {
    if n == 0 {
      ConvZero(a, b);
      ConvZero(b, c);
      ConvZero(Times(a, b), c);
      ConvZero(a, Times(b, c));
      assert (a(0) * b(0)) * c(0) == a(0) * (b(0) * c(0));
    } else {
      ConvZero(a, b);
      forall i: nat | 1 <= i <= n
        ensures Times(a, b)(i) == a(0) * b(i) + Times(Tail(a), b)(i - 1)
      {
        ConvFirst(a, b, i);
      }
      ConvOfScaledShift(Times(a, b), a(0), b, Times(Tail(a), b), c, n, n + 1);
      ConvAssociates(Tail(a), b, c, n - 1);
      ConvFirst(a, Times(b, c), n);
    }
  }

  lemma ConvZero(a: Coefs, b: Coefs)
    ensures Conv(a, b, 0) == a(0) * b(0)
  {
    assert ConvUpTo(a, b, 0, 0) == 0.0;
  }

  lemma {:induction false} ConvDistributes(a: Coefs, b: Coefs, c: Coefs, n: nat, k: nat)
    requires k <= n + 1
    ensures ConvUpTo(a, Plus(b, c), n, k) == ConvUpTo(a, b, n, k) + ConvUpTo(a, c, n, k)
  {
    if k > 0 {
      ConvDistributes(a, b, c, n, k - 1);
      var x, y, z := a(k - 1), b(n - (k - 1)), c(n - (k - 1));
      assert x * (y + z) == x * y + x * z;
    }
  }

  lemma {:induction false} ConvScales(a: Coefs, b: Coefs, b': Coefs, r: real, n: nat, k: nat)
    requires k <= n + 1
    requires forall i: nat :: i <= n ==> b'(i) == r * b(i)
    ensures ConvUpTo(a, b', n, k) == r * ConvUpTo(a, b, n, k)
  {
    if k > 0 {
      ConvScales(a, b, b', r, n, k - 1);
      var x, y, s := a(k - 1), b(n - (k - 1)), ConvUpTo(a, b, n, k - 1);
      assert b'(n - (k - 1)) == r * y;
      assert x * (r * y) == r * (x * y);
      assert r * (s + x * y) == r * s + r * (x * y);
    }
  }

  /** Partial sums of the product rule. */
  lemma {:induction false} ProductRuleUpTo(a: Coefs, b: Coefs, n: nat, k: nat)
    requires 1 <= k <= n + 1
    ensures (n + 1) as real * ConvUpTo(a, b, n + 1, k)
         == ConvUpTo(Deriv(a), b, n, k - 1) + ConvUpTo(a, Deriv(b), n, k)
  {
    hide Deriv;
    var x, y, db := a(k - 1), b(n + 1 - (k - 1)), Deriv(b)(n - (k - 1));
    var s, t := ConvUpTo(a, b, n + 1, k - 1), ConvUpTo(a, Deriv(b), n, k - 1);
    DerivAt(b, n + 1 - (k - 1));
    if k == 1 {
      ProductRuleTerm(n + 1, 0, x, y, 0.0, db, s, t, 0.0);
    } else {
      ProductRuleUpTo(a, b, n, k - 1);
      DerivAt(a, k - 1);
      assert b(n - (k - 2)) == y;
      ProductRuleTerm(n + 1, k - 1, x, y, Deriv(a)(k - 2), db, s, t, ConvUpTo(Deriv(a), b, n, k - 2));
    }
  }

  lemma ProductRuleTerm(m: nat, j: nat, x: real, y: real, da: real, db: real, s: real, t: real, w: real)
    requires j <= m && m as real * s == w + t
    requires da == j as real * x && db == (m - j) as real * y
    ensures m as real * (s + x * y) == (w + da * y) + (t + x * db)
  {
    var rm, rj, z := m as real, j as real, x * y;
    assert rm * (s + z) == rm * s + rm * z;
    assert da * y == rj * z;
    assert x * db == (rm - rj) * z;
  }

  /** (a*b)' = a'*b + a*b' at every coefficient. */
  lemma ProductRule(a: Coefs, b: Coefs, n: nat)
    ensures Deriv(Times(a, b))(n) == Conv(Deriv(a), b, n) + Conv(a, Deriv(b), n)
  {
    ProductRuleUpTo(a, b, n, n + 1);
    var s, m, x, y := ConvUpTo(a, b, n + 1, n + 1), (n + 1) as real, a(n + 1), b(0);
    assert Conv(a, b, n + 1) == s + x * y;
    assert m * (s + x * y) == m * s + (m * x) * y;
    assert Deriv(a)(n) == m * x;
  }

  /** A series is determined by its constant term and a first-order linear equation. */
  lemma {:induction false} LinearEquationUnique(p: Coefs, q: Coefs, d: Coefs, n: nat)
    requires p(0) == q(0)
    requires forall i: nat :: i < n ==> Deriv(p)(i) == Conv(p, d, i)
    requires forall i: nat :: i < n ==> Deriv(q)(i) == Conv(q, d, i)
    ensures Agree(p, q, n)
    decreases n
  {
    if n > 0 {
      LinearEquationUnique(p, q, d, n - 1);
      ConvCongruent(p, q, d, d, n - 1, n);
      DerivAt(p, n);
      DerivAt(q, n);
      assert Deriv(p)(n - 1) == Conv(p, d, n - 1) && Deriv(q)(n - 1) == Conv(q, d, n - 1);
      CancelIndex(n, p(n), q(n));
    }
  }

  lemma DerivAt(p: Coefs, n: nat)
    requires n > 0
    ensures Deriv(p)(n - 1) == n as real * p(n)
  {
    assert n - 1 + 1 == n;
  }

  lemma CancelIndex(n: nat, x: real, y: real)
    requires n > 0 && n as real * x == n as real * y
    ensures x == y
  {
    assert n as real * (x - y) == 0.0;
  }

  /** If a' = a*f and b' = b*g then (a*b)' = (a*b)*(f+g). */
  lemma ProductSolves(a: Coefs, b: Coefs, f: Coefs, g: Coefs, n: nat)
    requires Agree(Deriv(a), Times(a, f), n) && Agree(Deriv(b), Times(b, g), n)
    ensures Deriv(Times(a, b))(n) == Conv(Times(a, b), Plus(f, g), n)
  {
    hide ConvUpTo, Deriv, Plus;
    ProductRule(a, b, n);
    calc {
      Conv(Deriv(a), b, n);
      { ConvCongruent(Deriv(a), Times(a, f), b, b, n, n + 1); }
      Conv(Times(a, f), b, n);
      { ConvAssociates(a, f, b, n); }
      Conv(a, Times(f, b), n);
      { forall i: nat | i <= n ensures Times(f, b)(i) == Times(b, f)(i) { ConvCommutes(f, b, i); }
        ConvCongruent(a, a, Times(f, b), Times(b, f), n, n + 1); }
      Conv(a, Times(b, f), n);
      { ConvAssociates(a, b, f, n); }
      Conv(Times(a, b), f, n);
    }
    calc {
      Conv(a, Deriv(b), n);
      { ConvCongruent(a, a, Deriv(b), Times(b, g), n, n + 1); }
      Conv(a, Times(b, g), n);
      { ConvAssociates(a, b, g, n); }
      Conv(Times(a, b), g, n);
    }
    ConvDistributes(Times(a, b), f, g, n, n + 1);
  }
}
