/** Substitution of one series into another: Subst, Mon and MonSubst of testsuit/chan/powser1.go. */
module SeriesSubst {
  import NumberTheory
  import opened R = Rational
  import C = Convolution
  import opened PS = PowerSeries

  // ----- Subst -----

  /** One substituting process: S is what the process it starts will deliver. */
  ghost function SubstItem(U: Series, V: Series, S: Series, n: nat): Rat {
    if n == 0 then U(0)
    else if End(U(0)) || End(V(0)) then FINIS
    else PS.Mul(Tail(V), S)(n - 1)
  }

  ghost function SubstStep(U: Series, V: Series, S: Series): Series {
    hide R.Canonical, PS.MulAt;
    (n: nat) => SubstItem(U, V, S, n)
  }

  /** The chain of substituting processes, cut off after k of them. */
  ghost function SubstUpTo(U: Series, V: Series, k: nat): Series
    decreases k
  {
    if k == 0 then Empty() else SubstStep(U, V, SubstUpTo(Tail(U), V, k - 1))
  }

  lemma {:induction false} SubstStable(U: Series, V: Series, j: nat, k: nat, n: nat)
    requires n < j && n < k
    ensures SubstUpTo(U, V, j)(n) == SubstUpTo(U, V, k)(n)
    decreases n
  {
    hide PS.IsSeries, PS.MulAt;
    var X, Y := SubstUpTo(Tail(U), V, j - 1), SubstUpTo(Tail(U), V, k - 1);
    forall i: nat | i < n ensures X(i) == Y(i) {
      SubstStable(Tail(U), V, j - 1, k - 1, i);
    }
    if n > 0 {
      MulCausal(Tail(V), Tail(V), X, Y, n - 1);
    }
  }

  ghost function Subst(U: Series, V: Series): Series {
    hide SubstUpTo, PS.Item;
    var s := (n: nat) => SubstUpTo(U, V, n + 1)(n);
    SubstIsSeries(U, V, s);
    s
  }

  lemma SubstIsSeries(U: Series, V: Series, s: nat -> Rat)
    requires forall n: nat :: s(n) == SubstUpTo(U, V, n + 1)(n)
    ensures IsSeries(s)
  {
    hide SubstStep;
    forall m: nat, n: nat | m <= n && End(s(m)) ensures End(s(n)) {
      SubstStable(U, V, m + 1, n + 1, m);
      assert End(SubstUpTo(U, V, n + 1)(m));
    }
  }

  lemma SubstUnfolds(U: Series, V: Series, n: nat)
    ensures Subst(U, V)(n) == SubstItem(U, V, SubstUpTo(Tail(U), V, n), n)
  {
    hide PS.IsSeries, SubstItem;
  }

  lemma SubstPrefix(U: Series, V: Series, k: nat, n: nat)
    requires n < k
    ensures SubstUpTo(U, V, k)(n) == Subst(U, V)(n)
  {
    hide PS.IsSeries, SubstUpTo;
    SubstStable(U, V, k, n + 1, n);
  }

  /** S(U,V) = u + VV*S(UU,V), item by item. */
  lemma SubstEquation(U: Series, V: Series, n: nat)
    ensures Subst(U, V)(n) == SubstItem(U, V, Subst(Tail(U), V), n)
  {
    hide PS.IsSeries, PS.MulAt, Subst, SubstUpTo;
    SubstUnfolds(U, V, n);
    if n > 0 {
      var X, Y := SubstUpTo(Tail(U), V, n), Subst(Tail(U), V);
      forall i: nat | i < n ensures X(i) == Y(i) {
        SubstPrefix(Tail(U), V, n, i);
      }
      MulCausal(Tail(V), Tail(V), X, Y, n - 1);
    }
  }

  // ----- Composition of coefficient sequences -----

  ghost function Reduced(v: C.Coefs): C.Coefs { (n: nat) => if n == 0 then 0.0 else v(n) }

  ghost function Pow(b: C.Coefs, k: nat): C.Coefs {
    if k == 0 then C.Unit() else C.Times(b, Pow(b, k - 1))
  }

  /** Coefficient n of u(0) + u(1)*b + ... + u(m-1)*b^(m-1). */
  ghost function PolyUpTo(u: C.Coefs, b: C.Coefs, m: nat, n: nat): real {
    if m == 0 then 0.0 else PolyUpTo(u, b, m - 1, n) + u(m - 1) * Pow(b, m - 1)(n)
  }

  ghost function Poly(u: C.Coefs, b: C.Coefs, m: nat): C.Coefs { (n: nat) => PolyUpTo(u, b, m, n) }

  lemma PowStep(b: C.Coefs, k: nat, n: nat)
    requires b(0) == 0.0 && n >= 1
    ensures Pow(b, k + 1)(n) == C.Conv(C.Tail(b), Pow(b, k), n - 1)
  {
    hide C.ConvUpTo;
    C.ConvFirst(b, Pow(b, k), n);
  }

  /** A power of a series without constant term starts late. */
  lemma {:induction false} PowVanishes(b: C.Coefs, k: nat, n: nat)
    requires b(0) == 0.0 && n < k
    ensures Pow(b, k)(n) == 0.0
    decreases k
  {
    if n == 0 {
      C.ConvZero(b, Pow(b, k - 1));
    } else {
      PowStep(b, k - 1, n);
      var p := Pow(b, k - 1);
      forall i: nat | i <= n - 1 ensures p(i) == 0.0 {
        PowVanishes(b, k - 1, i);
      }
      ConvWithZero(C.Tail(b), p, n - 1, n);
    }
  }

  lemma {:induction false} ConvWithZero(a: C.Coefs, z: C.Coefs, n: nat, k: nat)
    requires k <= n + 1 && forall i: nat :: i <= n ==> z(i) == 0.0
    ensures C.ConvUpTo(a, z, n, k) == 0.0
  {
    if k > 0 {
      ConvWithZero(a, z, n, k - 1);
      assert z(n - (k - 1)) == 0.0;
    }
  }

  lemma {:induction false} PolyExtends(u: C.Coefs, b: C.Coefs, m: nat, n: nat)
    requires b(0) == 0.0 && n < m
    ensures PolyUpTo(u, b, m, n) == PolyUpTo(u, b, n + 1, n)
    decreases m
  {
    hide Pow;
    if n + 1 < m {
      PolyExtends(u, b, m - 1, n);
      PowVanishes(b, m - 1, n);
    }
  }

  /** Horner's step: u(b) = u(0) + b*uu(b), above the constant term. */
  lemma {:induction false} PolyHorner(u: C.Coefs, b: C.Coefs, m: nat, n: nat)
    requires b(0) == 0.0 && n >= 1
    ensures PolyUpTo(u, b, m + 1, n) == C.Conv(C.Tail(b), Poly(C.Tail(u), b, m), n - 1)
    decreases m
  {
    hide C.ConvUpTo, Pow;
    if m == 0 {
      PolyConstant(u, b, n);
      ConvWithZero(C.Tail(b), Poly(C.Tail(u), b, 0), n - 1, n);
    } else {
      PolyHorner(u, b, m - 1, n);
      var p, q, x := Poly(C.Tail(u), b, m - 1), Pow(b, m - 1), u(m);
      var r: C.Coefs := (i: nat) => x * q(i);
      C.ConvDistributes(C.Tail(b), p, r, n - 1, n);
      C.ConvScales(C.Tail(b), q, r, x, n - 1, n);
      assert C.Agree(Poly(C.Tail(u), b, m), C.Plus(p, r), n - 1);
      C.ConvCongruent(C.Tail(b), C.Tail(b), Poly(C.Tail(u), b, m), C.Plus(p, r), n - 1, n);
      PowStep(b, m - 1, n);
    }
  }

  lemma PolyConstant(u: C.Coefs, b: C.Coefs, n: nat)
    requires n >= 1
    ensures PolyUpTo(u, b, 1, n) == 0.0
  {
    assert PolyUpTo(u, b, 0, n) == 0.0;
    assert Pow(b, 0)(n) == 0.0;
  }

  /** Coefficient n of Subst(U,V) is the sum over k of U_k times coefficient n of (V - v0)^k. */
  lemma {:induction false} SubstComposes(U: Series, V: Series, n: nat)
    ensures Value(Subst(U, V)(n)) == PolyUpTo(Coef(U), Reduced(Coef(V)), n + 1, n)
    decreases n
  {
    hide R.Value, PS.MulAt, Subst, C.ConvUpTo, PolyUpTo, NumberTheory.Coprime;
    var u, b := Coef(U), Reduced(Coef(V));
    SubstEquation(U, V, n);
    EndIsZero();
    if n == 0 {
      PolyAtZero(u, b);
    } else if End(U(0)) {
      PolyOfZero(u, b, n + 1, n);
    } else if End(V(0)) {
      PolyHorner(u, b, n, n);
      C.ConvCommutes(C.Tail(b), Poly(C.Tail(u), b, n), n - 1);
      ConvWithZero(Poly(C.Tail(u), b, n), C.Tail(b), n - 1, n);
    } else {
      var s, p := Coef(Subst(Tail(U), V)), Poly(C.Tail(u), b, n);
      MulCauchy(Tail(V), Subst(Tail(U), V), n - 1);
      forall i: nat | i <= n - 1 ensures s(i) == p(i) {
        SubstComposes(Tail(U), V, i);
        PolyCongruent(Coef(Tail(U)), C.Tail(u), b, i + 1, i);
        PolyExtends(C.Tail(u), b, n, i);
      }
      C.ConvCongruent(Coef(Tail(V)), C.Tail(b), s, p, n - 1, n);
      PolyHorner(u, b, n, n);
    }
  }

  lemma PolyAtZero(u: C.Coefs, b: C.Coefs)
    ensures PolyUpTo(u, b, 1, 0) == u(0)
  {
    assert PolyUpTo(u, b, 0, 0) == 0.0;
    assert Pow(b, 0)(0) == 1.0;
  }

  lemma {:induction false} PolyOfZero(u: C.Coefs, b: C.Coefs, m: nat, n: nat)
    requires forall i: nat :: u(i) == 0.0
    ensures PolyUpTo(u, b, m, n) == 0.0
    decreases m
  {
    hide Pow;
    if m > 0 {
      PolyOfZero(u, b, m - 1, n);
    }
  }

  lemma {:induction false} PolyCongruent(u: C.Coefs, u': C.Coefs, b: C.Coefs, m: nat, n: nat)
    requires forall i: nat :: u(i) == u'(i)
    ensures PolyUpTo(u, b, m, n) == PolyUpTo(u', b, m, n)
    decreases m
  {
    hide Pow;
    if m > 0 {
      PolyCongruent(u, u', b, m - 1, n);
    }
  }

  // ----- Monomials -----

  /** Mon(c, n): the monomial c*x^n, or the empty series when c is zero. */
  ghost function Mon(c: Rat, n: nat): Series
    requires Canonical(c)
  {
    Constants();
    (i: nat) => if c.num == 0 then FINIS else if i < n then ZERO else if i == n then c else FINIS
  }

  /** The factor the monomial substituter has built up after k coefficients. */
  function RatPow(c: Rat, k: nat): (r: Rat)
    requires Canonical(c)
    ensures Canonical(r) && Value(r) == RealPow(Value(c), k)
  {
    hide R.Value, R.Mul, NumberTheory.Coprime;
    Constants();
    if k == 0 then ONE else
      var p := RatPow(c, k - 1);
      MulSpec(p, c);
      R.Mul(p, c)
  }

  ghost function RealPow(x: real, k: nat): real {
    if k == 0 then 1.0 else RealPow(x, k - 1) * x
  }

  lemma {:induction false} RatPowNonzero(c: Rat, k: nat)
    requires Canonical(c) && c.num != 0
    ensures RatPow(c, k).num != 0
  {
    hide RatPow, NumberTheory.Coprime;
    InvSpec(c);
    RealPowNonzero(Value(c), k);
    ZeroNumerator(RatPow(c, k));
  }

  lemma ZeroNumerator(r: Rat)
    requires Canonical(r)
    ensures Value(r) != 0.0 ==> r.num != 0
  {}

  lemma {:induction false} RealPowNonzero(x: real, k: nat)
    requires x != 0.0
    ensures RealPow(x, k) != 0.0
  {
    if k > 0 { RealPowNonzero(x, k - 1); }
  }

  function Quot(m: nat, n: nat): nat
    requires n >= 1
  {
    m / n
  }

  /** Item m of MonSubst: each coefficient times the running power of c, then n-1 zeros.  Where U ends the
      process multiplies the end mark, which gives the end mark or, when the power is zero, no item at all. */
  function MonSubstItem(U: Series, c: Rat, n: nat, m: nat): (r: Rat)
    requires Canonical(c) && n >= 1
    ensures Item(r)
    ensures End(r) <==> End(U(Quot(m, n)))
    ensures Value(r) == if m % n == 0 then Value(U(Quot(m, n))) * RealPow(Value(c), Quot(m, n)) else 0.0
  {
    hide R.Value, R.Mul, NumberTheory.Coprime, RatPow, RealPow, Quot;
    EndIsZero();
    Constants();
    var u, p := U(Quot(m, n)), RatPow(c, Quot(m, n));
    if End(u) then FINIS
    else if m % n == 0 then MulSpec(u, p); R.Mul(u, p)
    else ZERO
  }

  function MonSubst(U: Series, c: Rat, n: nat): Series
    requires Canonical(c) && n >= 1
  {
    hide MonSubstItem, R.Canonical;
    var s := (m: nat) => MonSubstItem(U, c, n, m);
    MonSubstIsSeries(U, c, n, s);
    s
  }

  lemma MonSubstIsSeries(U: Series, c: Rat, n: nat, s: nat -> Rat)
    requires Canonical(c) && n >= 1
    requires forall m: nat :: s(m) == MonSubstItem(U, c, n, m)
    ensures IsSeries(s)
  {
    hide MonSubstItem, NumberTheory.Coprime, Quot, R.Value, RealPow;
    forall i: nat, j: nat | i <= j && End(s(i)) ensures End(s(j)) {
      QuotientMonotone(i, j, n);
    }
  }

  /** Powers of zero are zero, but for the first. */
  lemma {:induction false} RatPowZero(c: Rat, k: nat)
    requires Canonical(c)
    ensures RatPow(c, k).num == 0 <==> c.num == 0 && k >= 1
  {
    hide RatPow, NumberTheory.Coprime;
    if c.num != 0 {
      RatPowNonzero(c, k);
    } else {
      RealPowOfZero(k);
      ZeroValueIsZero(c);
      ZeroValueIsZero(RatPow(c, k));
    }
  }

  lemma {:induction false} RealPowOfZero(k: nat)
    ensures RealPow(0.0, k) == if k == 0 then 1.0 else 0.0
  {
    if k > 0 { RealPowOfZero(k - 1); }
  }

  lemma ZeroValueIsZero(r: Rat)
    requires Canonical(r)
    ensures Value(r) == 0.0 <==> r.num == 0
  {
    NumIsValueTimesDen(r);
  }

  /** Multiplying coefficient k by the k-th power of c fails exactly where c is zero and U ends later than
      at its first item. */
  lemma MonSubstPanicsAt(U: Series, c: Rat, k: nat)
    requires Canonical(c)
    ensures MulPanics(U(k), RatPow(c, k)) <==> c.num == 0 && k >= 1 && End(U(k))
  {
    hide NumberTheory.Coprime, RatPow, R.MulPanics, R.Value;
    RatPowZero(c, k);
    MulPanicsWhen(U(k), RatPow(c, k));
  }

  lemma QuotientMonotone(i: nat, j: nat, n: nat)
    requires i <= j && n >= 1
    ensures Quot(i, n) <= Quot(j, n)
  {
    DivisionMonotone(i, j, n);
  }

  lemma DivisionMonotone(i: int, j: int, n: int)
    requires i <= j && n >= 1
    ensures i / n <= j / n
  {
    var p, q := i / n, j / n;
    assert n * (q - p) == n * q - n * p;
    assert n * (q - p) > -n;
    if q < p { NegativeMultiple(n, q - p); }
  }

  lemma NegativeMultiple(n: int, d: int)
    requires n >= 1 && d < 0
    ensures n * d <= -n
  {}

  /** A product with a monomial picks out one coefficient. */
  lemma {:induction false} ConvMonomial(t: C.Coefs, c: real, d: nat, s: C.Coefs, m: nat, k: nat)
    requires k <= m + 1
    requires forall i: nat :: i <= m ==> t(i) == if i == d then c else 0.0
    ensures C.ConvUpTo(t, s, m, k) == if d < k then c * s(m - d) else 0.0
  {
    if k > 0 {
      ConvMonomial(t, c, d, s, m, k - 1);
      var x := s(m - (k - 1));
      assert t(k - 1) * x == if k - 1 == d then c * x else 0.0 by {
        assert t(k - 1) == if k - 1 == d then c else 0.0;
      }
    }
  }

  /** Coefficient m of Subst(U, c*x^n) is U_(m/n)*c^(m/n) where n divides m, and zero elsewhere, also when c
      is zero. */
  lemma {:induction false} SubstOfMonomial(U: Series, c: Rat, n: nat, m: nat)
    requires Canonical(c) && n >= 1
    ensures Value(Subst(U, Mon(c, n))(m)) == Value(MonSubst(U, c, n)(m))
    decreases m
  {
    hide R.Value, NumberTheory.Coprime, Subst, C.ConvUpTo, PS.MulAt, MonSubstItem, RealPow, Quot;
    var M := Mon(c, n);
    Constants();
    EndIsZero();
    SubstEquation(U, M, m);
    if m == 0 {
      SmallQuotient(0, n);
      PowerZero(Value(c));
    } else if c.num == 0 {
      MonSubstOfZero(U, c, n, m);
    } else if !End(U(0)) {
      var s := Coef(Subst(Tail(U), M));
      MulCauchy(Tail(M), Subst(Tail(U), M), m - 1);
      assert forall i: nat :: Coef(Tail(M))(i) == if i == n - 1 then Value(c) else 0.0;
      ConvMonomial(Coef(Tail(M)), Value(c), n - 1, s, m - 1, m);
      if m < n {
        SmallQuotient(m, n);
      } else {
        SubstOfMonomial(Tail(U), c, n, m - n);
        QuotientStep(m, n);
        PowerStep(Value(U(Quot(m, n))), Value(c), Quot(m, n));
      }
    }
  }

  lemma MonSubstOfZero(U: Series, c: Rat, n: nat, m: nat)
    requires Canonical(c) && c.num == 0 && n >= 1 && m >= 1
    ensures Value(MonSubst(U, c, n)(m)) == 0.0
  {
    hide R.Value, NumberTheory.Coprime, MonSubstItem, RealPow, Quot;
    ZeroValueIsZero(c);
    if m < n { SmallQuotient(m, n); } else { QuotientStep(m, n); }
    RealPowOfZero(Quot(m, n));
  }

  lemma PowerZero(x: real)
    ensures RealPow(x, 0) == 1.0
  {}

  lemma SmallQuotient(m: nat, n: nat)
    requires m < n
    ensures Quot(m, n) == 0 && m % n == m
  {}

  lemma QuotientStep(m: nat, n: nat)
    requires 1 <= n <= m
    ensures Quot(m - n, n) == Quot(m, n) - 1 && (m - n) % n == m % n
  {
    var q, r := m / n, m % n;
    assert n * (q - 1) == n * q - n;
    QuotientIs(m - n, n, q - 1, r);
  }

  lemma QuotientIs(a: int, n: int, q: int, r: int)
    requires n >= 1 && a == n * q + r && 0 <= r < n
    ensures a / n == q && a % n == r
  {
    var d := a / n - q;
    assert a == n * (a / n) + a % n;
    assert n * d == n * (a / n) - n * q;
    if d != 0 { NumberTheory.MultipleIsLarge(n, d); }
  }

  lemma PowerStep(u: real, x: real, k: nat)
    requires k >= 1
    ensures u * RealPow(x, k) == x * (u * RealPow(x, k - 1))
  {
    var p := RealPow(x, k - 1);
    assert u * (p * x) == x * (u * p);
  }

  /** Where the two ways of substituting a monomial end: MonSubst pads the last coefficient with
      its n-1 zeros, Subst stops right after it, and after the constant term when c is zero.  The streams
      differ only in those zeros. */
  lemma {:induction false} SubstOfMonomialEnds(U: Series, c: Rat, n: nat, m: nat)
    requires Canonical(c) && n >= 1
    ensures End(Subst(U, Mon(c, n))(m)) <==>
            if c.num == 0 then End(U(0)) || m >= 1 else End(U(Quot(m + n - 1, n)))
    ensures End(MonSubst(U, c, n)(m)) <==> End(U(Quot(m, n)))
    decreases m
  {
    hide R.Value, NumberTheory.Coprime, Subst, PS.MulAt, MonSubstItem, Quot;
    var M := Mon(c, n);
    SubstEquation(U, M, m);
    if m == 0 {
      SmallQuotient(n - 1, n);
    } else if !End(U(0)) && c.num != 0 {
      var k := if m < n then 0 else m - n;
      MonomialProductEnds(c, n, Subst(Tail(U), M), m - 1, k);
      SubstOfMonomialEnds(Tail(U), c, n, k);
      if m < n {
        SmallQuotient(n - 1, n);
        SmallQuotient(m - 1, n);
      }
      QuotientStep(m + n - 1, n);
    }
  }

  lemma MonomialProductEnds(c: Rat, n: nat, S: Series, m: nat, k: nat)
    requires Canonical(c) && c.num != 0 && n >= 1
    requires k == if m + 1 < n then 0 else m + 1 - n
    ensures End(PS.Mul(Tail(Mon(c, n)), S)(m)) <==> End(S(k))
  {
    hide R.Value, NumberTheory.Coprime, PS.MulAt, PS.Item;
    var T := Tail(Mon(c, n));
    MulEnds(T, S, m);
    NotEndedAt(T, S, m, m - k);
    assert !End(T(m - k));
    if End(S(k)) {
      forall i: nat | i <= m ensures End(T(i)) || End(S(m - i)) {
        assert i >= n ==> End(T(i));
      }
    }
  }
}
