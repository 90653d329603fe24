/** Series defined by feeding a channel back into its own definition: Recip and Exp of
    testsuit/chan/powser1.go.  A feedback loop whose item n depends only on items below n has
    exactly one solution. */
module SeriesFeedback {
  import NumberTheory
  import opened R = Rational
  import C = Convolution
  import opened PS = PowerSeries

  /** The two loops of the program, by what stands between the looped channel and itself. */
  datatype Loop = RecipLoop(z: Rat, U: Series) | ExpLoop(U: Series)

  ghost predicate Proper(L: Loop) { L.RecipLoop? ==> Canonical(L.z) }

  /** ZZ = (-z*UU) * (z + x*ZZ), and Z = integral of Z*U' with constant term one. */
  ghost function Round(L: Loop, X: Series): Series
    requires Proper(L)
  {
    match L
    case RecipLoop(z, U) => NegSpec(z); PS.Mul(Cmul(Neg(z), Tail(U)), Shift(z, X))
    case ExpLoop(U) => Constants(); Integ(ONE, PS.Mul(X, Diff(U)))
  }

  /** Item n that comes round the loop needs only the items below n. */
  lemma RoundGuarded(L: Loop, X: Series, Y: Series, n: nat)
    requires Proper(L) && AgreeBelow(X, Y, n)
    ensures Round(L, X)(n) == Round(L, Y)(n)
  {
    hide R.Value, NumberTheory.Coprime, R.Neg, PS.MulAt, PS.Item, PS.IsSeries, R.Mul, R.Add;
    match L
    case RecipLoop(z, U) =>
      NegSpec(z);
      var A := Cmul(Neg(z), Tail(U));
      assert AgreeBelow(Shift(z, X), Shift(z, Y), n + 1);
      MulCausal(A, A, Shift(z, X), Shift(z, Y), n);
    case ExpLoop(U) =>
      Constants();
      if n > 0 {
        MulCausal(X, Y, Diff(U), Diff(U), n - 1);
      }
  }

  ghost function Unrolled(L: Loop, k: nat): Series
    requires Proper(L)
  {
    if k == 0 then Empty() else Round(L, Unrolled(L, k - 1))
  }

  /** Going round the loop more often does not change items already produced. */
  lemma {:induction false} UnrolledStable(L: Loop, j: nat, k: nat, n: nat)
    requires Proper(L) && n < j && n < k
    ensures Unrolled(L, j)(n) == Unrolled(L, k)(n)
    decreases n
  {
    hide Round, PS.IsSeries;
    var X, Y := Unrolled(L, j - 1), Unrolled(L, k - 1);
    forall i: nat | i < n ensures X(i) == Y(i) {
      UnrolledStable(L, j - 1, k - 1, i);
    }
    RoundGuarded(L, X, Y, n);
  }

  /** The stream on the looped channel: item n is there after n+1 rounds. */
  ghost function Fix(L: Loop): Series
    requires Proper(L)
  {
    hide Round, Unrolled, PS.Item;
    var s := (n: nat) => Unrolled(L, n + 1)(n);
    FixIsSeries(L, s);
    s
  }

  lemma FixIsSeries(L: Loop, s: nat -> Rat)
    requires Proper(L) && forall n: nat :: s(n) == Unrolled(L, n + 1)(n)
    ensures IsSeries(s)
  {
    hide Round;
    forall m: nat, n: nat | m <= n && End(s(m)) ensures End(s(n)) {
      UnrolledStable(L, m + 1, n + 1, m);
      assert End(Unrolled(L, n + 1)(m));
    }
  }

  lemma FixSolves(L: Loop, n: nat)
    requires Proper(L)
    ensures Fix(L)(n) == Round(L, Fix(L))(n)
  {
    hide Round, PS.IsSeries;
    forall i: nat | i < n ensures Unrolled(L, n)(i) == Fix(L)(i) {
      UnrolledStable(L, n, i + 1, i);
    }
    RoundGuarded(L, Unrolled(L, n), Fix(L), n);
  }

  lemma {:induction false} FixUnique(L: Loop, X: Series, n: nat)
    requires Proper(L)
    requires forall i: nat :: X(i) == Round(L, X)(i)
    ensures X(n) == Fix(L)(n)
    decreases n
  {
    hide Round, PS.IsSeries, Fix;
    forall i: nat | i < n ensures X(i) == Fix(L)(i) {
      FixUnique(L, X, i);
    }
    RoundGuarded(L, X, Fix(L), n);
    FixSolves(L, n);
  }

  // ----- Recip -----

  ghost predicate Invertible(U: Series) { !End(U(0)) && U(0).num != 0 }

  /** What answers the first request to Recip: the inverse of the first item, or a panic. */
  datatype Answer = Fails | Gives(r: Rat)

  function RecipFirst(U: Series): Answer { if U(0).num == 0 then Fails else Gives(Inv(U(0))) }

  /** The first request gets the inverse of the leading coefficient, a panic when that is zero, and on an
      empty series 0/-1, which is neither a number in canonical form nor an end mark. */
  lemma RecipStarts(U: Series)
    ensures RecipFirst(U).Fails? <==> !End(U(0)) && U(0).num == 0
    ensures Invertible(U) ==> RecipFirst(U) == Gives(Recip(U)(0)) && Value(Recip(U)(0)) * Value(U(0)) == 1.0
    ensures End(U(0)) ==> RecipFirst(U) == Gives(Rat(0, -1))
    ensures RecipFirst(U).Gives? ==> (PS.Item(RecipFirst(U).r) <==> !End(U(0)))
  {
    hide R.Value, NumberTheory.Coprime, R.Inv, RecipTail;
    if !RecipFirst(U).Fails? { InvSpec(U(0)); }
  }

  lemma LeadingInverse(U: Series)
    requires Invertible(U)
    ensures Canonical(Inv(U(0))) && Value(Inv(U(0))) * Value(U(0)) == 1.0
  {
    InvSpec(U(0));
  }

  ghost function RecipTail(U: Series): Series
    requires Invertible(U)
  {
    LeadingInverse(U); Fix(RecipLoop(Inv(U(0)), U))
  }

  ghost function Recip(U: Series): Series
    requires Invertible(U)
  {
    LeadingInverse(U); Shift(Inv(U(0)), RecipTail(U))
  }

  /** Each later item of the reciprocal is an item of the product of -z*UU with the reciprocal itself. */
  lemma RecipEquation(U: Series, n: nat)
    requires Invertible(U) && n >= 1
    ensures Canonical(Inv(U(0))) && Canonical(Neg(Inv(U(0))))
    ensures Recip(U)(n) == PS.Mul(Cmul(Neg(Inv(U(0))), Tail(U)), Recip(U))(n - 1)
  {
    hide R.Value, NumberTheory.Coprime, PS.MulAt, R.Inv, R.Neg, Fix, PS.IsSeries;
    LeadingInverse(U);
    NegSpec(Inv(U(0)));
    FixSolves(RecipLoop(Inv(U(0)), U), n - 1);
  }

  /** The reciprocal of a constant is a constant; every other reciprocal is infinite. */
  lemma {:induction false} RecipEnds(U: Series, n: nat)
    requires Invertible(U)
    ensures End(Recip(U)(n)) <==> n > 0 && End(U(1))
    decreases n
  {
    hide R.Value, NumberTheory.Coprime, PS.MulAt, R.Inv, R.Neg, RecipTail;
    LeadingInverse(U);
    if n > 0 {
      RecipEquation(U, n);
      var A := Cmul(Neg(Inv(U(0))), Tail(U));
      MulEnds(A, Recip(U), n - 1);
      NotEndedAt(A, Recip(U), n - 1, 0);
      RecipEnds(U, n - 1);
    }
  }

  lemma RecipValue(U: Series, n: nat)
    requires Invertible(U) && n >= 1
    ensures Coef(Recip(U))(n) == -Value(Inv(U(0))) * C.Conv(C.Tail(Coef(U)), Coef(Recip(U)), n - 1)
  {
    hide R.Value, NumberTheory.Coprime, PS.MulAt, R.Inv, R.Neg, RecipTail, C.ConvUpTo;
    LeadingInverse(U);
    NegSpec(Inv(U(0)));
    RecipEquation(U, n);
    var c := Neg(Inv(U(0)));
    var A, r, t := Cmul(c, Tail(U)), Coef(Recip(U)), C.Tail(Coef(U));
    MulCauchy(A, Recip(U), n - 1);
    C.ConvCommutes(Coef(A), r, n - 1);
    C.ConvScales(r, t, Coef(A), Value(c), n - 1, n);
    C.ConvCommutes(r, t, n - 1);
  }

  /** Mul(U, Recip(U)) is one followed by zeros (or by the end mark, when U is a constant). */
  lemma RecipInverse(U: Series, n: nat)
    requires Invertible(U)
    ensures PS.Mul(U, Recip(U))(n) == if n == 0 then ONE else if End(U(1)) then FINIS else ZERO
  {
    hide R.Value, NumberTheory.Coprime, R.Inv, RecipTail, C.ConvUpTo, PS.MulAt;
    LeadingInverse(U);
    Constants();
    EndIsZero();
    var u, r, z := Coef(U), Coef(Recip(U)), Value(Inv(U(0)));
    MulCauchy(U, Recip(U), n);
    RecipProductEnds(U, n);
    if n == 0 {
      C.ConvZero(u, r);
      SameItem(PS.Mul(U, Recip(U))(0), ONE);
    } else {
      RecipValue(U, n);
      C.ConvFirst(u, r, n);
      CancelledTerm(u(0), z, C.Conv(C.Tail(u), r, n - 1));
      SameItem(PS.Mul(U, Recip(U))(n), if End(U(1)) then FINIS else ZERO);
    }
  }

  lemma CancelledTerm(u: real, z: real, s: real)
    requires z * u == 1.0
    ensures u * (-z * s) + s == 0.0
  {
    assert u * (-z * s) == -(z * u) * s;
  }

  lemma RecipProductEnds(U: Series, n: nat)
    requires Invertible(U)
    ensures End(PS.Mul(U, Recip(U))(n)) <==> n > 0 && End(U(1))
  {
    hide R.Value, NumberTheory.Coprime, R.Inv, RecipTail, PS.MulAt, Recip;
    MulEnds(U, Recip(U), n);
    NotEndedAt(U, Recip(U), n, 0);
    forall i: nat | i <= n ensures End(Recip(U)(i)) <==> i > 0 && End(U(1)) {
      RecipEnds(U, i);
    }
  }

  // ----- Exp -----

  ghost function Exp(U: Series): Series { Fix(ExpLoop(U)) }

  /** Z = integral of Z*U' with constant term one, item by item. */
  lemma ExpEquation(U: Series, n: nat)
    ensures Canonical(ONE) && Exp(U)(n) == Integ(ONE, PS.Mul(Exp(U), Diff(U)))(n)
  {
    hide R.Value, NumberTheory.Coprime, PS.MulAt, Fix, PS.IsSeries, PS.DiffItem, PS.IntegItem;
    Constants();
    FixSolves(ExpLoop(U), n);
  }

  /** The exponential of a constant is a constant; every other exponential is infinite. */
  lemma {:induction false} ExpEnds(U: Series, n: nat)
    ensures End(Exp(U)(n)) <==> n > 0 && End(U(1))
    decreases n
  {
    hide R.Value, NumberTheory.Coprime, PS.MulAt, Exp, PS.DiffItem, PS.IntegItem;
    ExpEquation(U, n);
    if n > 0 {
      MulEnds(Exp(U), Diff(U), n - 1);
      NotEndedAt(Exp(U), Diff(U), n - 1, n - 1);
      ExpEnds(U, n - 1);
    }
  }

  /** Exp(U)' = Exp(U) * U' as streams, with constant term one. */
  lemma ExpDerivative(U: Series, n: nat)
    ensures Exp(U)(0) == ONE
    ensures Diff(Exp(U))(n) == PS.Mul(Exp(U), Diff(U))(n)
  {
    hide R.Value, NumberTheory.Coprime, PS.MulAt, Exp, PS.IntegItem;
    Constants();
    ExpEquation(U, 0);
    ExpEquation(U, n + 1);
    DiffOfInteg(ONE, PS.Mul(Exp(U), Diff(U)), n);
  }

  lemma ExpSolves(U: Series, n: nat)
    ensures C.Deriv(Coef(Exp(U)))(n) == C.Conv(Coef(Exp(U)), C.Deriv(Coef(U)), n)
    ensures Coef(Exp(U))(0) == 1.0
  {
    hide NumberTheory.Coprime, PS.MulAt, Exp, PS.DiffItem, PS.IntegItem, C.ConvUpTo, R.Value, C.Deriv;
    Constants();
    var z := Coef(Exp(U));
    ExpDerivative(U, n);
    DiffValue(Exp(U), n);
    MulCauchy(Exp(U), Diff(U), n);
    forall i: nat | i <= n ensures Coef(Diff(U))(i) == C.Deriv(Coef(U))(i) {
      DiffValue(U, i);
    }
    C.ConvCongruent(z, z, Coef(Diff(U)), C.Deriv(Coef(U)), n, n + 1);
  }

  /** Exp turns sums into products: the two streams are equal item by item, end marks included. */
  lemma ExpOfSum(U: Series, V: Series, n: nat)
    ensures Exp(PS.Add(U, V))(n) == PS.Mul(Exp(U), Exp(V))(n)
  {
    hide NumberTheory.Coprime, PS.MulAt, Exp, C.ConvUpTo, R.Value, R.Add, C.Deriv;
    var S := PS.Add(U, V);
    var a, b, p := Coef(Exp(U)), Coef(Exp(V)), Coef(Exp(S));
    var f, g, h := C.Deriv(Coef(U)), C.Deriv(Coef(V)), C.Deriv(Coef(S));
    ExpSolves(U, 0);
    ExpSolves(V, 0);
    ExpSolves(S, 0);
    C.ConvZero(a, b);
    forall i: nat | i < n
      ensures C.Deriv(p)(i) == C.Conv(p, h, i)
      ensures C.Deriv(C.Times(a, b))(i) == C.Conv(C.Times(a, b), h, i)
    {
      ExpSolves(S, i);
      ProductOfExponentials(U, V, i);
    }
    C.LinearEquationUnique(p, C.Times(a, b), h, n);
    assert p(n) == C.Times(a, b)(n);
    MulCauchy(Exp(U), Exp(V), n);
    ExpEnds(S, n);
    ExpProductEnds(U, V, n);
    SameItem(Exp(S)(n), PS.Mul(Exp(U), Exp(V))(n));
  }

  lemma ProductOfExponentials(U: Series, V: Series, n: nat)
    ensures C.Deriv(C.Times(Coef(Exp(U)), Coef(Exp(V))))(n)
         == C.Conv(C.Times(Coef(Exp(U)), Coef(Exp(V))), C.Deriv(Coef(PS.Add(U, V))), n)
  {
    hide NumberTheory.Coprime, PS.MulAt, Exp, C.ConvUpTo, R.Value, R.Add, C.Deriv;
    var a, b := Coef(Exp(U)), Coef(Exp(V));
    var f, g, h := C.Deriv(Coef(U)), C.Deriv(Coef(V)), C.Deriv(Coef(PS.Add(U, V)));
    forall i: nat | i <= n
      ensures C.Deriv(a)(i) == C.Times(a, f)(i)
      ensures C.Deriv(b)(i) == C.Times(b, g)(i)
      ensures C.Plus(f, g)(i) == h(i)
    {
      ExpSolves(U, i);
      ExpSolves(V, i);
      DerivOfSum(U, V, i);
    }
    C.ProductSolves(a, b, f, g, n);
    C.ConvCongruent(C.Times(a, b), C.Times(a, b), C.Plus(f, g), h, n, n + 1);
  }

  lemma DerivOfSum(U: Series, V: Series, n: nat)
    ensures C.Deriv(Coef(PS.Add(U, V)))(n) == C.Deriv(Coef(U))(n) + C.Deriv(Coef(V))(n)
  {
    hide NumberTheory.Coprime, R.Value, R.Add;
    var m, x, y := (n + 1) as real, Value(U(n + 1)), Value(V(n + 1));
    assert m * (x + y) == m * x + m * y;
  }

  lemma ExpProductEnds(U: Series, V: Series, n: nat)
    ensures End(PS.Mul(Exp(U), Exp(V))(n)) <==> n > 0 && End(PS.Add(U, V)(1))
  {
    hide R.Value, NumberTheory.Coprime, PS.MulAt, Exp, R.Add;
    MulEnds(Exp(U), Exp(V), n);
    NotEndedAt(Exp(U), Exp(V), n, 0);
    NotEndedAt(Exp(U), Exp(V), n, n);
    forall i: nat | i <= n
      ensures End(Exp(U)(i)) <==> i > 0 && End(U(1))
      ensures End(Exp(V)(i)) <==> i > 0 && End(V(1))
    {
      ExpEnds(U, i);
      ExpEnds(V, i);
    }
  }

  // ----- What Exp depends on -----

  /** A factor with constant term one can be cancelled. */
  lemma {:induction false} ConvCancels(z: C.Coefs, f: C.Coefs, g: C.Coefs, n: nat)
    requires z(0) == 1.0 && forall i: nat :: i <= n ==> C.Conv(z, f, i) == C.Conv(z, g, i)
    ensures C.Agree(f, g, n)
    decreases n
  {
    hide C.ConvUpTo;
    C.ConvCommutes(z, f, n);
    C.ConvCommutes(z, g, n);
    assert C.Conv(z, f, n) == C.Conv(z, g, n);
    if n == 0 {
      C.ConvZero(f, z);
      C.ConvZero(g, z);
    } else {
      ConvCancels(z, f, g, n - 1);
      C.ConvLast(f, z, n);
      C.ConvLast(g, z, n);
      C.ConvCongruent(f, g, C.Tail(z), C.Tail(z), n - 1, n);
    }
  }

  ghost predicate SameExp(U: Series, V: Series) { forall n: nat :: Exp(U)(n) == Exp(V)(n) }

  /** The same coefficients above the constant term. */
  ghost predicate SameSlope(U: Series, V: Series) { forall n: nat :: Value(Diff(U)(n)) == Value(Diff(V)(n)) }

  lemma SlopeFromExp(U: Series, V: Series, n: nat)
    requires SameExp(U, V)
    ensures Value(Diff(U)(n)) == Value(Diff(V)(n))
  {
    hide NumberTheory.Coprime, PS.MulAt, Exp, PS.DiffItem, C.ConvUpTo, R.Value, C.Deriv, C.Agree, PS.IsSeries;
    var z, z', f, g := Coef(Exp(U)), Coef(Exp(V)), C.Deriv(Coef(U)), C.Deriv(Coef(V));
    ExpSolves(U, 0);
    forall i: nat | i <= n ensures C.Conv(z, f, i) == C.Conv(z, g, i) {
      ExpSolves(U, i);
      ExpSolves(V, i);
      AgreeEverywhere(z, z', i);
      AgreeEverywhere(g, g, i);
      C.ConvCongruent(z, z', g, g, i, i + 1);
      DerivOf(z, z', i);
    }
    ConvCancels(z, f, g, n);
    AgreeAt(f, g, n);
    DiffValue(U, n);
    DiffValue(V, n);
  }

  lemma AgreeEverywhere(a: C.Coefs, b: C.Coefs, n: nat)
    requires forall i: nat :: a(i) == b(i)
    ensures C.Agree(a, b, n)
  {}

  lemma AgreeAt(a: C.Coefs, b: C.Coefs, n: nat)
    requires C.Agree(a, b, n)
    ensures a(n) == b(n)
  {}

  lemma DerivOf(a: C.Coefs, b: C.Coefs, n: nat)
    requires forall i: nat :: a(i) == b(i)
    ensures C.Deriv(a)(n) == C.Deriv(b)(n)
  {}

  lemma ExpFromSlope(U: Series, V: Series, n: nat)
    requires SameSlope(U, V) && (End(U(1)) <==> End(V(1)))
    ensures Exp(U)(n) == Exp(V)(n)
  {
    hide NumberTheory.Coprime, PS.MulAt, Exp, PS.DiffItem, C.ConvUpTo, R.Value, C.Deriv;
    var z, z', f, g := Coef(Exp(U)), Coef(Exp(V)), C.Deriv(Coef(U)), C.Deriv(Coef(V));
    ExpSolves(U, 0);
    ExpSolves(V, 0);
    forall i: nat ensures f(i) == g(i) {
      DiffValue(U, i);
      DiffValue(V, i);
      assert Value(Diff(U)(i)) == Value(Diff(V)(i));
    }
    forall i: nat | i < n
      ensures C.Deriv(z)(i) == C.Conv(z, f, i)
      ensures C.Deriv(z')(i) == C.Conv(z', f, i)
    {
      ExpSolves(U, i);
      ExpSolves(V, i);
      C.ConvCongruent(z', z', f, g, i, i + 1);
    }
    C.LinearEquationUnique(z, z', f, n);
    ExpEnds(U, n);
    ExpEnds(V, n);
    AgreeAt(z, z', n);
    SameItem(Exp(U)(n), Exp(V)(n));
  }

  /** Two series have the same exponential if and only if they differ at most in their constant terms and
      in trailing zeros behind the linear term. */
  lemma ExpForgets(U: Series, V: Series)
    ensures SameExp(U, V) <==> SameSlope(U, V) && (End(U(1)) <==> End(V(1)))
  {
    hide NumberTheory.Coprime, PS.MulAt, Exp, PS.DiffItem, R.Value, PS.IsSeries, Diff;
    if SameExp(U, V) {
      forall n: nat ensures Value(Diff(U)(n)) == Value(Diff(V)(n)) { SlopeFromExp(U, V, n); }
      ExpEnds(U, 1);
      ExpEnds(V, 1);
    }
    if SameSlope(U, V) && (End(U(1)) <==> End(V(1))) {
      forall n: nat ensures Exp(U)(n) == Exp(V)(n) { ExpFromSlope(U, V, n); }
    }
  }

  /** c + x, with or without zeros behind it. */
  ghost function Line(c: Rat, padded: bool): Series
    requires Canonical(c)
  {
    Constants();
    (n: nat) => if n == 0 then c else if n == 1 then ONE else if padded then ZERO else FINIS
  }

  /** The constant term is ignored, and so are trailing zeros, although these show in the derivative. */
  lemma ExpIgnores(c: Rat, d: Rat)
    requires Canonical(c) && Canonical(d)
    ensures SameExp(Line(c, false), Line(d, true)) && Diff(Line(c, false))(1) != Diff(Line(d, true))(1)
  {
    hide NumberTheory.Coprime, PS.MulAt, Exp, PS.DiffItem, R.Value;
    var U, V := Line(c, false), Line(d, true);
    Constants();
    EndIsZero();
    forall n: nat ensures Value(Diff(U)(n)) == Value(Diff(V)(n)) {
      DiffValue(U, n);
      DiffValue(V, n);
    }
    ExpForgets(U, V);
  }
}
