/** The stream algebra of testsuit/chan/powser1.go.
    A series is what a reader sees on a demand channel: rational coefficients, followed from
    some point on (or never) by end marks.  Each operation is the equation that the generator
    process of the same name establishes between its input and output channels. */
module PowerSeries {
  import opened R = Rational
  import NumberTheory
  import C = Convolution

  ghost predicate Item(r: Rat) { Canonical(r) || r == FINIS }

  ghost predicate IsSeries(s: nat -> Rat) {
    && (forall n: nat :: Item(s(n)))
    && (forall m: nat, n: nat :: m <= n && End(s(m)) ==> End(s(n)))
  }

  type Series = s: nat -> Rat | IsSeries(s) ghost witness (n: nat) => FINIS

  /** The coefficients as numbers, zero after the end. */
  ghost function Coef(U: Series): C.Coefs { (n: nat) => Value(U(n)) }

  /** Two items with the same number and the same end status are the same rat. */
  lemma SameItem(a: Rat, b: Rat)
    requires Item(a) && Item(b)
    requires End(a) <==> End(b)
    requires Value(a) == Value(b)
    ensures a == b
  {
    if !End(a) {
      CanonicalUnique(a, b);
    }
  }

  ghost predicate AgreeBelow(X: Series, Y: Series, n: nat) {
    forall i: nat :: i < n ==> X(i) == Y(i)
  }

  // ----- Pointwise operations -----

  function Empty(): Series { (n: nat) => FINIS }

  /** What is left of a series after one get. */
  function Tail(U: Series): Series { (n: nat) => U(n + 1) }

  function Shift(c: Rat, U: Series): Series
    requires Canonical(c)
  {
    (n: nat) => if n == 0 then c else U(n - 1)
  }

  function AddItem(a: Rat, b: Rat): (r: Rat)
    requires Item(a) && Item(b)
    ensures Item(r)
    ensures End(r) <==> End(a) && End(b)
    ensures Value(r) == Value(a) + Value(b)
  {
    if End(a) && End(b) then FINIS
    else if End(a) then b
    else if End(b) then a
    else AddSpec(a, b); R.Add(a, b)
  }

  function Add(U: Series, V: Series): Series {
    (n: nat) => AddItem(U(n), V(n))
  }

  function CmulItem(c: Rat, u: Rat): (r: Rat)
    requires Canonical(c) && Item(u)
    ensures Item(r)
    ensures End(r) <==> End(u)
    ensures Value(r) == Value(c) * Value(u)
  {
    if End(u) then FINIS else MulSpec(c, u); R.Mul(c, u)
  }

  function Cmul(c: Rat, U: Series): Series
    requires Canonical(c)
  {
    (n: nat) => CmulItem(c, U(n))
  }

  // ----- Multiplication -----

  /** The stream u*VV + v*UU that the multiplier reads its second item from. */
  function Cross(U: Series, V: Series): Series
    requires !End(U(0)) && !End(V(0))
  {
    Add(Cmul(U(0), Tail(V)), Cmul(V(0), Tail(U)))
  }

  function MulAt(U: Series, V: Series, n: nat): (r: Rat)
    ensures Item(r)
    decreases n
  {
    if End(U(0)) || End(V(0)) then FINIS
    else if n == 0 then CmulItem(U(0), V(0))
    else if n == 1 then Cross(U, V)(0)
    else AddItem(Tail(Cross(U, V))(n - 2), MulAt(Tail(U), Tail(V), n - 2))
  }

  /** Every product contributing to x^n has a factor past its end. */
  ghost predicate ProductEnded(U: Series, V: Series, n: nat) {
    forall i: nat :: i <= n ==> End(U(i)) || End(V(n - i))
  }

  lemma NotEndedAt(U: Series, V: Series, n: nat, i: nat)
    requires i <= n
    ensures !End(U(i)) && !End(V(n - i)) ==> !ProductEnded(U, V, n)
  {}

  lemma CrossAt(U: Series, V: Series, n: nat)
    requires !End(U(0)) && !End(V(0))
    ensures End(Cross(U, V)(n)) <==> End(U(n + 1)) && End(V(n + 1))
    ensures Value(Cross(U, V)(n)) == Value(U(0)) * Value(V(n + 1)) + Value(U(n + 1)) * Value(V(0))
  {
    hide R.Value, R.Mul, R.Add, R.Canonical;
  }

  /** The product's end mark comes exactly where no live term is left. */
  lemma {:induction false} MulEnds(U: Series, V: Series, n: nat)
    ensures End(MulAt(U, V, n)) <==> ProductEnded(U, V, n)
    decreases n
  {
    hide R.Value, R.Mul, R.Add, R.Canonical;
    if !End(U(0)) && !End(V(0)) {
      if n == 0 {
        NotEndedAt(U, V, 0, 0);
      } else {
        hide Cross;
        CrossAt(U, V, n - 1);
        if n >= 2 {
          MulEnds(Tail(U), Tail(V), n - 2);
        }
        ProductEndedSplits(U, V, n);
      }
    }
  }

  /** The terms of x^n are the two outer ones and those of the tails' x^(n-2). */
  lemma ProductEndedSplits(U: Series, V: Series, n: nat)
    requires n >= 1 && !End(U(0)) && !End(V(0))
    ensures ProductEnded(U, V, n) <==>
            End(U(n)) && End(V(n)) && (n >= 2 ==> ProductEnded(Tail(U), Tail(V), n - 2))
  {
    hide Item, R.Canonical;
    if ProductEnded(U, V, n) {
      NotEndedAt(U, V, n, 0);
      NotEndedAt(U, V, n, n);
      if n >= 2 {
        forall i: nat | i <= n - 2 ensures End(Tail(U)(i)) || End(Tail(V)(n - 2 - i)) {
          assert End(U(i + 1)) || End(V(n - (i + 1)));
        }
      }
    }
    if End(U(n)) && End(V(n)) && (n >= 2 ==> ProductEnded(Tail(U), Tail(V), n - 2)) {
      forall i: nat | i <= n ensures End(U(i)) || End(V(n - i)) {
        if 1 <= i < n {
          assert End(Tail(U)(i - 1)) || End(Tail(V)(n - 2 - (i - 1)));
        }
      }
    }
  }

  lemma ProductEndedIsFinal(U: Series, V: Series, m: nat, n: nat)
    requires m <= n && ProductEnded(U, V, m)
    ensures ProductEnded(U, V, n)
  {
    forall i: nat | i <= n ensures End(U(i)) || End(V(n - i)) {
      if i <= m {
        assert End(U(i)) || End(V(m - i));
      } else {
        assert End(U(m)) || End(V(m - m));
      }
    }
  }

  function Mul(U: Series, V: Series): Series {
    var s := (n: nat) => MulAt(U, V, n);
    MulIsSeries(U, V, s);
    s
  }

  lemma MulIsSeries(U: Series, V: Series, s: nat -> Rat)
    requires forall n: nat :: s(n) == MulAt(U, V, n)
    ensures IsSeries(s)
  {
    forall m: nat, n: nat | m <= n && End(s(m)) ensures End(s(n)) {
      MulEnds(U, V, m);
      ProductEndedIsFinal(U, V, m, n);
      MulEnds(U, V, n);
    }
  }

  lemma MulUnfolds(U: Series, V: Series, n: nat)
    requires n >= 1 && !End(U(0)) && !End(V(0))
    ensures Value(Mul(U, V)(n)) == Value(U(0)) * Value(V(n)) + Value(U(n)) * Value(V(0))
            + if n == 1 then 0.0 else Value(Mul(Tail(U), Tail(V))(n - 2))
  {
    hide R.Value, R.Mul, R.Add, R.Canonical, Cross;
    CrossAt(U, V, n - 1);
    if n >= 2 {
      assert MulAt(U, V, n) == AddItem(Cross(U, V)(n - 1), MulAt(Tail(U), Tail(V), n - 2));
      hide AddItem;
    }
  }

  lemma ConvUnfolds(u: C.Coefs, v: C.Coefs, n: nat)
    requires n >= 1
    ensures C.Conv(u, v, n) == u(0) * v(n) + u(n) * v(0)
            + if n == 1 then 0.0 else C.Conv(C.Tail(u), C.Tail(v), n - 2)
  {
    C.ConvFirst(u, v, n);
    if n == 1 {
      C.ConvZero(C.Tail(u), v);
    } else {
      C.ConvLast(C.Tail(u), v, n - 1);
    }
  }

  /** Coefficient n of the recursively built product is the Cauchy sum. */
  lemma {:induction false} MulCauchy(U: Series, V: Series, n: nat)
    ensures Value(Mul(U, V)(n)) == C.Conv(Coef(U), Coef(V), n)
    decreases n
  {
    hide R.Value, R.Mul, R.Add, R.Canonical, C.ConvUpTo, Cross;
    var u, v := Coef(U), Coef(V);
    if End(U(0)) || End(V(0)) {
      ConvOfNothing(U, V, n, n + 1);
      EndIsZero();
    } else if n == 0 {
      C.ConvZero(u, v);
    } else {
      MulUnfolds(U, V, n);
      ConvUnfolds(u, v, n);
      if n >= 2 {
        MulCauchy(Tail(U), Tail(V), n - 2);
        C.ConvCongruent(Coef(Tail(U)), C.Tail(u), Coef(Tail(V)), C.Tail(v), n - 2, n - 1);
      }
    }
  }

  lemma EndIsZero()
    ensures Value(FINIS) == 0.0
  {}

  lemma {:induction false} ConvOfNothing(U: Series, V: Series, n: nat, k: nat)
    requires k <= n + 1
    requires End(U(0)) || End(V(0))
    ensures C.ConvUpTo(Coef(U), Coef(V), n, k) == 0.0
  {
    if k > 0 {
      ConvOfNothing(U, V, n, k - 1);
    }
  }

  /** Item n of a product depends only on items up to n of the factors. */
  lemma {:induction false} MulCausal(X: Series, X': Series, Y: Series, Y': Series, n: nat)
    requires AgreeBelow(X, X', n + 1) && AgreeBelow(Y, Y', n + 1)
    ensures Mul(X, Y)(n) == Mul(X', Y')(n)
    decreases n
  {
    assert X(0) == X'(0) && Y(0) == Y'(0) && X(n) == X'(n) && Y(n) == Y'(n);
    if n >= 2 {
      MulCausal(Tail(X), Tail(X'), Tail(Y), Tail(Y'), n - 2);
    }
  }

  // ----- Calculus -----

  lemma IntegerRat(i: int)
    ensures Gcd(i, 1) != 0 && Canonical(FromInt(i)) && Value(FromInt(i)) == i as real
  {
    MakeRatValue(i, 1, i as real);
  }

  lemma UnitFraction(i: int)
    requires i > 0
    ensures Gcd(1, i) != 0 && Canonical(MakeRat(1, i)) && Value(MakeRat(1, i)) == 1.0 / i as real
    ensures MakeRat(1, i).num > 0
  {
    hide R.Gcd, R.MakeRat, R.Value, NumberTheory.Coprime;
    var q := i as real;
    assert 1.0 == (1.0 / q) * q;
    MakeRatValue(1, i, 1.0 / q);
    PositiveValue(MakeRat(1, i));
  }

  lemma PositiveValue(r: Rat)
    requires r.den > 0 && Value(r) > 0.0
    ensures r.num > 0
  {
    NumIsValueTimesDen(r);
    assert Value(r) * r.den as real > 0.0;
  }

  function DiffItem(U: Series, n: nat): (r: Rat)
    ensures Item(r)
    ensures End(r) <==> End(U(n + 1))
    ensures Gcd(n + 1, 1) != 0 && Value(r) == Value(FromInt(n + 1)) * Value(U(n + 1))
  {
    IntegerRat(n + 1);
    CmulItem(FromInt(n + 1), U(n + 1))
  }

  function Diff(U: Series): Series {
    (n: nat) => DiffItem(U, n)
  }

  /** The integrator multiplies the end mark too; the product is again the end mark. */
  function IntegItem(c: Rat, U: Series, n: nat): (r: Rat)
    requires Canonical(c)
    ensures Item(r)
    ensures n == 0 ==> r == c
    ensures End(r) <==> n > 0 && End(U(n - 1))
    ensures Value(r) == if n == 0 then Value(c) else (1.0 / n as real) * Value(U(n - 1))
  {
    if n == 0 then c
    else
      UnitFraction(n);
      if End(U(n - 1)) then
        MulFinis(MakeRat(1, n)); R.Mul(MakeRat(1, n), U(n - 1))
      else
        MulSpec(MakeRat(1, n), U(n - 1)); R.Mul(MakeRat(1, n), U(n - 1))
  }

  function Integ(c: Rat, U: Series): Series
    requires Canonical(c)
  {
    (n: nat) => IntegItem(c, U, n)
  }

  lemma DiffValue(U: Series, n: nat)
    ensures Value(Diff(U)(n)) == C.Deriv(Coef(U))(n)
  {
    hide R.Value, R.FromInt, R.Gcd, R.Canonical, DiffItem;
    IntegerRat(n + 1);
  }

  lemma InverseFactor(m: real, x: real)
    requires m != 0.0
    ensures m * ((1.0 / m) * x) == x && (1.0 / m) * (m * x) == x
  {
    var r := 1.0 / m;
    assert r * m == 1.0;
    assert m * (r * x) == (r * m) * x;
    assert r * (m * x) == (r * m) * x;
  }

  /** Differentiation undoes integration, end marks included. */
  lemma DiffOfInteg(c: Rat, U: Series, n: nat)
    requires Canonical(c)
    ensures Diff(Integ(c, U))(n) == U(n)
  {
    hide R.Value, R.Canonical, DiffItem, IntegItem;
    DiffValue(Integ(c, U), n);
    InverseFactor((n + 1) as real, Value(U(n)));
    SameItem(Diff(Integ(c, U))(n), U(n));
  }

  /** Integration undoes differentiation of a nonempty series. */
  lemma IntegOfDiff(U: Series, n: nat)
    requires !End(U(0))
    ensures Integ(U(0), Diff(U))(n) == U(n)
  {
    hide R.Value, R.Canonical, DiffItem, IntegItem;
    if n > 0 {
      DiffValue(U, n - 1);
      InverseFactor(n as real, Value(U(n)));
      SameItem(Integ(U(0), Diff(U))(n), U(n));
    }
  }
}
