/** Laws of the stream operations of testsuit/chan/powser1.go as streams, end marks included, and
    the evaluation of a series at a point. */
module SeriesLaws {
  import NumberTheory
  import opened R = Rational
  import opened PS = PowerSeries
  import opened SeriesSubst
  import C = Convolution

  // ----- Multiplication is commutative -----

  lemma ProductEndedCommutes(U: Series, V: Series, n: nat)
    ensures ProductEnded(U, V, n) ==> ProductEnded(V, U, n)
  {
    hide PS.Item;
    if ProductEnded(U, V, n) {
      forall i: nat | i <= n ensures End(V(i)) || End(U(n - i)) {
        assert n - (n - i) == i;
        NotEndedAt(U, V, n, n - i);
      }
    }
  }

  lemma MulCommutes(U: Series, V: Series, n: nat)
    ensures PS.Mul(U, V)(n) == PS.Mul(V, U)(n)
  {
    hide R.Value, R.Canonical, C.ConvUpTo, PS.MulAt, PS.ProductEnded;
    MulCauchy(U, V, n);
    MulCauchy(V, U, n);
    C.ConvCommutes(Coef(U), Coef(V), n);
    MulEnds(U, V, n);
    MulEnds(V, U, n);
    ProductEndedCommutes(U, V, n);
    ProductEndedCommutes(V, U, n);
    SameItem(PS.Mul(U, V)(n), PS.Mul(V, U)(n));
  }

  // ----- Multiplication is associative -----

  /** Every product of three contributing to x^n has a factor past its end. */
  ghost predicate TripleEnded(U: Series, V: Series, W: Series, n: nat) {
    forall i: nat, j: nat :: i + j <= n ==> End(U(i)) || End(V(j)) || End(W(n - i - j))
  }

  lemma TripleEndedAt(U: Series, V: Series, W: Series, n: nat, i: nat, j: nat)
    requires TripleEnded(U, V, W, n) && i + j <= n
    ensures End(U(i)) || End(V(j)) || End(W(n - (i + j)))
  {
    hide PS.Item;
    assert n - i - j == n - (i + j);
  }

  lemma PairEnded(U: Series, V: Series, W: Series, n: nat, k: nat)
    requires TripleEnded(U, V, W, n) && k <= n && !End(W(n - k))
    ensures ProductEnded(U, V, k)
  {
    hide PS.Item, TripleEnded;
    forall i: nat | i <= k ensures End(U(i)) || End(V(k - i)) {
      TripleEndedAt(U, V, W, n, i, k - i);
    }
  }

  lemma LeftEndedAt(U: Series, V: Series, W: Series, n: nat, i: nat, j: nat)
    requires i + j <= n && ProductEnded(PS.Mul(U, V), W, n)
    ensures End(U(i)) || End(V(j)) || End(W(n - i - j))
  {
    hide PS.Item, PS.MulAt, PS.ProductEnded;
    MulEnds(U, V, i + j);
    NotEndedAt(U, V, i + j, i);
    NotEndedAt(PS.Mul(U, V), W, n, i + j);
    assert i + j - i == j && n - (i + j) == n - i - j;
  }

  lemma TripleEndedLeft(U: Series, V: Series, W: Series, n: nat)
    ensures End(PS.Mul(PS.Mul(U, V), W)(n)) <==> TripleEnded(U, V, W, n)
  {
    hide PS.Item, PS.MulAt;
    var UV := PS.Mul(U, V);
    MulEnds(UV, W, n);
    if ProductEnded(UV, W, n) {
      forall i: nat, j: nat | i + j <= n ensures End(U(i)) || End(V(j)) || End(W(n - i - j)) {
        hide TripleEnded, PS.ProductEnded;
        LeftEndedAt(U, V, W, n, i, j);
      }
    } else if TripleEnded(U, V, W, n) {
      hide TripleEnded;
      forall k: nat | k <= n ensures End(UV(k)) || End(W(n - k)) {
        hide PS.ProductEnded;
        MulEnds(U, V, k);
        if !End(W(n - k)) { PairEnded(U, V, W, n, k); }
      }
    }
  }

  lemma TripleEndedRight(U: Series, V: Series, W: Series, n: nat)
    ensures End(PS.Mul(U, PS.Mul(V, W))(n)) <==> TripleEnded(U, V, W, n)
  {
    hide PS.Item, PS.MulAt;
    var VW := PS.Mul(V, W);
    MulEnds(U, VW, n);
    if TripleEnded(U, V, W, n) {
      forall i: nat | i <= n ensures End(U(i)) || End(VW(n - i)) {
        MulEnds(V, W, n - i);
        if !End(U(i)) {
          forall j: nat | j <= n - i ensures End(V(j)) || End(W(n - i - j)) {
            assert i + j <= n;
          }
        }
      }
    }
    if ProductEnded(U, VW, n) {
      forall i: nat, j: nat | i + j <= n ensures End(U(i)) || End(V(j)) || End(W(n - i - j)) {
        MulEnds(V, W, n - i);
        NotEndedAt(V, W, n - i, j);
        NotEndedAt(U, VW, n, i);
      }
    }
  }

  lemma CoefOfProduct(U: Series, V: Series, n: nat)
    ensures C.Agree(Coef(PS.Mul(U, V)), C.Times(Coef(U), Coef(V)), n)
  {
    hide R.Value, R.Canonical, C.ConvUpTo, PS.MulAt;
    forall i: nat | i <= n ensures Coef(PS.Mul(U, V))(i) == C.Times(Coef(U), Coef(V))(i) {
      MulCauchy(U, V, i);
    }
  }

  lemma MulAssociates(U: Series, V: Series, W: Series, n: nat)
    ensures PS.Mul(PS.Mul(U, V), W)(n) == PS.Mul(U, PS.Mul(V, W))(n)
  {
    hide R.Value, R.Canonical, C.ConvUpTo, PS.MulAt, TripleEnded, C.Agree, C.Times;
    var UV, VW := PS.Mul(U, V), PS.Mul(V, W);
    var u, v, w := Coef(U), Coef(V), Coef(W);
    MulCauchy(UV, W, n);
    MulCauchy(U, VW, n);
    CoefOfProduct(U, V, n);
    CoefOfProduct(V, W, n);
    AgreeSelf(u, n);
    AgreeSelf(w, n);
    C.ConvCongruent(Coef(UV), C.Times(u, v), w, w, n, n + 1);
    C.ConvCongruent(u, u, Coef(VW), C.Times(v, w), n, n + 1);
    C.ConvAssociates(u, v, w, n);
    TripleEndedLeft(U, V, W, n);
    TripleEndedRight(U, V, W, n);
    SameItem(PS.Mul(UV, W)(n), PS.Mul(U, VW)(n));
  }

  lemma AgreeSelf(a: C.Coefs, n: nat)
    ensures C.Agree(a, a, n)
  {}

  // ----- Multiplication distributes over addition -----

  lemma SumEnds(U: Series, V: Series, W: Series, n: nat)
    ensures ProductEnded(U, PS.Add(V, W), n) <==> ProductEnded(U, V, n) && ProductEnded(U, W, n)
  {
    hide PS.Item, R.Value, R.Add;
    var S := PS.Add(V, W);
    if ProductEnded(U, S, n) {
      forall i: nat | i <= n ensures (End(U(i)) || End(V(n - i))) && (End(U(i)) || End(W(n - i))) {
        NotEndedAt(U, S, n, i);
      }
    }
  }

  lemma MulDistributes(U: Series, V: Series, W: Series, n: nat)
    ensures PS.Mul(U, PS.Add(V, W))(n) == PS.Add(PS.Mul(U, V), PS.Mul(U, W))(n)
  {
    hide R.Value, R.Canonical, C.ConvUpTo, PS.MulAt, PS.ProductEnded, R.Add, C.Agree;
    var S := PS.Add(V, W);
    MulCauchy(U, S, n);
    MulCauchy(U, V, n);
    MulCauchy(U, W, n);
    CoefOfSum(V, W, n);
    AgreeSelf(Coef(U), n);
    C.ConvCongruent(Coef(U), Coef(U), Coef(S), C.Plus(Coef(V), Coef(W)), n, n + 1);
    C.ConvDistributes(Coef(U), Coef(V), Coef(W), n, n + 1);
    MulEnds(U, S, n);
    MulEnds(U, V, n);
    MulEnds(U, W, n);
    SumEnds(U, V, W, n);
    SameItem(PS.Mul(U, S)(n), PS.Add(PS.Mul(U, V), PS.Mul(U, W))(n));
  }

  lemma CoefOfSum(V: Series, W: Series, n: nat)
    ensures C.Agree(Coef(PS.Add(V, W)), C.Plus(Coef(V), Coef(W)), n)
  {
    hide R.Value, R.Canonical, R.Add;
  }

  // ----- Evaluation -----

  /** The sum of the first n terms of the series at x. */
  ghost function PartialSum(u: C.Coefs, x: real, n: nat): real {
    if n == 0 then 0.0 else PartialSum(u, x, n - 1) + u(n - 1) * RealPow(x, n - 1)
  }

  lemma {:induction false} HornerStep(u: C.Coefs, x: real, n: nat)
    requires n >= 1
    ensures PartialSum(u, x, n) == u(0) + x * PartialSum(C.Tail(u), x, n - 1)
  {
    if n == 1 {
      assert RealPow(x, 0) == 1.0 && PartialSum(u, x, 0) == 0.0;
      assert PartialSum(C.Tail(u), x, 0) == 0.0;
      assert x * 0.0 == 0.0;
    } else {
      HornerStep(u, x, n - 1);
      hide PartialSum;
      HornerTerm(x, u(n - 1), RealPow(x, n - 2), PartialSum(C.Tail(u), x, n - 2));
      PartialSumStep(u, x, n);
      PartialSumStep(C.Tail(u), x, n - 1);
    }
  }

  lemma PartialSumStep(u: C.Coefs, x: real, n: nat)
    requires n >= 1
    ensures PartialSum(u, x, n) == PartialSum(u, x, n - 1) + u(n - 1) * RealPow(x, n - 1)
  {}

  lemma HornerTerm(x: real, a: real, p: real, s: real)
    ensures x * s + a * (p * x) == x * (s + a * p)
  {
    var z := a * p;
    assert a * (p * x) == x * z;
  }

  lemma {:induction false} NothingToSum(U: Series, x: real, n: nat)
    requires End(U(0))
    ensures PartialSum(Coef(U), x, n) == 0.0
  {
    hide RealPow;
    if n > 0 {
      NothingToSum(U, x, n - 1);
      assert End(U(n - 1));
    }
  }

  /** How many terms are summed up: n of them, or all there are when n is negative. */
  function Terms(n: int, len: nat): nat { if n < 0 then len else n }

  /** Horner's rule over the first n items, stopping at the end mark.  A negative n never reaches zero, so the
      recursion stops only at the end mark, behind at most len items. */
  function Eval(c: Rat, U: Series, n: int, len: nat): (r: Rat)
    requires Canonical(c) && (n >= 0 || End(U(len)))
    ensures Canonical(r) && Value(r) == PartialSum(Coef(U), Value(c), Terms(n, len))
    decreases Terms(n, len)
  {
    hide R.Value, R.Add, R.Mul, PartialSum, NumberTheory.Coprime;
    Constants();
    if n == 0 then EmptySum(Coef(U), Value(c)); ZERO
    else if End(U(0)) then NothingToSum(U, Value(c), Terms(n, len)); ZERO
    else
      var less := if len == 0 then 0 else len - 1;
      var rest := Eval(c, Tail(U), n - 1, less);
      MulSpec(c, rest);
      AddSpec(U(0), R.Mul(c, rest));
      HornerStep(Coef(U), Value(c), Terms(n, len));
      SumsAgree(Coef(Tail(U)), C.Tail(Coef(U)), Value(c), Terms(n, len) - 1);
      R.Add(U(0), R.Mul(c, rest))
  }

  lemma EmptySum(u: C.Coefs, x: real)
    ensures PartialSum(u, x, 0) == 0.0
  {}

  lemma {:induction false} SumsAgree(u: C.Coefs, v: C.Coefs, x: real, n: nat)
    requires forall i: nat :: i < n ==> u(i) == v(i)
    ensures PartialSum(u, x, n) == PartialSum(v, x, n)
  {
    hide RealPow;
    if n > 0 { SumsAgree(u, v, x, n - 1); }
  }

  lemma {:induction false} SumsAdd(u: C.Coefs, v: C.Coefs, x: real, n: nat)
    ensures PartialSum(C.Plus(u, v), x, n) == PartialSum(u, x, n) + PartialSum(v, x, n)
  {
    hide RealPow;
    if n > 0 {
      SumsAdd(u, v, x, n - 1);
      var a, b, p := u(n - 1), v(n - 1), RealPow(x, n - 1);
      assert (a + b) * p == a * p + b * p;
    }
  }

  /** Evaluating a sum stream gives the very rat that adding the two evaluations gives. */
  lemma EvalOfSum(c: Rat, U: Series, V: Series, n: int, len: nat)
    requires Canonical(c) && (n >= 0 || (End(U(len)) && End(V(len))))
    ensures Eval(c, PS.Add(U, V), n, len) == R.Add(Eval(c, U, n, len), Eval(c, V, n, len))
  {
    hide R.Value, R.Add, NumberTheory.Coprime, PartialSum, Eval;
    var u, v, x, k := Coef(U), Coef(V), Value(c), Terms(n, len);
    AddSpec(Eval(c, U, n, len), Eval(c, V, n, len));
    SumsAgree(Coef(PS.Add(U, V)), C.Plus(u, v), x, k);
    SumsAdd(u, v, x, k);
    CanonicalUnique(Eval(c, PS.Add(U, V), n, len), R.Add(Eval(c, U, n, len), Eval(c, V, n, len)));
  }
}
