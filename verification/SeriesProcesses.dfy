/** The generator processes of testsuit/chan/powser1.go as the loops they are.
    A process serves a number of requests; each get takes the next item of an input channel.
    A reader asks for nothing after an end mark, and under that convention no process ever asks
    an input channel for an item behind its end mark, where it would wait forever. */
module SeriesProcesses {
  import NumberTheory
  import opened R = Rational
  import opened PS = PowerSeries
  import opened SeriesSubst

  /** After k gets the reader has seen at most one end mark, as the last item. */
  ghost predicate StopsAtEnd(U: Series, k: nat) { k < 2 || !End(U(k - 2)) }

  /** The items sent so far are the first items of Z. */
  ghost predicate Sends(sent: seq<Rat>, Z: Series) {
    forall i :: 0 <= i < |sent| ==> sent[i] == Z(i)
  }

  /** copy: serve the remaining requests from the input, item k answering request k. */
  method Copy(input: Series, sent0: seq<Rat>, requests: nat, ghost Z: Series) returns (sent: seq<Rat>, got: nat)
    requires |sent0| <= requests && Sends(sent0, Z)
    requires forall i: nat :: i >= |sent0| ==> input(i) == Z(i)
    ensures got == |sent| == requests && Sends(sent, Z)
  {
    sent, got := sent0, |sent0|;
    while |sent| < requests
      invariant got == |sent| <= requests && Sends(sent, Z)
    {
      sent, got := sent + [input(got)], got + 1;
    }
  }

  lemma AddCases(U: Series, V: Series, k: nat)
    ensures End(U(k)) && End(V(k)) ==> PS.Add(U, V)(k) == FINIS
    ensures End(PS.Add(U, V)(k)) ==> End(U(k)) && End(V(k))
    ensures !End(U(k)) && !End(V(k)) ==> U(k).den > 0 && V(k).den > 0 && PS.Add(U, V)(k) == R.Add(U(k), V(k))
    ensures End(U(k)) ==> forall i: nat :: i >= k ==> PS.Add(U, V)(i) == V(i)
    ensures End(V(k)) ==> forall i: nat :: i >= k ==> PS.Add(U, V)(i) == U(i)
  {
    hide NumberTheory.Coprime, R.Value, R.Add;
  }

  method AddLoop(U: Series, V: Series, requests: nat) returns (sent: seq<Rat>, gotU: nat, gotV: nat)
    requires StopsAtEnd(PS.Add(U, V), requests)
    ensures |sent| == requests && Sends(sent, PS.Add(U, V))
    ensures StopsAtEnd(U, gotU) && StopsAtEnd(V, gotV) && gotU <= requests && gotV <= requests
  {
    hide PS.Add, R.Add, PS.Item;
    sent, gotU, gotV := [], 0, 0;
    if requests >= 2 { AddCases(U, V, requests - 2); }
    while |sent| < requests
      invariant gotU == gotV == |sent| <= requests
      invariant Sends(sent, PS.Add(U, V))
      invariant 0 < |sent| < requests ==> !End(U(|sent| - 1)) && !End(V(|sent| - 1))
      invariant StopsAtEnd(U, gotU) && StopsAtEnd(V, gotV)
    {
      AddCases(U, V, gotU);
      var u, v := U(gotU), V(gotV);
      gotU, gotV := gotU + 1, gotV + 1;
      if !End(u) && !End(v) {
        sent := sent + [R.Add(u, v)];
      } else if End(u) && !End(v) {
        sent, gotV := Copy(V, sent + [v], requests, PS.Add(U, V));
        return;
      } else if !End(u) {
        sent, gotU := Copy(U, sent + [u], requests, PS.Add(U, V));
        return;
      } else {
        sent := sent + [FINIS];
      }
    }
  }

  lemma DiffCases(U: Series, k: nat)
    ensures Gcd(k + 1, 1) != 0
    ensures End(U(k + 1)) ==> Diff(U)(k) == FINIS
    ensures !End(U(k + 1)) ==> Gcd(FromInt(k + 1).num, U(k + 1).den) != 0 && Gcd(FromInt(k + 1).den, U(k + 1).num) != 0
                               && Diff(U)(k) == R.Mul(FromInt(k + 1), U(k + 1))
  {
    hide R.Mul, R.Value, NumberTheory.Coprime, FromInt, R.Gcd;
    IntegerRat(k + 1);
    if !End(U(k + 1)) { MulSpec(FromInt(k + 1), U(k + 1)); }
  }

  /** Differentiation reads one item ahead: its first request drops the constant term. */
  method DiffLoop(U: Series, requests: nat) returns (sent: seq<Rat>, got: nat)
    requires StopsAtEnd(Diff(U), requests)
    ensures |sent| == requests && Sends(sent, Diff(U))
    ensures StopsAtEnd(U, got) && (if requests == 0 then got == 0 else got <= requests + 1)
  {
    hide R.Mul, FromInt, R.Gcd, Diff, PS.Item;
    sent, got := [], 0;
    if requests == 0 { return; }
    var u := U(0);
    got := 1;
    if !End(u) {
      var done, i := false, 1;
      while !done && |sent| < requests
        invariant i == got == (if done then |sent| + 2 else |sent| + 1)
        invariant |sent| <= requests && (done ==> |sent| < requests && End(U(|sent| + 1)))
        invariant !done ==> !End(U(got - 1))
        invariant Sends(sent, Diff(U)) && StopsAtEnd(U, got)
        decreases requests - |sent|, !done
      {
        DiffCases(U, |sent|);
        u, got := U(got), got + 1;
        if End(u) {
          done := true;
        } else {
          sent := sent + [R.Mul(FromInt(i), u)];
        }
        i := i + 1;
      }
    }
    if |sent| < requests {
      DiffCases(U, |sent|);
      sent := sent + [FINIS];
      DiffEnds(U, |sent| - 1, requests);
    }
  }

  lemma DiffEnds(U: Series, k: nat, requests: nat)
    requires End(U(k + 1)) && StopsAtEnd(Diff(U), requests) && k < requests
    ensures requests == k + 1
  {
    hide R.Mul, R.Value, NumberTheory.Coprime, FromInt, R.Gcd;
  }

  lemma IntegCases(c: Rat, U: Series, k: nat)
    requires Canonical(c) && k >= 1
    ensures Integ(c, U)(0) == c && Gcd(1, k) != 0
    ensures Gcd(MakeRat(1, k).num, U(k - 1).den) != 0 && Gcd(MakeRat(1, k).den, U(k - 1).num) != 0
    ensures Integ(c, U)(k) == R.Mul(MakeRat(1, k), U(k - 1))
    ensures End(Integ(c, U)(k)) <==> End(U(k - 1))
  {
    hide R.Mul, R.Value, NumberTheory.Coprime, MakeRat, R.Gcd;
    UnitFraction(k);
    if End(U(k - 1)) { MulFinis(MakeRat(1, k)); } else { MulSpec(MakeRat(1, k), U(k - 1)); }
  }

  /** After the end mark the integrator offers a second one that nobody asked for. */
  method IntegLoop(c: Rat, U: Series, requests: nat) returns (sent: seq<Rat>, got: nat, surplus: bool)
    requires Canonical(c) && StopsAtEnd(Integ(c, U), requests)
    ensures |sent| == requests && Sends(sent, Integ(c, U))
    ensures StopsAtEnd(U, got) && (if requests == 0 then got == 0 else got < requests)
    ensures surplus <==> requests > 0 && End(sent[requests - 1])
  {
    hide R.Mul, MakeRat, R.Gcd, Integ, PS.Item, NumberTheory.Coprime;
    sent, got, surplus := [], 0, false;
    if requests == 0 { return; }
    IntegCases(c, U, 1);
    sent := [c];
    if requests >= 3 { IntegCases(c, U, requests - 2); }
    var done, i := false, 1;
    while !done && |sent| < requests
      invariant i == |sent| == got + 1 && 1 <= |sent| <= requests
      invariant Sends(sent, Integ(c, U))
      invariant StopsAtEnd(U, got)
      invariant got > 0 ==> (done <==> End(U(got - 1)))
      invariant done <==> End(sent[|sent| - 1])
      invariant done ==> |sent| == requests
    {
      IntegCases(c, U, i);
      var u := U(got);
      got := got + 1;
      if End(u) { done := true; }
      sent, i := sent + [R.Mul(MakeRat(1, i), u)], i + 1;
    }
    surplus := done;
  }

  lemma QuotientAndRest(m: nat, n: nat, q: nat, r: nat)
    requires n >= 1 && r < n && m == q * n + r
    ensures Quot(m, n) == q && m % n == r
  {
    assert q * n == n * q;
    QuotientIs(m, n, q, r);
  }

  lemma MonSubstCases(U: Series, c: Rat, n: nat, q: nat, r: nat, m: nat)
    requires Canonical(c) && n >= 1 && r < n && m == q * n + r
    ensures End(MonSubst(U, c, n)(m)) <==> End(U(q))
    ensures r == 0 ==> (MulPanics(U(q), RatPow(c, q)) <==> c.num == 0 && q >= 1 && End(U(q)))
    ensures r == 0 && !MulPanics(U(q), RatPow(c, q)) ==> MonSubst(U, c, n)(m) == R.Mul(U(q), RatPow(c, q))
    ensures r > 0 && !End(U(q)) ==> MonSubst(U, c, n)(m) == ZERO
  {
    hide R.Mul, R.Value, NumberTheory.Coprime, RatPow, R.Gcd, RealPow, Quot;
    QuotientAndRest(m, n, q, r);
    assert MonSubst(U, c, n)(m) == MonSubstItem(U, c, n, m);
    MonSubstPanicsAt(U, c, q);
    if r == 0 && !MulPanics(U(q), RatPow(c, q)) {
      RatPowZero(c, q);
      if End(U(q)) { MulFinis(RatPow(c, q)); } else { MulSpec(U(q), RatPow(c, q)); }
    }
  }

  /** An exponent below one acts like one. */
  function Stride(n: int): nat { if n < 1 then 1 else n }

  /** With c zero, an end mark behind the first item meets a zero power within the requests. */
  ghost predicate MeetsEnd(U: Series, c: Rat, n: int, requests: nat) {
    c.num == 0 && exists k: nat :: k >= 1 && End(U(k)) && Times(k, Stride(n)) < requests
  }

  function Times(k: nat, n: nat): nat { k * n }

  lemma {:induction false} TimesGrows(j: nat, k: nat, n: nat)
    requires j <= k && n >= 1
    ensures Times(j, n) <= Times(k, n) && (j < k ==> Times(j, n) + n <= Times(k, n))
    decreases k
  {
    hide Times;
    if j < k {
      TimesGrows(j, k - 1, n);
      TimesNext(k - 1, n);
    }
  }

  /** U(c*x^n): the running power of c is multiplied up once per coefficient of U.  The process fails
      exactly when c is zero and it comes to an end mark behind the first item. */
  method MonSubstLoop(U: Series, c0: Rat, n: int, requests: nat)
      returns (panicked: bool, sent: seq<Rat>, got: nat, surplus: bool)
    requires Canonical(c0) && StopsAtEnd(MonSubst(U, c0, Stride(n)), requests)
    ensures panicked <==> MeetsEnd(U, c0, n, requests)
    ensures Sends(sent, MonSubst(U, c0, Stride(n))) && |sent| == if panicked then requests - 1 else requests
    ensures StopsAtEnd(U, got)
    ensures surplus <==> !panicked && requests > 0 && End(sent[requests - 1])
  {
    hide R.Mul, RatPow, R.Gcd, MonSubst, PS.Item, NumberTheory.Coprime, R.Value, RealPow, MeetsEnd, Times;
    ghost var Z, d := MonSubst(U, c0, Stride(n)), Stride(n);
    panicked, sent, got, surplus := false, [], 0, false;
    var c := ONE;
    PowerStart(c0);
    TimesZero(d);
    while |sent| < requests
      invariant |sent| <= requests && Sends(sent, Z) && !surplus && !panicked
      invariant if |sent| < requests then |sent| == Times(got, d) else requests <= Times(got, d)
      invariant c == RatPow(c0, got) && Canonical(c)
      invariant got > 0 ==> !End(U(got - 1))
      invariant |sent| > 0 ==> !End(sent[|sent| - 1])
    {
      ServeFirst(U, c0, n, got, |sent|, requests);
      var u := U(got);
      if MulPanics(u, c) {
        got := got + 1;
        panicked := true;
        return;
      }
      sent := sent + [R.Mul(u, c)];
      PowerNext(c0, got);
      c := R.Mul(c, c0);
      if End(u) {
        surplus := true;
        got := got + 1;
        return;
      }
      var i := 1;
      while i < n && |sent| < requests
        invariant 1 <= i <= d && |sent| <= requests
        invariant |sent| == Times(got, d) + i && Sends(sent, Z)
        invariant !End(sent[|sent| - 1])
      {
        ServeZero(U, c0, d, got, i, |sent|);
        sent, i := sent + [ZERO], i + 1;
      }
      TimesNext(got, d);
      got := got + 1;
    }
    NoEndMet(U, c0, n, got, requests);
  }

  lemma TimesZero(n: nat)
    ensures Times(0, n) == 0
  {}

  lemma TimesNext(k: nat, n: nat)
    ensures Times(k + 1, n) == Times(k, n) + n
  {}

  /** At a request for coefficient q: what is sent, and that a failure or an end mark is the last thing. */
  lemma ServeFirst(U: Series, c: Rat, n: int, q: nat, m: nat, requests: nat)
    requires Canonical(c) && m == Times(q, Stride(n)) && m < requests
    requires q > 0 ==> !End(U(q - 1))
    requires StopsAtEnd(MonSubst(U, c, Stride(n)), requests)
    ensures var Z := MonSubst(U, c, Stride(n));
            && (MulPanics(U(q), RatPow(c, q)) ==> MeetsEnd(U, c, n, requests) && requests == m + 1)
            && (!MulPanics(U(q), RatPow(c, q)) ==> Z(m) == R.Mul(U(q), RatPow(c, q)))
            && (End(U(q)) ==> requests == m + 1)
            && (End(U(q)) && !MulPanics(U(q), RatPow(c, q)) ==> !MeetsEnd(U, c, n, requests))
            && (End(Z(m)) <==> End(U(q)))
  {
    hide R.Mul, R.Value, NumberTheory.Coprime, RatPow, R.Gcd, RealPow, MonSubst, R.MulPanics;
    MonSubstCases(U, c, Stride(n), q, 0, m);
    if End(U(q)) {
      assert requests == m + 1;
      if !MulPanics(U(q), RatPow(c, q)) && c.num == 0 {
        forall k: nat | k >= 1 && End(U(k)) ensures Times(k, Stride(n)) >= requests {
          TimesGrows(q, k, Stride(n));
        }
      }
    }
  }

  lemma ServeZero(U: Series, c: Rat, d: nat, q: nat, i: nat, m: nat)
    requires Canonical(c) && 1 <= i < d && m == Times(q, d) + i && !End(U(q))
    ensures MonSubst(U, c, d)(m) == ZERO
  {
    MonSubstCases(U, c, d, q, i, m);
  }

  lemma NoEndMet(U: Series, c: Rat, n: int, got: nat, requests: nat)
    requires requests <= Times(got, Stride(n)) && (got > 0 ==> !End(U(got - 1)))
    ensures !MeetsEnd(U, c, n, requests)
  {
    hide PS.Item;
    forall k: nat | k >= 1 && End(U(k)) ensures Times(k, Stride(n)) >= requests {
      assert got <= k;
      TimesGrows(got, k, Stride(n));
    }
  }

  /** The series with the one coefficient one. */
  ghost function OneTerm(): Series { Constants(); (n: nat) => if n == 0 then ONE else FINIS }

  /** The smallest failing case: U(0*x) for U = 1, at the second request. */
  lemma MonSubstFails()
    ensures Canonical(ZERO) && StopsAtEnd(MonSubst(OneTerm(), ZERO, 1), 2) && MeetsEnd(OneTerm(), ZERO, 1, 2)
    ensures MulPanics(OneTerm()(1), RatPow(ZERO, 1))
  {
    hide R.Mul, R.Value, NumberTheory.Coprime, RatPow, R.Gcd, RealPow;
    Constants();
    MonSubstPanicsAt(OneTerm(), ZERO, 1);
    MonSubstCases(OneTerm(), ZERO, 1, 0, 0, 0);
    assert End(OneTerm()(1)) && Times(1, Stride(1)) < 2;
  }

  lemma PowerStart(c: Rat)
    requires Canonical(c)
    ensures RatPow(c, 0) == ONE && Canonical(ONE)
  {}

  lemma PowerNext(c: Rat, k: nat)
    requires Canonical(c)
    ensures Gcd(RatPow(c, k).num, c.den) != 0 && Gcd(RatPow(c, k).den, c.num) != 0
    ensures RatPow(c, k + 1) == R.Mul(RatPow(c, k), c) && Canonical(RatPow(c, k + 1))
  {
    MulSpec(RatPow(c, k), c);
  }

  // ----- Two inputs at once -----

  /** Events still to come on one channel: its request and its item. */
  function Outstanding(open: bool, due: bool): nat { if open then 2 else if due then 1 else 0 }

  /** getn: ask both channels and take both items, in whatever order they are ready.  req and dat say
      which channel operands of the select are not nil; a channel has an item ready once it was asked.
      Until all four events have happened some case is ready, so the select never blocks for good,
      and each channel is asked once and gives its next item.  It panics on any other number of inputs. */
  method GetN(input: seq<Series>, got: seq<nat>) returns (panicked: bool, out: seq<Rat>, got': seq<nat>)
    requires |got| == |input|
    ensures panicked <==> |input| != 2
    ensures !panicked ==> |out| == |got'| == 2
    ensures !panicked ==> out[0] == input[0](got[0]) && out[1] == input[1](got[1])
    ensures !panicked ==> got'[0] == got[0] + 1 && got'[1] == got[1] + 1
  {
    panicked, out, got' := |input| != 2, [ZERO, ZERO], got;
    if panicked { return; }
    var req, dat := new bool[2], new bool[2];
    req[0], req[1], dat[0], dat[1] := true, true, false, false;
    var n := 4;
    while n > 0
      invariant n == Outstanding(req[0], dat[0]) + Outstanding(req[1], dat[1])
      invariant |out| == |got'| == 2
      invariant forall k :: 0 <= k < 2 ==> !(req[k] && dat[k])
      invariant forall k :: 0 <= k < 2 ==> got'[k] == got[k] + if req[k] || dat[k] then 0 else 1
      invariant forall k :: 0 <= k < 2 && !req[k] && !dat[k] ==> out[k] == input[k](got[k])
    {
      n := n - 1;
      if
      case req[0] => dat[0], req[0] := true, false;
      case req[1] => dat[1], req[1] := true, false;
      case dat[0] => out, got', dat[0] := out[0 := input[0](got'[0])], got'[0 := got'[0] + 1], false;
      case dat[1] => out, got', dat[1] := out[1 := input[1](got'[1])], got'[1 := got'[1] + 1], false;
    }
  }
}
