/** What the processes of testsuit/chan/powser1.go ask of each other: a feedback loop serves request n from
    items that it has sent before, so going round it produces the series without ever waiting for itself. */
module SeriesDemand {
  import NumberTheory
  import opened R = Rational
  import C = Convolution
  import opened PS = PowerSeries
  import opened SeriesFeedback
  import opened P = SeriesProcesses

  // ----- The processes of a loop -----

  /** Cmul sends one item for each that it gets. */
  method CmulLoop(c: Rat, U: Series, requests: nat) returns (sent: seq<Rat>, got: nat)
    requires Canonical(c) && StopsAtEnd(Cmul(c, U), requests)
    ensures |sent| == requests && Sends(sent, Cmul(c, U))
    ensures StopsAtEnd(U, got) && got <= requests
  {
    hide R.Mul, R.Value, NumberTheory.Coprime;
    sent, got := [], 0;
    while |sent| < requests
      invariant got == |sent| <= requests && Sends(sent, Cmul(c, U))
    {
      var u := U(got);
      got := got + 1;
      if End(u) {
        sent := sent + [FINIS];
      } else {
        MulSpec(c, u);
        sent := sent + [R.Mul(c, u)];
      }
    }
  }

  /** Shift sends its constant before it gets anything. */
  method ShiftLoop(c: Rat, U: Series, requests: nat) returns (sent: seq<Rat>, got: nat)
    requires Canonical(c) && StopsAtEnd(Shift(c, U), requests)
    ensures |sent| == requests && Sends(sent, Shift(c, U))
    ensures StopsAtEnd(U, got) && (if requests == 0 then got == 0 else got < requests)
  {
    hide NumberTheory.Coprime, R.Value;
    sent, got := [], 0;
    if requests > 0 {
      sent := [c];
      while |sent| < requests
        invariant 1 <= |sent| == got + 1 <= requests && Sends(sent, Shift(c, U))
      {
        sent, got := sent + [U(got)], got + 1;
      }
    }
  }

  function Max(a: nat, b: nat): nat { if a < b then b else a }

  /** The item behind the first of a product is the first of the cross stream. */
  lemma MulItems(U: Series, V: Series, n: nat)
    requires !End(U(0)) && !End(V(0))
    ensures PS.Mul(U, V)(0) == CmulItem(U(0), V(0)) && PS.Mul(U, V)(1) == Cross(U, V)(0)
    ensures PS.Mul(U, V)(n + 2) == PS.Add(Tail(Cross(U, V)), PS.Mul(Tail(U), Tail(V)))(n)
  {
    hide R.Value, R.Mul, R.Add, R.Canonical, Cross, CmulItem;
  }

  lemma MulOfNothing(U: Series, V: Series)
    requires End(U(0)) || End(V(0))
    ensures PS.Mul(U, V)(0) == FINIS
  {}

  lemma EndStays(U: Series, m: nat, n: nat)
    requires m <= n
    ensures End(U(m)) ==> End(U(n))
  {}

  /** A product that has not ended has a live cross stream or live tails. */
  lemma SecondIsLive(U: Series, V: Series, requests: nat)
    requires !End(U(0)) && !End(V(0)) && requests >= 3 && StopsAtEnd(PS.Mul(U, V), requests)
    ensures !End(Cross(U, V)(0))
    ensures StopsAtEnd(PS.Add(Tail(Cross(U, V)), PS.Mul(Tail(U), Tail(V))), requests - 2)
  {
    hide R.Value, R.Mul, R.Add, R.Canonical, Cross, PS.Mul, PS.Add;
    EndStays(PS.Mul(U, V), 1, requests - 2);
    MulItems(U, V, if requests >= 4 then requests - 4 else 0);
  }

  lemma TailStops(U: Series, k: nat)
    requires StopsAtEnd(Tail(U), k) && !End(U(0))
    ensures StopsAtEnd(U, k + 1)
  {
    if k >= 2 { assert Tail(U)(k - 2) == U(k - 1); }
  }

  /** The two streams that the multiplier adds up for its second item and all later ones, W of them: the
      larger number of items goes to the splitter in front. */
  method CrossLoop(U: Series, V: Series, requests: nat) returns (sent: seq<Rat>, gotU: nat, gotV: nat)
    requires !End(U(0)) && !End(V(0)) && StopsAtEnd(Cross(U, V), requests)
    ensures |sent| == requests && Sends(sent, Cross(U, V))
    ensures StopsAtEnd(Tail(U), gotU) && StopsAtEnd(Tail(V), gotV) && gotU <= requests && gotV <= requests
  {
    hide R.Value, R.Mul, R.Add, NumberTheory.Coprime;
    var a, b, x, y;
    sent, a, b := AddLoop(Cmul(U(0), Tail(V)), Cmul(V(0), Tail(U)), requests);
    x, gotV := CmulLoop(U(0), Tail(V), a);
    y, gotU := CmulLoop(V(0), Tail(U), b);
  }

  /** Mul asks each factor for at most as many items as it sends, and never behind an end mark. */
  method MulLoop(U: Series, V: Series, requests: nat) returns (sent: seq<Rat>, gotU: nat, gotV: nat)
    requires StopsAtEnd(PS.Mul(U, V), requests)
    ensures |sent| == requests && Sends(sent, PS.Mul(U, V))
    ensures StopsAtEnd(U, gotU) && StopsAtEnd(V, gotV) && gotU <= requests && gotV <= requests
    decreases requests
  {
    hide R.Value, R.Mul, R.Add, NumberTheory.Coprime, Cross, PS.Mul, PS.Add, CmulItem;
    sent, gotU, gotV := [], 0, 0;
    if requests == 0 { return; }
    gotU, gotV := 1, 1;
    if End(U(0)) || End(V(0)) {
      MulOfNothing(U, V);
      sent := [FINIS];
      assert requests == 1;
      return;
    }
    MulItems(U, V, 0);
    sent := [CmulItem(U(0), V(0))];
    if requests == 1 { return; }
    var first, u0, v0 := CrossLoop(U, V, 1);
    sent := sent + first;
    gotU, gotV := 1 + u0, 1 + v0;
    if requests >= 3 {
      SecondIsLive(U, V, requests);
      var rest, gotW, gotM := AddLoop(Tail(Cross(U, V)), PS.Mul(Tail(U), Tail(V)), requests - 2);
      TailStops(Cross(U, V), gotW);
      var w, u1, v1 := CrossLoop(U, V, 1 + gotW);
      var m, u2, v2 := MulLoop(Tail(U), Tail(V), gotM);
      ProductSends(U, V, sent, rest);
      sent := sent + rest;
      gotU, gotV := 1 + Max(u1, u2), 1 + Max(v1, v2);
    }
    TailStops(U, gotU - 1);
    TailStops(V, gotV - 1);
  }

  lemma ProductSends(U: Series, V: Series, sent: seq<Rat>, rest: seq<Rat>)
    requires !End(U(0)) && !End(V(0)) && |sent| == 2 && Sends(sent, PS.Mul(U, V))
    requires Sends(rest, PS.Add(Tail(Cross(U, V)), PS.Mul(Tail(U), Tail(V))))
    ensures Sends(sent + rest, PS.Mul(U, V))
  {
    hide R.Value, R.Mul, R.Add, R.Canonical, Cross, PS.Mul, PS.Add;
    forall i | 0 <= i < |sent + rest| ensures (sent + rest)[i] == PS.Mul(U, V)(i) {
      if i >= 2 { MulItems(U, V, i - 2); }
    }
  }

  // ----- Once round a loop -----

  /** Serving requests on the looped channel takes fewer items from the looped channel than it serves. */
  method ServeRound(L: Loop, X: Series, requests: nat) returns (sent: seq<Rat>, gotX: nat, gotU: nat)
    requires Proper(L) && StopsAtEnd(Round(L, X), requests)
    ensures |sent| == requests && Sends(sent, Round(L, X))
    ensures if requests == 0 then gotX == 0 else gotX < requests
    ensures StopsAtEnd(X, gotX) && gotU <= requests
  {
    hide R.Value, R.Mul, R.Add, R.Neg, NumberTheory.Coprime, PS.Mul, Integ, Diff, Cmul, Shift;
    match L {
      case RecipLoop(z, U) =>
        NegSpec(z);
        var a, s, x, y;
        sent, a, s := MulLoop(Cmul(Neg(z), Tail(U)), Shift(z, X), requests);
        x, gotU := CmulLoop(Neg(z), Tail(U), a);
        y, gotX := ShiftLoop(z, X, s);
      case ExpLoop(U) =>
        Constants();
        var m, surplus, d, x, y;
        sent, m, surplus := IntegLoop(ONE, PS.Mul(X, Diff(U)), requests);
        x, gotX, d := MulLoop(X, Diff(U), m);
        y, gotU := DiffLoop(U, d);
    }
  }

  // ----- Round and round -----

  /** What the looped channel has sent so far, and nothing known behind it. */
  function Known(sent: seq<Rat>, ghost Z: Series): Series
    requires Sends(sent, Z)
  {
    hide PS.Item;
    var s := (n: nat) => if n < |sent| then sent[n] else FINIS;
    KnownIsSeries(sent, Z, s);
    s
  }

  lemma KnownIsSeries(sent: seq<Rat>, Z: Series, s: nat -> Rat)
    requires Sends(sent, Z) && forall n: nat :: s(n) == if n < |sent| then sent[n] else FINIS
    ensures IsSeries(s)
  {
    forall n: nat ensures Item(s(n)) {
      if n < |sent| { assert sent[n] == Z(n); }
    }
    forall m: nat, n: nat | m <= n && End(s(m)) ensures End(s(n)) {
      if n < |sent| { assert sent[m] == Z(m) && sent[n] == Z(n); }
    }
  }

  /** The next item of a loop comes out the same whatever lies behind the items already sent. */
  lemma NextOfLoop(L: Loop, sent: seq<Rat>, X: Series)
    requires Proper(L) && Sends(sent, Fix(L)) && Sends(sent, X)
    ensures AgreeBelow(Round(L, X), Fix(L), |sent| + 1)
  {
    hide Round, Fix, PS.IsSeries;
    forall i: nat | i <= |sent| ensures Round(L, X)(i) == Fix(L)(i) {
      assert forall j: nat :: j < i ==> X(j) == sent[j] == Fix(L)(j);
      RoundGuarded(L, X, Fix(L), i);
      FixSolves(L, i);
    }
  }

  /** The looped channel, item by item: each request goes once round the loop, asking the channel only for
      items that it has sent already, and what it sends is the solution of the loop's equation. */
  method Produce(L: Loop, requests: nat) returns (sent: seq<Rat>, asked: seq<nat>)
    requires Proper(L) && StopsAtEnd(Fix(L), requests)
    ensures |sent| == requests && Sends(sent, Fix(L))
    ensures |asked| == requests && forall k :: 0 <= k < requests ==> asked[k] <= k
  {
    hide Round, Fix, Known;
    sent, asked := [], [];
    while |sent| < requests
      invariant |sent| == |asked| <= requests && Sends(sent, Fix(L))
      invariant forall k :: 0 <= k < |asked| ==> asked[k] <= k
    {
      var X := Known(sent, Fix(L));
      KnownSends(sent, Fix(L));
      NextOfLoop(L, sent, X);
      NotEndedYet(L, X, |sent|, requests);
      var items, gotX, gotU := ServeRound(L, X, |sent| + 1);
      sent, asked := sent + [items[|sent|]], asked + [gotX];
    }
  }

  lemma KnownSends(sent: seq<Rat>, Z: Series)
    requires Sends(sent, Z)
    ensures Sends(sent, Known(sent, Z))
  {}

  lemma NotEndedYet(L: Loop, X: Series, n: nat, requests: nat)
    requires Proper(L) && n < requests && StopsAtEnd(Fix(L), requests) && AgreeBelow(Round(L, X), Fix(L), n + 1)
    ensures StopsAtEnd(Round(L, X), n + 1)
  {
    hide Round, Fix;
    if n >= 1 {
      EndStays(Fix(L), n - 1, requests - 2);
      assert Round(L, X)(n - 1) == Fix(L)(n - 1);
    }
  }
}
