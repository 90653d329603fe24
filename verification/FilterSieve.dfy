/** The prime sieve of testsuit/chan/sieve1.go as a state machine: a generator, a growing chain of
    divisibility filters, and a collector at the end of the chain.  Channels have no buffers, so a
    value moves when the process before a channel offers it and the process behind is ready. */
module FilterSieve {
  import opened NumberTheory
  import opened Primes

  datatype Hand = Empty | Holds(v: nat)

  /** A filter has either passed on everything it let through, or holds one value. */
  datatype Filter = Filter(prime: nat, hand: Hand)

  datatype Collector = Reading | Reporting(v: nat)

  /** next is what the generator offers; primes is what has been reported. */
  datatype State = State(next: nat, filters: seq<Filter>, collector: Collector, primes: seq<nat>)

  function Initial(): State { State(2, [], Reading, []) }

  /** Channel k leads from the generator or filter k-1 to filter k or the collector. */
  datatype Step = Pass(k: nat) | Report

  predicate Offered(s: State, k: nat) { k <= |s.filters| && (k > 0 ==> s.filters[k - 1].hand.Holds?) }

  function Offer(s: State, k: nat): nat
    requires Offered(s, k)
  {
    if k == 0 then s.next else s.filters[k - 1].hand.v
  }

  predicate Enabled(s: State, t: Step) {
    match t
    case Pass(k) => Offered(s, k) && if k < |s.filters| then s.filters[k].hand.Empty? else s.collector.Reading?
    case Report => s.collector.Reporting?
  }

  /** The process before channel k has handed its value over. */
  function Taken(s: State, k: nat): State
    requires Offered(s, k)
  {
    if k == 0 then s.(next := s.next + 1)
    else s.(filters := s.filters[k - 1 := s.filters[k - 1].(hand := Empty)])
  }

  function Do(s: State, t: Step): State
    requires Enabled(s, t) && forall i :: 0 <= i < |s.filters| ==> s.filters[i].prime >= 1
  {
    match t
    case Pass(k) =>
      var v, s' := Offer(s, k), Taken(s, k);
      if k == |s.filters| then s'.(collector := Reporting(v))
      else if v % s.filters[k].prime != 0 then s'.(filters := s'.filters[k := s'.filters[k].(hand := Holds(v))])
      else s'
    case Report =>
      var v := s.collector.v;
      State(s.next, s.filters + [Filter(v, Empty)], Reading, s.primes + [v])
  }

  // ----- The invariant -----

  /** n is divisible by none of the first j filter primes. */
  ghost predicate Survives(fs: seq<Filter>, j: nat, n: nat)
    requires j <= |fs|
  {
    n >= 2 && forall i :: 0 <= i < j ==> !Divides(fs[i].prime, n)
  }

  /** Everything below this bound that survives the first j filters has gone down channel j. */
  function Bound(fs: seq<Filter>, next: nat, j: nat): nat
    requires j <= |fs|
  {
    if j == 0 then next
    else match fs[j - 1].hand
         case Holds(v) => v
         case Empty => Bound(fs, next, j - 1)
  }

  /** Filter j's held value survives, and is the last that came down its channel. */
  ghost predicate HandOk(fs: seq<Filter>, next: nat, j: nat)
    requires j < |fs|
  {
    fs[j].hand.Holds? ==>
      && Survives(fs, j + 1, fs[j].hand.v) && fs[j].hand.v < Bound(fs, next, j)
      && forall n :: fs[j].hand.v < n < Bound(fs, next, j) ==> !Survives(fs, j, n)
  }

  /** The filter primes are all the primes up to the last of them. */
  ghost predicate PrimesOk(s: State) {
    && |s.primes| == |s.filters|
    && (forall i :: 0 <= i < |s.filters| ==> s.filters[i].prime == s.primes[i])
    && s.primes == PrimesBelow(After(s.primes))
  }

  function After(primes: seq<nat>): nat { if primes == [] then 2 else primes[|primes| - 1] + 1 }

  /** No survivor has reached the collector but the one it is reporting. */
  ghost predicate TailOk(fs: seq<Filter>, next: nat, c: Collector) {
    && (forall n: nat :: n < Bound(fs, next, |fs|) ==>
          (Survives(fs, |fs|, n) <==> c.Reporting? && n == c.v))
    && (c.Reporting? ==> c.v < Bound(fs, next, |fs|))
  }

  ghost predicate Inv(s: State) {
    && PrimesOk(s) && s.next >= 2
    && (forall j :: 0 <= j < |s.filters| ==> HandOk(s.filters, s.next, j))
    && TailOk(s.filters, s.next, s.collector)
  }

  lemma InitialInv()
    ensures Inv(Initial())
  {}

  // ----- Moving a value -----

  ghost predicate SamePrimes(fs: seq<Filter>, fs': seq<Filter>) {
    |fs| == |fs'| && forall i :: 0 <= i < |fs| ==> fs[i].prime == fs'[i].prime
  }

  lemma SurvivesFrame(fs: seq<Filter>, fs': seq<Filter>, j: nat, n: nat)
    requires SamePrimes(fs, fs') && j <= |fs|
    ensures Survives(fs, j, n) <==> Survives(fs', j, n)
  {}

  lemma SurvivesLess(fs: seq<Filter>, i: nat, j: nat, n: nat)
    requires i <= j <= |fs| && Survives(fs, j, n)
    ensures Survives(fs, i, n)
  {}

  lemma {:induction false} BoundFrame(fs: seq<Filter>, fs': seq<Filter>, next: nat, j: nat)
    requires |fs| == |fs'| && j <= |fs| && forall i :: 0 <= i < j ==> fs[i].hand == fs'[i].hand
    ensures Bound(fs, next, j) == Bound(fs', next, j)
    decreases j
  {
    if j > 0 { BoundFrame(fs, fs', next, j - 1); }
  }

  /** What is true of channel k when value v moves down it: v is the next survivor there, and the new
      bound is beyond v with no survivor in between. */
  ghost predicate Moves(fs: seq<Filter>, next: nat, fs': seq<Filter>, next': nat, k: nat, v: nat)
    requires k <= |fs| && |fs| == |fs'|
  {
    && SamePrimes(fs, fs') && Bound(fs, next, k) == v && Survives(fs, k, v)
    && v < Bound(fs', next', k)
    && (forall n: nat :: v < n < Bound(fs', next', k) ==> !Survives(fs, k, n))
  }

  lemma TakenMoves(s: State, k: nat)
    requires Inv(s) && Offered(s, k)
    ensures var s' := Taken(s, k);
            Moves(s.filters, s.next, s'.filters, s'.next, k, Offer(s, k)) && s'.next >= 2
    ensures forall j :: 0 <= j < k ==> HandOk(Taken(s, k).filters, Taken(s, k).next, j)
  {
    hide Divides;
    var s', v := Taken(s, k), Offer(s, k);
    var fs, fs' := s.filters, s'.filters;
    if k > 0 {
      assert HandOk(fs, s.next, k - 1);
      BoundFrame(fs, fs', s.next, k - 1);
      forall n: nat | v < n < Bound(fs', s'.next, k) ensures !Survives(fs, k, n) {
        if Survives(fs, k, n) { SurvivesLess(fs, k - 1, k, n); }
      }
      forall j | 0 <= j < k ensures HandOk(fs', s'.next, j) {
        if j < k - 1 { HandFrame(fs, fs', s.next, j); }
      }
    }
  }

  lemma HandFrame(fs: seq<Filter>, fs': seq<Filter>, next: nat, j: nat)
    requires SamePrimes(fs, fs') && j < |fs| && HandOk(fs, next, j)
    requires forall i :: 0 <= i <= j ==> fs[i].hand == fs'[i].hand
    ensures HandOk(fs', next, j)
  {
    BoundFrame(fs, fs', next, j);
    if fs'[j].hand.Holds? {
      SurvivesFrame(fs, fs', j + 1, fs'[j].hand.v);
      forall n | fs'[j].hand.v < n < Bound(fs', next, j) ensures !Survives(fs', j, n) {
        SurvivesFrame(fs, fs', j, n);
      }
    }
  }

  /** Behind a channel whose bound has moved past v, bounds only grow, and over no survivor. */
  ghost predicate Raised(fs: seq<Filter>, next: nat, fs': seq<Filter>, next': nat, j: nat)
    requires j <= |fs| && |fs| == |fs'|
  {
    && Bound(fs, next, j) <= Bound(fs', next', j)
    && (forall n: nat :: Bound(fs, next, j) <= n < Bound(fs', next', j) ==> !Survives(fs, j, n))
  }

  lemma {:induction false} RaisedFrom(fs: seq<Filter>, next: nat, fs': seq<Filter>, next': nat, k: nat, j: nat)
    requires k <= j <= |fs| && SamePrimes(fs, fs')
    requires Raised(fs, next, fs', next', k)
    requires forall i :: k <= i < |fs| ==> fs[i].hand == fs'[i].hand
    ensures Raised(fs, next, fs', next', j)
    decreases j
  {
    if k < j {
      RaisedFrom(fs, next, fs', next', k, j - 1);
      forall n: nat | Bound(fs, next, j) <= n < Bound(fs', next', j) ensures !Survives(fs, j, n) {
        if Survives(fs, j, n) { SurvivesLess(fs, j - 1, j, n); }
      }
    }
  }

  lemma RaisedHand(fs: seq<Filter>, next: nat, fs': seq<Filter>, next': nat, j: nat)
    requires j < |fs| && SamePrimes(fs, fs') && HandOk(fs, next, j) && fs[j].hand == fs'[j].hand
    requires Raised(fs, next, fs', next', j)
    ensures HandOk(fs', next', j)
  {
    if fs'[j].hand.Holds? {
      SurvivesFrame(fs, fs', j + 1, fs'[j].hand.v);
      forall n | fs'[j].hand.v < n < Bound(fs', next', j) ensures !Survives(fs', j, n) {
        SurvivesFrame(fs, fs', j, n);
      }
    }
  }

  lemma RaisedTail(fs: seq<Filter>, next: nat, fs': seq<Filter>, next': nat, c: Collector)
    requires SamePrimes(fs, fs') && TailOk(fs, next, c) && Raised(fs, next, fs', next', |fs|)
    ensures TailOk(fs', next', c)
  {
    forall n: nat | n < Bound(fs', next', |fs|) ensures Survives(fs', |fs|, n) <==> c.Reporting? && n == c.v {
      SurvivesFrame(fs, fs', |fs|, n);
    }
  }

  lemma ModDivides(p: nat, n: nat)
    requires p >= 1
    ensures n % p == 0 <==> Divides(p, n)
  {
    if n % p == 0 { DividesByWitness(p, n, n / p); }
    if Divides(p, n) {
      var k := Cofactor(p, n);
      Remainderless(p, k);
    }
  }

  lemma Remainderless(p: int, k: int)
    requires p >= 1
    ensures (p * k) % p == 0
  {
    var q, r := (p * k) / p, (p * k) % p;
    assert p * k == p * q + r;
    assert p * (k - q) == p * k - p * q;
    if k - q != 0 { MultipleIsLarge(p, k - q); }
  }

  /** Filter k lets v through or drops it; either way channel k+1 sees what it should. */
  lemma FilterKeeps(s: State, k: nat)
    requires Inv(s) && Enabled(s, Pass(k)) && k < |s.filters| && s.filters[k].prime >= 1
    requires forall i :: 0 <= i < |s.filters| ==> s.filters[i].prime >= 1
    ensures Inv(Do(s, Pass(k)))
  {
    hide Divides, PrimesBelow;
    var s', v := Do(s, Pass(k)), Offer(s, k);
    var fs, fs', mid := s.filters, s'.filters, Taken(s, k);
    TakenMoves(s, k);
    ModDivides(fs[k].prime, v);
    BoundFrame(mid.filters, fs', s'.next, k);
    assert Raised(fs, s.next, fs', s'.next, k + 1) by { PassedOn(s, k); }
    forall j | 0 <= j < |fs'| ensures HandOk(fs', s'.next, j) {
      if j < k {
        HandFrame(mid.filters, fs', s'.next, j);
      } else if j > k {
        RaisedFrom(fs, s.next, fs', s'.next, k + 1, j);
        RaisedHand(fs, s.next, fs', s'.next, j);
      } else {
        PassedHand(s, k);
      }
    }
    RaisedFrom(fs, s.next, fs', s'.next, k + 1, |fs|);
    RaisedTail(fs, s.next, fs', s'.next, s.collector);
  }

  lemma PassedOn(s: State, k: nat)
    requires Inv(s) && Enabled(s, Pass(k)) && k < |s.filters|
    requires forall i :: 0 <= i < |s.filters| ==> s.filters[i].prime >= 1
    ensures SamePrimes(s.filters, Do(s, Pass(k)).filters)
    ensures Raised(s.filters, s.next, Do(s, Pass(k)).filters, Do(s, Pass(k)).next, k + 1)
  {
    hide Divides, PrimesBelow;
    var s', v, mid := Do(s, Pass(k)), Offer(s, k), Taken(s, k);
    TakenMoves(s, k);
    ModDivides(s.filters[k].prime, v);
    BoundFrame(mid.filters, s'.filters, s'.next, k);
    var j := k + 1;
    forall n: nat | Bound(s.filters, s.next, j) <= n < Bound(s'.filters, s'.next, j)
      ensures !Survives(s.filters, j, n)
    {
      if n > v && Survives(s.filters, j, n) { SurvivesLess(s.filters, k, j, n); }
    }
  }

  lemma PassedHand(s: State, k: nat)
    requires Inv(s) && Enabled(s, Pass(k)) && k < |s.filters|
    requires forall i :: 0 <= i < |s.filters| ==> s.filters[i].prime >= 1
    ensures HandOk(Do(s, Pass(k)).filters, Do(s, Pass(k)).next, k)
  {
    hide Divides, PrimesBelow;
    var s', v, mid := Do(s, Pass(k)), Offer(s, k), Taken(s, k);
    var fs, fs' := s.filters, s'.filters;
    TakenMoves(s, k);
    ModDivides(fs[k].prime, v);
    BoundFrame(mid.filters, fs', s'.next, k);
    if fs'[k].hand.Holds? {
      SurvivesFrame(fs, fs', k + 1, v);
      forall n: nat | v < n < Bound(fs', s'.next, k) ensures !Survives(fs', k, n) {
        SurvivesFrame(fs, fs', k, n);
      }
    }
  }

  /** The collector takes the first survivor. */
  lemma CollectKeeps(s: State)
    requires Inv(s) && Enabled(s, Pass(|s.filters|))
    requires forall i :: 0 <= i < |s.filters| ==> s.filters[i].prime >= 1
    ensures Inv(Do(s, Pass(|s.filters|)))
  {
    hide Divides, PrimesBelow;
    var m := |s.filters|;
    var s', v := Do(s, Pass(m)), Offer(s, m);
    TakenMoves(s, m);
    forall n: nat | n < Bound(s'.filters, s'.next, m) ensures Survives(s'.filters, m, n) <==> n == v {
      SurvivesFrame(s.filters, s'.filters, m, n);
    }
  }

  /** The first survivor of all primes found so far is the next prime. */
  lemma FirstSurvivorIsPrime(s: State)
    requires Inv(s) && s.collector.Reporting?
    ensures IsPrime(s.collector.v) && s.primes + [s.collector.v] == PrimesBelow(s.collector.v + 1)
  {
    hide Divides, PrimesBelow;
    var v, fs, m := s.collector.v, s.filters, |s.filters|;
    assert Survives(fs, m, v);
    PrimesBelowSpec(After(s.primes));
    forall d | 2 <= d < v ensures !Divides(d, v) {
      if Divides(d, v) { NoSmallDivisor(s, d); }
    }
    assert After(s.primes) <= v by { AfterIsSmall(s); }
    SkipToPrime(s, After(s.primes));
    assert IsPrime(v);
    LastStep(v);
  }

  lemma LastStep(v: nat)
    requires v >= 2 && IsPrime(v)
    ensures PrimesBelow(v + 1) == PrimesBelow(v) + [v]
  {}

  lemma NoSmallDivisor(s: State, d: nat)
    requires Inv(s) && s.collector.Reporting? && 2 <= d < s.collector.v
    ensures !Divides(d, s.collector.v)
  {
    hide Divides, PrimesBelow;
    var fs, m, v := s.filters, |s.filters|, s.collector.v;
    assert Survives(fs, m, v) && !Survives(fs, m, d);
    var i :| 0 <= i < m && Divides(fs[i].prime, d);
    if Divides(d, v) { DividesTransitive(fs[i].prime, d, v); }
  }

  lemma AfterIsSmall(s: State)
    requires Inv(s) && s.collector.Reporting?
    ensures After(s.primes) <= s.collector.v
  {
    hide Divides, PrimesBelow;
    var fs, m, v := s.filters, |s.filters|, s.collector.v;
    assert Survives(fs, m, v);
    if m > 0 {
      var p := s.primes[m - 1];
      PrimesBelowSpec(After(s.primes));
      assert p in s.primes && IsPrime(p);
      assert p != v by { DividesByWitness(p, p, 1); assert !Divides(fs[m - 1].prime, v); }
      if v < p { PrimeSurvives(s, p); }
    }
  }

  /** The newest prime survived the filters before it, so the first survivor is beyond it. */
  lemma PrimeSurvives(s: State, p: nat)
    requires Inv(s) && s.collector.Reporting? && |s.primes| > 0 && p == s.primes[|s.primes| - 1]
    ensures s.collector.v >= p
  {
    hide Divides, PrimesBelow;
    var fs, m, v := s.filters, |s.filters|, s.collector.v;
    assert Survives(fs, m, v);
    PrimesBelowSpec(After(s.primes));
    if v < p {
      var r := LeastFactor(v, 2);
    }
  }

  /** There is no prime between the last one found and the first survivor. */
  lemma {:induction false} SkipToPrime(s: State, n: nat)
    requires Inv(s) && s.collector.Reporting? && After(s.primes) <= n <= s.collector.v
    ensures PrimesBelow(s.collector.v) == PrimesBelow(n)
    decreases s.collector.v - n
  {
    hide Divides;
    var fs, m, v := s.filters, |s.filters|, s.collector.v;
    if n < v {
      SkipToPrime(s, n + 1);
      PrimesBelowSpec(After(s.primes));
      assert Survives(fs, m, v) && !Survives(fs, m, n);
      var i :| 0 <= i < m && Divides(fs[i].prime, n);
      assert s.primes[i] in s.primes;
      assert !IsPrime(n);
    }
  }

  lemma ReportKeeps(s: State)
    requires Inv(s) && Enabled(s, Report)
    requires forall i :: 0 <= i < |s.filters| ==> s.filters[i].prime >= 1
    ensures Inv(Do(s, Report))
  {
    hide Divides, PrimesBelow;
    FirstSurvivorIsPrime(s);
    var s', v := Do(s, Report), s.collector.v;
    var fs, fs', m := s.filters, s'.filters, |s.filters|;
    forall j | 0 <= j < |fs'| ensures HandOk(fs', s'.next, j) {
      if j < m { HandPrefix(fs, fs', s.next, j); }
    }
    BoundPrefix(fs, fs', s.next, m);
    DividesByWitness(v, v, 1);
    forall n: nat | n < Bound(fs', s'.next, |fs'|) ensures !Survives(fs', |fs'|, n) {
      SurvivesPrefix(fs, fs', m, n);
      if n == v { assert Divides(fs'[m].prime, n); }
      if Survives(fs', |fs'|, n) { SurvivesLess(fs', m, |fs'|, n); }
    }
  }

  lemma SurvivesPrefix(fs: seq<Filter>, fs': seq<Filter>, j: nat, n: nat)
    requires fs <= fs' && j <= |fs|
    ensures Survives(fs', j, n) <==> Survives(fs, j, n)
  {
    assert forall i :: 0 <= i < j ==> fs'[i] == fs[i];
  }

  lemma HandPrefix(fs: seq<Filter>, fs': seq<Filter>, next: nat, j: nat)
    requires fs <= fs' && j < |fs| && HandOk(fs, next, j)
    ensures HandOk(fs', next, j)
  {
    BoundPrefix(fs, fs', next, j);
    if fs[j].hand.Holds? {
      SurvivesPrefix(fs, fs', j + 1, fs[j].hand.v);
      forall n | fs[j].hand.v < n < Bound(fs', next, j) ensures !Survives(fs', j, n) {
        SurvivesPrefix(fs, fs', j, n);
      }
    }
  }

  lemma {:induction false} BoundPrefix(fs: seq<Filter>, fs': seq<Filter>, next: nat, j: nat)
    requires fs <= fs' && j <= |fs|
    ensures Bound(fs', next, j) == Bound(fs, next, j)
    decreases j
  {
    if j > 0 { BoundPrefix(fs, fs', next, j - 1); }
  }

  lemma PrimesPositive(s: State)
    requires PrimesOk(s)
    ensures forall i :: 0 <= i < |s.filters| ==> s.filters[i].prime >= 1
  {
    hide Divides, PrimesBelow;
    PrimesBelowSpec(After(s.primes));
    assert forall i :: 0 <= i < |s.primes| ==> s.primes[i] in s.primes;
  }

  lemma StepKeeps(s: State, t: Step)
    requires Inv(s) && Enabled(s, t)
    ensures forall i :: 0 <= i < |s.filters| ==> s.filters[i].prime >= 1
    ensures Inv(Do(s, t))
  {
    PrimesPositive(s);
    hide Inv, Do;
    match t
    case Pass(k) => if k < |s.filters| { FilterKeeps(s, k); } else { CollectKeeps(s); }
    case Report => ReportKeeps(s);
  }

  // ----- Whole runs -----

  datatype Outcome = Stuck | Reached(s: State)

  function Run(steps: seq<Step>): Outcome {
    if steps == [] then Reached(Initial())
    else
      match Run(steps[..|steps| - 1])
      case Stuck => Stuck
      case Reached(s) =>
        var t := steps[|steps| - 1];
        if Enabled(s, t) && (forall i :: 0 <= i < |s.filters| ==> s.filters[i].prime >= 1)
        then Reached(Do(s, t)) else Stuck
  }

  lemma {:induction false} RunInv(steps: seq<Step>)
    ensures Run(steps).Reached? ==> Inv(Run(steps).s)
  {
    hide Inv, Do, Enabled;
    if steps == [] {
      InitialInv();
    } else {
      RunInv(steps[..|steps| - 1]);
      var r, t := Run(steps[..|steps| - 1]), steps[|steps| - 1];
      if r.Reached? && Enabled(r.s, t) { StepKeeps(r.s, t); }
    }
  }

  /** In every run the reported values are the primes, in order and without a gap. */
  lemma ReportsPrimes(steps: seq<Step>)
    requires Run(steps).Reached?
    ensures var s := Run(steps).s; s.primes == PrimesBelow(After(s.primes))
  {
    RunInv(steps);
  }

  /** In every reachable state some value can move. */
  lemma NeverStuck(steps: seq<Step>) returns (t: Step)
    requires Run(steps).Reached?
    ensures Run(steps + [t]).Reached?
  {
    hide Inv, Do;
    RunInv(steps);
    var s := Run(steps).s;
    t := SomeStep(s);
    StepKeeps(s, t);
    assert (steps + [t])[..|steps|] == steps;
  }

  lemma SomeStep(s: State) returns (t: Step)
    ensures Enabled(s, t)
  {
    if s.collector.Reporting? {
      t := Report;
    } else {
      var k := |s.filters|;
      while k > 0 && s.filters[k - 1].hand.Empty?
        invariant 0 <= k <= |s.filters|
        invariant forall i :: k <= i < |s.filters| ==> s.filters[i].hand.Empty?
      {
        k := k - 1;
      }
      t := Pass(k);
    }
  }

  // ----- A next survivor always exists -----

  function Product(ps: seq<nat>): nat { if ps == [] then 1 else Product(ps[..|ps| - 1]) * ps[|ps| - 1] }

  lemma {:induction false} DividesProduct(ps: seq<nat>, i: nat)
    requires i < |ps|
    ensures Divides(ps[i], Product(ps))
  {
    hide Divides;
    var n := |ps| - 1;
    if i == n {
      DividesByWitness(ps[n], ps[n], 1);
      DividesMultiple(ps[n], ps[n], Product(ps[..n]));
    } else {
      DividesProduct(ps[..n], i);
      DividesMultiple(ps[i], Product(ps[..n]), ps[n]);
    }
  }

  lemma {:induction false} ProductPositive(ps: seq<nat>)
    requires forall i :: 0 <= i < |ps| ==> ps[i] >= 1
    ensures Product(ps) >= 1
  {
    if ps != [] {
      ProductPositive(ps[..|ps| - 1]);
      PositiveProduct(Product(ps[..|ps| - 1]), ps[|ps| - 1]);
    }
  }

  lemma PositiveProduct(a: nat, b: nat)
    requires a >= 1 && b >= 1
    ensures a * b >= 1
  {}

  /** Beyond any bound there is a number that no prime found so far divides. */
  lemma SurvivorExists(steps: seq<Step>, bound: nat) returns (n: nat)
    requires Run(steps).Reached?
    ensures n > bound && Survives(Run(steps).s.filters, |Run(steps).s.filters|, n)
  {
    hide Divides, PrimesBelow, Product;
    RunInv(steps);
    var s := Run(steps).s;
    PrimesPositive(s);
    PrimesBelowSpec(After(s.primes));
    ProductPositive(s.primes);
    n := AboveBound(Product(s.primes), bound);
    forall i | 0 <= i < |s.filters| ensures !Divides(s.filters[i].prime, n) {
      assert s.primes[i] in s.primes;
      DividesProduct(s.primes, i);
      NotDividedBy(s.primes[i], Product(s.primes), n);
    }
  }

  /** One more than a multiple of p. */
  lemma AboveBound(p: int, bound: nat) returns (n: nat)
    requires p >= 1
    ensures n > bound && n >= 2 && Divides(p, n - 1)
  {
    var b := bound + 1;
    assert p * b >= b;
    n := p * b + 1;
    DividesByWitness(p, p * b, b);
  }

  lemma NotDividedBy(q: int, p: int, n: int)
    requires q >= 2 && Divides(q, p) && Divides(p, n - 1)
    ensures !Divides(q, n)
  {
    hide Divides;
    DividesTransitive(q, p, n - 1);
    if Divides(q, n) {
      DividesLinear(q, n, 1, n - 1, -1);
      DivisorOfOne(q);
    }
  }
}
