/** Progress of the prime sieve of testsuit/chan/sieve1.go: under every schedule a report comes after a
    bounded number of steps, because a value that survives all filters cannot be overtaken for long. */
module FilterProgress {
  import opened NumberTheory
  import opened Primes
  import opened FilterSieve

  // ----- Survivors that are easy to name -----

  function Survivor(ps: seq<nat>, i: nat): nat { Product(ps) * i + 1 }

  lemma SurvivorSurvives(s: State, j: nat, i: nat)
    requires Inv(s) && j <= |s.filters| && i >= 1
    ensures Survives(s.filters, j, Survivor(s.primes, i)) && Product(s.primes) >= 1
  {
    hide Divides, PrimesBelow, Product;
    PrimesPositive(s);
    PrimesBelowSpec(After(s.primes));
    ProductPositive(s.primes);
    var p := Product(s.primes);
    AtLeast(p, i);
    DividesByWitness(p, p * i, i);
    forall m | 0 <= m < j ensures !Divides(s.filters[m].prime, p * i + 1) {
      assert s.primes[m] in s.primes;
      DividesProduct(s.primes, m);
      NotDividedBy(s.primes[m], p, p * i + 1);
    }
  }

  lemma AtLeast(p: nat, i: nat)
    requires p >= 1 && i >= 1
    ensures p * i >= 1
  {}

  lemma SurvivorsIncrease(ps: seq<nat>, i: nat)
    requires Product(ps) >= 1
    ensures Survivor(ps, i) < Survivor(ps, i + 1)
  {
    hide Product;
  }

  // ----- How far the generator can run ahead -----

  /** No generated value is beyond this one. */
  function Reach(ps: seq<nat>): nat { Survivor(ps, |ps| + 2) }

  /** If the generator were further, channel j would have carried all but j of the survivors named. */
  lemma {:induction false} BoundsFollow(s: State, j: nat)
    requires Inv(s) && j <= |s.filters| && s.next > Reach(s.primes)
    ensures Bound(s.filters, s.next, j) > Survivor(s.primes, |s.primes| + 2 - j)
    decreases j
  {
    hide Divides, PrimesBelow, Product, Survivor;
    if j > 0 {
      BoundsFollow(s, j - 1);
      var i := |s.primes| + 2 - j;
      SurvivorSurvives(s, j - 1, i + 1);
      SurvivorsIncrease(s.primes, i);
      assert HandOk(s.filters, s.next, j - 1);
    }
  }

  /** With k primes found the generator has offered nothing beyond (k + 2) times their product, plus one. */
  lemma GeneratorBounded(s: State)
    requires Inv(s)
    ensures s.next <= Reach(s.primes)
  {
    hide Divides, PrimesBelow, Product, Survivor, HandOk;
    if s.next > Reach(s.primes) {
      var k := |s.filters|;
      BoundsFollow(s, k);
      SurvivorSurvives(s, k, 1);
      SurvivorSurvives(s, k, 2);
      SurvivorsIncrease(s.primes, 1);
    }
  }

  lemma {:induction false} BoundsBelowNext(s: State, j: nat)
    requires Inv(s) && j <= |s.filters|
    ensures Bound(s.filters, s.next, j) <= s.next
    decreases j
  {
    hide Divides, PrimesBelow;
    if j > 0 {
      BoundsBelowNext(s, j - 1);
      assert HandOk(s.filters, s.next, j - 1);
    }
  }

  // ----- Every pass moves some channel on -----

  /** How far the first j channels have come, taken together. */
  function Total(fs: seq<Filter>, next: nat, j: nat): nat
    requires j <= |fs| + 1
  {
    if j == 0 then 0 else Total(fs, next, j - 1) + Bound(fs, next, j - 1)
  }

  function Progress(s: State): nat { Total(s.filters, s.next, |s.filters| + 1) }

  lemma {:induction false} TotalGrows(fs: seq<Filter>, next: nat, fs': seq<Filter>, next': nat, j: nat, k: nat)
    requires j <= |fs| + 1 && |fs| == |fs'|
    requires forall i :: 0 <= i <= |fs| ==> Bound(fs, next, i) <= Bound(fs', next', i)
    requires k <= |fs| && Bound(fs, next, k) < Bound(fs', next', k)
    ensures Total(fs', next', j) >= Total(fs, next, j) + if k < j then 1 else 0
    decreases j
  {
    hide Bound;
    if j > 0 { TotalGrows(fs, next, fs', next', j - 1, k); }
  }

  lemma {:induction false} TotalBounded(s: State, j: nat)
    requires Inv(s) && j <= |s.filters| + 1
    ensures Total(s.filters, s.next, j) <= j * Reach(s.primes)
    decreases j
  {
    hide Inv, Bound, Reach;
    if j > 0 {
      TotalBounded(s, j - 1);
      BoundsBelowNext(s, j - 1);
      GeneratorBounded(s);
      assert j * Reach(s.primes) == (j - 1) * Reach(s.primes) + Reach(s.primes);
    }
  }

  /** A pass takes one channel on and none back. */
  lemma BoundsRise(s: State, k: nat, j: nat)
    requires Inv(s) && Enabled(s, Pass(k)) && j <= |s.filters|
    requires forall i :: 0 <= i < |s.filters| ==> s.filters[i].prime >= 1
    ensures var s' := Do(s, Pass(k));
            && |s'.filters| == |s.filters|
            && Bound(s.filters, s.next, j) + (if j == k then 1 else 0) <= Bound(s'.filters, s'.next, j)
  {
    hide Divides, PrimesBelow, Survives;
    var s', mid := Do(s, Pass(k)), Taken(s, k);
    TakenMoves(s, k);
    if j <= k {
      BoundFrame(mid.filters, s'.filters, s'.next, j);
      if j < k { BoundFrame(s.filters, mid.filters, s.next, j); }
    } else {
      PassedOn(s, k);
      RaisedFrom(s.filters, s.next, s'.filters, s'.next, k + 1, j);
    }
  }

  lemma PassProgresses(s: State, k: nat)
    requires Inv(s) && Enabled(s, Pass(k))
    requires forall i :: 0 <= i < |s.filters| ==> s.filters[i].prime >= 1
    ensures Progress(Do(s, Pass(k))) > Progress(s) && Do(s, Pass(k)).primes == s.primes
  {
    var s' := Do(s, Pass(k));
    assert s'.primes == s.primes && k <= |s.filters|;
    hide Inv, Bound, Do, Enabled;
    forall j | 0 <= j <= |s.filters|
      ensures Bound(s.filters, s.next, j) + (if j == k then 1 else 0) <= Bound(s'.filters, s'.next, j)
    {
      BoundsRise(s, k, j);
    }
    BoundsRise(s, k, k);
    TotalGrows(s.filters, s.next, s'.filters, s'.next, |s.filters| + 1, k);
  }

  // ----- Whole runs -----

  lemma {:induction false} PassesProgress(steps: seq<Step>, more: seq<Step>)
    requires Run(steps + more).Reached? && forall i :: 0 <= i < |more| ==> more[i].Pass?
    ensures Run(steps).Reached?
    ensures var s, s' := Run(steps).s, Run(steps + more).s;
            s'.primes == s.primes && Progress(s') >= Progress(s) + |more|
    decreases |more|
  {
    if more == [] {
      assert steps + more == steps;
    } else {
      var all, t := steps + more, more[|more| - 1];
      assert all[..|all| - 1] == steps + more[..|more| - 1] && all[|all| - 1] == t;
      PassesProgress(steps, more[..|more| - 1]);
      RunInv(all[..|all| - 1]);
      PassProgresses(Run(all[..|all| - 1]).s, t.k);
    }
  }

  /** With k primes reported, any schedule reports the next one after at most k + 1 times Reach steps:
      a continuation without a report is no longer than that. */
  lemma ReportComes(steps: seq<Step>, more: seq<Step>)
    requires Run(steps + more).Reached? && forall i :: 0 <= i < |more| ==> more[i].Pass?
    ensures Run(steps).Reached?
    ensures var ps := Run(steps).s.primes; |more| <= (|ps| + 1) * Reach(ps)
  {
    hide Reach, Inv, Progress;
    PassesProgress(steps, more);
    RunInv(steps + more);
    var s' := Run(steps + more).s;
    ProgressBounded(s');
  }

  lemma ProgressBounded(s: State)
    requires Inv(s)
    ensures Progress(s) <= (|s.primes| + 1) * Reach(s.primes)
  {
    hide Reach;
    TotalBounded(s, |s.filters| + 1);
  }
}
