/** What the numbers are that testsuit/roottest/235.go generates: products of factors, which for prime factors
    are the numbers with no other prime divisor. */
module SmoothFactors {
  import opened NumberTheory
  import opened Primes
  import opened SmoothNumbers

  // ----- Products of factors -----

  function Prod(s: seq<nat>): nat { if s == [] then 1 else s[0] * Prod(s[1..]) }

  predicate AllFrom(s: seq<nat>, F: seq<nat>) { forall j :: 0 <= j < |s| ==> s[j] in F }

  /** n is the product of some sequence of factors. */
  ghost predicate IsProductOf(F: seq<nat>, n: nat) { exists s: seq<nat> :: AllFrom(s, F) && n == Prod(s) }

  lemma {:induction false} ProductSmooth(F: seq<nat>, s: seq<nat>)
    requires Factors(F) && AllFrom(s, F)
    ensures Prod(s) >= 1 && Smooth(F, Prod(s))
    decreases |s|
  {
    hide Smooth, Times;
    if s == [] {
      OneSmooth(F);
    } else {
      assert AllFrom(s[1..], F) by { assert forall j :: 0 <= j < |s[1..]| ==> s[1..][j] == s[j + 1]; }
      ProductSmooth(F, s[1..]);
      var i :| 0 <= i < |F| && F[i] == s[0];
      SmoothProduct(F, i, Prod(s[1..]));
      TimesIs(s[0], Prod(s[1..]));
    }
  }

  lemma OneSmooth(F: seq<nat>)
    ensures Smooth(F, 1)
  {}

  lemma {:induction false} SmoothHasFactors(F: seq<nat>, n: nat) returns (s: seq<nat>)
    requires Factors(F) && n >= 1 && Smooth(F, n)
    ensures AllFrom(s, F) && n == Prod(s)
    decreases n
  {
    hide Smooth, Times;
    s := [];
    if n > 1 {
      var i, m := SmoothParts(F, n);
      TimesIs(F[i], m);
      var t := SmoothHasFactors(F, m);
      s := [F[i]] + t;
      assert s[1..] == t;
    }
  }

  /** For any list of factors above one, the numbers generated are their products. */
  lemma SmoothIsProduct(F: seq<nat>, n: nat)
    requires Factors(F) && n >= 1
    ensures Smooth(F, n) <==> IsProductOf(F, n)
  {
    hide Smooth, AllFrom, Prod;
    if Smooth(F, n) {
      var s := SmoothHasFactors(F, n);
    }
    if IsProductOf(F, n) {
      var s: seq<nat> :| AllFrom(s, F) && n == Prod(s);
      ProductSmooth(F, s);
    }
  }

  // ----- Prime factors -----

  ghost predicate PrimeFactors(F: seq<nat>) { |F| >= 1 && forall i :: 0 <= i < |F| ==> IsPrime(F[i]) }

  /** Every prime that divides n is one of the factors. */
  ghost predicate OnlyDividedBy(F: seq<nat>, n: nat) { forall p: nat :: IsPrime(p) && Divides(p, n) ==> p in F }

  lemma PrimesAreFactors(F: seq<nat>)
    requires PrimeFactors(F)
    ensures Factors(F)
  {
    hide Divides;
  }

  lemma PrimeDividesPrime(p: nat, q: nat)
    requires IsPrime(p) && IsPrime(q) && Divides(p, q)
    ensures p == q
  {
    hide Divides;
    var k := Cofactor(p, q);
    FactorSize(p, k, q);
  }

  lemma PrimeDividesProduct(p: nat, q: nat, m: nat)
    requires IsPrime(p) && IsPrime(q) && Divides(p, q * m) && p != q
    ensures Divides(p, m)
  {
    hide Divides, IsPrime;
    if Divides(p, q) {
      PrimeDividesPrime(p, q);
    } else {
      PrimeCoprime(p, q);
      EuclidLemma(p, q, m);
    }
  }

  lemma {:induction false} SmoothOnlyDivided(F: seq<nat>, n: nat, p: nat)
    requires PrimeFactors(F) && n >= 1 && Smooth(F, n) && IsPrime(p) && Divides(p, n)
    ensures p in F
    decreases n
  {
    hide Smooth, Times, Divides;
    PrimesAreFactors(F);
    if n == 1 {
      DivisorOfOne(p);
    } else {
      var i, m := SmoothParts(F, n);
      TimesIs(F[i], m);
      if p != F[i] {
        PrimeDividesProduct(p, F[i], m);
        SmoothOnlyDivided(F, m, p);
      }
    }
  }

  lemma {:induction false} OnlyDividedSmooth(F: seq<nat>, n: nat)
    requires PrimeFactors(F) && n >= 1 && OnlyDividedBy(F, n)
    ensures Smooth(F, n)
    decreases n
  {
    hide Smooth, Times, Divides;
    PrimesAreFactors(F);
    if n == 1 {
      OneSmooth(F);
    } else {
      var r := LeastFactor(n, 2);
      var c := Cofactor(r, n);
      SmallerCofactor(r, c, n);
      forall p: nat | IsPrime(p) && Divides(p, c) ensures p in F {
        CofactorDivides(r, c, n);
        DividesTransitive(p, c, n);
      }
      OnlyDividedSmooth(F, c);
      var i :| 0 <= i < |F| && F[i] == r;
      SmoothProduct(F, i, c);
      TimesIs(F[i], c);
    }
  }

  lemma SmallerCofactor(r: int, c: int, n: int)
    requires n == r * c && r >= 2 && n >= 1
    ensures 1 <= c < n
  {
    if c <= 0 { NoPositiveProduct(r, c); }
  }

  lemma NoPositiveProduct(r: int, c: int)
    requires r >= 1 && c <= 0
    ensures r * c <= 0
  {}

  /** For prime factors, the numbers generated are those that no other prime divides. */
  lemma SmoothByPrimes(F: seq<nat>, n: nat)
    requires PrimeFactors(F) && n >= 1
    ensures Smooth(F, n) <==> OnlyDividedBy(F, n)
  {
    hide Smooth, Divides, IsPrime;
    if Smooth(F, n) {
      forall p: nat | IsPrime(p) && Divides(p, n) ensures p in F { SmoothOnlyDivided(F, n, p); }
    }
    if OnlyDividedBy(F, n) { OnlyDividedSmooth(F, n); }
  }

  // ----- The factors of the original -----

  lemma NotMultiple(n: int, d: int, k: int)
    requires 2 <= d < n && (n == 3 || n == 5)
    ensures n != d * k
  {
    if d == 2 {
      assert d * k == 2 * k;
    } else if d == 3 {
      assert d * k == 3 * k;
    } else {
      assert d * k == 4 * k;
    }
  }

  lemma SmallPrimes()
    ensures IsPrime(2) && IsPrime(3) && IsPrime(5)
  {
    hide Divides;
    forall n, d | 2 <= d < n && (n == 3 || n == 5) ensures !Divides(d, n) {
      if Divides(d, n) {
        var k := Cofactor(d, n);
        NotMultiple(n, d, k);
      }
    }
  }

  /** The numbers generated from 2, 3 and 5 are those whose prime divisors are among 2, 3 and 5. */
  lemma SmoothFrom235(n: nat)
    requires n >= 1
    ensures Smooth([2, 3, 5], n) <==> forall p: nat :: IsPrime(p) && Divides(p, n) ==> p == 2 || p == 3 || p == 5
  {
    hide Smooth, Divides, IsPrime;
    SmallPrimes();
    SmoothByPrimes([2, 3, 5], n);
  }

  ghost predicate PrimesAre235(n: nat) {
    forall p: nat :: IsPrime(p) && Divides(p, n) ==> p == 2 || p == 3 || p == 5
  }

  /** What the generator emits for 2, 3 and 5: one, and then in increasing order every number up to the last
      whose prime divisors are among them. */
  lemma Enumerates235(E: seq<nat>)
    requires |E| >= 1
    ensures Enumerates([2, 3, 5], E)
       <==> && E[0] == 1
            && (forall i, j :: 0 <= i < j < |E| ==> E[i] < E[j])
            && (forall n: nat :: 1 <= n <= E[|E| - 1] ==> (n in E <==> PrimesAre235(n)))
  {
    hide Smooth, Divides, IsPrime;
    forall n: nat | n >= 1 ensures Smooth([2, 3, 5], n) <==> PrimesAre235(n) {
      SmoothFrom235(n);
    }
    hide PrimesAre235;
    if E[0] == 1 && (forall i, j :: 0 <= i < j < |E| ==> E[i] < E[j]) {
      forall i | 0 <= i < |E| ensures 1 <= E[i] <= E[|E| - 1] && E[i] in E {}
    }
  }

  function Power(f: nat, k: nat): nat { if k == 0 then 1 else f * Power(f, k - 1) }

  ghost predicate Is235(n: nat) {
    exists a: nat, b: nat, c: nat :: n == Power(2, a) * Power(3, b) * Power(5, c)
  }

  lemma MoreFactors(x: nat, y: nat, z: nat)
    ensures (2 * x) * y * z == 2 * (x * y * z)
    ensures x * (3 * y) * z == 3 * (x * y * z)
    ensures x * y * (5 * z) == 5 * (x * y * z)
  {}

  lemma {:induction false} PowersSmooth(a: nat, b: nat, c: nat)
    ensures var n := Power(2, a) * Power(3, b) * Power(5, c); n >= 1 && Smooth([2, 3, 5], n)
    decreases a + b + c
  {
    hide Smooth, Times;
    var F := [2, 3, 5];
    var x, y, z := Power(2, a), Power(3, b), Power(5, c);
    if a > 0 {
      PowersSmooth(a - 1, b, c);
      OneFactorMore(F, 0, Power(2, a - 1) * y * z);
      MoreFactors(Power(2, a - 1), y, z);
    } else if b > 0 {
      PowersSmooth(a, b - 1, c);
      OneFactorMore(F, 1, x * Power(3, b - 1) * z);
      MoreFactors(x, Power(3, b - 1), z);
    } else if c > 0 {
      PowersSmooth(a, b, c - 1);
      OneFactorMore(F, 2, x * y * Power(5, c - 1));
      MoreFactors(x, y, Power(5, c - 1));
    } else {
      OneSmooth(F);
    }
  }

  lemma OneFactorMore(F: seq<nat>, i: nat, m: nat)
    requires Factors(F) && i < |F| && m >= 1 && Smooth(F, m)
    ensures Smooth(F, F[i] * m) && F[i] * m >= 1
  {
    SmoothProduct(F, i, m);
  }

  /** The numbers generated from 2, 3 and 5 are those of the form 2^a * 3^b * 5^c. */
  lemma {:induction false} SmoothIs235(n: nat)
    requires n >= 1
    ensures Smooth([2, 3, 5], n) <==> Is235(n)
    decreases n
  {
    hide Smooth, Times, Power;
    if Is235(n) {
      var a: nat, b: nat, c: nat :| n == Power(2, a) * Power(3, b) * Power(5, c);
      PowersSmooth(a, b, c);
    }
    if Smooth([2, 3, 5], n) {
      SmoothFormed(n);
    }
  }

  lemma {:induction false} SmoothFormed(n: nat)
    requires n >= 1 && Smooth([2, 3, 5], n)
    ensures Is235(n)
    decreases n
  {
    hide Smooth, Times, Power;
    if n == 1 {
      NoFactors();
    } else {
      var i, m := SmoothParts([2, 3, 5], n);
      TimesIs([2, 3, 5][i], m);
      SmoothFormed(m);
      var a: nat, b: nat, c: nat :| m == Power(2, a) * Power(3, b) * Power(5, c);
      MoreFactors(Power(2, a), Power(3, b), Power(5, c));
      PowerSteps(a, b, c);
      FormedBy(n, if i == 0 then a + 1 else a, if i == 1 then b + 1 else b, if i == 2 then c + 1 else c);
    }
  }

  lemma FormedBy(n: nat, a: nat, b: nat, c: nat)
    requires n == Power(2, a) * Power(3, b) * Power(5, c)
    ensures Is235(n)
  {}

  lemma PowerSteps(a: nat, b: nat, c: nat)
    ensures Power(2, a + 1) == 2 * Power(2, a) && Power(3, b + 1) == 3 * Power(3, b)
    ensures Power(5, c + 1) == 5 * Power(5, c)
  {}

  lemma NoFactors()
    ensures Is235(1)
  {
    assert Power(2, 0) * Power(3, 0) * Power(5, 0) == 1;
  }
}
