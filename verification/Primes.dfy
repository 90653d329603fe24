/** Prime numbers, and the increasing sequence of the primes below a bound. */
module Primes {
  import opened NumberTheory

  ghost predicate IsPrime(n: int) { n >= 2 && forall d :: 2 <= d < n ==> !Divides(d, n) }

  ghost predicate IsComposite(n: int) { n >= 2 && exists d :: 2 <= d < n && Divides(d, n) }

  lemma PrimeOrComposite(n: int)
    requires n >= 2
    ensures IsPrime(n) <==> !IsComposite(n)
  {}

  ghost predicate IsOdd(n: int) { n % 2 == 1 }

  /** The primes below n, in increasing order. */
  ghost function PrimesBelow(n: nat): seq<nat> {
    if n <= 2 then []
    else if IsPrime(n - 1) then PrimesBelow(n - 1) + [n - 1]
    else PrimesBelow(n - 1)
  }

  ghost predicate Increasing(s: seq<nat>) { forall i, j :: 0 <= i < j < |s| ==> s[i] < s[j] }

  lemma {:induction false} PrimesBelowSpec(n: nat)
    ensures forall x: nat :: x in PrimesBelow(n) <==> IsPrime(x) && x < n
    ensures Increasing(PrimesBelow(n))
  {
    hide Divides;
    if n > 2 {
      PrimesBelowSpec(n - 1);
      var s := PrimesBelow(n - 1);
      assert forall i :: 0 <= i < |s| ==> s[i] in s;
    }
  }

  lemma {:induction false} PrimesBelowGrows(m: nat, n: nat)
    requires m <= n
    ensures PrimesBelow(m) <= PrimesBelow(n)
    decreases n
  {
    hide IsPrime;
    if m < n { PrimesBelowGrows(m, n - 1); }
  }

  /** Every number has a least factor, which is prime. */
  lemma {:induction false} LeastFactor(n: int, from: int) returns (r: int)
    requires 2 <= from <= n && forall d :: 2 <= d < from ==> !Divides(d, n)
    ensures from <= r <= n && IsPrime(r) && Divides(r, n)
    ensures forall d :: 2 <= d < r ==> !Divides(d, n)
    decreases n - from
  {
    hide Divides;
    if from == n {
      DividesByWitness(n, n, 1);
    } else if !Divides(from, n) {
      r := LeastFactor(n, from + 1);
      return;
    }
    r := from;
    forall d | 2 <= d < r ensures !Divides(d, r) {
      if Divides(d, r) { DividesTransitive(d, r, n); }
    }
  }

  /** A composite has a prime factor no larger than its square root. */
  lemma SmallPrimeFactor(n: int) returns (r: int, c: int)
    requires IsComposite(n)
    ensures IsPrime(r) && n == r * c && r <= c && r * r <= n
  {
    hide Divides, IsPrime;
    r := LeastFactor(n, 2);
    c := Cofactor(r, n);
    var d :| 2 <= d < n && Divides(d, n);
    LargeCofactor(r, c, n);
    CofactorDivides(r, c, n);
    SquareBound(r, c);
  }

  lemma CofactorDivides(r: int, c: int, n: int)
    requires n == r * c
    ensures Divides(c, n)
  {
    assert r * c == c * r;
    DividesByWitness(c, n, r);
  }

  lemma LargeCofactor(r: int, c: int, n: int)
    requires n == r * c && 2 <= r < n
    ensures c >= 2
  {}

  lemma SquareBound(r: int, c: int)
    requires 1 <= r <= c
    ensures r * r <= r * c
  {}

  lemma PrimeCoprime(r: int, q: int)
    requires IsPrime(r) && !Divides(r, q)
    ensures Coprime(r, q)
  {
    hide Divides;
    forall d | Divides(d, r) && Divides(d, q) ensures d == 1 || d == -1 {
      var k := Cofactor(d, r);
      FactorSize(d, k, r);
      var m := if d < 0 then -d else d;
      DividesMultiple(d, r, 1);
      assert Divides(m, r) by { if d < 0 { NegatedDivisor(d, r); } }
      assert m != r by { if m == r { if d < 0 { NegatedDivisor(d, q); } } }
    }
  }

  lemma NegatedDivisor(d: int, n: int)
    requires Divides(d, n)
    ensures Divides(-d, n)
  {
    var k := Cofactor(d, n);
    DividesByWitness(-d, n, -k) by { assert d * k == -d * -k; }
  }

  lemma FactorSize(d: int, k: int, r: int)
    requires r == d * k && r >= 1
    ensures d != 0 && -r <= d <= r
  {
    MultipleIsLarge(d, k);
  }

  /** A prime that divides the square of a prime is that prime. */
  lemma PrimeDividesSquare(r: int, q: int)
    requires IsPrime(r) && IsPrime(q) && Divides(r, q * q)
    ensures r == q
  {
    hide Divides;
    if !Divides(r, q) {
      PrimeCoprime(r, q);
      EuclidLemma(r, q, q);
    }
    var k := Cofactor(r, q);
    FactorSize(r, k, q);
  }
}
