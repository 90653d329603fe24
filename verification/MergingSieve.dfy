/** The Eratosthenes sieve of testsuit/chan/sieve2.go as a state machine: one process merges the
    multiples of the primes found so far into a stream of composites, the other sifts the odd
    numbers with that stream and feeds the primes it finds back.  Channels are unbounded here, so
    every behaviour of the buffered channels is included. */
module MergingSieve {
  import opened NumberTheory
  import opened Primes

  /** The k-th value on the channel of odd multiples of r. */
  function Multiple(r: nat, k: nat): nat { if k == 0 then r * r else Multiple(r, k - 1) + 2 * r }

  datatype Merger = Taking | Merging(q: nat)

  datatype Sifter = Idle | Comparing(c: nat) | Reporting(c: nat) | Fetching(c: nat)

  /** fed, out and composites are all the values ever sent on the channels; taken and consumed say
      how many of fed and composites have been received.  The heap maps a prime to the position of
      its head on its channel of multiples. */
  datatype State = State(
    fed: seq<nat>, out: seq<nat>, composites: seq<nat>,
    merger: Merger, taken: nat, heap: map<nat, nat>, min: nat,
    sifter: Sifter, consumed: nat, p: nat)

  function Initial(): State { State([3], [2, 3], [], Taking, 0, map[], 15, Idle, 0, 5) }

  /** r is an entry of the heap that Pop may return. */
  ghost predicate IsLeast(heap: map<nat, nat>, r: nat) {
    r in heap && forall x :: x in heap ==> Multiple(r, heap[r]) <= Multiple(x, heap[x])
  }

  datatype Step =
    | TakePrime
    | SendMin(r: nat)      // composites <- min, then pop r and advance it
    | SkipMin(r: nat)      // the min == head loop
    | SendHead
    | TakeComposite
    | SendPrime
    | SendOut
    | Fetch
    | Discard              // p == c, or p > c

  ghost predicate Enabled(s: State, t: Step) {
    match t
    case TakePrime => s.merger.Taking? && s.taken < |s.fed|
    case SendMin(r) => s.merger.Merging? && s.min < s.merger.q * s.merger.q && IsLeast(s.heap, r)
    case SkipMin(r) => s.merger.Merging? && s.min == s.merger.q * s.merger.q && IsLeast(s.heap, r)
    case SendHead => s.merger.Merging? && s.min > s.merger.q * s.merger.q
    case TakeComposite => s.sifter.Idle? && s.consumed < |s.composites|
    case SendPrime => s.sifter.Comparing? && s.p < s.sifter.c
    case SendOut => s.sifter.Reporting?
    case Fetch => s.sifter.Fetching?
    case Discard => s.sifter.Comparing? && s.p >= s.sifter.c
  }

  function Popped(s: State, r: nat): State
    requires r in s.heap
  {
    s.(min := Multiple(r, s.heap[r]), heap := s.heap[r := s.heap[r] + 1])
  }

  ghost function Do(s: State, t: Step): State
    requires Enabled(s, t)
  {
    match t
    case TakePrime => s.(merger := Merging(s.fed[s.taken]), taken := s.taken + 1)
    case SendMin(r) => Popped(s, r).(composites := s.composites + [s.min])
    case SkipMin(r) => Popped(s, r)
    case SendHead =>
      var q := s.merger.q;
      s.(composites := s.composites + [q * q], heap := s.heap[q := 1], merger := Taking)
    case TakeComposite => s.(sifter := Comparing(s.composites[s.consumed]), consumed := s.consumed + 1)
    case SendPrime => s.(fed := s.fed + [s.p], sifter := Reporting(s.sifter.c))
    case SendOut => s.(out := s.out + [s.p], sifter := Fetching(s.sifter.c))
    case Fetch => s.(p := s.p + 2, sifter := Comparing(s.sifter.c))
    case Discard => s.(p := if s.p == s.sifter.c then s.p + 2 else s.p, sifter := Idle)
  }

  // ----- Arithmetic of the channels of multiples -----

  lemma {:induction false} MultipleMonotone(r: nat, j: nat, k: nat)
    requires r >= 1 && j < k
    ensures Multiple(r, j) < Multiple(r, k)
  {
    if j < k - 1 { MultipleMonotone(r, j, k - 1); }
  }

  ghost predicate OddComposite(n: int) { IsOdd(n) && IsComposite(n) }

  lemma {:induction false} MultipleFactors(r: nat, k: nat)
    ensures Multiple(r, k) == r * (r + 2 * k)
  {
    if k > 0 {
      MultipleFactors(r, k - 1);
      var c := r + 2 * (k - 1);
      assert r * (c + 2) == r * c + 2 * r;
    }
  }

  lemma OddForm(n: int, h: int)
    ensures n == 2 * h + 1 ==> IsOdd(n)
    ensures n == 2 * h ==> !IsOdd(n)
  {}

  lemma OddTimesOdd(i: int, j: int)
    ensures IsOdd((2 * i + 1) * (2 * j + 1))
  {
    hide IsOdd;
    var t := i * j;
    assert (2 * i + 1) * (2 * j + 1) == 4 * t + 2 * i + 2 * j + 1;
    OddForm((2 * i + 1) * (2 * j + 1), 2 * t + i + j);
  }

  lemma EvenTimes(i: int, b: int)
    ensures !IsOdd((2 * i) * b)
  {
    hide IsOdd;
    assert (2 * i) * b == 2 * (i * b);
    OddForm((2 * i) * b, i * b);
  }

  lemma OddProduct(a: int, b: int)
    ensures IsOdd(a * b) <==> IsOdd(a) && IsOdd(b)
  {
    var i, j := a / 2, b / 2;
    if !IsOdd(a) {
      assert a == 2 * i;
      EvenTimes(i, b);
    } else if !IsOdd(b) {
      assert b == 2 * j && a * b == b * a;
      EvenTimes(j, a);
    } else {
      assert a == 2 * i + 1 && b == 2 * j + 1;
      OddTimesOdd(i, j);
    }
  }

  lemma MultipleIsOddComposite(r: nat, k: nat)
    requires r >= 3 && IsOdd(r)
    ensures OddComposite(Multiple(r, k)) && Divides(r, Multiple(r, k))
  {
    hide Divides, Multiple, IsOdd;
    var c := r + 2 * k;
    MultipleFactors(r, k);
    assert IsOdd(c) by { OddPlusEven(r, k); }
    OddProduct(r, c);
    DividesByWitness(r, Multiple(r, k), c);
    ProductExceeds(r, c);
  }

  lemma OddPlusEven(r: int, k: int)
    requires IsOdd(r)
    ensures IsOdd(r + 2 * k)
  {}

  lemma ProductExceeds(r: int, c: int)
    requires r >= 3 && c >= 3
    ensures r < r * c
  {}

  /** An odd composite is on the channel of some odd prime whose square is not above it. */
  lemma OnSomeChannel(x: nat) returns (r: nat, k: nat)
    requires OddComposite(x)
    ensures IsPrime(r) && r >= 3 && IsOdd(r) && r * r <= x && x == Multiple(r, k)
  {
    hide Divides, Multiple, IsOdd;
    var r', c := SmallPrimeFactor(x);
    r := r';
    OddProduct(r, c);
    k := OddDifference(r, c);
    MultipleFactors(r, k);
    assert r != 2 by { assert !IsOdd(2) by { OddForm(2, 1); } }
  }

  lemma OddDifference(r: int, c: int) returns (k: nat)
    requires IsOdd(r) && IsOdd(c) && r <= c
    ensures c == r + 2 * k
  {
    k := (c - r) / 2;
  }

  lemma SquareOrder(a: nat, b: nat)
    ensures a < b <==> a * a < b * b
  {
    if a < b { assert a * a <= a * b && a * b < b * b; }
    if a >= b { assert a * a >= a * b && a * b >= b * b; }
  }

  /** A multiple of three lies within six above any square. */
  lemma ThreeIsNear(q: nat) returns (k: nat)
    requires q >= 3
    ensures q * q < Multiple(3, k) <= q * q + 6
  {
    assert q * q >= 9;
    k := (q * q - 9) / 6 + 1;
    MultipleFactors(3, k);
  }

  // ----- The invariant -----

  /** The feedback channel and the output carry exactly the primes passed by the candidate p. */
  ghost predicate FeedInv(s: State) {
    && IsOdd(s.p) && s.p >= 5
    && [2] + s.fed == PrimesBelow(Limit(s))
    && s.out == PrimesBelow(if s.sifter.Fetching? then s.p + 1 else s.p)
  }

  /** The sifter has passed every composite it has consumed. */
  ghost predicate SiftInv(s: State) {
    && s.consumed <= |s.composites|
    && (s.sifter.Idle? ==> forall i :: 0 <= i < s.consumed ==> s.composites[i] < s.p)
    && (!s.sifter.Idle? ==>
          && s.consumed >= 1 && s.sifter.c == s.composites[s.consumed - 1]
          && forall i :: 0 <= i < s.consumed - 1 ==> s.composites[i] < s.p)
    && (s.sifter.Reporting? || s.sifter.Fetching? ==> s.p < s.sifter.c)
    && (s.sifter.Reporting? ==> IsPrime(s.p))
  }

  /** Number of primes whose multiples are in the heap. */
  function Merged(s: State): int { if s.merger.Merging? then s.taken - 1 else s.taken }

  ghost predicate TakenInv(s: State) {
    && 0 <= Merged(s) && s.taken <= |s.fed|
    && (s.merger.Merging? ==> s.merger.q == s.fed[s.taken - 1])
    && (forall r :: r in s.heap <==> r in s.fed[..Merged(s)])
  }

  /** The pending minimum is at or below every head, and what lies before the heads has been sent. */
  ghost predicate HeapInv(s: State) {
    && (forall r :: r in s.heap ==> s.heap[r] >= 1 && s.min <= Multiple(r, s.heap[r]))
    && (forall r, k: nat :: r in s.heap && k < s.heap[r] ==>
          Multiple(r, k) == s.min || Multiple(r, k) in s.composites)
    && OddComposite(s.min)
    && (s.heap == map[] ==> s.min == 15)
    && (s.heap != map[] ==> exists r :: r in s.heap && Divides(r, s.min))
  }

  /** The composites come in order, and none is left out. */
  ghost predicate Exhaustive(c: seq<nat>) {
    && (forall i, j :: 0 <= i < j < |c| ==> c[i] <= c[j])
    && (forall i :: 0 <= i < |c| ==> OddComposite(c[i]))
    && (forall i, x: nat :: 0 <= i < |c| && OddComposite(x) && x < c[i] ==> x in c[..i])
  }

  ghost predicate SentInv(s: State) {
    && Exhaustive(s.composites)
    && (forall i :: 0 <= i < |s.composites| ==> s.composites[i] <= s.min)
    && (s.taken == 0 ==> s.composites == [])
    && (0 < s.taken <= |s.fed| ==>
          forall i :: 0 <= i < |s.composites| ==>
            && s.composites[i] <= s.fed[s.taken - 1] * s.fed[s.taken - 1]
            && (s.merger.Merging? ==> s.composites[i] < s.fed[s.taken - 1] * s.fed[s.taken - 1]))
  }

  ghost predicate Inv(s: State) { FeedInv(s) && SiftInv(s) && TakenInv(s) && HeapInv(s) && SentInv(s) }

  // ----- What the feedback channel carries -----

  function Limit(s: State): nat { if s.sifter.Reporting? || s.sifter.Fetching? then s.p + 1 else s.p }

  lemma FedPrime(s: State, i: nat)
    requires FeedInv(s) && i < |s.fed|
    ensures IsPrime(s.fed[i]) && IsOdd(s.fed[i]) && s.fed[i] >= 3
  {
    hide IsPrime, PrimesBelow, IsOdd;
    var all := PrimesBelow(Limit(s));
    PrimesBelowSpec(Limit(s));
    assert all[i + 1] == s.fed[i] && all[0] == 2 && all[i + 1] in all;
    OddPrime(s.fed[i]);
  }

  lemma FedIncreases(s: State)
    requires FeedInv(s)
    ensures |s.fed| >= 1 && s.fed[0] == 3 && Increasing(s.fed)
  {
    hide IsPrime, PrimesBelow, IsOdd;
    var all := PrimesBelow(Limit(s));
    PrimesBelowSpec(Limit(s));
    FirstPrimes(Limit(s));
    assert all[1] == s.fed[0];
    forall i, j | 0 <= i < j < |s.fed| ensures s.fed[i] < s.fed[j] {
      assert all[i + 1] == s.fed[i] && all[j + 1] == s.fed[j];
    }
  }

  /** Every odd prime below a prime on the feedback channel came before it. */
  lemma FedComplete(s: State, t: nat, r: nat)
    requires FeedInv(s) && t < |s.fed| && IsPrime(r) && 3 <= r < s.fed[t]
    ensures r in s.fed[..t]
  {
    hide IsPrime, PrimesBelow, IsOdd;
    var all := PrimesBelow(Limit(s));
    PrimesBelowSpec(Limit(s));
    assert all[t + 1] == s.fed[t] && all[t + 1] in all;
    var i :| 0 <= i < |all| && all[i] == r;
    assert all[0] == 2 && i < t + 1;
    assert s.fed[..t][i - 1] == all[i];
  }

  lemma OddPrime(r: nat)
    requires IsPrime(r) && r > 2
    ensures IsOdd(r) && r >= 3
  {
    if !IsOdd(r) {
      DividesByWitness(2, r, r / 2);
    }
  }

  lemma FirstPrimes(lim: nat)
    requires lim >= 5
    ensures |PrimesBelow(lim)| >= 2 && PrimesBelow(lim)[0] == 2 && PrimesBelow(lim)[1] == 3
  {
    SmallPrimes();
    assert PrimesBelow(2) == [];
    assert PrimesBelow(3) == [2];
    assert PrimesBelow(4) == [2, 3];
    PrimesBelowGrows(4, lim);
  }

  lemma SmallPrimes()
    ensures IsPrime(2) && IsPrime(3) && !IsPrime(4)
  {
    DividesByWitness(2, 4, 2);
    if Divides(2, 3) {
      var k := Cofactor(2, 3);
    }
  }

  lemma InitialInv()
    ensures Inv(Initial())
  {
    var s := Initial();
    SmallPrimes();
    assert PrimesBelow(2) == [];
    assert PrimesBelow(3) == [2];
    assert PrimesBelow(4) == [2, 3];
    assert PrimesBelow(5) == [2, 3];
    DividesByWitness(3, 15, 5);
  }

  // ----- The merger -----

  lemma Key(s: State, r: nat)
    requires FeedInv(s) && TakenInv(s) && r in s.heap
    ensures IsPrime(r) && IsOdd(r) && r >= 3
    ensures s.merger.Merging? ==> r < s.merger.q
  {
    hide IsPrime, IsOdd, PrimesBelow;
    var i :| 0 <= i < Merged(s) && s.fed[i] == r;
    FedPrime(s, i);
    FedIncreases(s);
  }

  lemma ThreeIsKey(s: State)
    requires FeedInv(s) && TakenInv(s) && Merged(s) >= 1
    ensures 3 in s.heap
  {
    hide PrimesBelow;
    FedIncreases(s);
    assert s.fed[..Merged(s)][0] == 3;
  }

  lemma CurrentPrime(s: State)
    requires FeedInv(s) && TakenInv(s) && s.merger.Merging?
    ensures IsPrime(s.merger.q) && IsOdd(s.merger.q) && s.merger.q >= 3
    ensures Merged(s) == 0 ==> s.merger.q == 3
    ensures Merged(s) >= 1 ==> 3 in s.heap
    ensures s.heap == map[] <==> Merged(s) == 0
    ensures s.merger.q !in s.heap
  {
    hide PrimesBelow, IsPrime, IsOdd;
    FedPrime(s, s.taken - 1);
    FedIncreases(s);
    if Merged(s) >= 1 { ThreeIsKey(s); }
    if s.merger.q in s.heap { Key(s, s.merger.q); }
    if Merged(s) == 0 {
      assert forall r :: r !in s.heap;
    }
  }

  /** An odd composite below the square of the current prime is on a channel in the heap. */
  lemma OnHeap(s: State, x: nat) returns (r: nat, k: nat)
    requires FeedInv(s) && TakenInv(s) && s.merger.Merging?
    requires OddComposite(x) && x < s.merger.q * s.merger.q
    ensures r in s.heap && x == Multiple(r, k)
  {
    hide PrimesBelow, IsPrime, IsOdd, Multiple, IsComposite;
    r, k := OnSomeChannel(x);
    SquareOrder(r, s.merger.q);
    FedComplete(s, s.taken - 1, r);
  }

  lemma AlreadySent(s: State, x: nat)
    requires FeedInv(s) && TakenInv(s) && HeapInv(s) && s.merger.Merging?
    requires OddComposite(x) && x < s.merger.q * s.merger.q && x < s.min
    ensures x in s.composites
  {
    var r, k := OnHeap(s, x);
    hide PrimesBelow, IsPrime, IsOdd, Multiple, IsComposite, Divides;
    Key(s, r);
    if k > s.heap[r] { MultipleMonotone(r, s.heap[r], k); }
    assert k < s.heap[r];
  }

  /** The head of a new channel never meets the pending minimum, and Pop is never tried on an empty heap. */
  lemma MinIsNotHead(s: State)
    requires FeedInv(s) && TakenInv(s) && HeapInv(s) && s.merger.Merging?
    ensures s.min != s.merger.q * s.merger.q
    ensures s.heap == map[] ==> s.min > s.merger.q * s.merger.q
  {
    hide PrimesBelow, IsPrime, IsOdd, Multiple, IsComposite, Divides;
    CurrentPrime(s);
    var q := s.merger.q;
    if s.heap == map[] {
      assert q * q == 9;
    } else if s.min == q * q {
      var r :| r in s.heap && Divides(r, s.min);
      Key(s, r);
      PrimeDividesSquare(r, q);
    }
  }

  lemma Covered(s: State, r: nat, k: nat)
    requires HeapInv(s) && r in s.heap && k < s.heap[r]
    ensures Multiple(r, k) == s.min || Multiple(r, k) in s.composites
  {}

  /** Because three is in the heap, the pending minimum is close above the square. */
  lemma MinIsNear(s: State)
    requires FeedInv(s) && TakenInv(s) && HeapInv(s) && SentInv(s) && s.merger.Merging?
    requires s.min > s.merger.q * s.merger.q
    ensures s.min <= Multiple(s.merger.q, 1)
  {
    hide PrimesBelow, IsPrime, IsOdd, IsComposite, Divides, Exhaustive;
    CurrentPrime(s);
    var q := s.merger.q;
    assert Multiple(q, 0) == q * q;
    assert Multiple(q, 1) == q * q + 2 * q;
    hide Multiple;
    if Merged(s) == 0 {
      assert q * q == 9;
    } else {
      var k := ThreeIsNear(q);
      if k >= s.heap[3] {
        if k > s.heap[3] { MultipleMonotone(3, s.heap[3], k); }
      } else {
        Covered(s, 3, k);
      }
    }
  }

  lemma ExhaustiveExtends(c: seq<nat>, x: nat)
    requires Exhaustive(c) && OddComposite(x)
    requires forall i :: 0 <= i < |c| ==> c[i] <= x
    requires forall y: nat :: OddComposite(y) && y < x ==> y in c
    ensures Exhaustive(c + [x])
  {
    hide OddComposite;
    var c' := c + [x];
    forall i, y: nat | 0 <= i < |c'| && OddComposite(y) && y < c'[i] ensures y in c'[..i] {
      if i < |c| {
        assert c'[i] == c[i] && c'[..i] == c[..i];
      } else {
        assert c'[..i] == c;
      }
    }
  }

  lemma SendMinHeap(s: State, r: nat)
    requires FeedInv(s) && TakenInv(s) && HeapInv(s) && s.merger.Merging? && IsLeast(s.heap, r)
    ensures HeapInv(Popped(s, r).(composites := s.composites + [s.min]))
    ensures Popped(s, r).min >= s.min
  {
    hide PrimesBelow, IsPrime, IsOdd, Multiple, IsComposite, Divides;
    var s' := Popped(s, r).(composites := s.composites + [s.min]);
    var j := s.heap[r];
    Key(s, r);
    MultipleMonotone(r, j, j + 1);
    MultipleIsOddComposite(r, j);
    assert r in s'.heap && Divides(r, s'.min);
    forall x, k: nat | x in s'.heap && k < s'.heap[x]
      ensures Multiple(x, k) == s'.min || Multiple(x, k) in s'.composites
    {
      if !(x == r && k == j) {
        assert Multiple(x, k) == s.min || Multiple(x, k) in s.composites;
      }
    }
  }

  /** Sending a composite does not disturb the sifter. */
  lemma SifterFrame(s: State, s': State)
    requires FeedInv(s) && SiftInv(s)
    requires s'.fed == s.fed && s'.out == s.out && s'.sifter == s.sifter && s'.p == s.p && s'.consumed == s.consumed
    requires s.composites <= s'.composites
    ensures FeedInv(s') && SiftInv(s')
  {
    hide PrimesBelow;
  }

  lemma MinIsNext(s: State)
    requires Inv(s) && s.merger.Merging? && s.min < s.merger.q * s.merger.q
    ensures Exhaustive(s.composites + [s.min])
  {
    hide PrimesBelow, IsPrime, IsOdd, IsComposite, Divides, Multiple, Exhaustive;
    forall y: nat | OddComposite(y) && y < s.min ensures y in s.composites {
      AlreadySent(s, y);
    }
    ExhaustiveExtends(s.composites, s.min);
  }

  lemma SendMinSent(s: State, r: nat)
    requires Inv(s) && Enabled(s, SendMin(r))
    ensures SentInv(Do(s, SendMin(r)))
  {
    hide PrimesBelow, IsPrime, IsOdd, IsComposite, Divides, Multiple, HeapInv, Exhaustive, FeedInv, SiftInv;
    MinIsNext(s);
    SendMinHeap(s, r);
    hide IsLeast;
  }

  lemma SendMinKeeps(s: State, r: nat)
    requires Inv(s) && Enabled(s, SendMin(r))
    ensures Inv(Do(s, SendMin(r)))
  {
    assert r in s.heap;
    hide HeapInv, FeedInv, SiftInv, SentInv, IsLeast, Multiple;
    SendMinSent(s, r);
    SendMinHeap(s, r);
    SifterFrame(s, Do(s, SendMin(r)));
  }

  lemma SendHeadSent(s: State)
    requires Inv(s) && Enabled(s, SendHead)
    ensures SentInv(Do(s, SendHead))
  {
    hide PrimesBelow, IsPrime, IsOdd, IsComposite, Divides;
    var q := s.merger.q;
    CurrentPrime(s);
    MultipleIsOddComposite(q, 0);
    assert Multiple(q, 0) == q * q;
    forall y: nat | OddComposite(y) && y < q * q ensures y in s.composites {
      AlreadySent(s, y);
    }
    ExhaustiveExtends(s.composites, q * q);
    hide HeapInv, Exhaustive, FeedInv, SiftInv, Multiple;
  }

  lemma SendHeadHeap(s: State)
    requires Inv(s) && Enabled(s, SendHead)
    ensures HeapInv(Do(s, SendHead))
  {
    hide PrimesBelow, IsPrime, IsOdd, IsComposite, Divides;
    var q, s' := s.merger.q, Do(s, SendHead);
    CurrentPrime(s);
    MinIsNear(s);
    assert Multiple(q, 0) == q * q;
    hide Multiple, OddComposite, FeedInv, SiftInv, SentInv, TakenInv;
    if s.heap == map[] {
      DividesByWitness(3, 15, 5);
      assert 3 in s'.heap && Divides(3, s'.min);
    } else {
      var r :| r in s.heap && Divides(r, s.min);
      assert r in s'.heap;
    }
    forall x, k: nat | x in s'.heap && k < s'.heap[x]
      ensures Multiple(x, k) == s'.min || Multiple(x, k) in s'.composites
    {
      if x != q { Covered(s, x, k); }
    }
  }

  lemma SendHeadKeeps(s: State)
    requires Inv(s) && Enabled(s, SendHead)
    ensures Inv(Do(s, SendHead))
  {
    hide PrimesBelow;
    var q, s' := s.merger.q, Do(s, SendHead);
    SendHeadSent(s);
    SendHeadHeap(s);
    SifterFrame(s, s');
    hide HeapInv, FeedInv, SiftInv, SentInv;
    assert s.fed[..s.taken] == s.fed[..s.taken - 1] + [q];
  }

  lemma TakePrimeKeeps(s: State)
    requires Inv(s) && Enabled(s, TakePrime)
    ensures Inv(Do(s, TakePrime))
  {
    hide PrimesBelow, IsPrime, IsOdd, Multiple, IsComposite, Divides, HeapInv, Exhaustive;
    FedIncreases(s);
    if s.taken > 0 {
      SquareOrder(s.fed[s.taken - 1], s.fed[s.taken]);
    }
    var s' := Do(s, TakePrime);
    assert HeapInv(s') by { HeapFrame(s, s'); }
  }

  lemma HeapFrame(s: State, s': State)
    requires HeapInv(s) && s'.heap == s.heap && s'.min == s.min && s'.composites == s.composites
    ensures HeapInv(s')
  {}

  // ----- The sifter -----

  lemma TakeCompositeKeeps(s: State)
    requires Inv(s) && Enabled(s, TakeComposite)
    ensures Inv(Do(s, TakeComposite))
  {
    hide PrimesBelow, Exhaustive, HeapInv, Multiple, IsOdd;
    HeapFrame(s, Do(s, TakeComposite));
  }

  lemma ExhaustiveAt(c: seq<nat>, i: nat, x: nat)
    requires Exhaustive(c) && i < |c| && OddComposite(x) && x < c[i]
    ensures x in c[..i]
  {}

  /** A candidate that lies below the next composite is prime: were it composite, it would have been
      sent before that composite, and the sifter would have passed it. */
  lemma CandidateIsPrime(s: State)
    requires FeedInv(s) && SiftInv(s) && SentInv(s)
    requires s.sifter.Comparing? && s.p < s.sifter.c
    ensures IsPrime(s.p)
  {
    hide PrimesBelow, Divides, Exhaustive;
    PrimeOrComposite(s.p);
    if IsComposite(s.p) {
      ExhaustiveAt(s.composites, s.consumed - 1, s.p);
    }
  }

  /** Feeding a prime back does not disturb the merger. */
  lemma MergerFrame(s: State, s': State)
    requires TakenInv(s) && HeapInv(s) && SentInv(s)
    requires s'.heap == s.heap && s'.min == s.min && s'.composites == s.composites
    requires s'.merger == s.merger && s'.taken == s.taken && s.fed <= s'.fed
    ensures TakenInv(s') && HeapInv(s') && SentInv(s')
  {
    hide Exhaustive, HeapInv, Multiple;
    HeapFrame(s, s');
    assert s'.fed[..Merged(s)] == s.fed[..Merged(s)];
  }

  lemma NextPrime(p: nat)
    requires p >= 2
    ensures PrimesBelow(p + 1) == if IsPrime(p) then PrimesBelow(p) + [p] else PrimesBelow(p)
  {
    hide IsPrime;
  }

  lemma EvenIsNoPrime(p: nat)
    requires IsOdd(p) && p >= 3
    ensures PrimesBelow(p + 2) == PrimesBelow(p + 1)
  {
    hide IsPrime, PrimesBelow;
    NextPrime(p + 1);
    if IsPrime(p + 1) { OddPrime(p + 1); }
  }

  lemma SendPrimeFeeds(s: State)
    requires FeedInv(s) && SiftInv(s) && Enabled(s, SendPrime) && IsPrime(s.p)
    ensures FeedInv(Do(s, SendPrime)) && SiftInv(Do(s, SendPrime))
  {
    hide IsPrime, PrimesBelow, IsOdd;
    NextPrime(s.p);
    assert [2] + Do(s, SendPrime).fed == ([2] + s.fed) + [s.p];
  }

  lemma SendPrimeKeeps(s: State)
    requires Inv(s) && Enabled(s, SendPrime)
    ensures Inv(Do(s, SendPrime))
  {
    hide FeedInv, SiftInv, TakenInv, HeapInv, SentInv, IsPrime;
    CandidateIsPrime(s);
    SendPrimeFeeds(s);
    MergerFrame(s, Do(s, SendPrime));
  }

  lemma SendOutFeeds(s: State)
    requires FeedInv(s) && SiftInv(s) && Enabled(s, SendOut)
    ensures FeedInv(Do(s, SendOut)) && SiftInv(Do(s, SendOut))
  {
    hide IsPrime, PrimesBelow, IsOdd;
    NextPrime(s.p);
  }

  lemma SendOutKeeps(s: State)
    requires Inv(s) && Enabled(s, SendOut)
    ensures Inv(Do(s, SendOut))
  {
    hide FeedInv, SiftInv, TakenInv, HeapInv, SentInv;
    SendOutFeeds(s);
    MergerFrame(s, Do(s, SendOut));
  }

  lemma FetchSifts(s: State)
    requires FeedInv(s) && SiftInv(s) && Enabled(s, Fetch)
    ensures FeedInv(Do(s, Fetch)) && SiftInv(Do(s, Fetch))
  {
    hide IsPrime, PrimesBelow;
    EvenIsNoPrime(s.p);
  }

  lemma FetchKeeps(s: State)
    requires Inv(s) && Enabled(s, Fetch)
    ensures Inv(Do(s, Fetch))
  {
    hide FeedInv, SiftInv, TakenInv, HeapInv, SentInv;
    FetchSifts(s);
    MergerFrame(s, Do(s, Fetch));
  }

  /** The candidate is discarded only when it is the composite just taken. */
  lemma DiscardFeeds(s: State)
    requires FeedInv(s) && SiftInv(s) && Enabled(s, Discard) && OddComposite(s.sifter.c)
    ensures FeedInv(Do(s, Discard))
  {
    hide IsPrime, PrimesBelow, IsComposite;
    if s.p == s.sifter.c {
      PrimeOrComposite(s.p);
      NextPrime(s.p);
      EvenIsNoPrime(s.p);
    }
  }

  lemma DiscardSifts(s: State)
    requires SiftInv(s) && Enabled(s, Discard)
    ensures SiftInv(Do(s, Discard))
  {
    hide IsPrime;
  }

  lemma ConsumedIsComposite(s: State)
    requires SiftInv(s) && SentInv(s) && !s.sifter.Idle?
    ensures OddComposite(s.sifter.c)
  {
    hide IsPrime, OddComposite;
  }

  lemma DiscardKeeps(s: State)
    requires Inv(s) && Enabled(s, Discard)
    ensures Inv(Do(s, Discard))
  {
    hide FeedInv, SiftInv, TakenInv, HeapInv, SentInv, OddComposite;
    ConsumedIsComposite(s);
    DiscardFeeds(s);
    DiscardSifts(s);
    MergerFrame(s, Do(s, Discard));
  }

  // ----- Whole runs -----

  lemma StepKeeps(s: State, t: Step)
    requires Inv(s) && Enabled(s, t)
    ensures Inv(Do(s, t)) && !t.SkipMin?
  {
    hide FeedInv, SiftInv, TakenInv, HeapInv, SentInv;
    match t
    case TakePrime => TakePrimeKeeps(s);
    case SendMin(r) => SendMinKeeps(s, r);
    case SkipMin(r) => MinIsNotHead(s);
    case SendHead => SendHeadKeeps(s);
    case TakeComposite => TakeCompositeKeeps(s);
    case SendPrime => SendPrimeKeeps(s);
    case SendOut => SendOutKeeps(s);
    case Fetch => FetchKeeps(s);
    case Discard => DiscardKeeps(s);
  }

  ghost predicate IsRun(run: seq<State>) {
    && |run| >= 1 && run[0] == Initial()
    && forall i :: 0 <= i < |run| - 1 ==> exists t :: Enabled(run[i], t) && run[i + 1] == Do(run[i], t)
  }

  lemma {:induction false} RunInv(run: seq<State>, n: nat)
    requires IsRun(run) && n < |run|
    ensures Inv(run[n])
  {
    hide Inv, Enabled, Do;
    if n == 0 {
      InitialInv();
    } else {
      RunInv(run, n - 1);
      var t :| Enabled(run[n - 1], t) && run[n - 1 + 1] == Do(run[n - 1], t);
      StepKeeps(run[n - 1], t);
    }
  }

  /** In every run the output is the increasing sequence of all primes below some bound. */
  lemma OutputIsPrimes(run: seq<State>, n: nat)
    requires IsRun(run) && n < |run|
    ensures exists bound: nat :: run[n].out == PrimesBelow(bound)
  {
    RunInv(run, n);
  }

  /** In every run the composites are odd composites in order with none left out, the heap is
      never popped empty and the min == head loop is never entered. */
  lemma CompositesAreExhaustive(run: seq<State>, n: nat)
    requires IsRun(run) && n < |run|
    ensures Exhaustive(run[n].composites)
    ensures run[n].merger.Merging? ==> run[n].min != run[n].merger.q * run[n].merger.q
    ensures run[n].merger.Merging? && run[n].min < run[n].merger.q * run[n].merger.q ==> run[n].heap != map[]
  {
    hide Exhaustive;
    RunInv(run, n);
    if run[n].merger.Merging? {
      MinIsNotHead(run[n]);
    }
  }
}
