/** The open-addressing hash map of testsuit/roottest/hashmap.go, for any key type whose Match is
    an equivalence that Hash respects.  A nil key marks a free slot; a reference to an entry is a slot
    of some array, which need not be the current one. */
module HashMap {

  datatype Option<+T> = None | Some(value: T)

  datatype Entry<K, V> = Entry(key: Option<K>, value: Option<V>)

  /** What Lookup hands out: the address of an entry. */
  datatype Ref<K, V> = Ref(a: array<Entry<K, V>>, i: nat)

  /** How a call ends: normally, with an index out of range, or nested more than the fuel allows. */
  datatype Outcome = Returned | OutOfRange | OutOfFuel

  const SLOTS := 1024

  function Pow2(k: nat): nat { if k == 0 then 1 else 2 * Pow2(k - 1) }

  ghost predicate Laws<K(!new)>(hash: K -> nat, same: (K, K) -> bool) {
    && (forall a :: same(a, a))
    && (forall a, b :: same(a, b) ==> same(b, a))
    && (forall a, b, c :: same(a, b) && same(b, c) ==> same(a, c))
    && (forall a, b :: same(a, b) ==> hash(a) == hash(b))
  }

  // ----- Probe sequences -----

  /** The slot t steps after home, going round a table of the given capacity. */
  function Slot(home: nat, t: nat, cap: nat): nat
    requires home < cap && t < cap
  {
    if home + t < cap then home + t else home + t - cap
  }

  function Steps(home: nat, i: nat, cap: nat): nat
    requires home < cap && i < cap
  {
    if home <= i then i - home else i + cap - home
  }

  lemma SlotSteps(home: nat, i: nat, t: nat, cap: nat)
    requires home < cap && i < cap && t < cap
    ensures Steps(home, i, cap) < cap && Slot(home, Steps(home, i, cap), cap) == i
    ensures Slot(home, t, cap) < cap && Steps(home, Slot(home, t, cap), cap) == t
  {}

  function Home<K>(hash: K -> nat, k: K, cap: nat): nat
    requires cap > 0
  {
    hash(k) % cap
  }

  /** The probe sequence goes up from the hash, modulo the capacity. */
  lemma ProbeOrder<K>(hash: K -> nat, k: K, t: nat, cap: nat)
    requires t < cap
    ensures Slot(Home(hash, k, cap), t, cap) == (hash(k) + t) % cap
  {
    var h, q := hash(k), hash(k) / cap;
    var i := Slot(h % cap, t, cap);
    assert h == q * cap + h % cap;
    if h % cap + t < cap {
      RemainderOf(h + t, q, i, cap);
    } else {
      assert (q + 1) * cap == q * cap + cap;
      RemainderOf(h + t, q + 1, i, cap);
    }
  }

  lemma RemainderOf(x: nat, q: nat, r: nat, cap: nat)
    requires x == q * cap + r && r < cap
    ensures x % cap == r
  {
    var q', r' := x / cap, x % cap;
    assert x == q' * cap + r';
    if q < q' { MultiplesApart(q, q', cap); }
    if q' < q { MultiplesApart(q', q, cap); }
  }

  lemma MultiplesApart(q: nat, q': nat, cap: nat)
    requires q < q'
    ensures q * cap + cap <= q' * cap
  {
    assert (q + 1) * cap <= q' * cap;
  }

  /** Following the probe sequence of k, slot t is the first that is free or holds a matching key. */
  ghost predicate StopsAt<K, V>(s: seq<Entry<K, V>>, hash: K -> nat, same: (K, K) -> bool, k: K, t: nat)
    requires |s| > 0
  {
    var home := Home(hash, k, |s|);
    && t < |s|
    && Stop(s, same, k, Slot(home, t, |s|))
    && forall u: nat :: u < t ==> !Stop(s, same, k, Slot(home, u, |s|))
  }

  ghost predicate Stop<K, V>(s: seq<Entry<K, V>>, same: (K, K) -> bool, k: K, i: nat)
    requires i < |s|
  {
    s[i].key.None? || same(s[i].key.value, k)
  }

  /** Every key is reached along occupied slots, and no two keys match. */
  ghost predicate Reachable<K, V>(s: seq<Entry<K, V>>, hash: K -> nat)
    requires |s| > 0
  {
    forall j, u: nat :: 0 <= j < |s| && s[j].key.Some? && u < Steps(Home(hash, s[j].key.value, |s|), j, |s|) ==>
      s[Slot(Home(hash, s[j].key.value, |s|), u, |s|)].key.Some?
  }

  ghost predicate Distinct<K, V>(s: seq<Entry<K, V>>, same: (K, K) -> bool) {
    forall i, j :: 0 <= i < |s| && 0 <= j < |s| && i != j && s[i].key.Some? && s[j].key.Some? ==>
      !same(s[i].key.value, s[j].key.value)
  }

  /** A matching key, if there is one, is where the probe stops. */
  lemma ProbeFinds<K(!new), V>(s: seq<Entry<K, V>>, hash: K -> nat, same: (K, K) -> bool, k: K, t: nat, j: nat)
    requires Laws(hash, same) && |s| > 0 && Reachable(s, hash) && Distinct(s, same)
    requires StopsAt(s, hash, same, k, t)
    requires j < |s| && s[j].key.Some? && same(s[j].key.value, k)
    ensures Slot(Home(hash, k, |s|), t, |s|) == j
  {
    var home := Home(hash, k, |s|);
    var i, d := Slot(home, t, |s|), Steps(home, j, |s|);
    assert Home(hash, s[j].key.value, |s|) == home;
    SlotSteps(home, j, t, |s|);
    assert Stop(s, same, k, Slot(home, d, |s|));
    if t < d {
      assert s[i].key.Some?;
      assert same(s[i].key.value, k) && same(k, s[j].key.value);
    }
  }

  lemma ProbeMisses<K(!new), V>(s: seq<Entry<K, V>>, hash: K -> nat, same: (K, K) -> bool, k: K, t: nat, j: nat)
    requires Laws(hash, same) && |s| > 0 && Reachable(s, hash) && Distinct(s, same)
    requires StopsAt(s, hash, same, k, t) && s[Slot(Home(hash, k, |s|), t, |s|)].key.None?
    requires j < |s| && s[j].key.Some?
    ensures !same(s[j].key.value, k)
  {
    if same(s[j].key.value, k) {
      ProbeFinds(s, hash, same, k, t, j);
    }
  }

  /** Filling the slot where the probe stopped keeps the table in order. */
  lemma InsertKeeps<K(!new), V>(s: seq<Entry<K, V>>, hash: K -> nat, same: (K, K) -> bool, k: K, t: nat, e: Entry<K, V>)
    requires Laws(hash, same) && |s| > 0 && Reachable(s, hash) && Distinct(s, same)
    requires StopsAt(s, hash, same, k, t) && s[Slot(Home(hash, k, |s|), t, |s|)].key.None?
    requires e.key == Some(k)
    ensures Reachable(s[Slot(Home(hash, k, |s|), t, |s|) := e], hash)
    ensures Distinct(s[Slot(Home(hash, k, |s|), t, |s|) := e], same)
  {
    var home := Home(hash, k, |s|);
    var i := Slot(home, t, |s|);
    var s' := s[i := e];
    SlotSteps(home, i, t, |s|);
    forall j, u: nat | 0 <= j < |s'| && s'[j].key.Some? && u < Steps(Home(hash, s'[j].key.value, |s'|), j, |s'|)
      ensures s'[Slot(Home(hash, s'[j].key.value, |s'|), u, |s'|)].key.Some?
    {
      if j == i {
        assert !Stop(s, same, k, Slot(home, u, |s|));
      }
    }
    forall a, b | 0 <= a < |s'| && 0 <= b < |s'| && a != b && s'[a].key.Some? && s'[b].key.Some?
      ensures !same(s'[a].key.value, s'[b].key.value)
    {
      if a == i {
        ProbeMisses(s, hash, same, k, t, b);
      } else if b == i {
        ProbeMisses(s, hash, same, k, t, a);
      }
    }
  }

  // ----- The finite map a table stands for -----

  ghost predicate Agrees<K, V>(s: seq<Entry<K, V>>, model: map<K, Option<V>>) {
    && (forall j :: 0 <= j < |s| && s[j].key.Some? ==>
          s[j].key.value in model && model[s[j].key.value] == s[j].value)
    && (forall q :: q in model ==> Stored(s, q))
  }

  ghost predicate Stored<K, V>(s: seq<Entry<K, V>>, q: K) {
    exists j :: 0 <= j < |s| && s[j].key == Some(q)
  }

  lemma StoredAt<K, V>(s: seq<Entry<K, V>>, q: K) returns (j: nat)
    requires Stored(s, q)
    ensures j < |s| && s[j].key == Some(q)
  {
    j :| 0 <= j < |s| && s[j].key == Some(q);
  }

  /** The keys of the first i slots. */
  ghost function KeysBelow<K, V>(s: seq<Entry<K, V>>, i: nat): set<K>
    requires i <= |s|
  {
    if i == 0 then {} else KeysBelow(s, i - 1) + if s[i - 1].key.Some? then {s[i - 1].key.value} else {}
  }

  lemma {:induction false} KeysBelowFrom<K, V>(s: seq<Entry<K, V>>, i: nat, q: K)
    requires i <= |s|
    ensures q in KeysBelow(s, i) <==> exists j :: 0 <= j < i && s[j].key == Some(q)
  {
    if i > 0 { KeysBelowFrom(s, i - 1, q); }
  }

  lemma {:induction false} FullPrefix<K(!new), V>(s: seq<Entry<K, V>>, hash: K -> nat, same: (K, K) -> bool, i: nat)
    requires Laws(hash, same) && Distinct(s, same) && i <= |s|
    requires forall j :: 0 <= j < i ==> s[j].key.Some?
    ensures |KeysBelow(s, i)| == i
  {
    if i > 0 {
      FullPrefix(s, hash, same, i - 1);
      var q := s[i - 1].key.value;
      KeysBelowFrom(s, i - 1, q);
    }
  }

  lemma SubsetSize<T>(a: set<T>, b: set<T>)
    requires a <= b
    ensures |a| <= |b| && (|a| == |b| ==> a == b)
  {
    assert b == a + (b - a);
  }

  /** A table that stands for fewer keys than it has slots has a free slot. */
  lemma FreeSlot<K(!new), V>(s: seq<Entry<K, V>>, hash: K -> nat, same: (K, K) -> bool, model: map<K, Option<V>>)
      returns (z: nat)
    requires Laws(hash, same) && Distinct(s, same) && Agrees(s, model) && |model| < |s|
    ensures z < |s| && s[z].key.None?
  {
    if forall j :: 0 <= j < |s| ==> s[j].key.Some? {
      FullPrefix(s, hash, same, |s|);
      forall q | q in KeysBelow(s, |s|) ensures q in model.Keys {
        KeysBelowFrom(s, |s|, q);
      }
      SubsetSize(KeysBelow(s, |s|), model.Keys);
      assert false;
    }
    z :| 0 <= z < |s| && s[z].key.None?;
  }

  /** The stored key that k stands for, as the map sees it. */
  ghost predicate Present<K(!new), V>(model: map<K, Option<V>>, same: (K, K) -> bool, k: K) {
    exists q :: q in model && same(q, k)
  }

  lemma AgreesInsert<K, V>(s: seq<Entry<K, V>>, model: map<K, Option<V>>, i: nat, k: K, v: Option<V>)
    requires Agrees(s, model) && i < |s| && s[i].key.None? && k !in model
    ensures Agrees(s[i := Entry(Some(k), v)], model[k := v])
  {
    var s' := s[i := Entry(Some(k), v)];
    forall q | q in model[k := v] ensures Stored(s', q) {
      if q == k {
        assert s'[i].key == Some(k);
      } else {
        var j := StoredAt(s, q);
        assert s'[j].key == Some(q);
      }
    }
  }

  lemma AgreesUpdate<K(!new), V>(s: seq<Entry<K, V>>, hash: K -> nat, same: (K, K) -> bool, model: map<K, Option<V>>,
        i: nat, v: Option<V>)
    requires Laws(hash, same) && Distinct(s, same) && Agrees(s, model) && i < |s| && s[i].key.Some?
    ensures Agrees(s[i := s[i].(value := v)], model[s[i].key.value := v])
    ensures Distinct(s[i := s[i].(value := v)], same)
    ensures |s| > 0 && (Reachable(s, hash) ==> Reachable(s[i := s[i].(value := v)], hash))
  {
    var s', q := s[i := s[i].(value := v)], s[i].key.value;
    assert forall j :: 0 <= j < |s| ==> s'[j].key == s[j].key;
    forall x | x in model[q := v] ensures Stored(s', x) {
      var j := StoredAt(s, x);
      assert s'[j].key == Some(x);
    }
  }

  lemma Pow2Grows(j: nat, k: nat)
    requires j <= k
    ensures 1 <= Pow2(j) <= Pow2(k)
    decreases k
  {
    if j < k { Pow2Grows(j, k - 1); }
  }

  lemma {:induction false} Pow2Doubled(k: nat)
    ensures Pow2(2 * k) == Pow2(k) * Pow2(k)
  {
    if k > 0 {
      Pow2Doubled(k - 1);
      var p := Pow2(k - 1);
      assert Pow2(2 * k - 1) == 2 * Pow2(2 * k - 2);
      assert (2 * p) * (2 * p) == 4 * (p * p);
    }
  }

  /** Squaring the capacity leaves so much room that rehashing cannot grow the table again. */
  lemma RoomAfterGrowth(k: nat, n: nat)
    requires k >= 1 && n <= Pow2(k)
    ensures Load(n) < Pow2(2 * k)
  {
    hide Pow2;
    Pow2Doubled(k);
    AtLeastTwo(k);
    TwiceBelowSquare(Pow2(k));
  }

  /** The occupancy the growth test compares with the capacity. */
  function Load(n: nat): nat { n + n / 4 }

  /** The growth test asks for 80 percent, exactly. */
  lemma EightyPercent(n: nat, cap: nat)
    ensures Load(n) >= cap <==> 5 * n >= 4 * cap
  {}

  ghost predicate MakesRoom(k: nat) {
    forall n: nat :: 1 <= n <= Pow2(k) ==> Load(n) < Pow2(2 * k)
  }

  /** Squaring 2^k slots makes room exactly when k is positive. */
  lemma GrowthMakesRoom(k: nat)
    ensures MakesRoom(k) <==> k >= 1
  {
    if k >= 1 {
      hide Pow2;
      forall n: nat | 1 <= n <= Pow2(k) ensures Load(n) < Pow2(2 * k) {
        RoomAfterGrowth(k, n);
      }
    } else {
      assert Pow2(0) == 1 && Load(1) == 1;
    }
  }

  /** The squared table fits into the array exactly when k is at most five. */
  lemma GrowthFits(k: nat)
    ensures Pow2(2 * k) <= 1024 <==> k <= 5
  {
    SmallPowers();
    if k <= 5 {
      Pow2Grows(2 * k, 10);
    } else {
      Pow2Grows(10, 2 * k - 1);
      assert Pow2(2 * k) == 2 * Pow2(2 * k - 1);
    }
  }

  lemma AtLeastTwo(k: nat)
    requires k >= 1
    ensures Pow2(k) >= 2
  {
    Pow2Grows(0, k - 1);
  }

  lemma TwiceBelowSquare(c: nat)
    requires c >= 2
    ensures 2 * c <= c * c
  {}

  lemma SmallPowers()
    ensures Pow2(10) == SLOTS
  {
    assert Pow2(5) == 32;
    assert Pow2(10) == 32 * Pow2(5);
  }

  /** How growing from a table of 2^log2 slots ends. */
  function GrowthOutcome(log2: nat): Outcome {
    if log2 == 0 then OutOfFuel else if log2 <= 5 then Returned else OutOfRange
  }

  /** Growth succeeds exactly when the squared table has room for the old entries and fits the array. */
  lemma GrowthReturns(log2: nat)
    ensures GrowthOutcome(log2) == Returned <==> MakesRoom(log2) && Pow2(2 * log2) <= SLOTS
  {
    GrowthMakesRoom(log2);
    GrowthFits(log2);
  }

  lemma CapacityFits(log2: nat)
    ensures 1 <= Pow2(log2)
    ensures Pow2(log2) <= SLOTS <==> log2 <= 10
  {
    SmallPowers();
    Pow2Grows(0, log2);
    if log2 <= 10 {
      Pow2Grows(log2, 10);
    } else {
      Pow2Grows(10, log2 - 1);
      assert Pow2(log2) == 2 * Pow2(log2 - 1);
    }
  }

  class HashMap<K(!new), V> {
    const hash: K -> nat
    const same: (K, K) -> bool
    var map_: array<Entry<K, V>>
    var log2_capacity: nat
    var occupancy: nat
    ghost var model: map<K, Option<V>>

    constructor (hash: K -> nat, same: (K, K) -> bool, log2: nat)
      requires Laws(hash, same) && log2 <= 10
      ensures Valid() && model == map[] && log2_capacity == log2 && this.hash == hash && this.same == same
      ensures fresh(map_)
    {
      this.hash := hash;
      this.same := same;
      log2_capacity := log2;
      occupancy := 0;
      model := map[];
      map_ := new Entry<K, V>[SLOTS](_ => Entry(None, None));
      new;
      CapacityFits(log2);
    }

    function Capacity(): nat
      reads this`log2_capacity
    {
      Pow2(log2_capacity)
    }

    /** The table is in order and stands for model. */
    ghost predicate Valid()
      reads this, map_
    {
      && Laws(hash, same)
      && map_.Length == SLOTS && 1 <= Capacity() <= SLOTS
      && Reachable(map_[..Capacity()], hash) && Distinct(map_[..Capacity()], same)
      && Agrees(map_[..Capacity()], model)
      && occupancy == |model|
    }

    /** Below 80% full: the next insertion leaves a free slot. */
    predicate Roomy()
      reads this`occupancy, this`log2_capacity
    {
      Load(occupancy) < Capacity()
    }

    /** Frees every slot but slot 0, so the map is empty afterwards only if slot 0 was free.  The first
        store is out of range exactly when the capacity exceeds the array. */
    method Clear() returns (o: Outcome)
      requires map_.Length == SLOTS && Capacity() >= 1
      modifies this`occupancy, map_
      ensures o == if Capacity() <= SLOTS then Returned else OutOfRange
      ensures o.OutOfRange? ==> occupancy == old(occupancy) && map_[..] == old(map_[..])
      ensures o.Returned? ==> occupancy == 0 && map_[0] == old(map_[0])
      ensures o.Returned? ==> forall i :: 1 <= i < Capacity() ==> map_[i].key.None?
      ensures o.Returned? ==> ((forall i :: 0 <= i < Capacity() ==> map_[i].key.None?) <==> old(map_[0].key.None?))
    {
      var i := Capacity() - 1;
      while i > 0
        invariant 0 <= i < Capacity() && map_[0] == old(map_[0]) && occupancy == old(occupancy)
        invariant Capacity() > SLOTS ==> i == Capacity() - 1 && map_[..] == old(map_[..])
        invariant forall j :: i < j < Capacity() ==> j < SLOTS && map_[j].key.None?
      {
        if i >= map_.Length { return OutOfRange; }
        map_[i] := map_[i].(key := None);
        i := i - 1;
      }
      occupancy := 0;
      return Returned;
    }

    /** An empty map in a new array, or a panic when its capacity does not fit. */
    method Initialize(log2: nat) returns (o: Outcome)
      requires Laws(hash, same)
      modifies this
      ensures o == if log2 <= 10 then Returned else OutOfRange
      ensures o.Returned? ==> Valid() && model == map[] && log2_capacity == log2 && fresh(map_)
    {
      CapacityFits(log2);
      log2_capacity := log2;
      map_ := new Entry<K, V>[SLOTS](_ => Entry(None, None));
      o := Clear();
      model := map[];
    }

    /** Walks from the key's home slot to the first slot that is free or holds a matching key. */
    method Probe(key: K) returns (i: nat, ghost t: nat)
      requires Valid() && occupancy < Capacity()
      ensures StopsAt(map_[..Capacity()], hash, same, key, t)
      ensures i == Slot(Home(hash, key, Capacity()), t, Capacity()) && i < Capacity()
    {
      var cap := Capacity();
      ghost var s := map_[..cap];
      ghost var z := FreeSlot(s, hash, same, model);
      ghost var home := Home(hash, key, cap);
      ghost var d := Steps(home, z, cap);
      SlotSteps(home, z, 0, cap);
      assert Stop(s, same, key, Slot(home, d, cap));
      i, t := hash(key) % cap, 0;
      while map_[i].key.Some? && !same(map_[i].key.value, key)
        invariant t <= d && i < cap && i == Slot(home, t, cap)
        invariant forall u: nat :: u < t ==> !Stop(s, same, key, Slot(home, u, cap))
        decreases d - t
      {
        assert !Stop(s, same, key, i);
        i := i + 1;
        if i >= cap {
          i := 0;
        }
        t := t + 1;
      }
      assert Stop(s, same, key, i);
    }

    /** An insertion of key would reach 80% and grow the table. */
    ghost predicate Grows(key: K, insert: bool)
      reads this
    {
      insert && !Present(model, same, key) && Load(occupancy + 1) >= Capacity()
    }

    /** The entry that matches key; with insert, a new entry when there is none.  A call that does not
        grow the table returns.  One that does returns exactly from tables of 2 to 32 slots: with one
        slot it nests deeper than any fuel, and from more than 32 it runs out of the array. */
    method Lookup(key: K, insert: bool, fuel: nat) returns (o: Outcome, p: Option<Ref<K, V>>)
      requires Valid() && Roomy()
      modifies this, map_
      ensures !old(Grows(key, insert)) ==> o == Returned
      ensures old(Grows(key, insert)) && fuel >= 1 ==> (o == Returned <==> 1 <= old(log2_capacity) <= 5)
      ensures old(Grows(key, insert)) && fuel >= 1 ==> (o == OutOfRange <==> old(log2_capacity) > 5)
      ensures old(Grows(key, insert)) && fuel == 0 ==> o == OutOfFuel
      ensures o.Returned? ==> Valid() && Roomy()
      ensures o.Returned? ==>
                log2_capacity == if old(Grows(key, insert)) then 2 * old(log2_capacity) else old(log2_capacity)
      ensures o.Returned? ==> if old(Grows(key, insert)) then fresh(map_) else map_ == old(map_)
      ensures !old(Grows(key, insert)) ==>
                forall i :: 0 <= i < SLOTS && old(map_[i].key.Some?) ==> map_[i] == old(map_[i])
      ensures o.Returned? && p.Some? ==> p.value.a == map_ && Holds(p.value.i, key)
      ensures o.Returned? && old(Present(model, same, key)) ==>
                model == old(model) && p.Some? && map_[..] == old(map_[..])
      ensures o.Returned? && !old(Present(model, same, key)) && insert ==>
                model == old(model)[key := None] && key !in old(model) && p.Some?
                && map_[p.value.i] == Entry(Some(key), None)
      ensures o.Returned? && !old(Present(model, same, key)) && !insert ==>
                model == old(model) && p.None? && map_[..] == old(map_[..])
      decreases fuel, 1
    {
      hide Reachable, Distinct, Agrees, StopsAt, Laws, Pow2;
      var i, t := Probe(key);
      ProbeDecides(i, t, key);
      o := Returned;
      if map_[i].key.Some? {
        return Returned, Some(Ref(map_, i));
      }
      if !insert {
        return Returned, None;
      }
      o, i := AddEntry(key, i, t, fuel);
      p := if o.Returned? then Some(Ref(map_, i)) else None;
    }

    /** Inserts the key at the free slot where its probe stopped and grows the table if it is too full. */
    method AddEntry(key: K, i: nat, ghost t: nat, fuel: nat) returns (o: Outcome, i': nat)
      requires Valid() && Roomy() && StopsAt(map_[..Capacity()], hash, same, key, t)
      requires i == Slot(Home(hash, key, Capacity()), t, Capacity()) && i < Capacity() && map_[i].key.None?
      modifies this, map_
      ensures o == if Load(old(occupancy) + 1) < old(Capacity()) then Returned
                   else if fuel == 0 then OutOfFuel else GrowthOutcome(old(log2_capacity))
      ensures o.Returned? ==> Valid() && Roomy() && key !in old(model) && model == old(model)[key := None]
      ensures o.Returned? ==> Holds(i', key) && map_[i'] == Entry(Some(key), None)
      ensures if Load(old(occupancy) + 1) < old(Capacity())
              then log2_capacity == old(log2_capacity) && map_ == old(map_)
                   && map_[..] == old(map_[..])[i := Entry(Some(key), None)]
              else o.Returned? ==> log2_capacity == 2 * old(log2_capacity) && fresh(map_)
      decreases fuel, 0
    {
      hide Reachable, Distinct, Agrees, StopsAt, Laws, Pow2;
      i' := i;
      Insert(key, i, t);
      if Load(occupancy) < Capacity() {
        SelfMatch(key);
        return Returned, i;
      }
      if fuel == 0 { return OutOfFuel, i; }
      o := Resize(fuel - 1);
      if o.Returned? {
        ghost var t';
        i', t' := Probe(key);
        ProbeLive(i', t', key);
        SelfMatch(key);
      }
    }

    ghost predicate Holds(i: nat, key: K)
      reads this, map_
    {
      && i < Capacity() && i < map_.Length && map_[i].key.Some? && same(map_[i].key.value, key)
      && map_[i].key.value in model && model[map_[i].key.value] == map_[i].value
    }

    lemma SelfMatch(key: K)
      requires Valid()
      ensures same(key, key)
    {}

    /** The probe stops at an entry exactly when the map has a matching key. */
    lemma ProbeDecides(i: nat, t: nat, key: K)
      requires Valid() && StopsAt(map_[..Capacity()], hash, same, key, t)
      requires i == Slot(Home(hash, key, Capacity()), t, Capacity())
      ensures map_[i].key.Some? <==> Present(model, same, key)
      ensures map_[i].key.Some? ==> Holds(i, key)
    {
      var s := map_[..Capacity()];
      assert Stop(s, same, key, i);
      if map_[i].key.Some? {
        assert s[i].key.value in model && same(s[i].key.value, key);
      }
      if Present(model, same, key) {
        var q :| q in model && same(q, key);
        var j := StoredAt(s, q);
        ProbeFinds(s, hash, same, key, t, j);
      }
    }

    /** After growth the entry found is the one in the new array. */
    lemma ProbeLive(i: nat, t: nat, key: K)
      requires Valid() && StopsAt(map_[..Capacity()], hash, same, key, t)
      requires i == Slot(Home(hash, key, Capacity()), t, Capacity())
      requires key in model
      ensures map_[i] == Entry(Some(key), model[key])
    {
      var s := map_[..Capacity()];
      var j := StoredAt(s, key);
      assert same(key, key);
      ProbeFinds(s, hash, same, key, t, j);
    }

    /** Fills the free slot where the probe for key stopped. */
    method Insert(key: K, i: nat, ghost t: nat)
      requires Valid() && occupancy < Capacity() && StopsAt(map_[..Capacity()], hash, same, key, t)
      requires i == Slot(Home(hash, key, Capacity()), t, Capacity()) && map_[i].key.None?
      modifies this`occupancy, this`model, map_
      ensures Valid() && key !in old(model) && model == old(model)[key := None]
      ensures map_[..] == old(map_[..])[i := Entry(Some(key), None)]
    {
      ghost var s := map_[..Capacity()];
      InsertKeeps(s, hash, same, key, t, Entry(Some(key), None));
      ProbeDecides(i, t, key);
      assert key in model ==> same(key, key);
      AgreesInsert(s, model, i, key, None);
      map_[i] := Entry(Some(key), None);
      assert map_[..Capacity()] == s[i := Entry(Some(key), None)];
      occupancy := occupancy + 1;
      model := model[key := None];
    }

    /** Writes a value through a reference.  The map sees the write exactly when the reference is into
        the current array; a reference from before a growth leads into an array that was given up. */
    method Write(p: Ref<K, V>, v: Option<V>)
      requires Valid() && p.i < p.a.Length && (p.a == map_ ==> p.i < Capacity() && map_[p.i].key.Some?)
      modifies this`model, p.a
      ensures Valid() && p.a[..] == old(p.a[..])[p.i := old(p.a[p.i]).(value := v)]
      ensures model == if p.a == map_ then old(model)[old(map_[p.i].key.value) := v] else old(model)
      ensures p.a == map_ ==> map_[p.i].key.value in old(model) && |model| == |old(model)|
    {
      ghost var s, i := map_[..Capacity()], p.i;
      if p.a == map_ {
        AgreesUpdate(s, hash, same, model, i, v);
        assert map_[i].key.value in model by { assert s[i].key.value in model; }
        model := model[map_[i].key.value := v];
      }
      p.a[p.i] := p.a[p.i].(value := v);
      if p.a == map_ {
        assert map_[..Capacity()] == s[i := s[i].(value := v)];
      } else {
        assert map_[..Capacity()] == s;
      }
    }

    /** Inserts an entry of the old table.  The new one grows only when it has one slot. */
    method Rehash(key: K, value: Option<V>, fuel: nat) returns (o: Outcome)
      requires Valid() && Roomy() && !Present(model, same, key)
      requires Grows(key, true) ==> log2_capacity == 0
      modifies this, map_
      ensures o == if old(Grows(key, true)) then OutOfFuel else Returned
      ensures o.Returned? ==> Valid() && model == old(model)[key := value] && occupancy == old(occupancy) + 1
      ensures o.Returned? ==> map_ == old(map_) && log2_capacity == old(log2_capacity)
      decreases fuel, 2
    {
      hide Reachable, Distinct, Agrees, Laws, Pow2;
      var p;
      o, p := Lookup(key, true, fuel);
      if o.Returned? {
        Write(p.value, value);
        assert model == old(model)[key := value];
      }
    }

    /** The first i slots of the old table s, which stood for all, have been moved and n entries are left. */
    ghost predicate Moving(s: seq<Entry<K, V>>, all: map<K, Option<V>>, k: nat, i: nat, n: nat)
      reads this, map_
    {
      && Valid() && log2_capacity == 2 * k && occupancy + n == |all|
      && Distinct(s, same) && Agrees(s, all) && |s| == Pow2(k)
      && i <= |s| && Agrees(s[..i], model) && model.Keys <= all.Keys
      && (k == 0 ==> i == 0 && n >= 1)
    }

    /** Moves what slot i of the old table holds. */
    method MoveSlot(e: Entry<K, V>, i: nat, n: nat, fuel: nat,
                    ghost s: seq<Entry<K, V>>, ghost all: map<K, Option<V>>, ghost k: nat) returns (o: Outcome, n': nat)
      requires n > 0 && Moving(s, all, k, i, n) && |all| <= Pow2(k)
      requires i < |s| && e == s[i]
      modifies this, map_
      ensures o == if k == 0 then OutOfFuel else Returned
      ensures o.Returned? ==> map_ == old(map_) && Moving(s, all, k, i + 1, n')
      decreases fuel, 3
    {
      OneSlot(s, all, k);
      AgreesNext(s, i, model);
      hide Reachable, Distinct, Agrees, Laws, Pow2;
      o, n' := Returned, n;
      if k > 0 {
        RoomAfterGrowth(k, occupancy);
        RoomAfterGrowth(k, occupancy + 1);
      }
      if e.key.Some? {
        NotYet(s, i, hash, same, model, all);
        o := Rehash(e.key.value, e.value, fuel);
        n' := n - 1;
      }
    }

    /** Moves to a table of the squared capacity and inserts every entry again. */
    method Resize(fuel: nat) returns (o: Outcome)
      requires Valid() && occupancy >= 1
      modifies this
      ensures o == GrowthOutcome(old(log2_capacity))
      ensures o.Returned? ==> Valid() && Roomy() && model == old(model)
      ensures o.Returned? ==> log2_capacity == 2 * old(log2_capacity) && fresh(map_) && occupancy < Capacity()
      decreases fuel, 4
    {
      hide Reachable, Distinct, Agrees, Laws, Pow2;
      var hmap, n := map_, occupancy;
      ghost var s, all, k := map_[..Capacity()], model, log2_capacity;
      var cap := Capacity();
      ModelFits(s, model);
      o := Initialize(2 * log2_capacity);
      if !o.Returned? { return; }
      var i := 0;
      AgreesNothing(s, model);
      while n > 0
        invariant Moving(s, all, k, i, n) && fresh(map_) && hmap[..cap] == s && o.Returned?
        decreases cap - i
      {
        Remaining(s, i, model, all);
        o, n := MoveSlot(hmap[i], i, n, fuel, s, all, k);
        if !o.Returned? { return; }
        i := i + 1;
      }
      Completed(s, i, model, all);
      RoomAfterGrowth(k, occupancy);
    }
  }

  /** A one-slot table that stands for something has its slot occupied, and one more entry fills it. */
  lemma OneSlot<K, V>(s: seq<Entry<K, V>>, model: map<K, Option<V>>, k: nat)
    requires Agrees(s, model) && |model| >= 1 && |s| == Pow2(k)
    ensures k == 0 ==> s[0].key.Some? && Pow2(2 * k) == 1
  {
    if k == 0 {
      var q :| q in model;
      var j := StoredAt(s, q);
    }
  }

  // ----- Rehashing -----

  lemma {:induction false} KeysBelowSize<K, V>(s: seq<Entry<K, V>>, i: nat)
    requires i <= |s|
    ensures |KeysBelow(s, i)| <= i
  {
    if i > 0 { KeysBelowSize(s, i - 1); }
  }

  lemma ModelFits<K, V>(s: seq<Entry<K, V>>, model: map<K, Option<V>>)
    requires Agrees(s, model)
    ensures |model| <= |s|
  {
    KeysBelowSize(s, |s|);
    forall q | q in model.Keys ensures q in KeysBelow(s, |s|) {
      var j := StoredAt(s, q);
      KeysBelowFrom(s, |s|, q);
    }
    SubsetSize(model.Keys, KeysBelow(s, |s|));
    assert |model.Keys| == |model|;
  }

  lemma AgreesNothing<K, V>(s: seq<Entry<K, V>>, model: map<K, Option<V>>)
    requires model == map[]
    ensures Agrees(s[..0], model)
  {}

  /** While entries are missing, some slot is still to be visited. */
  lemma Remaining<K, V>(s: seq<Entry<K, V>>, i: nat, model: map<K, Option<V>>, all: map<K, Option<V>>)
    requires Agrees(s, all) && i <= |s| && Agrees(s[..i], model) && |model| < |all|
    ensures i < |s|
  {
    assert s[..|s|] == s;
    if i == |s| {
      forall q | q in all.Keys ensures q in model.Keys {
        var j := StoredAt(s, q);
        assert s[..i][j].key == Some(q);
      }
      SubsetSize(all.Keys, model.Keys);
    }
  }

  lemma AgreesNext<K, V>(s: seq<Entry<K, V>>, i: nat, model: map<K, Option<V>>)
    requires i < |s| && Agrees(s[..i], model)
    ensures s[i].key.None? ==> Agrees(s[..i + 1], model)
    ensures s[i].key.Some? && s[i].key.value !in model ==> Agrees(s[..i + 1], model[s[i].key.value := s[i].value])
  {
    var s' := s[..i + 1];
    assert forall j :: 0 <= j < i ==> s'[j] == s[..i][j];
    forall q | q in model ensures Stored(s', q) {
      var j := StoredAt(s[..i], q);
      assert s'[j].key == Some(q);
    }
    if s[i].key.Some? {
      assert s'[i].key == Some(s[i].key.value);
      assert Stored(s', s[i].key.value);
    }
  }

  /** The entry about to be moved matches none of those moved before. */
  lemma NotYet<K(!new), V>(s: seq<Entry<K, V>>, i: nat, hash: K -> nat, same: (K, K) -> bool,
                           model: map<K, Option<V>>, all: map<K, Option<V>>)
    requires Laws(hash, same) && Distinct(s, same) && i < |s| && s[i].key.Some?
    requires Agrees(s[..i], model) && Agrees(s, all)
    ensures !Present(model, same, s[i].key.value) && s[i].key.value !in model && s[i].key.value in all
  {
    forall q | q in model ensures !same(q, s[i].key.value) {
      var j := StoredAt(s[..i], q);
      assert s[j].key == Some(q);
    }
    assert same(s[i].key.value, s[i].key.value);
  }

  lemma Completed<K, V>(s: seq<Entry<K, V>>, i: nat, model: map<K, Option<V>>, all: map<K, Option<V>>)
    requires i <= |s| && Agrees(s[..i], model) && Agrees(s, all) && model.Keys <= all.Keys && |model| == |all|
    ensures model == all
  {
    SubsetSize(model.Keys, all.Keys);
    forall q | q in model ensures model[q] == all[q] {
      var j := StoredAt(s[..i], q);
      assert s[..i][j] == s[j];
    }
  }
}
