/** Whole runs of the hash map of testsuit/roottest/hashmap.go: lookups, and writes through any entry
    that an earlier lookup returned.  A write is lost exactly when the table has grown since then. */
module HashMapRuns {
  import opened H = HashMap

  /** A lookup, or a write through the entry that the lookup at the given place of the run returned. */
  datatype Op<K, V> = Look(key: K, insert: bool) | Write(look: nat, value: Option<V>)

  type Ops<K, V> = seq<Op<K, V>>

  /** The entries that the lookups of a run returned, nil or not. */
  type Refs<K, V> = seq<Option<Ref<K, V>>>

  /** What lookups saw: no entry, or an entry's value. */
  type Results<V> = seq<Option<Option<V>>>

  type Arrays<K, V> = set<array<Entry<K, V>>>

  // ----- What a run means, without any table -----

  /** Some inserting lookup has had a matching key. */
  predicate Inserted<K, V>(ops: Ops<K, V>, same: (K, K) -> bool, key: K) {
    && ops != []
    && var last := ops[|ops| - 1];
       (last.Look? && last.insert && same(last.key, key)) || Inserted(ops[..|ops| - 1], same, key)
  }

  predicate IsNew<K, V>(ops: Ops<K, V>, same: (K, K) -> bool, op: Op<K, V>) {
    op.Look? && op.insert && !Inserted(ops, same, op.key)
  }

  /** How many keys have been inserted, matching ones counted once. */
  function News<K, V>(ops: Ops<K, V>, same: (K, K) -> bool): nat {
    if ops == [] then 0
    else
      var before := ops[..|ops| - 1];
      News(before, same) + if IsNew(before, same, ops[|ops| - 1]) then 1 else 0
  }

  /** The log of the capacity after the run: it doubles when a new key fills the table to 80%. */
  function LogAfter<K, V>(ops: Ops<K, V>, same: (K, K) -> bool, log2: nat): nat {
    if ops == [] then log2
    else
      var before := ops[..|ops| - 1];
      var k := LogAfter(before, same, log2);
      if IsNew(before, same, ops[|ops| - 1]) && Load(News(ops, same)) >= Pow2(k) then 2 * k else k
  }

  /** The lookup at place j returned an entry. */
  predicate Found<K, V>(ops: Ops<K, V>, same: (K, K) -> bool, j: nat) {
    j < |ops| && ops[j].Look? && (ops[j].insert || Inserted(ops[..j], same, ops[j].key))
  }

  /** The table has not grown since the lookup at place j. */
  predicate Live<K, V>(ops: Ops<K, V>, same: (K, K) -> bool, log2: nat, j: nat)
    requires j < |ops|
  {
    LogAfter(ops[..j + 1], same, log2) == LogAfter(ops, same, log2)
  }

  /** The value under key: the last one written through an entry that was live and had a matching key. */
  function Current<K, V>(ops: Ops<K, V>, same: (K, K) -> bool, log2: nat, key: K): Option<V> {
    if ops == [] then None
    else
      var before, last := ops[..|ops| - 1], ops[|ops| - 1];
      if last.Write? && Found(before, same, last.look) && same(before[last.look].key, key)
         && Live(before, same, log2, last.look)
      then last.value else Current(before, same, log2, key)
  }

  /** What a lookup after the run sees: no entry, or an entry with a value. */
  function Observed<K, V>(ops: Ops<K, V>, same: (K, K) -> bool, log2: nat, key: K, insert: bool): Option<Option<V>> {
    if insert || Inserted(ops, same, key) then Some(Current(ops, same, log2, key)) else None
  }

  /** Writes go through entries, not through nil. */
  ghost predicate Sensible<K, V>(ops: Ops<K, V>, same: (K, K) -> bool) {
    forall k :: 0 <= k < |ops| && ops[k].Write? ==> Found(ops[..k], same, ops[k].look)
  }

  /** The log of the largest table that repeated growth leads to within the array; one slot never grows. */
  function FinalLog(log2: nat): nat
    decreases 10 - log2
  {
    if 1 <= log2 <= 5 then FinalLog(2 * log2) else log2
  }

  lemma {:induction false} FinalLogLarger(log2: nat)
    ensures FinalLog(log2) >= log2
    decreases 10 - log2
  {
    if 1 <= log2 <= 5 { FinalLogLarger(2 * log2); }
  }

  // ----- When a write is seen -----

  /** After a write through the entry of lookup j, a lookup of a matching key sees the value written if
      and only if the table has not grown in between (or that was its value anyway). */
  lemma WriteSeen<K, V>(ops: Ops<K, V>, same: (K, K) -> bool, log2: nat, j: nat, v: Option<V>, key: K)
    requires Found(ops, same, j) && same(ops[j].key, key)
    ensures var ops' := ops + [Write(j, v)];
            Current(ops', same, log2, key) == v <==> Live(ops, same, log2, j) || Current(ops, same, log2, key) == v
  {
    assert (ops + [Write(j, v)])[..|ops|] == ops;
  }

  /** Four operations on a table of two slots that lose a write: the second insertion grows the table,
      and the write goes through the entry of the first. */
  function LosingRun<K, V>(a: K, b: K, v: V): Ops<K, V> {
    [Look(a, true), Look(b, true), Write(0, Some(v)), Look(a, false)]
  }

  lemma WriteLost<K(!new), V>(hash: K -> nat, same: (K, K) -> bool, a: K, b: K, v: V)
    requires Laws(hash, same) && !same(a, b)
    ensures var ops := LosingRun(a, b, v);
            && Sensible(ops, same) && Load(News(ops, same)) < Pow2(FinalLog(1))
            && Observed(ops[..3], same, 1, a, false) == Some(None)
  {
    var ops := LosingRun(a, b, v);
    var o2: Ops<K, V>, o3 := [Look(a, true), Look(b, true)], ops[..3];
    assert o3 == o2 + [Write(0, Some(v))] && ops == o3 + [Look(a, false)] && ops[..2] == o2;
    TwoInsertions<K, V>(hash, same, a, b);
    assert Pow2(8) == 256 && FinalLog(1) == 8;
    hide Inserted, News, LogAfter, Current, Laws, Pow2, FinalLog, Found;
    AfterWrite(o2, same, 1, 0, Some(v), a);
    AfterLook(o3, same, 1, a, false, a);
  }

  /** Inserting two keys into a table of two slots grows it once. */
  lemma TwoInsertions<K(!new), V>(hash: K -> nat, same: (K, K) -> bool, a: K, b: K)
    requires Laws(hash, same) && !same(a, b)
    ensures var ops: Ops<K, V> := [Look(a, true), Look(b, true)];
            && Found(ops, same, 0) && !Live(ops, same, 1, 0)
            && News(ops, same) == 2 && Inserted(ops, same, a) && Current(ops, same, 1, a) == None
  {
    var o0: Ops<K, V>, o1: Ops<K, V>, o2: Ops<K, V> := [], [Look(a, true)], [Look(a, true), Look(b, true)];
    assert o1 == o0 + [Look(a, true)] && o2 == o1 + [Look(b, true)] && o2[..1] == o1;
    NothingYet<K, V>(same, 1, a);
    NothingYet<K, V>(same, 1, b);
    assert same(a, a) && Pow2(1) == 2;
    hide Inserted, News, LogAfter, Current, Laws, Pow2;
    AfterLook(o0, same, 1, a, true, a);
    AfterLook(o0, same, 1, a, true, b);
    AfterLook(o1, same, 1, b, true, a);
  }

  lemma NothingYet<K, V>(same: (K, K) -> bool, log2: nat, key: K)
    ensures var ops: Ops<K, V> := [];
            !Inserted(ops, same, key) && News(ops, same) == 0 && LogAfter(ops, same, log2) == log2
            && Current(ops, same, log2, key) == None
  {}

  lemma InsertedStep<K, V>(ops: Ops<K, V>, same: (K, K) -> bool, op: Op<K, V>, key: K)
    ensures Inserted(ops + [op], same, key) <==>
            (op.Look? && op.insert && same(op.key, key)) || Inserted(ops, same, key)
  {
    assert (ops + [op])[..|ops|] == ops;
  }

  lemma NewsStep<K, V>(ops: Ops<K, V>, same: (K, K) -> bool, op: Op<K, V>)
    ensures News(ops + [op], same) == News(ops, same) + if IsNew(ops, same, op) then 1 else 0
  {
    hide IsNew;
    assert (ops + [op])[..|ops|] == ops;
  }

  lemma LogStep<K, V>(ops: Ops<K, V>, same: (K, K) -> bool, log2: nat, op: Op<K, V>)
    ensures var k := LogAfter(ops, same, log2);
            LogAfter(ops + [op], same, log2)
            == if IsNew(ops, same, op) && Load(News(ops, same) + 1) >= Pow2(k) then 2 * k else k
  {
    NewsStep(ops, same, op);
    hide IsNew, Pow2, Load, News;
    assert (ops + [op])[..|ops|] == ops;
  }

  lemma CurrentStep<K, V>(ops: Ops<K, V>, same: (K, K) -> bool, log2: nat, op: Op<K, V>, key: K)
    ensures Current(ops + [op], same, log2, key)
         == if op.Write? && Found(ops, same, op.look) && same(ops[op.look].key, key) && Live(ops, same, log2, op.look)
            then op.value else Current(ops, same, log2, key)
  {
    hide Found, Live;
    assert (ops + [op])[..|ops|] == ops;
  }

  lemma AfterLook<K, V>(ops: Ops<K, V>, same: (K, K) -> bool, log2: nat, k: K, insert: bool, key: K)
    ensures var op := Look(k, insert);
            var ops', n, g := ops + [op], News(ops, same), LogAfter(ops, same, log2);
            && (Inserted(ops', same, key) <==> (insert && same(k, key)) || Inserted(ops, same, key))
            && News(ops', same) == n + (if IsNew(ops, same, op) then 1 else 0)
            && LogAfter(ops', same, log2) == (if IsNew(ops, same, op) && Load(n + 1) >= Pow2(g) then 2 * g else g)
            && Current(ops', same, log2, key) == Current(ops, same, log2, key)
  {
    hide Pow2, Load, Inserted, News, LogAfter, Current, IsNew, Found, Live;
    var op: Op<K, V> := Look(k, insert);
    InsertedStep(ops, same, op, key);
    NewsStep(ops, same, op);
    LogStep(ops, same, log2, op);
    CurrentStep(ops, same, log2, op, key);
  }

  lemma AfterWrite<K, V>(ops: Ops<K, V>, same: (K, K) -> bool, log2: nat, j: nat, v: Option<V>, key: K)
    requires Found(ops, same, j)
    ensures var ops' := ops + [Write(j, v)];
            && (Inserted(ops', same, key) <==> Inserted(ops, same, key))
            && News(ops', same) == News(ops, same)
            && LogAfter(ops', same, log2) == LogAfter(ops, same, log2)
            && Current(ops', same, log2, key) == (if same(ops[j].key, key) && Live(ops, same, log2, j) then v
                                                  else Current(ops, same, log2, key))
  {
    var op: Op<K, V> := Write(j, v);
    assert !IsNew(ops, same, op);
    hide Pow2, Load, Inserted, News, LogAfter, Current, IsNew, Found, Live;
    InsertedStep(ops, same, op, key);
    NewsStep(ops, same, op);
    LogStep(ops, same, log2, op);
    CurrentStep(ops, same, log2, op, key);
  }

  // ----- The table agrees -----

  ghost predicate Shows<K(!new), V>(model: map<K, Option<V>>, same: (K, K) -> bool, key: K, present: bool,
        v: Option<V>) {
    && (Present(model, same, key) <==> present)
    && (forall q :: q in model && same(q, key) ==> model[q] == v)
    && (!present ==> v.None?)
  }

  /** Under every key the map shows what the run says. */
  ghost predicate Records<K(!new), V>(model: map<K, Option<V>>, same: (K, K) -> bool, log2: nat, ops: Ops<K, V>) {
    forall key :: Shows(model, same, key, Inserted(ops, same, key), Current(ops, same, log2, key))
  }

  ghost predicate Separate<K(!new), V>(model: map<K, Option<V>>, same: (K, K) -> bool) {
    forall a, b :: a in model && b in model && same(a, b) ==> a == b
  }

  lemma RecordsAt<K(!new), V>(model: map<K, Option<V>>, same: (K, K) -> bool, log2: nat, ops: Ops<K, V>, key: K)
    requires Records(model, same, log2, ops)
    ensures Shows(model, same, key, Inserted(ops, same, key), Current(ops, same, log2, key))
  {}

  lemma InsertShows<K(!new), V>(model: map<K, Option<V>>, hash: K -> nat, same: (K, K) -> bool, k: K, key: K,
                                present: bool, v: Option<V>)
    requires Laws(hash, same) && !Present(model, same, k) && Shows(model, same, key, present, v)
    ensures Shows(model[k := None], same, key, same(k, key) || present, v)
  {
    var model' := model[k := None];
    if same(k, key) {
      assert k in model';
      forall q | q in model' && same(q, key) ensures q == k {
        assert same(key, k) && same(q, k);
      }
    } else if present {
      var q :| q in model && same(q, key);
      assert q in model';
    }
  }

  lemma WriteShows<K(!new), V>(model: map<K, Option<V>>, hash: K -> nat, same: (K, K) -> bool, q: K, k: K,
        v': Option<V>,
                               key: K, present: bool, v: Option<V>)
    requires Laws(hash, same) && Separate(model, same) && q in model && same(q, k)
    requires Shows(model, same, key, present, v)
    ensures Shows(model[q := v'], same, key, present, if same(k, key) then v' else v)
  {
    var model' := model[q := v'];
    assert model'.Keys == model.Keys;
    assert Present(model', same, key) <==> Present(model, same, key);
    if same(k, key) {
      assert same(q, key);
      forall a | a in model' && same(a, key) ensures a == q {
        assert same(key, a) && same(q, a);
      }
    } else {
      assert same(k, q) && !same(q, key);
    }
  }

  /** A lookup that adds no key changes nothing. */
  lemma RecordsLook<K(!new), V>(model: map<K, Option<V>>, same: (K, K) -> bool, log2: nat, ops: Ops<K, V>,
                                k: K, insert: bool, hash: K -> nat)
    requires Laws(hash, same) && Records(model, same, log2, ops) && (insert ==> Inserted(ops, same, k))
    ensures Records(model, same, log2, ops + [Look(k, insert)])
  {
    hide Laws, Shows;
    var ops' := ops + [Look(k, insert)];
    assert ops'[..|ops|] == ops;
    forall key ensures Shows(model, same, key, Inserted(ops', same, key), Current(ops', same, log2, key)) {
      RecordsAt(model, same, log2, ops, key);
      if insert && same(k, key) { SameInserted(ops, hash, same, k, key); }
    }
  }

  lemma {:induction false} SameInserted<K(!new), V>(ops: Ops<K, V>, hash: K -> nat, same: (K, K) -> bool, k: K, key: K)
    requires Laws(hash, same) && Inserted(ops, same, k) && same(k, key)
    ensures Inserted(ops, same, key)
    decreases |ops|
  {
    var last := ops[|ops| - 1];
    if last.Look? && last.insert && same(last.key, k) {
      assert same(last.key, key);
    } else {
      SameInserted(ops[..|ops| - 1], hash, same, k, key);
    }
  }

  lemma RecordsNew<K(!new), V>(model: map<K, Option<V>>, hash: K -> nat, same: (K, K) -> bool, log2: nat,
                               ops: Ops<K, V>, k: K)
    requires Laws(hash, same) && Records(model, same, log2, ops) && !Present(model, same, k)
    ensures Records(model[k := None], same, log2, ops + [Look(k, true)])
  {
    hide Laws, Shows;
    var ops' := ops + [Look(k, true)];
    assert ops'[..|ops|] == ops;
    forall key ensures Shows(model[k := None], same, key, Inserted(ops', same, key), Current(ops', same, log2, key)) {
      RecordsAt(model, same, log2, ops, key);
      InsertShows(model, hash, same, k, key, Inserted(ops, same, key), Current(ops, same, log2, key));
    }
  }

  lemma RecordsWrite<K(!new), V>(model: map<K, Option<V>>, hash: K -> nat, same: (K, K) -> bool, log2: nat,
                                 ops: Ops<K, V>, j: nat, v: Option<V>, q: K)
    requires Laws(hash, same) && Separate(model, same) && Records(model, same, log2, ops) && Found(ops, same, j)
    requires q in model && same(q, ops[j].key)
    ensures Live(ops, same, log2, j) ==> Records(model[q := v], same, log2, ops + [Write(j, v)])
  {
    hide Laws, Shows, Separate;
    var ops' := ops + [Write(j, v)];
    assert ops'[..|ops|] == ops;
    if Live(ops, same, log2, j) {
      forall key ensures Shows(model[q := v], same, key, Inserted(ops', same, key), Current(ops', same, log2, key)) {
        RecordsAt(model, same, log2, ops, key);
        WriteShows(model, hash, same, q, ops[j].key, v, key, Inserted(ops, same, key), Current(ops, same, log2, key));
      }
    }
  }

  lemma RecordsLost<K(!new), V>(model: map<K, Option<V>>, same: (K, K) -> bool, log2: nat, ops: Ops<K, V>,
                                j: nat, v: Option<V>)
    requires Records(model, same, log2, ops) && Found(ops, same, j) && !Live(ops, same, log2, j)
    ensures Records(model, same, log2, ops + [Write(j, v)])
  {
    hide Shows;
    var ops' := ops + [Write(j, v)];
    assert ops'[..|ops|] == ops;
    forall key ensures Shows(model, same, key, Inserted(ops', same, key), Current(ops', same, log2, key)) {
      RecordsAt(model, same, log2, ops, key);
    }
  }

  lemma ModelSeparate<K(!new), V>(m: HashMap<K, V>)
    requires m.Valid()
    ensures Separate(m.model, m.same) && Laws(m.hash, m.same) && m.occupancy == |m.model|
  {
    hide Laws, Reachable, Pow2;
    var s := m.map_[..m.Capacity()];
    forall a, b | a in m.model && b in m.model && m.same(a, b) ensures a == b {
      var i := StoredAt(s, a);
      var j := StoredAt(s, b);
    }
  }

  // ----- Entries that have been handed out -----

  /** The current array and what is in its slots. */
  datatype Table<K, V> = Table(a: array<Entry<K, V>>, slots: seq<Entry<K, V>>)

  ghost function TableOf<K(!new), V>(m: HashMap<K, V>): Table<K, V>
    reads m, m.map_
  {
    Table(m.map_, if m.Capacity() <= m.map_.Length then m.map_[..m.Capacity()] else [])
  }

  /** What lookup j returned: nil, or an entry that is in the current array exactly while it is live. */
  ghost predicate RefOk<K(!new), V>(t: Table<K, V>, same: (K, K) -> bool, log2: nat, ops: Ops<K, V>, j: nat,
        p: Option<Ref<K, V>>)
    requires j < |ops|
  {
    && (p.Some? <==> Found(ops, same, j))
    && (p.Some? ==>
          && p.value.i < p.value.a.Length
          && (p.value.a == t.a <==> Live(ops, same, log2, j))
          && (p.value.a == t.a ==> p.value.i < |t.slots| && KeyIs(t.slots[p.value.i].key, same, ops[j].key)))
  }

  predicate KeyIs<K>(q: Option<K>, same: (K, K) -> bool, key: K) { q.Some? && same(q.value, key) }

  ghost predicate RefsOk<K(!new), V>(t: Table<K, V>, same: (K, K) -> bool, log2: nat, ops: Ops<K, V>, refs: Refs<K,
        V>) {
    |refs| == |ops| && forall j :: 0 <= j < |refs| ==> RefOk(t, same, log2, ops, j, refs[j])
  }

  /** The table is in the state that the run leads to. */
  ghost predicate InStep<K(!new), V>(m: HashMap<K, V>, log2: nat, ops: Ops<K, V>)
    reads m, m.map_
  {
    && m.Valid() && m.Roomy() && Records(m.model, m.same, log2, ops)
    && m.occupancy == News(ops, m.same) && m.log2_capacity == LogAfter(ops, m.same, log2)
    && FinalLog(m.log2_capacity) == FinalLog(log2)
  }

  lemma {:induction false} LogGrows<K, V>(ops: Ops<K, V>, same: (K, K) -> bool, log2: nat, j: nat)
    requires j <= |ops|
    ensures LogAfter(ops[..j], same, log2) <= LogAfter(ops, same, log2)
    decreases |ops|
  {
    hide Pow2, Load, IsNew, News;
    if j < |ops| {
      var before := ops[..|ops| - 1];
      LogGrows(before, same, log2, j);
      assert before[..j] == ops[..j];
    } else {
      assert ops[..j] == ops;
    }
  }

  lemma {:induction false} NewsGrow<K, V>(ops: Ops<K, V>, same: (K, K) -> bool, j: nat)
    requires j <= |ops|
    ensures News(ops[..j], same) <= News(ops, same)
    decreases |ops|
  {
    hide IsNew;
    if j < |ops| {
      var before := ops[..|ops| - 1];
      NewsGrow(before, same, j);
      assert before[..j] == ops[..j];
    } else {
      assert ops[..j] == ops;
    }
  }

  /** A later operation leaves what an earlier lookup found, and whether it is live depends on growth. */
  lemma LaterOp<K, V>(ops: Ops<K, V>, same: (K, K) -> bool, log2: nat, op: Op<K, V>, j: nat)
    requires j < |ops|
    ensures var ops' := ops + [op];
            && (Found(ops', same, j) <==> Found(ops, same, j)) && ops'[j] == ops[j]
            && (LogAfter(ops', same, log2) == LogAfter(ops, same, log2) ==>
                  (Live(ops', same, log2, j) <==> Live(ops, same, log2, j)))
            && (LogAfter(ops', same, log2) > LogAfter(ops, same, log2) ==> !Live(ops', same, log2, j))
  {
    hide Inserted, LogAfter;
    var ops' := ops + [op];
    assert ops'[..j] == ops[..j] && ops'[..j + 1] == ops[..j + 1];
    LogGrows(ops, same, log2, j + 1);
  }

  lemma LatestOp<K, V>(ops: Ops<K, V>, same: (K, K) -> bool, log2: nat, op: Op<K, V>)
    ensures var ops' := ops + [op];
            && (Found(ops', same, |ops|) <==> op.Look? && (op.insert || Inserted(ops, same, op.key)))
            && Live(ops', same, log2, |ops|)
  {
    hide Inserted, LogAfter;
    var ops' := ops + [op];
    assert ops'[..|ops|] == ops && ops'[..|ops| + 1] == ops';
  }

  /** Slots that hold a key keep it. */
  ghost predicate KeysKept<K(!new), V>(t: Table<K, V>, t': Table<K, V>) {
    && t.a == t'.a && |t.slots| == |t'.slots|
    && forall i :: 0 <= i < |t.slots| && t.slots[i].key.Some? ==> t'.slots[i].key == t.slots[i].key
  }

  /** Entries stay where they are unless the table grows. */
  lemma RefsKept<K(!new), V>(t: Table<K, V>, t': Table<K, V>, same: (K, K) -> bool, log2: nat, ops: Ops<K, V>,
        op: Op<K, V>,
                             refs: Refs<K, V>, p: Option<Ref<K, V>>)
    requires RefsOk(t, same, log2, ops, refs) && RefOk(t', same, log2, ops + [op], |ops|, p) && KeysKept(t, t')
    requires LogAfter(ops + [op], same, log2) == LogAfter(ops, same, log2)
    ensures RefsOk(t', same, log2, ops + [op], refs + [p])
  {
    hide Found, Live, LogAfter;
    var ops', refs' := ops + [op], refs + [p];
    forall j | 0 <= j < |refs'| ensures RefOk(t', same, log2, ops', j, refs'[j]) {
      if j < |ops| {
        LaterOp(ops, same, log2, op, j);
        assert RefOk(t, same, log2, ops, j, refs[j]);
      }
    }
  }

  /** Growth leaves all earlier entries behind. */
  lemma RefsStale<K(!new), V>(t: Table<K, V>, t': Table<K, V>, same: (K, K) -> bool, log2: nat, ops: Ops<K, V>,
        op: Op<K, V>,
                              refs: Refs<K, V>, p: Option<Ref<K, V>>)
    requires RefsOk(t, same, log2, ops, refs) && RefOk(t', same, log2, ops + [op], |ops|, p)
    requires forall j :: 0 <= j < |refs| && refs[j].Some? ==> refs[j].value.a != t'.a
    requires LogAfter(ops + [op], same, log2) > LogAfter(ops, same, log2)
    ensures RefsOk(t', same, log2, ops + [op], refs + [p])
  {
    hide Found, Live, LogAfter;
    var ops', refs' := ops + [op], refs + [p];
    forall j | 0 <= j < |refs'| ensures RefOk(t', same, log2, ops', j, refs'[j]) {
      if j < |ops| {
        LaterOp(ops, same, log2, op, j);
        assert RefOk(t, same, log2, ops, j, refs[j]);
      }
    }
  }

  /** A growing insertion that does not return. */
  ghost predicate Fails<K, V>(ops: Ops<K, V>, same: (K, K) -> bool, log2: nat, op: Op<K, V>) {
    && IsNew(ops, same, op) && Load(News(ops, same) + 1) >= Pow2(LogAfter(ops, same, log2))
    && !GrowthOutcome(LogAfter(ops, same, log2)).Returned?
  }

  lemma GrowsIs<K(!new), V>(m: HashMap<K, V>, log2: nat, ops: Ops<K, V>, key: K, insert: bool)
    requires InStep(m, log2, ops)
    ensures m.Grows(key, insert) <==>
            && IsNew(ops, m.same, Look(key, insert))
            && Load(News(ops, m.same) + 1) >= Pow2(LogAfter(ops, m.same, log2))
    ensures Present(m.model, m.same, key) <==> Inserted(ops, m.same, key)
    ensures Separate(m.model, m.same) && Laws(m.hash, m.same) && m.occupancy == |m.model|
    ensures Shows(m.model, m.same, key, Inserted(ops, m.same, key), Current(ops, m.same, log2, key))
  {
    ModelSeparate(m);
    RecordsAt(m.model, m.same, log2, ops, key);
    hide Laws, Reachable, Distinct, Agrees, Pow2, Records, Separate, Inserted, LogAfter, News, Current, FinalLog;
  }

  lemma FinalLogKept(k: nat)
    requires 1 <= k <= 5
    ensures FinalLog(2 * k) == FinalLog(k)
  {}

  /** A table that has taken a lookup's key, or had it, is in step with the longer run. */
  lemma LookedInStep<K(!new), V>(m: HashMap<K, V>, log2: nat, ops: Ops<K, V>, key: K, insert: bool,
                                 before: map<K, Option<V>>, k: nat)
    requires m.Valid() && m.Roomy() && Records(before, m.same, log2, ops)
    requires |before| == News(ops, m.same) && k == LogAfter(ops, m.same, log2) && FinalLog(k) == FinalLog(log2)
    requires if IsNew(ops, m.same, Look(key, insert))
             then !Present(before, m.same, key) && key !in before && m.model == before[key := None]
             else m.model == before
    requires if IsNew(ops, m.same, Look(key, insert)) && Load(News(ops, m.same) + 1) >= Pow2(k)
             then 1 <= k <= 5 && m.log2_capacity == 2 * k else m.log2_capacity == k
    ensures InStep(m, log2, ops + [Look(key, insert)])
  {
    ModelSeparate(m);
    AfterLook(ops, m.same, log2, key, insert, key);
    if 1 <= k <= 5 { FinalLogKept(k); }
    hide Laws, Reachable, Distinct, Agrees, Pow2, Records, Separate, Inserted, LogAfter, News, Current, FinalLog,
         Present;
    if IsNew(ops, m.same, Look(key, insert)) {
      RecordsNew(before, m.hash, m.same, log2, ops, key);
    } else {
      RecordsLook(before, m.same, log2, ops, key, insert, m.hash);
    }
  }

  lemma InStepParts<K(!new), V>(m: HashMap<K, V>, log2: nat, ops: Ops<K, V>)
    requires InStep(m, log2, ops)
    ensures m.Valid() && m.Roomy() && Records(m.model, m.same, log2, ops) && |m.model| == News(ops, m.same)
    ensures m.log2_capacity == LogAfter(ops, m.same, log2) && FinalLog(m.log2_capacity) == FinalLog(log2)
  {
    ModelSeparate(m);
    hide Laws, Reachable, Distinct, Agrees, Pow2, Records, Separate, Inserted, LogAfter, News, Current, FinalLog;
  }

  lemma SlotsKept<K(!new), V>(m: HashMap<K, V>, a: array<Entry<K, V>>, s: seq<Entry<K, V>>)
    requires m.Valid() && m.map_ == a && |s| == a.Length
    requires forall i :: 0 <= i < a.Length && s[i].key.Some? ==> a[i].key == s[i].key
    ensures m.Capacity() <= |s| && KeysKept(Table(a, s[..m.Capacity()]), TableOf(m))
  {
    hide Laws, Reachable, Distinct, Agrees, Pow2;
  }

  /** One lookup on a table that is in step with ops. */
  method LookUp<K(!new), V>(m: HashMap<K, V>, key: K, insert: bool, fuel: nat, ghost log2: nat, ghost ops: Ops<K, V>)
      returns (o: Outcome, p: Option<Ref<K, V>>, r: Option<Option<V>>)
    requires InStep(m, log2, ops) && fuel >= 1
    modifies m, m.map_
    ensures o.Returned? <==> !Fails(ops, m.same, log2, Look(key, insert))
    ensures o.Returned? ==> InStep(m, log2, ops + [Look(key, insert)])
    ensures o.Returned? ==> r == Observed(ops, m.same, log2, key, insert)
    ensures o.Returned? ==> (p.Some? <==> insert || Inserted(ops, m.same, key))
    ensures p.Some? ==> o.Returned? && p.value.a == m.map_ && m.Holds(p.value.i, key)
    ensures o.Returned? ==>
              if m.log2_capacity == old(m.log2_capacity) then KeysKept(old(TableOf(m)), TableOf(m)) else fresh(m.map_)
  {
    GrowsIs(m, log2, ops, key, insert);
    InStepParts(m, log2, ops);
    hide Laws, Reachable, Distinct, Agrees, Pow2, Records, Separate, Inserted, LogAfter, News, Current, FinalLog,
         InStep, KeysKept, Present, IsNew;
    ghost var before, k, s, isNew := m.model, m.log2_capacity, m.map_[..], IsNew(ops, m.same, Look(key, insert));
    assert isNew <==> insert && !Inserted(ops, m.same, key) by { IsNewIs(ops, m.same, key, insert); }
    o, p := m.Lookup(key, insert, fuel);
    r := None;
    if !o.Returned? { p := None; return; }
    if p.Some? { r := Some(m.map_[p.value.i].value); }
    LookedInStep(m, log2, ops, key, insert, before, k);
    if m.log2_capacity == k { SlotsKept(m, m.map_, s); }
  }

  lemma IsNewIs<K, V>(ops: Ops<K, V>, same: (K, K) -> bool, key: K, insert: bool)
    ensures IsNew(ops, same, Look(key, insert)) <==> insert && !Inserted(ops, same, key)
  {}

  lemma LatestRef<K(!new), V>(m: HashMap<K, V>, log2: nat, ops: Ops<K, V>, op: Op<K, V>, p: Option<Ref<K, V>>)
    requires m.Valid() && (p.Some? <==> op.Look? && (op.insert || Inserted(ops, m.same, op.key)))
    requires p.Some? ==> p.value.a == m.map_ && m.Holds(p.value.i, op.key)
    ensures RefOk(TableOf(m), m.same, log2, ops + [op], |ops|, p)
  {
    LatestOp(ops, m.same, log2, op);
    hide Laws, Reachable, Distinct, Agrees, Pow2, Inserted, Found, Live;
  }

  /** One lookup, keeping the entries handed out so far. */
  method DoLook<K(!new), V>(m: HashMap<K, V>, key: K, insert: bool, fuel: nat, ghost log2: nat, ghost ops: Ops<K, V>,
                            refs: Refs<K, V>)
      returns (o: Outcome, refs': Refs<K, V>, r: Option<Option<V>>)
    requires InStep(m, log2, ops) && RefsOk(TableOf(m), m.same, log2, ops, refs) && fuel >= 1
    modifies m, m.map_
    ensures o.Returned? <==> !Fails(ops, m.same, log2, Look(key, insert))
    ensures o.Returned? ==> InStep(m, log2, ops + [Look(key, insert)])
    ensures o.Returned? ==> RefsOk(TableOf(m), m.same, log2, ops + [Look(key, insert)], refs')
    ensures o.Returned? ==> m.map_ == old(m.map_) || fresh(m.map_)
    ensures o.Returned? ==> refs <= refs' && |refs'| == |refs| + 1
    ensures o.Returned? && refs'[|refs|].Some? ==> refs'[|refs|].value.a == m.map_
    ensures o.Returned? ==> r == Observed(ops, m.same, log2, key, insert)
  {
    ghost var op: Op<K, V>, t := Look(key, insert), TableOf(m);
    InStepParts(m, log2, ops);
    LogGrowsBy(ops, m.same, log2, op);
    hide *;
    var p;
    refs' := refs;
    o, p, r := LookUp(m, key, insert, fuel, log2, ops);
    if o.Returned? {
      refs' := refs + [p];
      InStepParts(m, log2, ops + [op]);
      LatestRef(m, log2, ops, op, p);
      if m.log2_capacity == old(m.log2_capacity) {
        SameArray(t, TableOf(m));
        RefsKept(t, TableOf(m), m.same, log2, ops, op, refs, p);
      } else {
        RefsStale(t, TableOf(m), m.same, log2, ops, op, refs, p);
      }
    }
  }

  lemma SameArray<K(!new), V>(t: Table<K, V>, t': Table<K, V>)
    requires KeysKept(t, t')
    ensures t.a == t'.a
  {}

  lemma LogGrowsBy<K, V>(ops: Ops<K, V>, same: (K, K) -> bool, log2: nat, op: Op<K, V>)
    ensures LogAfter(ops + [op], same, log2) >= LogAfter(ops, same, log2)
  {
    LogStep(ops, same, log2, op);
  }

  /** A table that has taken a write through a live entry, or has not seen one through a stale entry, is
      in step with the longer run. */
  lemma WrittenInStep<K(!new), V>(m: HashMap<K, V>, log2: nat, ops: Ops<K, V>, j: nat, v: Option<V>,
                                  before: map<K, Option<V>>, q: K)
    requires m.Valid() && Records(before, m.same, log2, ops) && Separate(before, m.same) && Found(ops, m.same, j)
    requires m.occupancy == News(ops, m.same) && m.Roomy()
    requires m.log2_capacity == LogAfter(ops, m.same, log2) && FinalLog(m.log2_capacity) == FinalLog(log2)
    requires if Live(ops, m.same, log2, j) then q in before && m.same(q, ops[j].key) && m.model == before[q := v]
             else m.model == before
    ensures InStep(m, log2, ops + [Write(j, v)])
  {
    ModelSeparate(m);
    AfterWrite(ops, m.same, log2, j, v, ops[j].key);
    hide Laws, Reachable, Distinct, Agrees, Pow2, Records, Separate, Inserted, LogAfter, News, Current, FinalLog,
         Present, Found, Live;
    if Live(ops, m.same, log2, j) {
      RecordsWrite(before, m.hash, m.same, log2, ops, j, v, q);
    } else {
      RecordsLost(before, m.same, log2, ops, j, v);
    }
  }

  /** One write through an entry, whatever became of the entry's array. */
  method DoWrite<K(!new), V>(m: HashMap<K, V>, j: nat, v: Option<V>, ghost log2: nat, ghost ops: Ops<K, V>,
                             refs: Refs<K, V>)
    requires InStep(m, log2, ops) && RefsOk(TableOf(m), m.same, log2, ops, refs) && Found(ops, m.same, j)
    requires j < |refs| && refs[j].Some?
    modifies m`model, refs[j].value.a
    ensures InStep(m, log2, ops + [Write(j, v)])
    ensures RefsOk(TableOf(m), m.same, log2, ops + [Write(j, v)], refs + [None])
  {
    hide *;
    InStepParts(m, log2, ops);
    ModelSeparate(m);
    FoundIs(ops, m.same, j);
    AfterWrite(ops, m.same, log2, j, v, ops[j].key);
    EntryOf(m, log2, ops, j, refs);
    TableIs(m);
    ghost var op: Op<K, V>, t, before, s := Write(j, v), TableOf(m), m.model, m.map_[..];
    var p := refs[j].value;
    ghost var q := if p.a == m.map_ then m.map_[p.i].key.value else ops[j].key;
    m.Write(p, v);
    WrittenInStep(m, log2, ops, j, v, before, q);
    SlotsKept(m, m.map_, s);
    LatestRef(m, log2, ops, op, None);
    RefsKept(t, TableOf(m), m.same, log2, ops, op, refs, None);
  }

  lemma FoundIs<K, V>(ops: Ops<K, V>, same: (K, K) -> bool, j: nat)
    requires Found(ops, same, j)
    ensures j < |ops| && ops[j].Look?
  {}

  lemma TableIs<K(!new), V>(m: HashMap<K, V>)
    requires m.Valid()
    ensures m.Capacity() <= m.map_.Length && TableOf(m) == Table(m.map_, m.map_[..][..m.Capacity()])
  {
    hide Laws, Reachable, Distinct, Agrees, Pow2;
  }

  lemma EntryOf<K(!new), V>(m: HashMap<K, V>, log2: nat, ops: Ops<K, V>, j: nat, refs: Refs<K, V>)
    requires m.Valid() && RefsOk(TableOf(m), m.same, log2, ops, refs) && j < |refs| && refs[j].Some?
    requires Found(ops, m.same, j)
    ensures var p := refs[j].value;
            && p.i < p.a.Length && (p.a == m.map_ <==> Live(ops, m.same, log2, j))
            && (p.a == m.map_ ==>
                  p.i < m.Capacity() && m.map_[p.i].key.Some? && m.same(m.map_[p.i].key.value, ops[j].key))
  {
    hide Laws, Reachable, Distinct, Agrees, Pow2, Found, Live;
    assert RefOk(TableOf(m), m.same, log2, ops, j, refs[j]);
  }

  // ----- Runs -----

  /** What the lookups of a run have seen; writes see nothing. */
  function Answer<K, V>(ops: Ops<K, V>, same: (K, K) -> bool, log2: nat, op: Op<K, V>): Option<Option<V>> {
    if op.Look? then Observed(ops, same, log2, op.key, op.insert) else None
  }

  ghost predicate Answers<K, V>(results: Results<V>, same: (K, K) -> bool, log2: nat, ops: Ops<K, V>) {
    |results| <= |ops| && forall j :: 0 <= j < |results| ==> results[j] == Answer(ops[..j], same, log2, ops[j])
  }

  lemma AnswersMore<K, V>(results: Results<V>, same: (K, K) -> bool, log2: nat, ops: Ops<K, V>, r: Option<Option<V>>)
    requires Answers(results, same, log2, ops) && |results| < |ops|
    requires r == Answer(ops[..|results|], same, log2, ops[|results|])
    ensures Answers(results + [r], same, log2, ops)
  {
    hide Answer;
  }

  /** All the keys inserted fit into the largest table that growth leads to. */
  predicate Fits<K, V>(ops: Ops<K, V>, same: (K, K) -> bool, log2: nat) {
    Load(News(ops, same)) < Pow2(FinalLog(log2))
  }

  lemma FailureDoesNotFit<K, V>(ops: Ops<K, V>, k: nat, same: (K, K) -> bool, log2: nat)
    requires k < |ops| && Fails(ops[..k], same, log2, ops[k])
    requires FinalLog(LogAfter(ops[..k], same, log2)) == FinalLog(log2)
    ensures !Fits(ops, same, log2)
  {
    hide IsNew, News, LogAfter, Pow2;
    NewsStep(ops[..k], same, ops[k]);
    NewsGrow(ops, same, k + 1);
    assert ops[..k + 1] == ops[..k] + [ops[k]];
    LoadGrows(News(ops[..k + 1], same), News(ops, same));
  }

  lemma LoadGrows(a: nat, b: nat)
    requires a <= b
    ensures Load(a) <= Load(b)
  {}

  lemma RoomyFits<K(!new), V>(m: HashMap<K, V>, log2: nat, ops: Ops<K, V>)
    requires InStep(m, log2, ops)
    ensures Fits(ops, m.same, log2)
  {
    FinalLogLarger(m.log2_capacity);
    Pow2Grows(m.log2_capacity, FinalLog(m.log2_capacity));
    hide Laws, Reachable, Distinct, Agrees, Pow2, Records, LogAfter, News, FinalLog;
  }

  ghost predicate RefsIn<K(!new), V>(refs: Refs<K, V>, arrays: Arrays<K, V>) {
    forall j :: 0 <= j < |refs| && refs[j].Some? ==> refs[j].value.a in arrays
  }

  lemma RefsInMore<K(!new), V>(refs: Refs<K, V>, arrays: Arrays<K, V>, p: Option<Ref<K, V>>, a: array<Entry<K, V>>)
    requires RefsIn(refs, arrays) && (p.Some? ==> p.value.a == a)
    ensures RefsIn(refs + [p], arrays + {a})
  {}

  lemma StartOnTrack<K(!new), V>(m: HashMap<K, V>, ops: Ops<K, V>, arrays: Arrays<K, V>)
    requires m.Valid() && m.model == map[]
    ensures OnTrack(m, m.log2_capacity, ops, 0, [], []) && RefsIn([], arrays)
  {
    hide Laws, Reachable, Distinct, Agrees, Pow2;
  }

  /** One operation of a run. */
  method DoOp<K(!new), V>(m: HashMap<K, V>, op: Op<K, V>, fuel: nat, ghost log2: nat, ghost ops: Ops<K, V>,
                          refs: Refs<K, V>, ghost arrays: Arrays<K, V>)
      returns (o: Outcome, refs': Refs<K, V>, r: Option<Option<V>>)
    requires InStep(m, log2, ops) && RefsOk(TableOf(m), m.same, log2, ops, refs) && fuel >= 1
    requires m.map_ in arrays && RefsIn(refs, arrays) && (op.Write? ==> Found(ops, m.same, op.look))
    modifies m, arrays
    ensures o.Returned? <==> !Fails(ops, m.same, log2, op)
    ensures o.Returned? ==> InStep(m, log2, ops + [op]) && RefsOk(TableOf(m), m.same, log2, ops + [op], refs')
    ensures o.Returned? ==> |refs'| == |refs| + 1 && RefsIn(refs', arrays + {m.map_})
    ensures o.Returned? ==> m.map_ in arrays || fresh(m.map_)
    ensures o.Returned? ==> r == Answer(ops, m.same, log2, op)
  {
    hide *;
    r, o := None, Returned;
    match op {
      case Look(key, insert) =>
        o, refs', r := DoLook(m, key, insert, fuel, log2, ops, refs);
        if o.Returned? {
          RefsInMore(refs, arrays, refs'[|refs|], m.map_);
          assert refs' == refs + [refs'[|refs|]];
        }
      case Write(j, v) =>
        WriteTarget(m, ops, j, log2, refs, arrays);
        DoWrite(m, j, v, log2, ops, refs);
        refs' := refs + [None];
        RefsInMore(refs, arrays, None, m.map_);
        WriteNeverFails(ops, m.same, log2, op);
    }
    if o.Returned? { AnswerIs(ops, m.same, log2, op, r); }
  }

  lemma WriteNeverFails<K, V>(ops: Ops<K, V>, same: (K, K) -> bool, log2: nat, op: Op<K, V>)
    requires op.Write?
    ensures !Fails(ops, same, log2, op)
  {}

  lemma SensibleAt<K, V>(ops: Ops<K, V>, same: (K, K) -> bool, k: nat)
    requires Sensible(ops, same) && k < |ops|
    ensures ops[k].Write? ==> Found(ops[..k], same, ops[k].look)
  {}

  /** After k operations the table is in step, and the lookups so far have seen what they should. */
  ghost predicate OnTrack<K(!new), V>(m: HashMap<K, V>, log2: nat, ops: Ops<K, V>, k: nat,
                                      refs: Refs<K, V>, results: Results<V>)
    reads m, m.map_
  {
    && k <= |ops| && |refs| == k == |results|
    && InStep(m, log2, ops[..k]) && RefsOk(TableOf(m), m.same, log2, ops[..k], refs)
    && Answers(results, m.same, log2, ops)
  }

  method RunStep<K(!new), V>(m: HashMap<K, V>, ops: Ops<K, V>, k: nat, fuel: nat, ghost log2: nat,
                             refs: Refs<K, V>, results: Results<V>, ghost arrays: Arrays<K, V>)
      returns (o: Outcome, refs': Refs<K, V>, results': Results<V>)
    requires k < |ops| && Sensible(ops, m.same) && fuel >= 1 && OnTrack(m, log2, ops, k, refs, results)
    requires m.map_ in arrays && RefsIn(refs, arrays)
    modifies m, arrays
    ensures o.Returned? ==> OnTrack(m, log2, ops, k + 1, refs', results') && RefsIn(refs', arrays + {m.map_})
    ensures o.Returned? ==> m.map_ in arrays || fresh(m.map_)
    ensures !o.Returned? ==> !Fits(ops, m.same, log2) && results' == results
  {
    hide *;
    SensibleAt(ops, m.same, k);
    TrackParts(m, log2, ops, k, refs, results);
    var r;
    o, refs', r := DoOp(m, ops[k], fuel, log2, ops[..k], refs, arrays);
    results' := results;
    if o.Returned? {
      results' := results + [r];
      TrackNext(m, log2, ops, k, refs', results, r);
    } else {
      FailureDoesNotFit(ops, k, m.same, log2);
    }
  }

  lemma TrackParts<K(!new), V>(m: HashMap<K, V>, log2: nat, ops: Ops<K, V>, k: nat, refs: Refs<K, V>,
        results: Results<V>)
    requires OnTrack(m, log2, ops, k, refs, results)
    ensures k <= |ops| && |refs| == k == |results| && Answers(results, m.same, log2, ops)
    ensures InStep(m, log2, ops[..k]) && RefsOk(TableOf(m), m.same, log2, ops[..k], refs)
    ensures FinalLog(LogAfter(ops[..k], m.same, log2)) == FinalLog(log2)
  {
    hide InStep, RefsOk, Answers;
    InStepParts(m, log2, ops[..k]);
  }

  lemma TrackNext<K(!new), V>(m: HashMap<K, V>, log2: nat, ops: Ops<K, V>, k: nat, refs: Refs<K, V>,
        results: Results<V>, r: Option<Option<V>>)
    requires k < |ops| && |refs| == k + 1 && |results| == k && Answers(results, m.same, log2, ops)
    requires InStep(m, log2, ops[..k] + [ops[k]]) && RefsOk(TableOf(m), m.same, log2, ops[..k] + [ops[k]], refs)
    requires r == Answer(ops[..k], m.same, log2, ops[k])
    ensures OnTrack(m, log2, ops, k + 1, refs, results + [r])
  {
    hide InStep, RefsOk, Answers, Answer;
    assert ops[..k + 1] == ops[..k] + [ops[k]];
    AnswersMore(results, m.same, log2, ops, r);
  }

  lemma TrackEnds<K(!new), V>(m: HashMap<K, V>, log2: nat, ops: Ops<K, V>, refs: Refs<K, V>, results: Results<V>)
    requires OnTrack(m, log2, ops, |ops|, refs, results)
    ensures m.Valid() && Fits(ops, m.same, log2) && |results| == |ops|
  {
    hide InStep, RefsOk, Answers, Fits;
    assert ops[..|ops|] == ops;
    InStepParts(m, log2, ops);
    RoomyFits(m, log2, ops);
  }

  lemma TrackAnswers<K(!new), V>(m: HashMap<K, V>, log2: nat, ops: Ops<K, V>, k: nat, refs: Refs<K, V>,
                                 results: Results<V>)
    requires OnTrack(m, log2, ops, k, refs, results)
    ensures Answers(results, m.same, log2, ops)
  {}

  /** Any run of lookups and of writes through the entries they returned, from an empty table.  It
      completes if and only if the keys inserted fit, and every lookup sees exactly what the run says. */
  method Run<K(!new), V>(m: HashMap<K, V>, ops: Ops<K, V>, fuel: nat) returns (o: Outcome, results: Results<V>)
    requires m.Valid() && m.model == map[] && Sensible(ops, m.same) && fuel >= 1
    modifies m, m.map_
    ensures o.Returned? <==> Fits(ops, m.same, old(m.log2_capacity))
    ensures Answers(results, m.same, old(m.log2_capacity), ops)
    ensures o.Returned? ==> |results| == |ops| && m.Valid()
  {
    hide *;
    var refs: Refs<K, V> := [];
    o, results := Returned, [];
    ghost var log2, arrays := m.log2_capacity, {m.map_};
    StartOnTrack(m, ops, arrays);
    for k := 0 to |ops|
      invariant OnTrack(m, log2, ops, k, refs, results) && o.Returned?
      invariant m.map_ in arrays && RefsIn(refs, arrays)
      invariant forall a :: a in arrays ==> a == old(m.map_) || fresh(a)
    {
      TrackAnswers(m, log2, ops, k, refs, results);
      o, refs, results := RunStep(m, ops, k, fuel, log2, refs, results, arrays);
      if !o.Returned? { return; }
      arrays := arrays + {m.map_};
    }
    TrackEnds(m, log2, ops, refs, results);
    TrackAnswers(m, log2, ops, |ops|, refs, results);
  }

  lemma AnswerIs<K, V>(ops: Ops<K, V>, same: (K, K) -> bool, log2: nat, op: Op<K, V>, r: Option<Option<V>>)
    requires if op.Look? then r == Observed(ops, same, log2, op.key, op.insert) else r == None
    ensures r == Answer(ops, same, log2, op)
  {}

  lemma WriteTarget<K(!new), V>(m: HashMap<K, V>, ops: Ops<K, V>, j: nat, log2: nat, refs: Refs<K, V>,
                                arrays: Arrays<K, V>)
    requires Found(ops, m.same, j) && RefsOk(TableOf(m), m.same, log2, ops, refs) && RefsIn(refs, arrays)
    ensures j < |refs| && refs[j].Some? && refs[j].value.a in arrays
  {
    hide Live, Inserted, LogAfter;
    assert RefOk(TableOf(m), m.same, log2, ops, j, refs[j]);
  }
}
