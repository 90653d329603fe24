/** The demand-channel splitter of testsuit/chan/powser1.go as a state machine.
    Every generation of dosplit is a process; a generation's release channel leads to the
    generation it spawned, so the live generations form a chain, oldest first.  The array out is
    shared, and channel operands are fixed when a process starts to wait: an exchange of out while
    another generation waits would leave that generation waiting on the wrong channel. */
module Split {
  import opened Rational

  /** The two physical output channels. */
  datatype Side = Left | Right

  function Other(c: Side): Side { if c == Left then Right else Left }

  datatype Pc =
    | Starting       // has not reached its first select
    | Choosing       // select: out[0].req or wait
    | Released       // took the release signal first
    | ChoosingBoth   // select: out[0].req or out[1].req
    | Exchanging     // the request came on out[1]
    | Asking         // in.req <-
    | Spawning       // go dosplit
    | Awaiting       // <-in.dat
    | Loaded         // has the item
    | Sending0       // out[0].dat <-
    | Waiting        // <-wait
    | Holding        // has the item and the release signal
    | Serving        // <-out[1].req
    | Served         // took the request on out[1]
    | Sending1       // out[1].dat <-
    | Releasing      // release <-

  /** A generation: its place in the code, its locals, and the channel operands it waits with. */
  datatype Gen = Gen(pc: Pc, both: bool, dat: Rat, c0: Side, c1: Side)

  function Newborn(): Gen { Gen(Starting, false, ZERO, Left, Left) }

  /** A consumer that has sent a request is waiting for its item. */
  datatype Consumer = Consumer(got: seq<Rat>, waiting: bool)

  /** fed counts the items the source has delivered; asked says it owes one. */
  datatype State = State(gens: seq<Gen>, out0: Side, fed: nat, asked: bool, left: Consumer, right: Consumer) {
    function At(c: Side): Consumer { if c == Left then left else right }

    function With(c: Side, x: Consumer): State { if c == Left then this.(left := x) else this.(right := x) }

    function WithGen(i: nat, g: Gen): State
      requires i < |gens|
    {
      this.(gens := gens[i := g])
    }

    function Out1(): Side { Other(out0) }
  }

  /** split starts the first generation and then stands in for an older one that releases it. */
  function Initial(): State {
    State([Newborn().(pc := Releasing), Newborn()], Left, 0, false, Consumer([], false), Consumer([], false))
  }

  datatype Step =
    | Evaluate(i: nat)             // evaluate channel operands
    | Exchange(i: nat)             // out[0], out[1] = out[1], out[0]
    | Request(i: nat, c: Side)     // consumer c sends a request and generation i takes it
    | Ask(i: nat)
    | Spawn(i: nat)
    | Deliver(i: nat)
    | Send0(i: nat)
    | Send1(i: nat)
    | Release(i: nat)

  predicate Enabled(s: State, t: Step) {
    && t.i < |s.gens|
    && var g := s.gens[t.i];
       match t
       case Evaluate(_) => g.pc.Starting? || g.pc.Released? || g.pc.Loaded? || g.pc.Holding? || g.pc.Served?
       case Exchange(_) => g.pc.Exchanging?
       case Request(_, c) =>
         && !s.At(c).waiting
         && (|| ((g.pc.Choosing? || g.pc.ChoosingBoth?) && g.c0 == c)
             || ((g.pc.ChoosingBoth? || g.pc.Serving?) && g.c1 == c))
       case Ask(_) => g.pc.Asking? && !s.asked
       case Spawn(_) => g.pc.Spawning?
       case Deliver(_) => g.pc.Awaiting? && s.asked
       case Send0(_) => g.pc.Sending0? && s.At(g.c0).waiting
       case Send1(_) => g.pc.Sending1? && s.At(g.c1).waiting
       case Release(i) =>
         g.pc.Releasing? && i + 1 < |s.gens| && (s.gens[i + 1].pc.Choosing? || s.gens[i + 1].pc.Waiting?)
  }

  function Evaluated(g: Gen, out0: Side): Gen
    requires g.pc.Starting? || g.pc.Released? || g.pc.Loaded? || g.pc.Holding? || g.pc.Served?
  {
    match g.pc
    case Starting => g.(pc := Choosing, c0 := out0)
    case Released => g.(pc := ChoosingBoth, c0 := out0, c1 := Other(out0))
    case Loaded => g.(pc := Sending0, c0 := out0)
    case Holding => g.(pc := Serving, c1 := Other(out0))
    case Served => g.(pc := Sending1, c1 := Other(out0))
  }

  function Requested(g: Gen, c: Side): Gen
    requires g.pc.Choosing? || g.pc.ChoosingBoth? || g.pc.Serving?
  {
    match g.pc
    case Choosing => g.(pc := Asking)
    case ChoosingBoth => g.(pc := if c == g.c0 then Asking else Exchanging)
    case Serving => g.(pc := Served)
  }

  /** What the successor becomes when it is released. */
  function ReleasedGen(h: Gen): Gen
    requires h.pc.Choosing? || h.pc.Waiting?
  {
    if h.pc.Choosing? then h.(pc := Released, both := true) else h.(pc := Holding)
  }

  /** What the generation becomes that has sent its item to out[0]. */
  function Sent0(g: Gen): Gen { g.(pc := if g.both then Holding else Waiting) }

  function Receive(x: Consumer, d: Rat): Consumer { Consumer(x.got + [d], false) }

  function Do(input: nat -> Rat, s: State, t: Step): State
    requires Enabled(s, t)
  {
    var g := s.gens[t.i];
    match t
    case Evaluate(i) => s.WithGen(i, Evaluated(g, s.out0))
    case Exchange(i) => s.WithGen(i, g.(pc := Asking)).(out0 := Other(s.out0))
    case Request(i, c) => s.WithGen(i, Requested(g, c)).With(c, s.At(c).(waiting := true))
    case Ask(i) => s.WithGen(i, g.(pc := Spawning)).(asked := true)
    case Spawn(i) => s.(gens := s.gens[..i] + [g.(pc := Awaiting), Newborn()] + s.gens[i + 1..])
    case Deliver(i) => s.WithGen(i, g.(pc := Loaded, dat := input(s.fed))).(fed := s.fed + 1, asked := false)
    case Send0(i) =>
      s.WithGen(i, Sent0(g)).With(g.c0, Receive(s.At(g.c0), g.dat))
    case Send1(i) => s.WithGen(i, g.(pc := Releasing)).With(g.c1, Receive(s.At(g.c1), g.dat))
    case Release(i) =>
      s.(gens := s.gens[..i] + [ReleasedGen(s.gens[i + 1])] + s.gens[i + 2..])
  }

  // ----- The invariant -----

  /** Has not spawned its successor yet. */
  predicate Fresh(g: Gen) {
    || g.pc.Starting? || g.pc.Choosing? || g.pc.Released? || g.pc.ChoosingBoth? || g.pc.Exchanging?
    || g.pc.Asking? || g.pc.Spawning?
  }

  /** Is fetching an item that consumer out[0] waits for. */
  predicate Loading(g: Gen) { g.pc.Awaiting? || g.pc.Loaded? || g.pc.Sending0? }

  /** Holds an item that out[0] has and out[1] has not. */
  predicate Held(g: Gen) {
    g.pc.Waiting? || g.pc.Holding? || g.pc.Serving? || g.pc.Served? || g.pc.Sending1?
  }

  predicate OperandsCurrent(g: Gen, out0: Side) {
    && (g.pc.Choosing? || g.pc.ChoosingBoth? || g.pc.Sending0? ==> g.c0 == out0)
    && (g.pc.ChoosingBoth? || g.pc.Serving? || g.pc.Sending1? ==> g.c1 == Other(out0))
  }

  /** The oldest generation, and it alone, has had its release signal. */
  predicate OldestOk(g: Gen) {
    && !g.pc.Starting? && !g.pc.Choosing? && !g.pc.Waiting?
    && (g.both || g.pc.Holding? || g.pc.Serving? || g.pc.Served? || g.pc.Sending1? || g.pc.Releasing?)
  }

  predicate YoungerOk(g: Gen) {
    && !g.both
    && (|| g.pc.Starting? || g.pc.Choosing? || g.pc.Asking? || g.pc.Spawning? || g.pc.Awaiting?
        || g.pc.Loaded? || g.pc.Sending0? || g.pc.Waiting?)
  }

  predicate LoadingNow(gens: seq<Gen>) { |gens| >= 2 && Loading(gens[|gens| - 2]) }

  /** Only the newest generation has no successor, and only the next one may still be loading. */
  ghost predicate Chain(gens: seq<Gen>, out0: Side) {
    && |gens| >= 1
    && OldestOk(gens[0])
    && (forall i :: 1 <= i < |gens| ==> YoungerOk(gens[i]))
    && (forall i :: 0 <= i < |gens| ==> OperandsCurrent(gens[i], out0))
    && (forall i :: 0 <= i < |gens| ==> (Fresh(gens[i]) <==> i == |gens| - 1))
    && (forall i :: 0 <= i < |gens| ==> Loading(gens[i]) ==> i == |gens| - 2)
    && (LoadingNow(gens) ==> Undecided(gens[|gens| - 1]))
  }

  predicate Undecided(g: Gen) { g.pc.Starting? || g.pc.Choosing? }

  /** An oldest generation that is about to release has handed its item on already. */
  function Spent(gens: seq<Gen>): nat { if |gens| >= 1 && gens[0].pc.Releasing? then 1 else 0 }

  ghost predicate IsPrefix(got: seq<Rat>, input: nat -> Rat) {
    forall j :: 0 <= j < |got| ==> got[j] == input(j)
  }

  /** The generations hold the items that one consumer has and the other has not, oldest first. */
  ghost predicate Items(input: nat -> Rat, gens: seq<Gen>, ahead: nat, behind: nat) {
    && ahead == behind + |gens| - 1 - Spent(gens) - (if LoadingNow(gens) then 1 else 0)
    && (forall i :: 0 <= i < |gens| && Held(gens[i]) ==>
          behind + i >= Spent(gens) && gens[i].dat == input(behind + i - Spent(gens)))
    && (LoadingNow(gens) && !gens[|gens| - 2].pc.Awaiting? ==> gens[|gens| - 2].dat == input(ahead))
  }

  /** What the source and the consumers wait for. */
  ghost predicate Signals(s: State)
    requires |s.gens| >= 1
  {
    var last := s.gens[|s.gens| - 1];
    var awaiting := LoadingNow(s.gens) && s.gens[|s.gens| - 2].pc.Awaiting?;
    && s.fed == |s.At(s.out0).got| + (if LoadingNow(s.gens) && !awaiting then 1 else 0)
    && (s.asked <==> last.pc.Spawning? || awaiting)
    && (s.At(s.out0).waiting <==> LoadingNow(s.gens) || last.pc.Asking? || last.pc.Spawning?)
    && (s.At(s.Out1()).waiting <==> Serviced(s.gens[0]))
  }

  predicate Serviced(g: Gen) { g.pc.Served? || g.pc.Sending1? || g.pc.Exchanging? }

  ghost predicate Inv(input: nat -> Rat, s: State) {
    && Chain(s.gens, s.out0)
    && IsPrefix(s.left.got, input) && IsPrefix(s.right.got, input)
    && Items(input, s.gens, |s.At(s.out0).got|, |s.At(s.Out1()).got|)
    && Signals(s)
  }

  lemma InitialInv(input: nat -> Rat)
    ensures Inv(input, Initial())
  {}

  // ----- Steps that change one generation and not what it holds -----

  predicate SameRole(g: Gen, h: Gen) {
    && (Fresh(g) <==> Fresh(h)) && (Loading(g) <==> Loading(h)) && (Held(g) <==> Held(h))
    && (g.pc.Releasing? <==> h.pc.Releasing?) && (g.pc.Awaiting? <==> h.pc.Awaiting?)
    && g.dat == h.dat
  }

  lemma ReplaceChain(gens: seq<Gen>, out0: Side, i: nat, h: Gen)
    requires Chain(gens, out0) && i < |gens|
    requires (Fresh(gens[i]) <==> Fresh(h)) && (Loading(h) ==> Loading(gens[i]))
    requires OperandsCurrent(h, out0) && (if i == 0 then OldestOk(h) else YoungerOk(h))
    requires LoadingNow(gens) && i == |gens| - 1 ==> Undecided(h)
    ensures Chain(gens[i := h], out0)
  {
    hide Fresh, Loading, OperandsCurrent, OldestOk, YoungerOk, Undecided;
  }

  lemma ReplaceItems(input: nat -> Rat, gens: seq<Gen>, ahead: nat, behind: nat, i: nat, h: Gen)
    requires Items(input, gens, ahead, behind) && i < |gens| && SameRole(gens[i], h)
    ensures Items(input, gens[i := h], ahead, behind)
  {
    hide Fresh, Loading, Held;
    var gens' := gens[i := h];
    assert Spent(gens') == Spent(gens) && LoadingNow(gens') == LoadingNow(gens);
    forall j | 0 <= j < |gens'| && Held(gens'[j])
      ensures behind + j >= Spent(gens) && gens'[j].dat == input(behind + j - Spent(gens))
    {
      assert Held(gens[j]) && gens[j].dat == gens'[j].dat;
    }
  }

  lemma ReplaceSignals(s: State, i: nat, h: Gen)
    requires |s.gens| >= 1 && Signals(s) && i < |s.gens| && SameRole(s.gens[i], h)
    requires Serviced(s.gens[i]) <==> Serviced(h)
    requires s.gens[i].pc.Asking? == h.pc.Asking? && s.gens[i].pc.Spawning? == h.pc.Spawning?
    ensures Signals(s.WithGen(i, h))
  {
    hide Fresh, Held, Loading, Serviced;
  }

  /** What a generation is doing says where in the chain it is. */
  lemma Locate(s: State, i: nat)
    requires Chain(s.gens, s.out0) && i < |s.gens|
    ensures Fresh(s.gens[i]) <==> i == |s.gens| - 1
    ensures Loading(s.gens[i]) ==> i == |s.gens| - 2
    ensures !YoungerOk(s.gens[i]) ==> i == 0
    ensures !OldestOk(s.gens[i]) ==> i > 0
    ensures OperandsCurrent(s.gens[i], s.out0)
  {}

  lemma EvaluatedRole(g: Gen, out0: Side)
    requires g.pc.Starting? || g.pc.Released? || g.pc.Loaded? || g.pc.Holding? || g.pc.Served?
    ensures var h := Evaluated(g, out0);
            && SameRole(g, h) && OperandsCurrent(h, out0)
            && (OldestOk(g) ==> OldestOk(h)) && (YoungerOk(g) ==> YoungerOk(h)) && (Undecided(g) ==> Undecided(h))
            && (Serviced(g) <==> Serviced(h)) && !h.pc.Asking? && !h.pc.Spawning?
  {}

  lemma EvaluateKeeps(input: nat -> Rat, s: State, i: nat)
    requires Inv(input, s) && Enabled(s, Evaluate(i))
    ensures Inv(input, Do(input, s, Evaluate(i)))
  {
    EvaluatedRole(s.gens[i], s.out0);
    hide Evaluated, Fresh, Held, OldestOk, YoungerOk, OperandsCurrent, Undecided, Serviced, Loading, IsPrefix;
    var h := Evaluated(s.gens[i], s.out0);
    Locate(s, i);
    ReplaceChain(s.gens, s.out0, i, h);
    ReplaceItems(input, s.gens, |s.At(s.out0).got|, |s.At(s.Out1()).got|, i, h);
    ReplaceSignals(s, i, h);
    hide Chain, Items, Signals;
  }

  lemma RequestedRole(g: Gen, c: Side, out0: Side)
    requires g.pc.Choosing? || g.pc.ChoosingBoth? || g.pc.Serving?
    ensures var h := Requested(g, c);
            && SameRole(g, h) && OperandsCurrent(h, out0)
            && (OldestOk(g) ==> OldestOk(h)) && (YoungerOk(g) ==> YoungerOk(h))
  {}

  /** Where a generation that can take a request is, and which channel it listens on. */
  lemma RequestSide(s: State, i: nat, c: Side)
    requires Chain(s.gens, s.out0) && Signals(s) && Enabled(s, Request(i, c))
    ensures var g := s.gens[i];
            && (g.pc.Choosing? ==> c == s.out0 && i == |s.gens| - 1 && i > 0 && !LoadingNow(s.gens))
            && (g.pc.ChoosingBoth? ==> i == 0 && |s.gens| == 1 && g.c0 == s.out0 && g.c1 == s.Out1())
            && (g.pc.Serving? ==> c == s.Out1() && i == 0 && |s.gens| > 1)
  {
    Locate(s, i);
  }

  lemma RequestSignals(input: nat -> Rat, s: State, i: nat, c: Side)
    requires Chain(s.gens, s.out0) && Signals(s) && Enabled(s, Request(i, c))
    ensures Signals(Do(input, s, Request(i, c)))
  {
    RequestSide(s, i, c);
    RequestedRole(s.gens[i], c, s.out0);
    hide Fresh, Held, Loading, OldestOk, YoungerOk, OperandsCurrent, Chain;
  }

  lemma RequestKeeps(input: nat -> Rat, s: State, i: nat, c: Side)
    requires Inv(input, s) && Enabled(s, Request(i, c))
    ensures Inv(input, Do(input, s, Request(i, c)))
  {
    RequestedRole(s.gens[i], c, s.out0);
    RequestSide(s, i, c);
    RequestSignals(input, s, i, c);
    Locate(s, i);
    hide Requested, Fresh, Held, OldestOk, YoungerOk, OperandsCurrent, Loading, IsPrefix, Signals;
    var h := Requested(s.gens[i], c);
    assert s.gens[i].pc.Serving? ==> i != |s.gens| - 1;
    ReplaceChain(s.gens, s.out0, i, h);
    ReplaceItems(input, s.gens, |s.At(s.out0).got|, |s.At(s.Out1()).got|, i, h);
    hide Chain, Items;
  }

  lemma AskKeeps(input: nat -> Rat, s: State, i: nat)
    requires Inv(input, s) && Enabled(s, Ask(i))
    ensures Inv(input, Do(input, s, Ask(i)))
  {
    var g := s.gens[i];
    var h := g.(pc := Spawning);
    Locate(s, i);
    assert SameRole(g, h) && OperandsCurrent(h, s.out0) && !Undecided(g) && !Serviced(g) && !Serviced(h);
    assert (OldestOk(g) ==> OldestOk(h)) && (YoungerOk(g) ==> YoungerOk(h)) && i == |s.gens| - 1;
    hide Fresh, Held, OldestOk, YoungerOk, OperandsCurrent, Loading, IsPrefix, Undecided, Serviced;
    ReplaceChain(s.gens, s.out0, i, h);
    ReplaceItems(input, s.gens, |s.At(s.out0).got|, |s.At(s.Out1()).got|, i, h);
    assert !LoadingNow(s.gens);
    hide Chain, Items;
  }

  /** out is exchanged only by a generation that is alone. */
  lemma ExchangeKeeps(input: nat -> Rat, s: State, i: nat)
    requires Inv(input, s) && Enabled(s, Exchange(i))
    ensures |s.gens| == 1
    ensures Inv(input, Do(input, s, Exchange(i)))
  {
    Locate(s, i);
    assert |s.gens| == 1 && i == 0;
  }

  // ----- Spawning and the passage of an item -----

  lemma SpawnKeeps(input: nat -> Rat, s: State, i: nat)
    requires Inv(input, s) && Enabled(s, Spawn(i))
    ensures Inv(input, Do(input, s, Spawn(i)))
  {
    var g, n := s.gens[i], |s.gens|;
    var h, b := g.(pc := Awaiting), Newborn();
    Locate(s, i);
    assert !Undecided(g) && !Held(g) && !Held(h) && !Held(b) && Undecided(b) && Fresh(b) && !Loading(b) && YoungerOk(b);
    assert OperandsCurrent(b, s.out0) && OperandsCurrent(h, s.out0) && !Fresh(h) && Loading(h) && !Serviced(g);
    assert !Serviced(h);
    assert (OldestOk(g) ==> OldestOk(h)) && (YoungerOk(g) ==> YoungerOk(h)) && i == n - 1;
    hide Fresh, Held, OldestOk, YoungerOk, OperandsCurrent, Loading, IsPrefix, Undecided, Serviced;
    assert !LoadingNow(s.gens);
    SpawnGens(input, s.gens, s.out0, |s.At(s.out0).got|, |s.At(s.Out1()).got|, h, b);
    var gens' := s.gens[..i] + [h, b] + s.gens[i + 1..];
    assert gens' == s.gens[..n - 1] + [h, b];
    assert gens'[0] == if n == 1 then h else s.gens[0];
    hide Chain, Items;
  }

  lemma SpawnGens(input: nat -> Rat, gens: seq<Gen>, out0: Side, ahead: nat, behind: nat, h: Gen, b: Gen)
    requires Chain(gens, out0) && Items(input, gens, ahead, behind) && !LoadingNow(gens)
    requires !Held(gens[|gens| - 1]) && !Held(h) && !Held(b) && Undecided(b) && Fresh(b) && !Loading(b) && YoungerOk(b)
    requires OperandsCurrent(b, out0) && OperandsCurrent(h, out0) && !Fresh(h) && Loading(h)
    requires h.pc.Awaiting? && !gens[|gens| - 1].pc.Releasing?
    requires if |gens| == 1 then OldestOk(h) else YoungerOk(h)
    ensures Chain(gens[..|gens| - 1] + [h, b], out0) && Items(input, gens[..|gens| - 1] + [h, b], ahead, behind)
  {
    hide Fresh, Held, OldestOk, YoungerOk, OperandsCurrent, Loading, IsPrefix, Undecided, Serviced;
    var n := |gens|;
    var gens' := gens[..n - 1] + [h, b];
    assert gens'[n - 1] == h && gens'[n] == b;
    assert forall j :: 0 <= j < n - 1 ==> gens'[j] == gens[j];
    assert Spent(gens') == Spent(gens) && LoadingNow(gens');
  }

  lemma DeliverKeeps(input: nat -> Rat, s: State, i: nat)
    requires Inv(input, s) && Enabled(s, Deliver(i))
    ensures Inv(input, Do(input, s, Deliver(i)))
  {
    var g, n := s.gens[i], |s.gens|;
    var h := g.(pc := Loaded, dat := input(s.fed));
    Locate(s, i);
    assert Loading(g) && Loading(h) && !Fresh(h) && !Held(h) && !Serviced(g) && !Serviced(h);
    assert OperandsCurrent(h, s.out0);
    assert (OldestOk(g) ==> OldestOk(h)) && (YoungerOk(g) ==> YoungerOk(h)) && i == n - 2;
    hide Fresh, Held, OldestOk, YoungerOk, OperandsCurrent, Loading, IsPrefix, Undecided, Serviced;
    var gens' := s.gens[i := h];
    ReplaceChain(s.gens, s.out0, i, h);
    assert Spent(gens') == Spent(s.gens) && LoadingNow(gens') && LoadingNow(s.gens);
    assert Items(input, gens', |s.At(s.out0).got|, |s.At(s.Out1()).got|);
    hide Chain, Items;
  }

  lemma PrefixExtends(got: seq<Rat>, input: nat -> Rat, d: Rat)
    requires IsPrefix(got, input) && d == input(|got|)
    ensures IsPrefix(got + [d], input)
  {}

  lemma Sent0Role(s: State, i: nat)
    requires Chain(s.gens, s.out0) && i < |s.gens| && s.gens[i].pc.Sending0?
    ensures var g, h := s.gens[i], Sent0(s.gens[i]);
            && i == |s.gens| - 2 && g.c0 == s.out0 && (if i == 0 then OldestOk(h) else YoungerOk(h))
            && Loading(g) && !Loading(h) && !Fresh(g) && !Fresh(h) && Held(h) && !h.pc.Releasing? && !g.pc.Releasing?
            && OperandsCurrent(h, s.out0)
  {
    Locate(s, i);
  }

  lemma Send0Items(input: nat -> Rat, gens: seq<Gen>, i: nat, h: Gen, ahead: nat, behind: nat)
    requires |gens| >= 2 && i == |gens| - 2 && Items(input, gens, ahead, behind) && Loading(gens[i])
    requires !gens[i].pc.Awaiting?
    requires !Loading(h) && !h.pc.Releasing? && !gens[i].pc.Releasing? && h.dat == gens[i].dat
    ensures Items(input, gens[i := h], ahead + 1, behind) && gens[i].dat == input(ahead)
  {
    hide Held, Loading;
    var gens' := gens[i := h];
    assert LoadingNow(gens) && !LoadingNow(gens') && Spent(gens') == Spent(gens);
  }

  lemma Send0Keeps(input: nat -> Rat, s: State, i: nat)
    requires Inv(input, s) && Enabled(s, Send0(i))
    ensures Inv(input, Do(input, s, Send0(i)))
  {
    hide Fresh, Held, OldestOk, YoungerOk, OperandsCurrent, Loading, Undecided, Serviced, Chain, Items, IsPrefix,
         Signals;
    var g, ahead, behind := s.gens[i], s.At(s.out0), s.At(s.Out1());
    Sent0Role(s, i);
    ReplaceChain(s.gens, s.out0, i, Sent0(g));
    Send0Items(input, s.gens, i, Sent0(g), |ahead.got|, |behind.got|);
    PrefixExtends(ahead.got, input, g.dat);
    Send0Signals(input, s, i);
  }

  lemma Send0Signals(input: nat -> Rat, s: State, i: nat)
    requires Chain(s.gens, s.out0) && Signals(s) && Enabled(s, Send0(i))
    ensures Signals(Do(input, s, Send0(i)))
  {
    Locate(s, i);
    assert s.gens[i].c0 == s.out0 && i == |s.gens| - 2 && LoadingNow(s.gens);
    hide OldestOk, YoungerOk, OperandsCurrent, Chain;
  }

  lemma Send1Items(input: nat -> Rat, gens: seq<Gen>, h: Gen, ahead: nat, behind: nat)
    requires |gens| >= 2 && Items(input, gens, ahead, behind) && Held(gens[0]) && !Loading(gens[0])
    requires h.pc.Releasing?
    ensures Items(input, gens[0 := h], ahead, behind + 1) && gens[0].dat == input(behind)
  {
    var gens' := gens[0 := h];
    assert !Held(h) && !Loading(h) && Spent(gens) == 0 && Spent(gens') == 1;
    hide Held, Loading;
    assert LoadingNow(gens) == LoadingNow(gens');
    forall j | 0 <= j < |gens'| && Held(gens'[j])
      ensures behind + 1 + j >= 1 && gens'[j].dat == input(behind + 1 + j - 1)
    {
      assert j > 0 && Held(gens[j]) && gens[j] == gens'[j];
    }
  }

  lemma Sent1Role(s: State, i: nat)
    requires Chain(s.gens, s.out0) && i < |s.gens| && s.gens[i].pc.Sending1?
    ensures var g, h := s.gens[i], s.gens[i].(pc := Releasing);
            && i == 0 && |s.gens| >= 2 && g.c1 == s.Out1() && OldestOk(h) && OperandsCurrent(h, s.out0)
            && Held(g) && !Loading(g) && !Loading(h) && !Fresh(g) && !Fresh(h)
  {
    Locate(s, i);
  }

  lemma Send1Keeps(input: nat -> Rat, s: State, i: nat)
    requires Inv(input, s) && Enabled(s, Send1(i))
    ensures i == 0
    ensures Inv(input, Do(input, s, Send1(i)))
  {
    hide Fresh, Held, OldestOk, YoungerOk, OperandsCurrent, Loading, Undecided, Serviced, Chain, Items, IsPrefix,
         Signals;
    var g, ahead, behind := s.gens[i], s.At(s.out0), s.At(s.Out1());
    var h := g.(pc := Releasing);
    Sent1Role(s, i);
    ReplaceChain(s.gens, s.out0, 0, h);
    Send1Items(input, s.gens, h, |ahead.got|, |behind.got|);
    PrefixExtends(behind.got, input, g.dat);
    Send1Signals(input, s);
  }

  lemma Send1Signals(input: nat -> Rat, s: State)
    requires Chain(s.gens, s.out0) && Signals(s) && Enabled(s, Send1(0))
    ensures Signals(Do(input, s, Send1(0)))
  {
    Locate(s, 0);
    assert s.gens[0].c1 == s.Out1() && |s.gens| >= 2;
    hide OldestOk, YoungerOk, OperandsCurrent, Chain;
  }

  lemma ReleasedRole(h: Gen, out0: Side)
    requires h.pc.Choosing? || h.pc.Waiting?
    ensures var r := ReleasedGen(h);
            && (Fresh(h) <==> Fresh(r)) && !Loading(h) && !Loading(r) && (Held(h) <==> Held(r)) && r.dat == h.dat
            && OperandsCurrent(r, out0) && OldestOk(r) && !r.pc.Releasing? && !Serviced(r)
            && !r.pc.Asking? && !r.pc.Spawning?
  {}

  lemma ReleaseItems(input: nat -> Rat, gens: seq<Gen>, r: Gen, ahead: nat, behind: nat)
    requires |gens| >= 2 && Items(input, gens, ahead, behind) && gens[0].pc.Releasing?
    requires !Loading(gens[1]) && !Loading(r) && (Held(gens[1]) <==> Held(r)) && r.dat == gens[1].dat
    requires !r.pc.Releasing?
    ensures Items(input, [r] + gens[2..], ahead, behind)
  {
    var gens' := [r] + gens[2..];
    assert !Loading(gens[0]);
    hide Held, Loading;
    assert Spent(gens) == 1 && Spent(gens') == 0;
    assert forall j :: 1 <= j < |gens'| ==> gens'[j] == gens[j + 1];
    assert LoadingNow(gens) == LoadingNow(gens');
    forall j | 0 <= j < |gens'| && Held(gens'[j])
      ensures behind + j >= 0 && gens'[j].dat == input(behind + j)
    {
      assert Held(gens[j + 1]) && gens[j + 1].dat == gens'[j].dat;
    }
  }

  lemma ReleaseChain(gens: seq<Gen>, out0: Side, r: Gen)
    requires |gens| >= 2 && Chain(gens, out0)
    requires !Loading(gens[1]) && !Loading(r) && (Fresh(gens[1]) <==> Fresh(r)) && OldestOk(r)
    requires OperandsCurrent(r, out0)
    ensures Chain([r] + gens[2..], out0)
  {
    hide Fresh, Held, OldestOk, YoungerOk, OperandsCurrent, Loading, Undecided;
    var gens' := [r] + gens[2..];
    assert forall j :: 1 <= j < |gens'| ==> gens'[j] == gens[j + 1];
    forall j | 0 <= j < |gens'|
      ensures OperandsCurrent(gens'[j], out0)
      ensures Fresh(gens'[j]) <==> j == |gens'| - 1
      ensures Loading(gens'[j]) ==> j == |gens'| - 2
      ensures j > 0 ==> YoungerOk(gens'[j])
    {
      if j > 0 { assert gens'[j] == gens[j + 1]; }
      assert Fresh(gens[j + 1]) <==> j + 1 == |gens| - 1;
    }
    if LoadingNow(gens') {
      assert gens'[|gens'| - 2] == gens[|gens| - 2] && gens'[|gens'| - 1] == gens[|gens| - 1];
    }
  }

  /** Only the oldest generation ever releases its successor. */
  lemma ReleaseKeeps(input: nat -> Rat, s: State, i: nat)
    requires Inv(input, s) && Enabled(s, Release(i))
    ensures i == 0
    ensures Inv(input, Do(input, s, Release(i)))
  {
    Locate(s, i);
    assert i == 0 && !Serviced(s.gens[0]) && !Loading(s.gens[0]);
    var h, r := s.gens[1], ReleasedGen(s.gens[1]);
    ReleasedRole(h, s.out0);
    var gens' := [r] + s.gens[2..];
    assert Do(input, s, Release(i)).gens == gens' by { assert s.gens[..0] == []; }
    ReleaseChain(s.gens, s.out0, r);
    ReleaseItems(input, s.gens, r, |s.At(s.out0).got|, |s.At(s.Out1()).got|);
    ReleaseSignals(s, r);
    hide Chain, Items, IsPrefix, Signals, Fresh, Held, OldestOk, YoungerOk, OperandsCurrent, Loading, Undecided,
         Serviced, ReleasedGen;
  }

  lemma ReleaseSignals(s: State, r: Gen)
    requires |s.gens| >= 2 && Signals(s) && !Serviced(s.gens[0]) && !Loading(s.gens[0])
    requires !Loading(s.gens[1]) && !Loading(r) && !Serviced(r)
    requires !r.pc.Asking? && !r.pc.Spawning? && !s.gens[1].pc.Asking? && !s.gens[1].pc.Spawning?
    ensures Signals(s.(gens := [r] + s.gens[2..]))
  {
    hide Loading, Serviced;
    var gens, gens' := s.gens, [r] + s.gens[2..];
    if |gens'| >= 2 {
      assert gens'[|gens'| - 1] == gens[|gens| - 1];
      if |gens'| >= 3 { assert gens'[|gens'| - 2] == gens[|gens| - 2]; }
    }
  }

  // ----- Whole runs -----

  lemma StepKeeps(input: nat -> Rat, s: State, t: Step)
    requires Inv(input, s) && Enabled(s, t)
    ensures Inv(input, Do(input, s, t))
  {
    hide Inv, Do, Enabled;
    match t
    case Evaluate(i) => EvaluateKeeps(input, s, i);
    case Exchange(i) => ExchangeKeeps(input, s, i);
    case Request(i, c) => RequestKeeps(input, s, i, c);
    case Ask(i) => AskKeeps(input, s, i);
    case Spawn(i) => SpawnKeeps(input, s, i);
    case Deliver(i) => DeliverKeeps(input, s, i);
    case Send0(i) => Send0Keeps(input, s, i);
    case Send1(i) => Send1Keeps(input, s, i);
    case Release(i) => ReleaseKeeps(input, s, i);
  }

  /** The state a list of steps leads to; None when some step was not enabled. */
  datatype Outcome = Stuck | Reached(s: State)

  function Run(input: nat -> Rat, steps: seq<Step>): Outcome {
    if steps == [] then Reached(Initial())
    else
      match Run(input, steps[..|steps| - 1])
      case Stuck => Stuck
      case Reached(s) => var t := steps[|steps| - 1]; if Enabled(s, t) then Reached(Do(input, s, t)) else Stuck
  }

  lemma {:induction false} RunInv(input: nat -> Rat, steps: seq<Step>)
    ensures Run(input, steps).Reached? ==> Inv(input, Run(input, steps).s)
  {
    hide Inv, Do, Enabled;
    if steps == [] {
      InitialInv(input);
    } else {
      RunInv(input, steps[..|steps| - 1]);
      var r := Run(input, steps[..|steps| - 1]);
      var t := steps[|steps| - 1];
      if r.Reached? && Enabled(r.s, t) {
        StepKeeps(input, r.s, t);
      }
    }
  }

  /** In every run each consumer has a prefix of the input, in order, and the generations holding
      data are consecutive and hold exactly the items between the two prefixes, oldest first. */
  lemma SplitDelivers(input: nat -> Rat, steps: seq<Step>)
    requires Run(input, steps).Reached?
    ensures var s := Run(input, steps).s;
            && (forall j :: 0 <= j < |s.left.got| ==> s.left.got[j] == input(j))
            && (forall j :: 0 <= j < |s.right.got| ==> s.right.got[j] == input(j))
    ensures var s := Run(input, steps).s;
            var ahead, behind, first := |s.At(s.out0).got|, |s.At(s.Out1()).got|, Spent(s.gens);
            && behind <= ahead
            && (forall i :: 0 <= i < |s.gens| ==> (Held(s.gens[i]) <==> first <= i < first + ahead - behind))
            && (forall i :: first <= i < first + ahead - behind ==>
                  0 <= i < |s.gens| && s.gens[i].dat == input(behind + i - first))
  {
    RunInv(input, steps);
    var s := Run(input, steps).s;
    forall i | 0 <= i < |s.gens|
      ensures Held(s.gens[i]) <==> Spent(s.gens) <= i < Spent(s.gens) + |s.At(s.out0).got| - |s.At(s.Out1()).got|
    {
      HeldWhere(s, i);
    }
  }

  lemma HeldWhere(s: State, i: nat)
    requires Chain(s.gens, s.out0) && i < |s.gens|
    ensures Held(s.gens[i]) <==> Spent(s.gens) <= i < |s.gens| - 1 - (if LoadingNow(s.gens) then 1 else 0)
  {
    Locate(s, i);
  }

  /** At most one generation exchanges out, only when it is alone, and only the oldest releases. */
  lemma OnlyOldestActs(input: nat -> Rat, steps: seq<Step>, t: Step)
    requires Run(input, steps).Reached? && Enabled(Run(input, steps).s, t)
    ensures t.Exchange? ==> |Run(input, steps).s.gens| == 1
    ensures t.Release? || t.Send1? ==> t.i == 0
    ensures t.Spawn? ==> t.i == |Run(input, steps).s.gens| - 1
  {
    RunInv(input, steps);
    Locate(Run(input, steps).s, t.i);
  }

  // ----- Every request is answered -----

  function Weight(g: Gen): nat {
    match g.pc
    case Starting => 2
    case Choosing => 1
    case Released => 1
    case ChoosingBoth => 0
    case Exchanging => 9
    case Asking => 8
    case Spawning => 7
    case Awaiting => 4
    case Loaded => 3
    case Sending0 => 2
    case Waiting => 0
    case Holding => 1
    case Serving => 0
    case Served => 4
    case Sending1 => 3
    case Releasing => 2
  }

  function Total(gens: seq<Gen>): nat {
    if gens == [] then 0 else Weight(gens[0]) + Total(gens[1..])
  }

  lemma {:induction false} TotalConcat(a: seq<Gen>, b: seq<Gen>)
    ensures Total(a + b) == Total(a) + Total(b)
  {
    hide Weight;
    if a == [] {
      assert a + b == b;
    } else {
      TotalConcat(a[1..], b);
      assert (a + b)[1..] == a[1..] + b;
    }
  }

  lemma TotalReplaced(a: seq<Gen>, b: seq<Gen>, c: seq<Gen>, b': seq<Gen>)
    ensures Total(a + b' + c) - Total(a + b + c) == Total(b') - Total(b)
  {
    hide Total;
    TotalConcat(a + b, c);
    TotalConcat(a, b);
    TotalConcat(a + b', c);
    TotalConcat(a, b');
  }

  lemma ReplacedWeight(gens: seq<Gen>, i: nat, h: Gen)
    requires i < |gens|
    ensures Total(gens[i := h]) - Total(gens) == Weight(h) - Weight(gens[i])
  {
    hide Total, Weight;
    assert gens == gens[..i] + [gens[i]] + gens[i + 1..];
    assert gens[i := h] == gens[..i] + [h] + gens[i + 1..];
    TotalReplaced(gens[..i], [gens[i]], gens[i + 1..], [h]);
    OneWeight(gens[i]);
    OneWeight(h);
  }

  lemma SpawnWeight(gens: seq<Gen>, i: nat, h: Gen, b: Gen)
    requires i < |gens|
    ensures Total(gens[..i] + [h, b] + gens[i + 1..]) - Total(gens) == Weight(h) + Weight(b) - Weight(gens[i])
  {
    hide Total, Weight;
    assert gens == gens[..i] + [gens[i]] + gens[i + 1..];
    TotalReplaced(gens[..i], [gens[i]], gens[i + 1..], [h, b]);
    OneWeight(gens[i]);
    TwoWeights(h, b);
  }

  lemma ReleaseWeight(gens: seq<Gen>, i: nat, r: Gen)
    requires i + 1 < |gens|
    ensures Total(gens[..i] + [r] + gens[i + 2..]) - Total(gens) == Weight(r) - Weight(gens[i]) - Weight(gens[i + 1])
  {
    hide Total, Weight;
    assert gens == gens[..i] + [gens[i], gens[i + 1]] + gens[i + 2..];
    TotalReplaced(gens[..i], [gens[i], gens[i + 1]], gens[i + 2..], [r]);
    TwoWeights(gens[i], gens[i + 1]);
    OneWeight(r);
  }

  /** Steps other than a new request use up weight: between requests a run is finite. */
  lemma InternalStepsFinish(input: nat -> Rat, s: State, t: Step)
    requires Enabled(s, t) && !t.Request?
    ensures Total(Do(input, s, t).gens) < Total(s.gens)
  {
    hide Total;
    var i, g, gens' := t.i, s.gens[t.i], Do(input, s, t).gens;
    if t.Spawn? {
      SpawnWeight(s.gens, i, g.(pc := Awaiting), Newborn());
    } else if t.Release? {
      ReleaseWeight(s.gens, i, gens'[i]);
      assert gens' == s.gens[..i] + [gens'[i]] + s.gens[i + 2..];
    } else {
      ReplacedWeight(s.gens, i, gens'[i]);
      assert gens' == s.gens[i := gens'[i]];
    }
  }

  lemma OneWeight(g: Gen)
    ensures Total([g]) == Weight(g)
  {}

  lemma TwoWeights(g: Gen, h: Gen)
    ensures Total([g, h]) == Weight(g) + Weight(h)
  {
    assert [g, h][1..] == [h];
    OneWeight(h);
  }

  /** When nothing but new requests can happen, every request made so far has been answered and
      a new request on either channel is taken at once. */
  lemma QuietMeansReady(input: nat -> Rat, steps: seq<Step>)
    requires Run(input, steps).Reached?
    requires forall t: Step :: Enabled(Run(input, steps).s, t) ==> t.Request?
    ensures var s := Run(input, steps).s;
            && !s.left.waiting && !s.right.waiting
            && Enabled(s, Request(|s.gens| - 1, s.out0)) && Enabled(s, Request(0, s.Out1()))
  {
    RunInv(input, steps);
    var s := Run(input, steps).s;
    QuietChain(input, s);
  }

  lemma QuietChain(input: nat -> Rat, s: State)
    requires Inv(input, s)
    requires forall t: Step :: Enabled(s, t) ==> t.Request?
    ensures !s.left.waiting && !s.right.waiting
    ensures Enabled(s, Request(|s.gens| - 1, s.out0)) && Enabled(s, Request(0, s.Out1()))
  {
    var n := |s.gens|;
    NotStuck(s, n - 1);
    NotStuck(s, 0);
    if n >= 2 {
      NotStuck(s, n - 2);
      NotStuck(s, 1);
    }
  }

  /** No internal step of generation i is enabled. */
  lemma NotStuck(s: State, i: nat)
    requires i < |s.gens|
    requires forall t: Step :: Enabled(s, t) ==> t.Request?
    ensures var g := s.gens[i];
            && !g.pc.Starting? && !g.pc.Released? && !g.pc.Loaded? && !g.pc.Holding? && !g.pc.Served?
            && !g.pc.Exchanging? && !g.pc.Spawning?
            && (g.pc.Asking? ==> s.asked) && (g.pc.Awaiting? ==> !s.asked)
            && (g.pc.Sending0? ==> !s.At(g.c0).waiting) && (g.pc.Sending1? ==> !s.At(g.c1).waiting)
            && (g.pc.Releasing? && i + 1 < |s.gens| ==> !s.gens[i + 1].pc.Choosing? && !s.gens[i + 1].pc.Waiting?)
  {
    assert !Enabled(s, Evaluate(i));
    assert !Enabled(s, Exchange(i));
    assert !Enabled(s, Spawn(i));
    assert !Enabled(s, Ask(i));
    assert !Enabled(s, Deliver(i));
    assert !Enabled(s, Send0(i));
    assert !Enabled(s, Send1(i));
    assert !Enabled(s, Release(i));
  }
}
