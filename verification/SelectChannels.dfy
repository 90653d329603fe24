/** The channel protocol of testsuit/ken/chan.go as a state machine, for any buffer size, any number
    of channels and any assignment of channel ends to processes.  A process is a select over the
    ends it owns; a direct sender or receiver owns one end. */
module SelectChannels {

  const END := 10000
  const COUNT := 76

  /** sv and rv are the next values to send and to expect; sc and rc say that the end is not nil.
      sent and got count what has gone through, and seen lists what was received. */
  datatype Chan = Chan(base: nat, buf: seq<int>, sv: int, rv: int, sc: bool, rc: bool,
                       sent: nat, got: nat, seen: seq<int>)

  /** Which process owns the sending and the receiving end of each channel. */
  datatype Topology = Topology(procs: nat, sender: seq<nat>, receiver: seq<nat>)

  ghost predicate WellWired(w: Topology) {
    && |w.sender| == |w.receiver|
    && forall c :: 0 <= c < |w.sender| ==>
         w.sender[c] < w.procs && w.receiver[c] < w.procs && w.sender[c] != w.receiver[c]
  }

  /** active counts a process's ends that are not nil; a process whose count reaches zero exits. */
  datatype State = State(chans: seq<Chan>, active: seq<nat>, running: seq<bool>, nproc: int,
                         tots: nat, totr: nat, failed: bool)

  datatype Expected = Next(v: int) | Panic

  function Expect(v: int, v0: int): Expected {
    if v == v0 then Next(if v % 100 == 75 then END else v + 1) else Panic
  }

  datatype Step =
    | Send(c: nat)         // the sender puts its next value into the buffer
    | Recv(c: nat)         // the receiver takes the oldest value from the buffer
    | Meet(c: nat)         // without a buffer the two meet

  predicate Enabled(size: nat, w: Topology, s: State, t: Step) {
    && t.c < |s.chans| == |w.sender| == |w.receiver|
    && w.sender[t.c] < |s.running| && w.receiver[t.c] < |s.running|
    && var ch := s.chans[t.c];
       var sending, receiving := ch.sc && s.running[w.sender[t.c]], ch.rc && s.running[w.receiver[t.c]];
       match t
       case Send(_) => sending && |ch.buf| < size
       case Recv(_) => receiving && |ch.buf| > 0
       case Meet(_) => sending && receiving && size == 0
  }

  /** c.send: count, advance sv, and drop the end after the last value. */
  function AfterSend(ch: Chan): Chan
  {
    match Expect(ch.sv, ch.sv)
    case Next(v) => ch.(sv := v, sc := v != END, sent := ch.sent + 1)
    case Panic => ch
  }

  function AfterRecv(ch: Chan, v: int): Chan
  {
    match Expect(ch.rv, v)
    case Next(v') => ch.(rv := v', rc := v' != END, got := ch.got + 1, seen := ch.seen + [v])
    case Panic => ch
  }

  /** A process has lost an end: it exits when that was its last one. */
  function Dropped(s: State, p: nat, lost: bool): State
    requires p < |s.active| == |s.running|
  {
    if !lost then s
    else
      var a := if s.active[p] > 0 then s.active[p] - 1 else 0;
      if a == 0 then s.(active := s.active[p := a], running := s.running[p := false], nproc := s.nproc - 1)
      else s.(active := s.active[p := a])
  }

  function DoSend(w: Topology, s: State, c: nat, ch: Chan): State
    requires c < |s.chans| && c < |w.sender| && w.sender[c] < |s.active| == |s.running|
  {
    Dropped(s.(chans := s.chans[c := ch], tots := s.tots + 1), w.sender[c], !ch.sc)
  }

  function DoRecv(w: Topology, s: State, c: nat, ch: Chan, v: int): State
    requires c < |s.chans| && c < |w.receiver| && w.receiver[c] < |s.active| == |s.running|
  {
    Dropped(s.(chans := s.chans[c := AfterRecv(ch, v)], totr := s.totr + 1,
               failed := s.failed || Expect(ch.rv, v).Panic?),
            w.receiver[c], !AfterRecv(ch, v).rc)
  }

  function Do(w: Topology, s: State, size: nat, t: Step): State
    requires Enabled(size, w, s, t) && |s.active| == |s.running|
  {
    var ch := s.chans[t.c];
    match t
    case Send(c) => DoSend(w, s, c, AfterSend(ch.(buf := ch.buf + [ch.sv])))
    case Recv(c) => DoRecv(w, s, c, ch.(buf := ch.buf[1..]), ch.buf[0])
    case Meet(c) =>
      var s' := DoSend(w, s, c, AfterSend(ch));
      DoRecv(w, s', c, s'.chans[c], ch.sv)
  }

  // ----- One channel -----

  /** The k-th value of a channel; after the last comes the end value. */
  function Nth(base: nat, k: nat): int { if k < COUNT then base + k else END }

  /** The channel has carried consecutive values from its base, in order. */
  ghost predicate ChanInv(ch: Chan, size: nat) {
    && ch.base % 100 == 0 && ch.got <= ch.sent <= COUNT
    && ch.sv == Nth(ch.base, ch.sent) && ch.rv == Nth(ch.base, ch.got)
    && (ch.sc <==> ch.sent < COUNT) && (ch.rc <==> ch.got < COUNT)
    && |ch.buf| == ch.sent - ch.got <= size
    && (forall i :: 0 <= i < |ch.buf| ==> ch.buf[i] == ch.base + ch.got + i)
    && |ch.seen| == ch.got && (forall i :: 0 <= i < |ch.seen| ==> ch.seen[i] == ch.base + i)
  }

  lemma NextValue(base: nat, k: nat)
    requires base % 100 == 0 && k < COUNT
    ensures Expect(base + k, base + k) == Next(Nth(base, k + 1))
    ensures Nth(base, k + 1) == END <==> k + 1 == COUNT
  {
    var q := base / 100;
    assert base == 100 * q;
    assert (base + k) % 100 == k;
    if k + 1 < COUNT {
      assert (base + k + 1) % 100 == k + 1;
    }
  }

  lemma SendKeeps(ch: Chan, size: nat)
    requires ChanInv(ch, size) && ch.sc && |ch.buf| < size
    ensures var ch' := AfterSend(ch.(buf := ch.buf + [ch.sv]));
            ChanInv(ch', size) && ch'.sent == ch.sent + 1 && ch'.got == ch.got && ch'.rc == ch.rc
  {
    NextValue(ch.base, ch.sent);
  }

  lemma RecvKeeps(ch: Chan, size: nat)
    requires ChanInv(ch, size) && ch.rc && |ch.buf| > 0
    ensures Expect(ch.rv, ch.buf[0]).Next?
    ensures var ch' := AfterRecv(ch.(buf := ch.buf[1..]), ch.buf[0]);
            ChanInv(ch', size) && ch'.got == ch.got + 1 && ch'.sent == ch.sent && ch'.sc == ch.sc
  {
    assert ch.buf[0] == ch.base + ch.got;
    NextValue(ch.base, ch.got);
  }

  lemma MeetKeeps(ch: Chan)
    requires ChanInv(ch, 0) && ch.sc && ch.rc
    ensures Expect(AfterSend(ch).rv, ch.sv).Next?
    ensures var ch' := AfterRecv(AfterSend(ch), ch.sv);
            ChanInv(ch', 0) && ch'.got == ch.got + 1 && ch'.sent == ch.sent + 1 && AfterSend(ch).rc
  {
    NextValue(ch.base, ch.sent);
  }

  // ----- All channels together -----

  function SendEnd(ch: Chan, owner: nat, p: nat): nat { if ch.sc && owner == p then 1 else 0 }

  function RecvEnd(ch: Chan, owner: nat, p: nat): nat { if ch.rc && owner == p then 1 else 0 }

  /** How many ends of process p among the first k channels are not nil. */
  function LiveEnds(chans: seq<Chan>, w: Topology, p: nat, k: nat): nat
    requires k <= |chans| && |chans| == |w.sender| == |w.receiver|
  {
    if k == 0 then 0
    else LiveEnds(chans, w, p, k - 1)
         + SendEnd(chans[k - 1], w.sender[k - 1], p) + RecvEnd(chans[k - 1], w.receiver[k - 1], p)
  }

  function TotalSent(chans: seq<Chan>, k: nat): nat
    requires k <= |chans|
  {
    if k == 0 then 0 else TotalSent(chans, k - 1) + chans[k - 1].sent
  }

  function TotalGot(chans: seq<Chan>, k: nat): nat
    requires k <= |chans|
  {
    if k == 0 then 0 else TotalGot(chans, k - 1) + chans[k - 1].got
  }

  function CountRunning(running: seq<bool>): nat {
    if running == [] then 0 else CountRunning(running[..|running| - 1]) + if running[|running| - 1] then 1 else 0
  }

  lemma {:induction false} LiveEndsUpdate(chans: seq<Chan>, w: Topology, p: nat, k: nat, c: nat, ch: Chan)
    requires k <= |chans| == |w.sender| == |w.receiver| && c < |chans|
    ensures LiveEnds(chans[c := ch], w, p, k) == LiveEnds(chans, w, p, k)
            + (if c < k then SendEnd(ch, w.sender[c], p) + RecvEnd(ch, w.receiver[c], p)
                             - SendEnd(chans[c], w.sender[c], p) - RecvEnd(chans[c], w.receiver[c], p) else 0)
    decreases k
  {
    hide SendEnd, RecvEnd;
    if k > 0 { LiveEndsUpdate(chans, w, p, k - 1, c, ch); }
  }

  lemma {:induction false} TotalsUpdate(chans: seq<Chan>, k: nat, c: nat, ch: Chan)
    requires k <= |chans| && c < |chans|
    ensures TotalSent(chans[c := ch], k) == TotalSent(chans, k) + (if c < k then ch.sent - chans[c].sent else 0)
    ensures TotalGot(chans[c := ch], k) == TotalGot(chans, k) + (if c < k then ch.got - chans[c].got else 0)
    decreases k
  {
    if k > 0 { TotalsUpdate(chans, k - 1, c, ch); }
  }

  lemma {:induction false} CountRunningUpdate(running: seq<bool>, p: nat)
    requires p < |running| && running[p]
    ensures CountRunning(running[p := false]) == CountRunning(running) - 1
    decreases |running|
  {
    var n := |running| - 1;
    var r' := running[p := false];
    if p == n {
      assert r'[..n] == running[..n];
    } else {
      assert r'[..n] == running[..n][p := false];
      CountRunningUpdate(running[..n], p);
    }
  }

  /** A live end keeps its process's count positive. */
  lemma {:induction false} LiveEndCounts(chans: seq<Chan>, w: Topology, p: nat, k: nat, c: nat)
    requires c < k <= |chans| == |w.sender| == |w.receiver|
    requires (chans[c].sc && w.sender[c] == p) || (chans[c].rc && w.receiver[c] == p)
    ensures LiveEnds(chans, w, p, k) > 0
    decreases k
  {
    if c < k - 1 { LiveEndCounts(chans, w, p, k - 1, c); }
  }

  ghost predicate ProcsInv(w: Topology, s: State)
    requires |s.chans| == |w.sender| == |w.receiver|
  {
    && |s.active| == |s.running| == w.procs
    && (forall p :: 0 <= p < w.procs ==>
          s.active[p] == LiveEnds(s.chans, w, p, |s.chans|) && (s.running[p] <==> s.active[p] > 0))
    && s.nproc == CountRunning(s.running)
  }

  /** Every channel is in order, every process runs while it has an end left, and the totals are right. */
  ghost predicate Inv(size: nat, w: Topology, s: State) {
    && WellWired(w) && |s.chans| == |w.sender|
    && (forall c :: 0 <= c < |s.chans| ==> ChanInv(s.chans[c], size))
    && ProcsInv(w, s)
    && s.tots == TotalSent(s.chans, |s.chans|) && s.totr == TotalGot(s.chans, |s.chans|)
    && !s.failed
  }

  /** When channel c changes so that process p alone loses an end, dropping the end keeps the counts. */
  lemma DropKeeps(w: Topology, s: State, c: nat, ch: Chan, p: nat, lost: bool)
    requires WellWired(w) && |s.chans| == |w.sender| && ProcsInv(w, s) && c < |s.chans| && p < w.procs
    requires forall q :: 0 <= q < w.procs ==>
               SendEnd(ch, w.sender[c], q) + RecvEnd(ch, w.receiver[c], q) + (if lost && q == p then 1 else 0)
               == SendEnd(s.chans[c], w.sender[c], q) + RecvEnd(s.chans[c], w.receiver[c], q)
    ensures ProcsInv(w, Dropped(s.(chans := s.chans[c := ch]), p, lost))
  {
    hide SendEnd, RecvEnd, CountRunning, LiveEnds;
    forall q | 0 <= q < w.procs
      ensures LiveEnds(s.chans[c := ch], w, q, |s.chans|) + (if lost && q == p then 1 else 0) == s.active[q]
    {
      LiveEndsUpdate(s.chans, w, q, |s.chans|, c, ch);
    }
    if lost && s.active[p] == 1 {
      CountRunningUpdate(s.running, p);
    }
  }

  // ----- Steps -----

  lemma DoSendKeeps(w: Topology, s: State, c: nat, ch: Chan)
    requires WellWired(w) && |s.chans| == |w.sender| && ProcsInv(w, s) && c < |s.chans|
    requires s.chans[c].sc && ch.rc == s.chans[c].rc && ch.sent == s.chans[c].sent + 1 && ch.got == s.chans[c].got
    requires s.tots == TotalSent(s.chans, |s.chans|) && s.totr == TotalGot(s.chans, |s.chans|)
    ensures var s' := DoSend(w, s, c, ch);
            && s'.chans == s.chans[c := ch] && ProcsInv(w, s') && s'.failed == s.failed
            && s'.tots == TotalSent(s'.chans, |s'.chans|) && s'.totr == TotalGot(s'.chans, |s'.chans|)
  {
    hide TotalSent, TotalGot, LiveEnds, CountRunning;
    TotalsUpdate(s.chans, |s.chans|, c, ch);
    DropKeeps(w, s, c, ch, w.sender[c], !ch.sc);
    hide ProcsInv, WellWired;
    ProcsFrame(w, Dropped(s.(chans := s.chans[c := ch]), w.sender[c], !ch.sc), DoSend(w, s, c, ch));
  }

  lemma DoRecvKeeps(w: Topology, s: State, c: nat, ch: Chan, v: int)
    requires WellWired(w) && |s.chans| == |w.sender| && ProcsInv(w, s) && c < |s.chans|
    requires s.chans[c].rc && ch.sc == s.chans[c].sc && ch.rc == s.chans[c].rc && ch.sent == s.chans[c].sent
    requires ch.got == s.chans[c].got && Expect(ch.rv, v).Next?
    requires s.tots == TotalSent(s.chans, |s.chans|) && s.totr == TotalGot(s.chans, |s.chans|)
    ensures var s' := DoRecv(w, s, c, ch, v);
            && s'.chans == s.chans[c := AfterRecv(ch, v)] && ProcsInv(w, s') && s'.failed == s.failed
            && s'.tots == TotalSent(s'.chans, |s'.chans|) && s'.totr == TotalGot(s'.chans, |s'.chans|)
  {
    hide TotalSent, TotalGot, LiveEnds, CountRunning;
    var ch' := AfterRecv(ch, v);
    TotalsUpdate(s.chans, |s.chans|, c, ch');
    DropKeeps(w, s, c, ch', w.receiver[c], !ch'.rc);
    hide ProcsInv, WellWired;
    ProcsFrame(w, Dropped(s.(chans := s.chans[c := ch']), w.receiver[c], !ch'.rc), DoRecv(w, s, c, ch, v));
  }

  lemma ProcsFrame(w: Topology, s: State, s': State)
    requires |s.chans| == |w.sender| == |w.receiver| && ProcsInv(w, s)
    requires s'.chans == s.chans && s'.active == s.active && s'.running == s.running && s'.nproc == s.nproc
    ensures ProcsInv(w, s')
  {}

  lemma StepKeeps(size: nat, w: Topology, s: State, t: Step)
    requires Inv(size, w, s) && Enabled(size, w, s, t)
    ensures Inv(size, w, Do(w, s, size, t))
  {
    hide TotalSent, TotalGot, LiveEnds, CountRunning, ProcsInv, Dropped;
    assert |s.active| == |s.running| by { ProcsShape(w, s); }
    var ch := s.chans[t.c];
    match t
    case Send(c) =>
      SendKeeps(ch, size);
      DoSendKeeps(w, s, c, AfterSend(ch.(buf := ch.buf + [ch.sv])));
    case Recv(c) =>
      RecvKeeps(ch, size);
      DoRecvKeeps(w, s, c, ch.(buf := ch.buf[1..]), ch.buf[0]);
    case Meet(c) =>
      MeetKeeps(ch);
      DoSendKeeps(w, s, c, AfterSend(ch));
      var s' := DoSend(w, s, c, AfterSend(ch));
      DoRecvKeeps(w, s', c, s'.chans[c], ch.sv);
  }

  lemma ProcsShape(w: Topology, s: State)
    requires |s.chans| == |w.sender| == |w.receiver| && ProcsInv(w, s)
    ensures |s.active| == |s.running| == w.procs
  {}

  // ----- Runs -----

  /** Every process owns some channel end. */
  ghost predicate Staffed(w: Topology) {
    forall p :: 0 <= p < w.procs ==> Owns(w, p)
  }

  ghost predicate Owns(w: Topology, p: nat) {
    exists c :: 0 <= c < |w.sender| && c < |w.receiver| && (w.sender[c] == p || w.receiver[c] == p)
  }

  function NewChan(base: nat): Chan { Chan(base, [], base, base, true, true, 0, 0, []) }

  /** mkchan: channel i starts at the i-th next multiple of 100. */
  function MakeChans(cval: nat, n: nat): seq<Chan> { seq(n, i requires 0 <= i < n => NewChan(cval + 100 * (i + 1))) }

  function Initial(w: Topology, cval: nat): State
    requires |w.sender| == |w.receiver|
  {
    var chans := MakeChans(cval, |w.sender|);
    State(chans, seq(w.procs, p requires 0 <= p < w.procs => LiveEnds(chans, w, p, |chans|)),
          seq(w.procs, _ => true), w.procs, 0, 0, false)
  }

  lemma {:induction false} AllRunning(running: seq<bool>)
    requires forall p :: 0 <= p < |running| ==> running[p]
    ensures CountRunning(running) == |running|
  {
    if running != [] { AllRunning(running[..|running| - 1]); }
  }

  lemma {:induction false} NothingSent(chans: seq<Chan>, k: nat)
    requires k <= |chans| && forall c :: 0 <= c < |chans| ==> chans[c].sent == 0 && chans[c].got == 0
    ensures TotalSent(chans, k) == 0 && TotalGot(chans, k) == 0
  {
    if k > 0 { NothingSent(chans, k - 1); }
  }

  lemma InitialInv(size: nat, w: Topology, cval: nat)
    requires WellWired(w) && Staffed(w) && cval % 100 == 0
    ensures Inv(size, w, Initial(w, cval)) && |Initial(w, cval).chans| == |w.sender|
    ensures forall c :: 0 <= c < |w.sender| ==> Initial(w, cval).chans[c].base == cval + 100 * (c + 1)
  {
    hide LiveEnds, TotalSent, TotalGot, CountRunning;
    var s := Initial(w, cval);
    AllRunning(s.running);
    NothingSent(s.chans, |s.chans|);
    forall p | 0 <= p < w.procs ensures s.active[p] > 0 {
      assert Owns(w, p);
      var c :| 0 <= c < |w.sender| && c < |w.receiver| && (w.sender[c] == p || w.receiver[c] == p);
      LiveEndCounts(s.chans, w, p, |s.chans|, c);
    }
    forall c | 0 <= c < |s.chans| ensures ChanInv(s.chans[c], size) {
      var i := c + 1;
      assert (cval + 100 * i) % 100 == 0;
    }
  }

  datatype Outcome = Reached(s: State) | Stuck

  function Run(size: nat, w: Topology, cval: nat, steps: seq<Step>): Outcome
    requires |w.sender| == |w.receiver|
  {
    if steps == [] then Reached(Initial(w, cval))
    else
      match Run(size, w, cval, steps[..|steps| - 1])
      case Stuck => Stuck
      case Reached(s) =>
        var t := steps[|steps| - 1];
        if |s.active| == |s.running| && Enabled(size, w, s, t) then Reached(Do(w, s, size, t)) else Stuck
  }

  lemma StepCounts(size: nat, w: Topology, s: State, t: Step)
    requires Inv(size, w, s) && Enabled(size, w, s, t)
    ensures |s.active| == |s.running|
    ensures var s' := Do(w, s, size, t);
            s'.tots + s'.totr >= s.tots + s.totr + 1 && |s'.chans| == |s.chans|
  {
    hide TotalSent, TotalGot, LiveEnds, CountRunning;
  }

  lemma StepBases(size: nat, w: Topology, s: State, t: Step)
    requires Enabled(size, w, s, t) && |s.active| == |s.running|
    ensures var s' := Do(w, s, size, t);
            |s'.chans| == |s.chans| && forall c :: 0 <= c < |s.chans| ==> s'.chans[c].base == s.chans[c].base
  {
    var ch := s.chans[t.c];
    match t
    case Send(c) => SendChans(w, s, c, AfterSend(ch.(buf := ch.buf + [ch.sv])));
    case Recv(c) => RecvChans(w, s, c, ch.(buf := ch.buf[1..]), ch.buf[0]);
    case Meet(c) =>
      SendChans(w, s, c, AfterSend(ch));
      var s' := DoSend(w, s, c, AfterSend(ch));
      hide DoSend;
      RecvChans(w, s', c, s'.chans[c], ch.sv);
  }

  lemma SendChans(w: Topology, s: State, c: nat, ch: Chan)
    requires c < |s.chans| && c < |w.sender| && w.sender[c] < |s.active| == |s.running|
    ensures var s' := DoSend(w, s, c, ch);
            s'.chans == s.chans[c := ch] && |s'.active| == |s'.running| == |s.active|
  {}

  lemma RecvChans(w: Topology, s: State, c: nat, ch: Chan, v: int)
    requires c < |s.chans| && c < |w.receiver| && w.receiver[c] < |s.active| == |s.running|
    ensures DoRecv(w, s, c, ch, v).chans == s.chans[c := AfterRecv(ch, v)]
  {}

  lemma {:induction false} RunInv(size: nat, w: Topology, cval: nat, steps: seq<Step>)
    requires WellWired(w) && Staffed(w) && cval % 100 == 0 && Run(size, w, cval, steps).Reached?
    ensures var s := Run(size, w, cval, steps).s;
            && Inv(size, w, s) && s.tots + s.totr >= |steps| && |s.chans| == |w.sender|
            && forall c :: 0 <= c < |s.chans| ==> s.chans[c].base == cval + 100 * (c + 1)
  {
    hide Inv, Do, Enabled, Initial, Staffed;
    if steps == [] {
      InitialInv(size, w, cval);
    } else {
      RunInv(size, w, cval, steps[..|steps| - 1]);
      var s, t := Run(size, w, cval, steps[..|steps| - 1]).s, steps[|steps| - 1];
      StepKeeps(size, w, s, t);
      StepCounts(size, w, s, t);
      StepBases(size, w, s, t);
    }
  }

  lemma {:induction false} TotalsBounded(chans: seq<Chan>, k: nat, size: nat)
    requires k <= |chans| && forall c :: 0 <= c < |chans| ==> ChanInv(chans[c], size)
    ensures TotalSent(chans, k) <= COUNT * k && TotalGot(chans, k) <= COUNT * k
    ensures (forall c :: 0 <= c < k ==> chans[c].got == COUNT) ==>
              TotalSent(chans, k) == COUNT * k && TotalGot(chans, k) == COUNT * k
  {
    if k > 0 { TotalsBounded(chans, k - 1, size); }
  }

  /** In every run each channel has carried consecutive values in order, expect has not panicked,
      a process is still running exactly when one of its ends is, and the run is at most 152 steps
      per channel long. */
  lemma RunsAreSafe(size: nat, w: Topology, cval: nat, steps: seq<Step>)
    requires WellWired(w) && Staffed(w) && cval % 100 == 0 && Run(size, w, cval, steps).Reached?
    ensures var s := Run(size, w, cval, steps).s;
            && !s.failed && |s.chans| == |w.sender| && |s.running| == w.procs
            && (forall c :: 0 <= c < |s.chans| ==> ChanInv(s.chans[c], size))
            && (forall p :: 0 <= p < w.procs ==> (s.running[p] <==> LiveEnds(s.chans, w, p, |s.chans|) > 0))
            && |steps| <= 152 * |w.sender|
  {
    hide Inv, Run, ChanInv, LiveEnds, Staffed;
    RunInv(size, w, cval, steps);
    InvParts(size, w, Run(size, w, cval, steps).s);
  }

  lemma InvParts(size: nat, w: Topology, s: State)
    requires Inv(size, w, s)
    ensures !s.failed && |s.chans| == |w.sender| && |s.running| == w.procs
    ensures forall c :: 0 <= c < |s.chans| ==> ChanInv(s.chans[c], size)
    ensures forall p :: 0 <= p < w.procs ==> (s.running[p] <==> LiveEnds(s.chans, w, p, |s.chans|) > 0)
    ensures s.tots + s.totr <= 2 * COUNT * |w.sender|
  {
    hide LiveEnds, CountRunning, TotalSent, TotalGot, ChanInv;
    TotalsBounded(s.chans, |s.chans|, size);
  }

  /** A channel that is not finished has a step that can be taken. */
  lemma UnfinishedCanStep(size: nat, w: Topology, s: State, c: nat) returns (t: Step)
    requires Inv(size, w, s) && c < |s.chans| && s.chans[c].got < COUNT
    ensures Enabled(size, w, s, t)
  {
    hide LiveEnds, CountRunning, TotalSent, TotalGot;
    var ch := s.chans[c];
    LiveEndCounts(s.chans, w, w.receiver[c], |s.chans|, c);
    if ch.sc {
      LiveEndCounts(s.chans, w, w.sender[c], |s.chans|, c);
    }
    t := if |ch.buf| > 0 then Recv(c) else if size == 0 then Meet(c) else Send(c);
  }

  /** A run that cannot go on has finished: every channel has carried its 76 values, the totals are
      76 per channel, and every process has exited. */
  lemma RunsFinish(size: nat, w: Topology, cval: nat, steps: seq<Step>)
    requires WellWired(w) && Staffed(w) && cval % 100 == 0 && Run(size, w, cval, steps).Reached?
    requires forall t: Step :: !Enabled(size, w, Run(size, w, cval, steps).s, t)
    ensures var s := Run(size, w, cval, steps).s;
            && |s.chans| == |w.sender|
            && (forall c :: 0 <= c < |s.chans| ==>
                  && s.chans[c].sent == s.chans[c].got == 76 && s.chans[c].buf == []
                  && s.chans[c].sv == s.chans[c].rv == 10000
                  && s.chans[c].seen == seq(76, i => cval + 100 * (c + 1) + i))
            && s.tots == s.totr == 76 * |w.sender| && s.nproc == 0
  {
    hide LiveEnds, CountRunning, TotalSent, TotalGot;
    RunInv(size, w, cval, steps);
    var s := Run(size, w, cval, steps).s;
    forall c | 0 <= c < |s.chans| ensures s.chans[c].got == COUNT && s.chans[c].sent == COUNT {
      if s.chans[c].got < COUNT {
        var t := UnfinishedCanStep(size, w, s, c);
      }
    }
    TotalsBounded(s.chans, |s.chans|, size);
    forall p | 0 <= p < w.procs ensures !s.running[p] {
      NoLiveEnds(s.chans, w, p, |s.chans|);
    }
    NoneRunning(s.running);
  }

  lemma {:induction false} NoLiveEnds(chans: seq<Chan>, w: Topology, p: nat, k: nat)
    requires k <= |chans| == |w.sender| == |w.receiver| && forall c :: 0 <= c < |chans| ==> !chans[c].sc && !chans[c].rc
    ensures LiveEnds(chans, w, p, k) == 0
    decreases k
  {
    if k > 0 { NoLiveEnds(chans, w, p, k - 1); }
  }

  lemma {:induction false} NoneRunning(running: seq<bool>)
    requires forall p :: 0 <= p < |running| ==> !running[p]
    ensures CountRunning(running) == 0
  {
    if running != [] { NoneRunning(running[..|running| - 1]); }
  }

  // ----- The test topologies -----

  /** Four test1 pairs, then test2 to test6: the processes are the go statements in order. */
  function Tests(): seq<Topology> {
    [ Topology(8, [0, 2, 4, 6], [1, 3, 5, 7]),
      Topology(5, [0, 1, 2, 3], [4, 4, 4, 4]),
      Topology(5, [4, 4, 4, 4], [0, 1, 2, 3]),
      Topology(2, [0, 0, 0, 0], [1, 1, 1, 1]),
      Topology(2, [0, 0, 0, 0, 1, 1, 1, 1], [1, 1, 1, 1, 0, 0, 0, 0]),
      Topology(10, [8, 8, 8, 8, 0, 1, 2, 3, 9, 9, 9, 9], [9, 9, 9, 9, 8, 8, 8, 8, 4, 5, 6, 7]) ]
  }

  /** Naming a channel end for every process shows that all of them have one. */
  lemma StaffedBy(w: Topology, owned: seq<nat>)
    requires |owned| == w.procs && |w.sender| == |w.receiver|
    requires forall p :: 0 <= p < |owned| ==>
               owned[p] < |w.sender| && (w.sender[owned[p]] == p || w.receiver[owned[p]] == p)
    ensures Staffed(w)
  {
    forall p | 0 <= p < w.procs ensures Owns(w, p) {
      assert owned[p] < |w.sender|;
    }
  }

  lemma SmallTestsAreWired(k: nat)
    requires k < 5
    ensures WellWired(Tests()[k]) && Staffed(Tests()[k])
  {
    hide Staffed;
    StaffedBy(Tests()[0], [0, 0, 1, 1, 2, 2, 3, 3]);
    StaffedBy(Tests()[1], [0, 1, 2, 3, 0]);
    StaffedBy(Tests()[2], [0, 1, 2, 3, 0]);
    StaffedBy(Tests()[3], [0, 0]);
    StaffedBy(Tests()[4], [0, 0]);
  }

  lemma LargeTestIsWired()
    ensures WellWired(Tests()[5]) && Staffed(Tests()[5])
  {
    hide Staffed;
    StaffedBy(Tests()[5], [4, 5, 6, 7, 8, 9, 10, 11, 0, 8]);
  }

  lemma TestIsWired(k: nat)
    requires k < |Tests()|
    ensures WellWired(Tests()[k]) && Staffed(Tests()[k])
  {
    if k < 5 { SmallTestsAreWired(k); } else { LargeTestIsWired(); }
  }
}
