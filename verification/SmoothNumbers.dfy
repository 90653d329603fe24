/** The number generator of testsuit/roottest/235.go, for any list of factors above one: it emits
    the products of the factors in increasing order.  Each factor has a process that multiplies
    what it is sent; queued values may be on either side of that process at any time.  The channels on
    both sides are bounded, so a send can block for good. */
module SmoothNumbers {

  const CAPACITY := 100

  ghost predicate Factors(F: seq<nat>) { |F| >= 1 && forall i :: 0 <= i < |F| ==> F[i] >= 2 }

  /** n is a product of factors. */
  ghost predicate Smooth(F: seq<nat>, n: nat)
    decreases n
  {
    n == 1 || exists i, m: nat :: 0 <= i < |F| && m < n && n == Times(F[i], m) && Smooth(F, m)
  }

  function Times(f: nat, m: nat): nat { f * m }

  lemma TimesIs(f: nat, m: nat)
    ensures Times(f, m) == f * m
  {}

  lemma TimesExceeds(f: nat, m: nat)
    requires f >= 2 && m >= 1
    ensures Times(f, m) > m
  {}

  lemma SmoothProduct(F: seq<nat>, i: nat, m: nat)
    requires Factors(F) && i < |F| && m >= 1 && Smooth(F, m)
    ensures Smooth(F, Times(F[i], m)) && Times(F[i], m) > m
  {
    hide Times;
    TimesExceeds(F[i], m);
  }

  lemma TimesMonotone(f: nat, a: nat, b: nat)
    requires f >= 1
    ensures a < b <==> Times(f, a) < Times(f, b)
  {
    if a < b { assert f * a < f * b; }
    if a >= b { assert f * a >= f * b; }
  }

  /** E lists all smooth numbers up to its last element, in increasing order. */
  ghost predicate Enumerates(F: seq<nat>, E: seq<nat>) {
    && |E| >= 1 && E[0] == 1
    && (forall i, j :: 0 <= i < j < |E| ==> E[i] < E[j])
    && (forall i :: 0 <= i < |E| ==> Smooth(F, E[i]))
    && (forall n: nat :: 1 <= n <= E[|E| - 1] && Smooth(F, n) ==> n in E)
  }

  function Scaled(f: nat, s: seq<nat>): seq<nat> { seq(|s|, i requires 0 <= i < |s| => Times(f, s[i])) }

  /** Channel i has delivered its factor times the first taken[i] elements; xs[i] is the last of them,
      and all before it are at most x. */
  ghost predicate Fronts(F: seq<nat>, E: seq<nat>, taken: seq<nat>, xs: seq<nat>, x: nat)
    requires |F| == |taken| == |xs|
  {
    forall i :: 0 <= i < |F| ==> Front(F[i], E, taken[i], xs[i], x)
  }

  ghost predicate Front(f: nat, E: seq<nat>, taken: nat, xi: nat, x: nat) {
    && 1 <= taken <= |E| && xi == Times(f, E[taken - 1])
    && (forall j :: 0 <= j < taken - 1 ==> Times(f, E[j]) <= x)
  }

  lemma SmoothParts(F: seq<nat>, n: nat) returns (i: nat, m: nat)
    requires Factors(F) && Smooth(F, n) && n > 1
    ensures i < |F| && 1 <= m < n && n == Times(F[i], m) && Smooth(F, m)
  {
    i, m :| 0 <= i < |F| && m < n && n == Times(F[i], m) && Smooth(F, m);
  }

  lemma Listed(F: seq<nat>, E: seq<nat>, n: nat) returns (j: nat)
    requires Enumerates(F, E) && 1 <= n <= E[|E| - 1] && Smooth(F, n)
    ensures j < |E| && E[j] == n
  {
    j :| 0 <= j < |E| && E[j] == n;
  }

  /** A smooth number that has not been emitted is not below every front. */
  lemma {:induction false} SomeFrontReached(F: seq<nat>, E: seq<nat>, taken: seq<nat>, xs: seq<nat>, n: nat)
      returns (k: nat)
    requires Factors(F) && Enumerates(F, E) && |F| == |taken| == |xs| && Fronts(F, E, taken, xs, E[|E| - 1])
    requires E[|E| - 1] < n && Smooth(F, n)
    ensures k < |xs| && xs[k] <= n
    decreases n
  {
    hide Smooth, Times;
    var x := E[|E| - 1];
    assert x >= E[0];
    var i, m := SmoothParts(F, n);
    if m > x {
      k := SomeFrontReached(F, E, taken, xs, m);
    } else {
      var j := Listed(F, E, m);
      k := i;
      assert Front(F[i], E, taken[i], xs[i], x);
      hide Enumerates, Fronts;
      assert j >= taken[i] - 1;
      TimesMonotone(F[i], E[j], E[taken[i] - 1]);
    }
  }

  /** The least front is the next smooth number. */
  lemma NextSmooth(F: seq<nat>, E: seq<nat>, taken: seq<nat>, xs: seq<nat>, x': nat)
    requires Factors(F) && Enumerates(F, E) && |F| == |taken| == |xs| && Fronts(F, E, taken, xs, E[|E| - 1])
    requires x' in xs && forall i :: 0 <= i < |xs| ==> x' <= xs[i] && E[|E| - 1] < xs[i]
    ensures Enumerates(F, E + [x'])
  {
    hide Smooth, Times;
    var x, E' := E[|E| - 1], E + [x'];
    var i :| 0 <= i < |xs| && xs[i] == x';
    FrontSmooth(F, E, taken, xs, i);
    hide Fronts;
    forall n: nat | 1 <= n <= x' && Smooth(F, n) ensures n in E' {
      if n <= x {
        var j := Listed(F, E, n);
        assert E'[j] == n;
      } else {
        var k := SomeFrontReached(F, E, taken, xs, n);
        assert E'[|E|] == n;
      }
    }
  }

  lemma FrontSmooth(F: seq<nat>, E: seq<nat>, taken: seq<nat>, xs: seq<nat>, i: nat)
    requires Factors(F) && Enumerates(F, E) && |F| == |taken| == |xs| && Fronts(F, E, taken, xs, E[|E| - 1]) && i < |xs|
    ensures Smooth(F, xs[i])
  {
    hide Smooth, Times;
    assert Front(F[i], E, taken[i], xs[i], E[|E| - 1]);
    assert E[taken[i] - 1] >= E[0];
    SmoothProduct(F, i, E[taken[i] - 1]);
  }

  // ----- The processes -----

  /** What the factor process will still deliver: products waiting, then inputs to be multiplied. */
  function Pending(f: nat, input: seq<nat>, output: seq<nat>): seq<nat> { output + Scaled(f, input) }

  /** At most a channel full of products, and a channel full of inputs with one more in the process. */
  predicate Fits(input: seq<nat>, output: seq<nat>) { |input| <= CAPACITY + 1 && |output| <= CAPACITY }

  /** The first inputs have become outputs, each f times its input, and the others are still there. */
  ghost predicate Multiplied(f: nat, input0: seq<nat>, output0: seq<nat>, input: seq<nat>, output: seq<nat>) {
    && output0 <= output && |output| - |output0| <= |input0| && input == input0[|output| - |output0|..]
    && forall j :: 0 <= j < |output| - |output0| ==> output[|output0| + j] == f * input0[j]
  }

  /** The process for f runs for a while: it moves some of its input to its output. */
  method Relay(f: nat, input0: seq<nat>, output0: seq<nat>) returns (input: seq<nat>, output: seq<nat>)
    requires Fits(input0, output0)
    ensures Fits(input, output) && Pending(f, input, output) == Pending(f, input0, output0)
    ensures Multiplied(f, input0, output0, input, output)
  {
    input, output := input0, output0;
    var rounds: nat := *;
    while rounds > 0 && input != [] && |output| < CAPACITY
      invariant Fits(input, output) && Pending(f, input, output) == Pending(f, input0, output0)
      invariant Multiplied(f, input0, output0, input, output)
    {
      RelayOne(f, input, output);
      input, output, rounds := input[1..], output + [Times(f, input[0])], rounds - 1;
    }
  }

  /** The process multiplies one input. */
  method RelayNext(f: nat, input0: seq<nat>, output0: seq<nat>) returns (input: seq<nat>, output: seq<nat>)
    requires input0 != []
    ensures |input| + 1 == |input0| && |output| == |output0| + 1
    ensures Pending(f, input, output) == Pending(f, input0, output0)
  {
    hide Pending, Times;
    RelayOne(f, input0, output0);
    input, output := input0[1..], output0 + [Times(f, input0[0])];
  }

  /** The process runs on until it has made room for an input, if it can. */
  method MakeRoom(f: nat, input0: seq<nat>, output0: seq<nat>) returns (input: seq<nat>, output: seq<nat>)
    requires Fits(input0, output0)
    ensures Fits(input, output) && Pending(f, input, output) == Pending(f, input0, output0)
    ensures |input| == CAPACITY + 1 ==> |output| == CAPACITY
  {
    hide Pending, Multiplied;
    input, output := Relay(f, input0, output0);
    if |input| == CAPACITY + 1 && |output| < CAPACITY {
      input, output := RelayNext(f, input, output);
    }
  }

  /** A send waits for the process to make room.  It waits for ever exactly when both channels and the
      process are full, because nobody else takes products away. */
  method Send(f: nat, x: nat, input0: seq<nat>, output0: seq<nat>)
      returns (blocked: bool, input: seq<nat>, output: seq<nat>)
    requires Fits(input0, output0)
    ensures blocked <==> |input0| + |output0| == 201
    ensures !blocked ==> Fits(input, output) && Pending(f, input, output) == Pending(f, input0 + [x], output0)
  {
    hide Pending;
    input, output := MakeRoom(f, input0, output0);
    PendingLength(f, input0, output0);
    PendingLength(f, input, output);
    blocked := |input| == CAPACITY + 1;
    if !blocked {
      PendingMore(f, input, output, x);
      PendingMore(f, input0, output0, x);
      input := input + [x];
    }
  }

  lemma PendingMore(f: nat, input: seq<nat>, output: seq<nat>, x: nat)
    ensures Pending(f, input + [x], output) == Pending(f, input, output) + [Times(f, x)]
  {
    hide Times;
    assert Scaled(f, input + [x]) == Scaled(f, input) + [Times(f, x)];
  }

  lemma PendingLength(f: nat, input: seq<nat>, output: seq<nat>)
    ensures |Pending(f, input, output)| == |input| + |output|
  {}

  lemma RelayOne(f: nat, input: seq<nat>, output: seq<nat>)
    requires input != []
    ensures Pending(f, input[1..], output + [Times(f, input[0])]) == Pending(f, input, output)
  {
    assert Scaled(f, input) == [Times(f, input[0])] + Scaled(f, input[1..]);
  }

  /** A blocking receive: the process runs until its output is not empty. */
  method Receive(f: nat, input0: seq<nat>, output0: seq<nat>) returns (v: nat, input: seq<nat>, output: seq<nat>)
    requires Fits(input0, output0) && Pending(f, input0, output0) != []
    ensures Fits(input, output) && Pending(f, input0, output0) == [v] + Pending(f, input, output)
    ensures v == if output0 != [] then output0[0] else f * input0[0]
  {
    input, output := Relay(f, input0, output0);
    if output == [] {
      RelayOne(f, input, output);
      input, output := input[1..], output + [Times(f, input[0])];
    }
    v := output[0];
    output := output[1..];
  }

  method Min(xs: seq<nat>) returns (m: nat)
    requires |xs| >= 1
    ensures m in xs && forall i :: 0 <= i < |xs| ==> m <= xs[i]
  {
    m := xs[0];
    for i := 1 to |xs|
      invariant m in xs && forall j :: 0 <= j < i ==> m <= xs[j]
    {
      if xs[i] < m {
        m := xs[i];
      }
    }
  }

  /** The channel still holds its factor times the emitted values from taken on, up to the n-th. */
  ghost predicate Queue(f: nat, E: seq<nat>, n: nat, taken: nat, input: seq<nat>, output: seq<nat>) {
    taken <= n <= |E| && Fits(input, output) && Pending(f, input, output) == Scaled(f, E[taken..n])
  }

  lemma QueueGrows(f: nat, E: seq<nat>, n: nat, taken: nat, input: seq<nat>, output: seq<nat>,
                   input': seq<nat>, output': seq<nat>)
    requires Queue(f, E, n, taken, input, output) && n < |E| && Fits(input', output')
    requires Pending(f, input', output') == Pending(f, input + [E[n]], output)
    ensures Queue(f, E, n + 1, taken, input', output')
  {
    PendingMore(f, input, output, E[n]);
    assert Scaled(f, E[taken..n + 1]) == Scaled(f, E[taken..n]) + [Times(f, E[n])];
  }

  /** At place j a channel delivers its factor times the j-th emitted value that it has not delivered. */
  lemma QueueDelivers(f: nat, E: seq<nat>, n: nat, taken: nat, input: seq<nat>, output: seq<nat>, j: nat)
    requires Queue(f, E, n, taken, input, output) && j < n - taken
    ensures |output| + |input| == n - taken
    ensures if j < |output| then output[j] == f * E[taken + j] else f * input[j - |output|] == f * E[taken + j]
  {
    var p := Pending(f, input, output);
    PendingLength(f, input, output);
    assert p[j] == Scaled(f, E[taken..n])[j] == Times(f, E[taken..n][j]);
    assert j >= |output| ==> p[j] == Scaled(f, input)[j - |output|];
  }

  lemma QueueLength(f: nat, E: seq<nat>, n: nat, taken: nat, input: seq<nat>, output: seq<nat>)
    requires Queue(f, E, n, taken, input, output)
    ensures |input| + |output| == |Pending(f, input, output)| == n - taken <= 201 && Fits(input, output)
  {
    PendingLength(f, input, output);
  }

  lemma QueueShrinks(f: nat, E: seq<nat>, n: nat, taken: nat, input: seq<nat>, output: seq<nat>,
                     v: nat, input': seq<nat>, output': seq<nat>)
    requires Queue(f, E, n, taken, input, output) && taken < n
    requires Pending(f, input, output) == [v] + Pending(f, input', output') && Fits(input', output')
    ensures v == Times(f, E[taken]) && Queue(f, E, n, taken + 1, input', output')
  {
    var p := Scaled(f, E[taken..n]);
    assert p[0] == v && p[0] == Times(f, E[taken]);
    assert p[1..] == Pending(f, input', output');
    assert Scaled(f, E[taken + 1..n]) == p[1..];
  }

  /** Before the first round nothing has been received; from then on fronts are at least x. */
  ghost predicate Stale(f: nat, E: seq<nat>, taken: nat, xi: nat) {
    var x := if |E| >= 1 then E[|E| - 1] else 0;
    if |E| == 1 then taken == 0 && xi == 1
    else Front(f, E, taken, xi, x) && x <= xi && forall j :: 0 <= j < taken - 1 ==> Times(f, E[j]) < x
  }

  ghost predicate Renewed(f: nat, E: seq<nat>, taken: nat, xi: nat)
    requires |E| >= 1
  {
    Front(f, E, taken, xi, E[|E| - 1]) && E[|E| - 1] < xi
  }

  lemma IncreasingSteps(F: seq<nat>, E: seq<nat>, j: nat)
    requires Enumerates(F, E) && j < |E|
    ensures 1 <= E[j] <= E[|E| - 1] && (j > 0 ==> E[j - 1] < E[j]) && (|E| == 1 ==> E[j] == 1)
  {
    if j < |E| - 1 { assert E[j] < E[|E| - 1]; }
    if j > 0 { assert E[0] < E[j]; }
  }

  /** A front equal to x is used up, and there is a next one, which lies above x. */
  lemma RenewedFront(F: seq<nat>, E: seq<nat>, i: nat, taken: nat, xi: nat)
    requires Factors(F) && Enumerates(F, E) && i < |F| && Stale(F[i], E, taken, xi)
    ensures xi != E[|E| - 1] ==> Renewed(F[i], E, taken, xi)
    ensures xi == E[|E| - 1] ==> taken < |E| && Renewed(F[i], E, taken + 1, Times(F[i], E[taken]))
  {
    hide Smooth, Times;
    var f, x := F[i], E[|E| - 1];
    IncreasingSteps(F, E, |E| - 1);
    if |E| == 1 {
      TimesExceeds(f, 1);
    } else if xi == x {
      if taken == |E| { TimesExceeds(f, x); }
      assert taken < |E|;
      IncreasingSteps(F, E, taken);
      TimesMonotone(f, E[taken - 1], E[taken]);
    }
  }

  lemma StaleAgain(f: nat, E: seq<nat>, taken: nat, xi: nat, x': nat)
    requires |E| >= 1 && Renewed(f, E, taken, xi) && E[|E| - 1] < x' <= xi
    ensures Stale(f, E + [x'], taken, xi)
  {
    hide Times;
    var E' := E + [x'];
    assert forall j :: 0 <= j < |E| ==> E'[j] == E[j];
  }

  /** The value sent to channel i in round k finds it full: of the values before, 201 still wait to be taken. */
  ghost predicate Overfull(F: seq<nat>, E: seq<nat>, k: nat, i: nat)
    requires k < |E| && i < |F|
  {
    k >= 202 && F[i] * E[k - 202] >= E[k]
  }

  ghost predicate SomeOverfull(F: seq<nat>, E: seq<nat>, k: nat)
    requires k < |E|
  {
    exists i :: 0 <= i < |F| && Overfull(F, E, k, i)
  }

  /** How many values wait on a channel shows in the values emitted. */
  lemma FullIsOverfull(F: seq<nat>, E: seq<nat>, i: nat, taken: nat, xi: nat)
    requires Factors(F) && Enumerates(F, E) && i < |F| && Stale(F[i], E, taken, xi) && taken <= |E|
    ensures |E| - 1 - taken >= 201 <==> Overfull(F, E, |E| - 1, i)
  {
    var f, k := F[i], |E| - 1;
    assert k >= 202 ==> F[i] * E[k - 202] == Times(f, E[k - 202]);
    hide Smooth, Times;
    if k >= 202 {
      var t := k - 202;
      if taken - 1 < t { TimesMonotone(f, E[taken - 1], E[t]); }
    }
  }

  ghost predicate NeverOverfull(F: seq<nat>, E: seq<nat>, rounds: nat)
    requires rounds <= |E|
  {
    forall k :: 0 <= k < rounds ==> !SomeOverfull(F, E, k)
  }

  lemma OverfullFrame(F: seq<nat>, E: seq<nat>, x: nat, rounds: nat)
    requires rounds <= |E| && NeverOverfull(F, E, rounds)
    ensures NeverOverfull(F, E + [x], rounds)
  {
    hide Times;
    forall k | 0 <= k < rounds ensures !SomeOverfull(F, E + [x], k) {
      assert !SomeOverfull(F, E, k);
      forall i | 0 <= i < |F| ensures !Overfull(F, E + [x], k, i) {
        assert !Overfull(F, E, k, i);
      }
    }
  }

  /** Before a round: the last value has not been sent, and every queue holds what has not been taken. */
  ghost predicate Ready(F: seq<nat>, E: seq<nat>, taken: seq<nat>, xs: seq<nat>, ins: seq<seq<nat>>,
        outs: seq<seq<nat>>) {
    && Enumerates(F, E) && |F| == |taken| == |xs| == |ins| == |outs|
    && (forall i :: 0 <= i < |F| ==> Queue(F[i], E, |E| - 1, taken[i], ins[i], outs[i]))
    && (forall i :: 0 <= i < |F| ==> Stale(F[i], E, taken[i], xs[i]))
  }

  /** One round of the main loop: send the last value to every factor process, renew the fronts that
      equal it, and emit the least front.  It blocks exactly when a channel is overfull. */
  method Round(F: seq<nat>, E: seq<nat>, xs: seq<nat>, ins: seq<seq<nat>>, outs: seq<seq<nat>>, ghost taken: seq<nat>)
      returns (blocked: bool, x: nat, xs': seq<nat>, ins': seq<seq<nat>>, outs': seq<seq<nat>>, ghost taken': seq<nat>)
    requires Factors(F) && Ready(F, E, taken, xs, ins, outs)
    ensures blocked <==> SomeOverfull(F, E, |E| - 1)
    ensures !blocked ==> Ready(F, E + [x], taken', xs', ins', outs')
  {
    hide Smooth, Times, SomeOverfull, Queue, Stale, Renewed, Enumerates;
    ReadyEnumerates(F, E, taken, xs, ins, outs);
    x, xs', taken' := 0, xs, taken;
    blocked, ins', outs' := SendAll(F, E, |E| - 1, taken, xs, ins, outs);
    if !blocked {
      ins', outs', xs', taken' := RenewAll(F, E, taken, ins', outs', xs);
      x := Min(xs');
      RoundDone(F, E, taken', xs', ins', outs', x);
    }
  }

  /** The main loop: after any number of rounds the values enumerate the products of the factors.  The run
      stops short exactly when a channel is overfull. */
  method Generate(F: seq<nat>, rounds: nat) returns (blocked: bool, E: seq<nat>)
    requires Factors(F)
    ensures Enumerates(F, E) && |E| <= rounds + 1 && NeverOverfull(F, E, |E| - 1)
    ensures !blocked ==> |E| == rounds + 1
    ensures blocked ==> |E| <= rounds && SomeOverfull(F, E, |E| - 1)
    ensures rounds <= 202 ==> !blocked
  {
    hide *;
    var n := |F|;
    var ins: seq<seq<nat>>, outs: seq<seq<nat>>, xs: seq<nat> := seq(n, _ => []), seq(n, _ => []), seq(n, _ => 1);
    ghost var taken: seq<nat> := seq(n, _ => 0);
    E, blocked := [1], false;
    StartReady(F, taken, xs, ins, outs);
    NoRounds(F, E);
    for k := 0 to rounds
      invariant |E| == k + 1 && Ready(F, E, taken, xs, ins, outs) && !blocked && NeverOverfull(F, E, k)
    {
      ReadyEnumerates(F, E, taken, xs, ins, outs);
      var x;
      blocked, x, xs, ins, outs, taken := Round(F, E, xs, ins, outs, taken);
      if blocked {
        NotOverfullEarly(F, E);
        return;
      }
      NeverOverfullNext(F, E, k);
      OverfullFrame(F, E, x, k + 1);
      E := E + [x];
    }
    ReadyEnumerates(F, E, taken, xs, ins, outs);
  }

  lemma NoRounds(F: seq<nat>, E: seq<nat>)
    ensures NeverOverfull(F, E, 0)
  {}

  lemma ReadyEnumerates(F: seq<nat>, E: seq<nat>, taken: seq<nat>, xs: seq<nat>, ins: seq<seq<nat>>,
        outs: seq<seq<nat>>)
    requires Ready(F, E, taken, xs, ins, outs)
    ensures Enumerates(F, E) && |E| >= 1
  {}

  lemma StartReady(F: seq<nat>, taken: seq<nat>, xs: seq<nat>, ins: seq<seq<nat>>, outs: seq<seq<nat>>)
    requires |F| == |taken| == |xs| == |ins| == |outs|
    requires forall i :: 0 <= i < |F| ==> taken[i] == 0 && xs[i] == 1 && ins[i] == [] && outs[i] == []
    ensures Ready(F, [1], taken, xs, ins, outs)
  {
    OneIsSmooth(F);
    forall i | 0 <= i < |F| ensures Queue(F[i], [1], 0, taken[i], ins[i], outs[i]) { EmptyQueue(F[i], [1]); }
  }

  lemma NotOverfullEarly(F: seq<nat>, E: seq<nat>)
    requires |E| >= 1 && SomeOverfull(F, E, |E| - 1)
    ensures |E| > 202
  {}

  lemma NeverOverfullNext(F: seq<nat>, E: seq<nat>, k: nat)
    requires k < |E| && NeverOverfull(F, E, k) && !SomeOverfull(F, E, k)
    ensures NeverOverfull(F, E, k + 1)
  {
    hide Times;
  }

  /** With all fronts renewed, emitting the least of them leaves everything ready for the next round. */
  lemma RoundDone(F: seq<nat>, E: seq<nat>, taken: seq<nat>, xs: seq<nat>, ins: seq<seq<nat>>, outs: seq<seq<nat>>,
        x': nat)
    requires Factors(F) && Enumerates(F, E) && |F| == |taken| == |xs| == |ins| == |outs|
    requires forall i :: 0 <= i < |F| ==> Queue(F[i], E, |E|, taken[i], ins[i], outs[i])
    requires forall i :: 0 <= i < |F| ==> Renewed(F[i], E, taken[i], xs[i])
    requires x' in xs && forall i :: 0 <= i < |xs| ==> x' <= xs[i]
    ensures Enumerates(F, E + [x'])
    ensures forall i :: 0 <= i < |F| ==> Stale(F[i], E + [x'], taken[i], xs[i])
    ensures forall i :: 0 <= i < |F| ==> Queue(F[i], E + [x'], |E|, taken[i], ins[i], outs[i])
  {
    hide Smooth, Times, Queue;
    var x := E[|E| - 1];
    assert Fronts(F, E, taken, xs, x) by {
      forall i | 0 <= i < |F| ensures Front(F[i], E, taken[i], xs[i], x) { assert Renewed(F[i], E, taken[i], xs[i]); }
    }
    forall i | 0 <= i < |F| ensures x' <= xs[i] && x < xs[i] { assert Renewed(F[i], E, taken[i], xs[i]); }
    NextSmooth(F, E, taken, xs, x');
    forall i | 0 <= i < |F|
      ensures Stale(F[i], E + [x'], taken[i], xs[i]) && Queue(F[i], E + [x'], |E|, taken[i], ins[i], outs[i])
    {
      var j :| 0 <= j < |xs| && xs[j] == x';
      StaleAgain(F[i], E, taken[i], xs[i], x');
      QueueFrame(F[i], E, x', |E|, taken[i], ins[i], outs[i]);
    }
  }

  lemma OneIsSmooth(F: seq<nat>)
    ensures Enumerates(F, [1])
  {}

  lemma EmptyQueue(f: nat, E: seq<nat>)
    ensures Queue(f, E, 0, 0, [], [])
  {}

  lemma QueueFrame(f: nat, E: seq<nat>, x: nat, n: nat, taken: nat, input: seq<nat>, output: seq<nat>)
    requires Queue(f, E, n, taken, input, output)
    ensures Queue(f, E + [x], n, taken, input, output)
  {
    assert (E + [x])[taken..n] == E[taken..n];
  }

  /** Sends the last value to every channel; blocks exactly when one of them is overfull. */
  method SendAll(F: seq<nat>, E: seq<nat>, k: nat, ghost taken: seq<nat>, ghost xs: seq<nat>,
                 ins0: seq<seq<nat>>, outs0: seq<seq<nat>>)
      returns (blocked: bool, ins: seq<seq<nat>>, outs: seq<seq<nat>>)
    requires Factors(F) && Enumerates(F, E) && |F| == |taken| == |xs| == |ins0| == |outs0| && k + 1 == |E|
    requires forall i :: 0 <= i < |F| ==> Queue(F[i], E, k, taken[i], ins0[i], outs0[i])
    requires forall i :: 0 <= i < |F| ==> Stale(F[i], E, taken[i], xs[i])
    ensures blocked <==> SomeOverfull(F, E, k)
    ensures |ins| == |outs| == |F|
    ensures !blocked ==> forall i :: 0 <= i < |F| ==> Queue(F[i], E, k + 1, taken[i], ins[i], outs[i])
  {
    hide Queue, Stale, Times, Smooth, Scaled, Pending, Overfull, Enumerates;
    blocked, ins, outs := false, ins0, outs0;
    for i := 0 to |F|
      invariant |ins| == |outs| == |F| && !blocked
      invariant forall j :: 0 <= j < i ==> Queue(F[j], E, k + 1, taken[j], ins[j], outs[j]) && !Overfull(F, E, k, j)
      invariant forall j :: i <= j < |F| ==> Queue(F[j], E, k, taken[j], ins[j], outs[j])
    {
      QueueLength(F[i], E, k, taken[i], ins[i], outs[i]);
      FullIsOverfull(F, E, i, taken[i], xs[i]);
      var input, output;
      blocked, input, output := Send(F[i], E[k], ins[i], outs[i]);
      if blocked { return; }
      QueueGrows(F[i], E, k, taken[i], ins[i], outs[i], input, output);
      ins, outs := ins[i := input], outs[i := output];
    }
  }

  method RenewAll(F: seq<nat>, E: seq<nat>, ghost taken0: seq<nat>, ins0: seq<seq<nat>>, outs0: seq<seq<nat>>,
        xs0: seq<nat>)
      returns (ins: seq<seq<nat>>, outs: seq<seq<nat>>, xs: seq<nat>, ghost taken: seq<nat>)
    requires Factors(F) && Enumerates(F, E) && |F| == |taken0| == |ins0| == |outs0| == |xs0|
    requires forall i :: 0 <= i < |F| ==> Queue(F[i], E, |E|, taken0[i], ins0[i], outs0[i])
    requires forall i :: 0 <= i < |F| ==> Stale(F[i], E, taken0[i], xs0[i])
    ensures |F| == |taken| == |ins| == |outs| == |xs|
    ensures forall i :: 0 <= i < |F| ==> Queue(F[i], E, |E|, taken[i], ins[i], outs[i])
    ensures forall i :: 0 <= i < |F| ==> Renewed(F[i], E, taken[i], xs[i])
  {
    hide Stale, Renewed, Pending, Smooth, Times;
    ins, outs, xs, taken := ins0, outs0, xs0, taken0;
    var x := E[|E| - 1];
    for i := 0 to |F|
      invariant |F| == |taken| == |ins| == |outs| == |xs|
      invariant forall j :: 0 <= j < |F| ==> Queue(F[j], E, |E|, taken[j], ins[j], outs[j])
      invariant forall j :: 0 <= j < i ==> Renewed(F[j], E, taken[j], xs[j])
      invariant forall j :: i <= j < |F| ==> Stale(F[j], E, taken[j], xs[j])
    {
      RenewedFront(F, E, i, taken[i], xs[i]);
      if xs[i] == x {
        QueueLength(F[i], E, |E|, taken[i], ins[i], outs[i]);
        var v, input, output := Receive(F[i], ins[i], outs[i]);
        QueueShrinks(F[i], E, |E|, taken[i], ins[i], outs[i], v, input, output);
        ins, outs, xs, taken := ins[i := input], outs[i := output], xs[i := v], taken[i := taken[i] + 1];
      }
    }
  }
}
