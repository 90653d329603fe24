/** The flat interpreter of testsuit/roottest/turing.go, for any program and tape, related to the
    structured while-loop reading of the same text. */
module Turing {
  import opened Texts

  type Byte = x: int | 0 <= x < 256

  function Up(x: Byte): Byte { if x == 255 then 0 else x + 1 }

  function Down(x: Byte): Byte { if x == 0 then 255 else x - 1 }

  /** What a program works on: the tape, the head (which nothing keeps on the tape) and the output. */
  datatype Data = Data(tape: seq<Byte>, p: int, out: seq<Byte>) {
    predicate OnTape() { 0 <= p < |tape| }
  }

  // ----- The flat machine -----

  /** A machine is running at pc, has met the terminator, or has panicked on an index. */
  datatype Machine = Running(pc: int, d: Data) | Halted(d: Data) | Panicked

  datatype Landing = At(pc: int) | OffTheEnd

  function NestAfter(c: char, nest: int): int {
    if c == ']' then nest - 1 else if c == '[' then nest + 1 else nest
  }

  /** scan: move pc by dir until the brackets passed balance. */
  function ScanFrom(prog: string, pc: int, dir: int, nest: int): Landing
    requires dir == 1 || dir == -1
    decreases if pc + dir < 0 || pc + dir >= |prog| then 0 else if dir == 1 then |prog| - pc else pc + 1
  {
    if dir * nest <= 0 then At(pc)
    else if pc + dir < 0 || pc + dir >= |prog| then OffTheEnd
    else ScanFrom(prog, pc + dir, dir, NestAfter(prog[pc + dir], nest))
  }

  predicate IsSimple(c: char) { c == '>' || c == '<' || c == '+' || c == '-' || c == '.' }

  predicate IsCommand(c: char) { IsSimple(c) || c == '[' || c == ']' }

  datatype Effect = Done(d: Data) | Panic

  function Simple(c: char, d: Data): Effect
    requires IsSimple(c)
  {
    if c == '>' then Done(d.(p := d.p + 1))
    else if c == '<' then Done(d.(p := d.p - 1))
    else if !d.OnTape() then Panic
    else if c == '+' then Done(d.(tape := d.tape[d.p := Up(d.tape[d.p])]))
    else if c == '-' then Done(d.(tape := d.tape[d.p := Down(d.tape[d.p])]))
    else Done(d.(out := d.out + [d.tape[d.p]]))
  }

  /** One turn of the interpreter loop. */
  function Step(prog: string, m: Machine): Machine {
    if !m.Running? then m
    else
      var pc, d := m.pc, m.d;
      if !(0 <= pc < |prog|) then Panicked
      else if IsSimple(prog[pc]) then
        match Simple(prog[pc], d)
        case Done(d') => Running(pc + 1, d')
        case Panic => Panicked
      else if prog[pc] == '[' || prog[pc] == ']' then
        if !d.OnTape() then Panicked
        else if (prog[pc] == '[') == (d.tape[d.p] == 0) then
          var dir := if prog[pc] == '[' then 1 else -1;
          match ScanFrom(prog, pc, dir, dir)
          case At(target) => Running(target + 1, d)
          case OffTheEnd => Panicked
        else Running(pc + 1, d)
      else Halted(d)
  }

  function RunFor(prog: string, m: Machine, k: nat): Machine
    decreases k
  {
    if k == 0 then m else RunFor(prog, Step(prog, m), k - 1)
  }

  lemma {:induction false} RunForAdds(prog: string, m: Machine, j: nat, k: nat)
    ensures RunFor(prog, m, j + k) == RunFor(prog, RunFor(prog, m, j), k)
    decreases j
  {
    hide Step;
    if j > 0 { RunForAdds(prog, Step(prog, m), j - 1, k); }
  }

  lemma {:induction false} StoppedStays(prog: string, m: Machine, k: nat)
    requires !m.Running?
    ensures RunFor(prog, m, k) == m
  {
    if k > 0 { StoppedStays(prog, m, k - 1); }
  }

  // ----- Structured programs -----

  datatype Prog = Nil | Do(c: char, rest: Prog) | Loop(body: Prog, rest: Prog)

  predicate Wellformed(q: Prog) {
    match q
    case Nil => true
    case Do(c, rest) => IsSimple(c) && Wellformed(rest)
    case Loop(body, rest) => Wellformed(body) && Wellformed(rest)
  }

  function Flatten(q: Prog): string {
    match q
    case Nil => ""
    case Do(c, rest) => [c] + Flatten(rest)
    case Loop(body, rest) => "[" + Flatten(body) + "]" + Flatten(rest)
  }

  datatype Result = Finished(d: Data) | Failed | OutOfFuel

  /** while tape[p] != 0 { body }; fuel bounds how many loop turns are nested or chained. */
  function Exec(q: Prog, d: Data, fuel: nat): Result
    requires Wellformed(q)
    decreases fuel, q
  {
    match q
    case Nil => Finished(d)
    case Do(c, rest) =>
      (match Simple(c, d)
       case Done(d') => Exec(rest, d', fuel)
       case Panic => Failed)
    case Loop(body, rest) =>
      if !d.OnTape() then Failed
      else if d.tape[d.p] == 0 then Exec(rest, d, fuel)
      else if fuel == 0 then OutOfFuel
      else
        match Exec(body, d, fuel - 1)
        case Finished(d') => Exec(q, d', fuel - 1)
        case Failed => Failed
        case OutOfFuel => OutOfFuel
  }

  // ----- scan lands on the matching bracket -----

  ghost predicate Stands(prog: string, q: Prog, i: int) { TextAt(prog, Flatten(q), i) }

  lemma StandsParts(prog: string, q: Prog, i: int)
    requires Stands(prog, q, i)
    ensures q.Do? ==> prog[i] == q.c && Stands(prog, q.rest, i + 1)
    ensures q.Loop? ==> var j := i + 1 + |Flatten(q.body)|;
                        prog[i] == '[' && Stands(prog, q.body, i + 1) && prog[j] == ']' && Stands(prog, q.rest, j + 1)
  {
    hide TextAt;
    match q
    case Nil =>
    case Do(c, rest) =>
      TextParts(prog, [c], Flatten(rest), i);
      OneItem(prog, c, i);
    case Loop(body, rest) =>
      var b, r := Flatten(body), Flatten(rest);
      TextParts(prog, "[" + b + "]", r, i);
      TextParts(prog, "[" + b, "]", i);
      TextParts(prog, "[", b, i);
      OneItem(prog, '[', i);
      OneItem(prog, ']', i + 1 + |b|);
  }

  /** Scanning forward passes over a whole structured text without changing the nesting. */
  lemma {:induction false} ScanPasses(prog: string, q: Prog, pc: int, nest: int)
    requires Wellformed(q) && Stands(prog, q, pc + 1) && nest >= 1
    ensures ScanFrom(prog, pc, 1, nest) == ScanFrom(prog, pc + |Flatten(q)|, 1, nest)
    decreases q
  {
    StandsParts(prog, q, pc + 1);
    hide Stands;
    match q
    case Nil =>
    case Do(c, rest) =>
      ScanPasses(prog, rest, pc + 1, nest);
    case Loop(body, rest) =>
      ScanPasses(prog, body, pc + 1, nest + 1);
      ScanPasses(prog, rest, pc + 2 + |Flatten(body)|, nest);
  }

  lemma {:induction false} ScanBackPasses(prog: string, q: Prog, i: int, nest: int)
    requires Wellformed(q) && Stands(prog, q, i) && nest <= -1
    ensures ScanFrom(prog, i + |Flatten(q)|, -1, nest) == ScanFrom(prog, i, -1, nest)
    decreases q
  {
    StandsParts(prog, q, i);
    hide Stands;
    match q
    case Nil =>
    case Do(c, rest) =>
      ScanBackPasses(prog, rest, i + 1, nest);
    case Loop(body, rest) =>
      var j := i + 1 + |Flatten(body)|;
      ScanBackPasses(prog, rest, j + 1, nest);
      ScanBackPasses(prog, body, i + 1, nest - 1);
  }

  /** From either bracket of a loop, scan lands on the other one. */
  lemma ScanMatches(prog: string, q: Prog, i: int)
    requires Wellformed(q) && q.Loop? && Stands(prog, q, i)
    ensures ScanFrom(prog, i, 1, 1) == At(i + 1 + |Flatten(q.body)|)
    ensures ScanFrom(prog, i + 1 + |Flatten(q.body)|, -1, -1) == At(i)
  {
    StandsParts(prog, q, i);
    var j := i + 1 + |Flatten(q.body)|;
    ScanPasses(prog, q.body, i, 1);
    assert ScanFrom(prog, j, 1, 0) == At(j);
    ScanBackPasses(prog, q.body, i + 1, -1);
    assert ScanFrom(prog, i, -1, 0) == At(i);
  }

  // ----- The flat machine simulates the structured program -----

  /** After k turns from m the machine shows what result r stands for, with end the place behind the text. */
  ghost predicate Shows(prog: string, m: Machine, k: nat, r: Result, end: int, fuel: int) {
    match r
    case Finished(d) => RunFor(prog, m, k) == Running(end, d)
    case Failed => RunFor(prog, m, k) == Panicked
    case OutOfFuel => k >= fuel && RunFor(prog, m, k).Running?
  }

  lemma ShowsAfter(prog: string, m: Machine, j: nat, m': Machine, k: nat, r: Result, end: int, fuel: int)
    requires RunFor(prog, m, j) == m' && Shows(prog, m', k, r, end, fuel)
    ensures Shows(prog, m, j + k, r, end, fuel + j)
  {
    RunForAdds(prog, m, j, k);
  }

  lemma OneTurn(prog: string, m: Machine)
    ensures RunFor(prog, m, 1) == Step(prog, m)
  {
    hide Step;
    assert RunFor(prog, Step(prog, m), 0) == Step(prog, m);
  }

  lemma {:induction false} Simulate(prog: string, q: Prog, i: int, d: Data, fuel: nat) returns (k: nat)
    requires Wellformed(q) && Stands(prog, q, i)
    ensures Shows(prog, Running(i, d), k, Exec(q, d, fuel), i + |Flatten(q)|, fuel)
    decreases fuel, q, 2
  {
    StandsParts(prog, q, i);
    hide Stands, ScanFrom, RunFor, Shows;
    var m := Running(i, d);
    OneTurn(prog, m);
    match q
    case Nil =>
      k := 0;
      ShowsNow(prog, m, Exec(q, d, fuel), i, fuel);
    case Do(c, rest) =>
      match Simple(c, d) {
        case Panic => k := 1; PanicsNow(prog, m, i + |Flatten(q)|, fuel);
        case Done(d') =>
          var k' := Simulate(prog, rest, i + 1, d', fuel);
          k := 1 + k';
          ShowsAfter(prog, m, 1, Running(i + 1, d'), k', Exec(rest, d', fuel), i + |Flatten(q)|, fuel);
          ShowsLess(prog, m, k, Exec(q, d, fuel), i + |Flatten(q)|, fuel + 1, fuel);
      }
    case Loop(body, rest) =>
      k := SimulateOpen(prog, q, i, d, fuel);
  }

  lemma ShowsNow(prog: string, m: Machine, r: Result, end: int, fuel: int)
    requires m.Running? && (r.Finished? ==> m == Running(end, r.d)) && !r.Failed? && (r.OutOfFuel? ==> fuel <= 0)
    ensures Shows(prog, m, 0, r, end, fuel)
  {}

  lemma PanicsNow(prog: string, m: Machine, end: int, fuel: int)
    requires Step(prog, m) == Panicked
    ensures Shows(prog, m, 1, Failed, end, fuel)
  {
    hide Step;
    OneTurn(prog, m);
  }

  lemma ShowsLess(prog: string, m: Machine, k: nat, r: Result, end: int, fuel: int, less: int)
    requires Shows(prog, m, k, r, end, fuel) && less <= fuel
    ensures Shows(prog, m, k, r, end, less)
  {}

  /** At the opening bracket. */
  lemma {:induction false} SimulateOpen(prog: string, q: Prog, i: int, d: Data, fuel: nat) returns (k: nat)
    requires Wellformed(q) && q.Loop? && Stands(prog, q, i)
    ensures Shows(prog, Running(i, d), k, Exec(q, d, fuel), i + |Flatten(q)|, fuel)
    decreases fuel, q, 1
  {
    StandsParts(prog, q, i);
    ScanMatches(prog, q, i);
    hide Stands, ScanFrom, RunFor, Shows;
    k := SimulateBracket(prog, q, i, Running(i, d), d, fuel);
  }

  /** At the closing bracket, which asks the same question again. */
  lemma {:induction false} SimulateClose(prog: string, q: Prog, i: int, d: Data, fuel: nat) returns (k: nat)
    requires Wellformed(q) && q.Loop? && Stands(prog, q, i)
    ensures Shows(prog, Running(i + 1 + |Flatten(q.body)|, d), k, Exec(q, d, fuel), i + |Flatten(q)|, fuel)
    decreases fuel, q, 1
  {
    StandsParts(prog, q, i);
    ScanMatches(prog, q, i);
    hide Stands, ScanFrom, RunFor, Shows;
    k := SimulateBracket(prog, q, i, Running(i + 1 + |Flatten(q.body)|, d), d, fuel);
  }

  /** At a bracket that leaves the loop on zero and enters the body otherwise. */
  lemma {:induction false} SimulateBracket(prog: string, q: Prog, i: int, m: Machine, d: Data,
        fuel: nat) returns (k: nat)
    requires Wellformed(q) && q.Loop? && Stands(prog, q, i) && m.Running?
    requires Step(prog, m) == if !d.OnTape() then Panicked
                              else if d.tape[d.p] == 0 then Running(i + 2 + |Flatten(q.body)|, d)
                              else Running(i + 1, d)
    ensures Shows(prog, m, k, Exec(q, d, fuel), i + |Flatten(q)|, fuel)
    decreases fuel, q, 0
  {
    StandsParts(prog, q, i);
    OneTurn(prog, m);
    hide Stands, ScanFrom, RunFor, Shows, Step;
    var j, end := i + 1 + |Flatten(q.body)|, i + |Flatten(q)|;
    if !d.OnTape() {
      k := 1;
      PanicsNow(prog, m, end, fuel);
    } else if d.tape[d.p] == 0 {
      var k' := Simulate(prog, q.rest, j + 1, d, fuel);
      k := 1 + k';
      ShowsAfter(prog, m, 1, Running(j + 1, d), k', Exec(q.rest, d, fuel), end, fuel);
      ShowsLess(prog, m, k, Exec(q, d, fuel), end, fuel + 1, fuel);
    } else if fuel == 0 {
      k := 0;
      ShowsNow(prog, m, OutOfFuel, end, fuel);
    } else {
      var r := Exec(q.body, d, fuel - 1);
      var k' := Simulate(prog, q.body, i + 1, d, fuel - 1);
      ShowsAfter(prog, m, 1, Running(i + 1, d), k', r, j, fuel - 1);
      k := 1 + k';
      if r.Finished? {
        var k'' := SimulateClose(prog, q, i, r.d, fuel - 1);
        BodyDone(prog, m, k, r.d, j, fuel);
        ShowsAfter(prog, m, k, Running(j, r.d), k'', Exec(q, r.d, fuel - 1), end, fuel - 1);
        k := k + k'';
        ShowsLess(prog, m, k, Exec(q, d, fuel), end, fuel - 1 + 1 + k', fuel);
      } else {
        ShowsElsewhere(prog, m, k, r, j, end, fuel);
      }
    }
  }

  lemma BodyDone(prog: string, m: Machine, k: nat, d: Data, j: int, fuel: int)
    requires Shows(prog, m, k, Finished(d), j, fuel)
    ensures RunFor(prog, m, k) == Running(j, d)
  {}

  lemma ShowsElsewhere(prog: string, m: Machine, k: nat, r: Result, end: int, end': int, fuel: int)
    requires Shows(prog, m, k, r, end, fuel) && !r.Finished?
    ensures Shows(prog, m, k, r, end', fuel)
  {}

  // ----- Flat and structured reading agree -----

  /** prog is the text of q followed by a character that is no command. */
  ghost predicate IsTextOf(prog: string, q: Prog) {
    Wellformed(q) && Stands(prog, q, 0) && |Flatten(q)| < |prog| && !IsCommand(prog[|Flatten(q)|])
  }

  lemma StopsOnce(prog: string, m: Machine, j: nat, k: nat)
    requires !RunFor(prog, m, j).Running?
    ensures k >= j ==> RunFor(prog, m, k) == RunFor(prog, m, j)
    ensures !RunFor(prog, m, k).Running? ==> RunFor(prog, m, k) == RunFor(prog, m, j)
  {
    hide RunFor;
    if k >= j {
      RunForAdds(prog, m, j, k - j);
      StoppedStays(prog, RunFor(prog, m, j), k - j);
    } else {
      RunForAdds(prog, m, k, j - k);
      if !RunFor(prog, m, k).Running? {
        StoppedStays(prog, RunFor(prog, m, k), j - k);
      }
    }
  }

  /** A structured run with enough fuel ends the way the machine stops. */
  lemma StructuredThenFlat(prog: string, q: Prog, d: Data, fuel: nat) returns (k: nat)
    requires IsTextOf(prog, q)
    ensures match Exec(q, d, fuel)
            case Finished(d') => RunFor(prog, Running(0, d), k) == Halted(d')
            case Failed => RunFor(prog, Running(0, d), k) == Panicked
            case OutOfFuel => k >= fuel && RunFor(prog, Running(0, d), k).Running?
  {
    hide RunFor, Stands;
    var m := Running(0, d);
    k := Simulate(prog, q, 0, d, fuel);
    var r := Exec(q, d, fuel);
    if r.Finished? {
      RunForAdds(prog, m, k, 1);
      OneTurn(prog, RunFor(prog, m, k));
      k := k + 1;
    }
  }

  /** If the machine stops, the structured program ends the same way. */
  lemma FlatThenStructured(prog: string, q: Prog, d: Data, k: nat)
    requires IsTextOf(prog, q) && !RunFor(prog, Running(0, d), k).Running?
    ensures RunFor(prog, Running(0, d), k)
         == match Exec(q, d, k + 1)
            case Finished(d') => Halted(d')
            case Failed => Panicked
            case OutOfFuel => Running(0, d)
  {
    hide RunFor, IsTextOf;
    var j := StructuredThenFlat(prog, q, d, k + 1);
    StopsOnce(prog, Running(0, d), k, j);
  }

  ghost predicate MachineStops(prog: string, d: Data, m: Machine) {
    exists k: nat :: RunFor(prog, Running(0, d), k) == m
  }

  ghost predicate ProgramEnds(q: Prog, d: Data, r: Result)
    requires Wellformed(q)
  {
    exists fuel: nat :: Exec(q, d, fuel) == r
  }

  /** The machine halts with some tape and output exactly when the structured program finishes with
      them, and it panics exactly when the structured program fails. */
  lemma FlatIsStructured(prog: string, q: Prog, d: Data, d': Data)
    requires IsTextOf(prog, q)
    ensures MachineStops(prog, d, Halted(d')) <==> ProgramEnds(q, d, Finished(d'))
    ensures MachineStops(prog, d, Panicked) <==> ProgramEnds(q, d, Failed)
  {
    hide RunFor, Exec;
    if MachineStops(prog, d, Halted(d')) {
      var k: nat :| RunFor(prog, Running(0, d), k) == Halted(d');
      FlatThenStructured(prog, q, d, k);
    }
    if MachineStops(prog, d, Panicked) {
      var k: nat :| RunFor(prog, Running(0, d), k) == Panicked;
      FlatThenStructured(prog, q, d, k);
    }
    if ProgramEnds(q, d, Finished(d')) {
      var fuel: nat :| Exec(q, d, fuel) == Finished(d');
      var k := StructuredThenFlat(prog, q, d, fuel);
    }
    if ProgramEnds(q, d, Failed) {
      var fuel: nat :| Exec(q, d, fuel) == Failed;
      var k := StructuredThenFlat(prog, q, d, fuel);
    }
  }

  // ----- Every balanced text is the text of a structured program -----

  function Depth(s: string, k: nat): int
    requires k <= |s|
  {
    if k == 0 then 0 else NestAfter(s[k - 1], Depth(s, k - 1))
  }

  ghost predicate Balanced(s: string) {
    && (forall k :: 0 <= k < |s| ==> IsCommand(s[k]))
    && (forall k :: 0 <= k <= |s| ==> Depth(s, k) >= 0)
    && Depth(s, |s|) == 0
  }

  lemma {:induction false} DepthOfSlice(s: string, i: nat, j: nat, k: nat)
    requires i + k <= j <= |s|
    ensures Depth(s[i..j], k) == Depth(s, i + k) - Depth(s, i)
  {
    if k > 0 {
      DepthOfSlice(s, i, j, k - 1);
      assert s[i..j][k - 1] == s[i + k - 1];
    }
  }

  lemma SliceBalanced(s: string, i: nat, j: nat)
    requires i <= j <= |s| && Depth(s, i) == Depth(s, j)
    requires forall k :: i <= k < j ==> IsCommand(s[k])
    requires forall k :: i <= k <= j ==> Depth(s, k) >= Depth(s, i)
    ensures Balanced(s[i..j])
  {
    hide Depth, IsCommand;
    forall k | 0 <= k <= j - i ensures Depth(s[i..j], k) == Depth(s, i + k) - Depth(s, i) {
      DepthOfSlice(s, i, j, k);
    }
  }

  /** The bracket opened at position 0 is closed at some position j, not before. */
  lemma ClosingBracket(s: string) returns (j: nat)
    requires Balanced(s) && |s| > 0 && s[0] == '['
    ensures 1 <= j < |s| && s[j] == ']' && Depth(s, 1) == 1 && Depth(s, j) == 1 && Depth(s, j + 1) == 0
    ensures forall k :: 1 <= k <= j ==> Depth(s, k) >= 1
  {
    assert Depth(s, 0) == 0;
    j := 1;
    while Depth(s, j + 1) != 0
      invariant 1 <= j < |s| && forall k :: 1 <= k <= j ==> Depth(s, k) >= 1
      decreases |s| - j
    {
      j := j + 1;
    }
    assert Depth(s, j + 1) == NestAfter(s[j], Depth(s, j));
  }

  lemma {:induction false} BalancedIsStructured(s: string) returns (q: Prog)
    requires Balanced(s)
    ensures Wellformed(q) && Flatten(q) == s
    decreases |s|
  {
    if s == "" {
      q := Nil;
    } else if s[0] == '[' {
      var j := BalancedLoop(s);
      hide Balanced;
      var body := BalancedIsStructured(s[1..j]);
      var rest := BalancedIsStructured(s[j + 1..]);
      q := Loop(body, rest);
    } else {
      BalancedCommand(s);
      hide Balanced;
      var rest := BalancedIsStructured(s[1..]);
      q := Do(s[0], rest);
    }
  }

  lemma BalancedLoop(s: string) returns (j: nat)
    requires Balanced(s) && |s| > 0 && s[0] == '['
    ensures 1 <= j < |s| && s == "[" + s[1..j] + "]" + s[j + 1..]
    ensures Balanced(s[1..j]) && Balanced(s[j + 1..])
  {
    j := ClosingBracket(s);
    SliceBalanced(s, 1, j);
    SliceBalanced(s, j + 1, |s|);
    assert s[j + 1..] == s[j + 1..|s|];
  }

  lemma BalancedCommand(s: string)
    requires Balanced(s) && |s| > 0 && s[0] != '['
    ensures IsSimple(s[0]) && s == [s[0]] + s[1..] && Balanced(s[1..])
  {
    assert Depth(s, 0) == 0 && Depth(s, 1) >= 0;
    SliceBalanced(s, 1, |s|);
    assert s[1..] == s[1..|s|];
  }

  // ----- The interpreter itself -----

  /** The interpreter's globals: program, head, program counter and tape; out collects what it prints. */
  class Interpreter {
    const prog: string
    const a: array<Byte>
    var p: int
    var pc: int
    var out: seq<Byte>

    constructor (prog: string, size: nat)
      ensures this.prog == prog && p == 0 && pc == 0 && out == []
      ensures fresh(a) && a[..] == seq(size, _ => 0)
    {
      this.prog := prog;
      a := new Byte[size](_ => 0);
      p, pc, out := 0, 0, [];
    }

    ghost function View(): Data
      reads this, a
    {
      Data(a[..], p, out)
    }

    /** Moves pc to the matching bracket; panics when it runs off the program text. */
    method Scan(dir: int) returns (panicked: bool)
      requires dir == 1 || dir == -1
      modifies this`pc
      ensures panicked <==> ScanFrom(prog, old(pc), dir, dir).OffTheEnd?
      ensures !panicked ==> ScanFrom(prog, old(pc), dir, dir) == At(pc)
    {
      var nest := dir;
      while dir * nest > 0
        invariant ScanFrom(prog, pc, dir, nest) == ScanFrom(prog, old(pc), dir, dir)
        decreases if pc + dir < 0 || pc + dir >= |prog| then 0 else if dir == 1 then |prog| - pc else pc + 1,
                  dir * nest > 0
      {
        if pc + dir < 0 || pc + dir >= |prog| {
          return true;
        }
        nest := NestAfter(prog[pc + dir], nest);
        pc := pc + dir;
      }
      return false;
    }

    /** One turn of the interpreter loop. */
    method Turn() returns (m: Status)
      modifies this, a
      ensures match Step(prog, Running(old(pc), old(View())))
              case Running(pc', d) => m == Going && pc == pc' && View() == d
              case Halted(d) => m == Over && View() == d
              case Panicked => m == Crashed
    {
      if !(0 <= pc < |prog|) {
        return Crashed;
      }
      var c := prog[pc];
      if c == '>' {
        p := p + 1;
      } else if c == '<' {
        p := p - 1;
      } else if c == '+' {
        if !(0 <= p < a.Length) { return Crashed; }
        a[p] := Up(a[p]);
      } else if c == '-' {
        if !(0 <= p < a.Length) { return Crashed; }
        a[p] := Down(a[p]);
      } else if c == '.' {
        if !(0 <= p < a.Length) { return Crashed; }
        out := out + [a[p]];
      } else if c == '[' {
        if !(0 <= p < a.Length) { return Crashed; }
        if a[p] == 0 {
          var panicked := Scan(1);
          if panicked { return Crashed; }
        }
      } else if c == ']' {
        if !(0 <= p < a.Length) { return Crashed; }
        if a[p] != 0 {
          var panicked := Scan(-1);
          if panicked { return Crashed; }
        }
      } else {
        return Over;
      }
      pc := pc + 1;
      return Going;
    }

    /** The interpreter loop, cut off after limit turns. */
    method Interpret(limit: nat) returns (m: Status)
      modifies this, a
      ensures match RunFor(prog, Running(old(pc), old(View())), limit)
              case Running(pc', d) => m == Going && pc == pc' && View() == d
              case Halted(d) => m == Over && View() == d
              case Panicked => m == Crashed
    {
      m := Going;
      var n := 0;
      ghost var start := Running(pc, View());
      while m == Going && n < limit
        invariant n <= limit
        invariant m == Going ==> RunFor(prog, start, limit) == RunFor(prog, Running(pc, View()), limit - n)
        invariant m == Over ==> RunFor(prog, start, limit) == Halted(View())
        invariant m == Crashed ==> RunFor(prog, start, limit) == Panicked
        decreases limit - n, m == Going
      {
        ghost var before := Running(pc, View());
        m := Turn();
        n := n + 1;
        if m != Going {
          StoppedStays(prog, Step(prog, before), limit - n);
        }
      }
    }
  }

  datatype Status = Going | Over | Crashed
}
