/** What programs of testsuit/roottest/turing.go mean, said with numbers: repeated commands are moves
    and additions modulo 256, a loop is a count, and the program of the original prints its greeting. */
module TuringLaws {
  import opened Texts
  import opened Turing

  function Copies(c: char, n: nat): string { seq(n, _ => c) }

  lemma LastTurn(prog: string, m: Machine, n: nat)
    requires n >= 1
    ensures RunFor(prog, m, n) == Step(prog, RunFor(prog, m, n - 1))
  {
    hide Step, RunFor;
    RunForAdds(prog, m, n - 1, 1);
    OneTurn(prog, RunFor(prog, m, n - 1));
  }

  lemma NoTurn(prog: string, m: Machine)
    ensures RunFor(prog, m, 0) == m
  {}

  lemma Chain(prog: string, m: Machine, j: nat, m': Machine, k: nat, m'': Machine)
    requires RunFor(prog, m, j) == m' && RunFor(prog, m', k) == m''
    ensures RunFor(prog, m, j + k) == m''
  {
    hide RunFor;
    RunForAdds(prog, m, j, k);
  }

  /** A shorter row stands there too, and the command behind it is the same again. */
  lemma RowParts(prog: string, c: char, n: nat, i: int)
    requires TextAt(prog, Copies(c, n), i) && n >= 1
    ensures TextAt(prog, Copies(c, n - 1), i) && i + n <= |prog| && prog[i + n - 1] == c
  {
    assert Copies(c, n) == Copies(c, n - 1) + [c];
    TextParts(prog, Copies(c, n - 1), [c], i);
    OneItem(prog, c, i + n - 1);
  }

  /** With n added to the current cell, modulo 256. */
  function Added(d: Data, n: int): Data
    requires d.OnTape()
  {
    d.(tape := d.tape[d.p := (d.tape[d.p] + n) % 256])
  }

  lemma AddOne(prog: string, i: int, d: Data)
    requires 0 <= i < |prog| && d.OnTape()
    ensures prog[i] == '+' ==> Step(prog, Running(i, d)) == Running(i + 1, Added(d, 1))
    ensures prog[i] == '-' ==> Step(prog, Running(i, d)) == Running(i + 1, Added(d, -1))
  {}

  lemma ModAdds(x: int, y: int)
    ensures (x % 256 + y) % 256 == (x + y) % 256
  {}

  // ----- Rows of one command -----

  /** n times '+' add n to the current cell, modulo 256. */
  lemma {:induction false} PlusRow(prog: string, i: int, n: nat, d: Data)
    requires TextAt(prog, Copies('+', n), i) && 0 <= d.p < |d.tape|
    ensures RunFor(prog, Running(i, d), n) == Running(i + n, d.(tape := d.tape[d.p := (d.tape[d.p] + n) % 256]))
  {
    hide Step, RunFor;
    if n == 0 {
      assert Added(d, 0) == d;
      assert RunFor(prog, Running(i, d), 0) == Running(i, d) by { NoTurn(prog, Running(i, d)); }
    } else {
      var before := Added(d, n - 1);
      RowParts(prog, '+', n, i);
      PlusRow(prog, i, n - 1, d);
      LastTurn(prog, Running(i, d), n);
      AddOne(prog, i + n - 1, before);
      ModAdds(d.tape[d.p] + (n - 1), 1);
    }
  }

  /** n times '-' subtract n from the current cell, modulo 256. */
  lemma {:induction false} MinusRow(prog: string, i: int, n: nat, d: Data)
    requires TextAt(prog, Copies('-', n), i) && 0 <= d.p < |d.tape|
    ensures RunFor(prog, Running(i, d), n) == Running(i + n, d.(tape := d.tape[d.p := (d.tape[d.p] - n) % 256]))
  {
    hide Step, RunFor;
    if n == 0 {
      assert Added(d, 0) == d;
      assert RunFor(prog, Running(i, d), 0) == Running(i, d) by { NoTurn(prog, Running(i, d)); }
    } else {
      var before := Added(d, 1 - n);
      RowParts(prog, '-', n, i);
      MinusRow(prog, i, n - 1, d);
      LastTurn(prog, Running(i, d), n);
      AddOne(prog, i + n - 1, before);
      ModAdds(d.tape[d.p] - (n - 1), -1);
    }
  }

  /** n times '>' move the head up by n, wherever it is. */
  lemma {:induction false} RightRow(prog: string, i: int, n: nat, d: Data)
    requires TextAt(prog, Copies('>', n), i)
    ensures RunFor(prog, Running(i, d), n) == Running(i + n, d.(p := d.p + n))
  {
    if n > 0 {
      RowParts(prog, '>', n, i);
      RightRow(prog, i, n - 1, d);
      LastTurn(prog, Running(i, d), n);
    }
  }

  /** n times '<' move the head down by n, off the tape if need be. */
  lemma {:induction false} LeftRow(prog: string, i: int, n: nat, d: Data)
    requires TextAt(prog, Copies('<', n), i)
    ensures RunFor(prog, Running(i, d), n) == Running(i + n, d.(p := d.p - n))
  {
    if n > 0 {
      RowParts(prog, '<', n, i);
      LeftRow(prog, i, n - 1, d);
      LastTurn(prog, Running(i, d), n);
    }
  }

  /** n times '.' print the current cell n times. */
  lemma {:induction false} DotRow(prog: string, i: int, n: nat, d: Data)
    requires TextAt(prog, Copies('.', n), i) && 0 <= d.p < |d.tape|
    ensures RunFor(prog, Running(i, d), n) == Running(i + n, d.(out := d.out + seq(n, _ => d.tape[d.p])))
  {
    if n == 0 {
      assert d.out + seq(0, _ => d.tape[d.p]) == d.out;
    } else {
      RowParts(prog, '.', n, i);
      DotRow(prog, i, n - 1, d);
      LastTurn(prog, Running(i, d), n);
      assert d.out + seq(n, _ => d.tape[d.p]) == d.out + seq(n - 1, _ => d.tape[d.p]) + [d.tape[d.p]];
    }
  }

  /** Off the tape every command but the two moves panics. */
  lemma OffTape(prog: string, i: int, d: Data)
    requires 0 <= i < |prog| && prog[i] in "+-.[]" && !(0 <= d.p < |d.tape|)
    ensures RunFor(prog, Running(i, d), 1) == Panicked
  {
    OneTurn(prog, Running(i, d));
  }

  /** Any character that is no command stops the machine; behind the text it panics. */
  lemma Stops(prog: string, i: int, d: Data)
    ensures 0 <= i < |prog| && prog[i] !in "><+-.[]" ==> RunFor(prog, Running(i, d), 1) == Halted(d)
    ensures !(0 <= i < |prog|) ==> RunFor(prog, Running(i, d), 1) == Panicked
  {
    OneTurn(prog, Running(i, d));
  }

  // ----- Texts without brackets -----

  /** Move the head, add to the cell there, print it dots times. */
  datatype Piece = Piece(move: int, add: int, dots: nat)

  function Moves(n: int): string { if n >= 0 then Copies('>', n) else Copies('<', -n) }

  function Adds(n: int): string { if n >= 0 then Copies('+', n) else Copies('-', -n) }

  function PieceText(q: Piece): string { Moves(q.move) + Adds(q.add) + Copies('.', q.dots) }

  function Text(qs: seq<Piece>): string {
    if qs == [] then "" else PieceText(qs[0]) + Text(qs[1..])
  }

  function PlayOne(q: Piece, d: Data): Effect {
    var p := d.p + q.move;
    if q.add == 0 && q.dots == 0 then Done(d.(p := p))
    else if !(0 <= p < |d.tape|) then Panic
    else
      var v := (d.tape[p] + q.add) % 256;
      Done(Data(d.tape[p := v], p, d.out + seq(q.dots, _ => v)))
  }

  function Play(qs: seq<Piece>, d: Data): Effect {
    if qs == [] then Done(d)
    else
      match PlayOne(qs[0], d)
      case Done(d') => Play(qs[1..], d')
      case Panic => Panic
  }

  /** The machine behind a text that had this effect. */
  function Behind(e: Effect, end: int): Machine {
    match e
    case Done(d) => Running(end, d)
    case Panic => Panicked
  }

  lemma BehindDone(d: Data, end: int)
    ensures Behind(Done(d), end) == Running(end, d)
  {}

  lemma MovesRun(prog: string, i: int, n: int, d: Data)
    requires TextAt(prog, Moves(n), i)
    ensures RunFor(prog, Running(i, d), |Moves(n)|) == Running(i + |Moves(n)|, d.(p := d.p + n))
  {
    hide RunFor, Step;
    if n >= 0 { RightRow(prog, i, n, d); } else { LeftRow(prog, i, -n, d); }
  }

  lemma AddsRun(prog: string, i: int, n: int, d: Data)
    requires TextAt(prog, Adds(n), i) && d.OnTape()
    ensures RunFor(prog, Running(i, d), |Adds(n)|) == Running(i + |Adds(n)|, Added(d, n))
  {
    hide RunFor, Step;
    if n >= 0 { PlusRow(prog, i, n, d); } else { MinusRow(prog, i, -n, d); }
  }

  /** A command that needs a cell, with the head off the tape: the machine panics and stays so. */
  lemma PanicsBy(prog: string, i: int, d: Data, k: nat)
    requires 0 <= i < |prog| && prog[i] in "+-.[]" && !d.OnTape() && k >= 1
    ensures RunFor(prog, Running(i, d), k) == Panicked
  {
    hide Step, RunFor;
    OffTape(prog, i, d);
    StopsOnce(prog, Running(i, d), 1, k);
  }

  lemma FirstOfRow(prog: string, c: char, n: nat, rest: string, i: int)
    requires TextAt(prog, Copies(c, n) + rest, i) && n >= 1
    ensures 0 <= i < |prog| && prog[i] == c
  {
    assert Copies(c, n) + rest == [c] + (Copies(c, n - 1) + rest);
    TextParts(prog, [c], Copies(c, n - 1) + rest, i);
    OneItem(prog, c, i);
  }

  /** Additions and prints at one place. */
  lemma WorkRuns(prog: string, i: int, add: int, dots: nat, d: Data)
    requires TextAt(prog, Adds(add) + Copies('.', dots), i)
    ensures RunFor(prog, Running(i, d), |Adds(add)| + dots)
         == Behind(PlayOne(Piece(0, add, dots), d), i + |Adds(add)| + dots)
  {
    hide Step, RunFor;
    var m, a := Running(i, d), |Adds(add)|;
    if add == 0 && dots == 0 {
      NoTurn(prog, m);
    } else if !d.OnTape() {
      if add > 0 {
        FirstOfRow(prog, '+', add, Copies('.', dots), i);
      } else if add < 0 {
        FirstOfRow(prog, '-', -add, Copies('.', dots), i);
      } else {
        assert Adds(0) + Copies('.', dots) == Copies('.', dots) + "";
        FirstOfRow(prog, '.', dots, "", i);
      }
      PanicsBy(prog, i, d, a + dots);
    } else {
      TextParts(prog, Adds(add), Copies('.', dots), i);
      AddsRun(prog, i, add, d);
      DotRow(prog, i + a, dots, Added(d, add));
      RunForAdds(prog, m, a, dots);
    }
  }

  lemma PieceRuns(prog: string, i: int, q: Piece, d: Data)
    requires TextAt(prog, PieceText(q), i)
    ensures RunFor(prog, Running(i, d), |PieceText(q)|) == Behind(PlayOne(q, d), i + |PieceText(q)|)
  {
    hide Step, RunFor, Moves, Adds;
    var n := |Moves(q.move)|;
    assert PieceText(q) == Moves(q.move) + (Adds(q.add) + Copies('.', q.dots));
    TextParts(prog, Moves(q.move), Adds(q.add) + Copies('.', q.dots), i);
    MovesRun(prog, i, q.move, d);
    WorkRuns(prog, i + n, q.add, q.dots, d.(p := d.p + q.move));
    RunForAdds(prog, Running(i, d), n, |Adds(q.add)| + q.dots);
  }

  /** A text without brackets has the effect of its pieces, one after the other. */
  lemma {:induction false} TextRuns(prog: string, i: int, qs: seq<Piece>, d: Data)
    requires TextAt(prog, Text(qs), i)
    ensures RunFor(prog, Running(i, d), |Text(qs)|) == Behind(Play(qs, d), i + |Text(qs)|)
    decreases |qs|
  {
    hide Step, RunFor, PieceText, PlayOne;
    if qs == [] {
      NoTurn(prog, Running(i, d));
    } else {
      var n, rest := |PieceText(qs[0])|, Text(qs[1..]);
      TextParts(prog, PieceText(qs[0]), rest, i);
      PieceRuns(prog, i, qs[0], d);
      RunForAdds(prog, Running(i, d), n, |rest|);
      match PlayOne(qs[0], d)
      case Done(d') => TextRuns(prog, i + n, qs[1..], d');
      case Panic => StoppedStays(prog, Panicked, |rest|);
    }
  }

  // ----- Counting loops -----

  lemma {:induction false} ScanForward(prog: string, pc: int, j: int)
    requires -1 <= pc < j < |prog| && prog[j] == ']' && (forall k :: pc < k < j ==> prog[k] != '[' && prog[k] != ']')
    ensures ScanFrom(prog, pc, 1, 1) == At(j)
    decreases j - pc
  {
    if pc + 1 == j {
      assert ScanFrom(prog, j, 1, 0) == At(j);
    } else {
      ScanForward(prog, pc + 1, j);
    }
  }

  lemma {:induction false} ScanBackward(prog: string, pc: int, i: int)
    requires 0 <= i < pc <= |prog| && prog[i] == '[' && (forall k :: i < k < pc ==> prog[k] != '[' && prog[k] != ']')
    ensures ScanFrom(prog, pc, -1, -1) == At(i)
    decreases pc
  {
    if pc - 1 == i {
      assert ScanFrom(prog, i, -1, 0) == At(i);
    } else {
      ScanBackward(prog, pc - 1, i);
    }
  }

  lemma PieceHasNoBracket(q: Piece)
    ensures '[' !in PieceText(q) && ']' !in PieceText(q)
  {}

  lemma {:induction false} TextHasNoBracket(qs: seq<Piece>)
    ensures '[' !in Text(qs) && ']' !in Text(qs)
  {
    hide PieceText;
    if qs != [] {
      PieceHasNoBracket(qs[0]);
      TextHasNoBracket(qs[1..]);
    }
  }

  function LoopText(body: seq<Piece>): string { "[" + Text(body) + "]" }

  lemma LoopParts(prog: string, i: int, body: seq<Piece>)
    requires TextAt(prog, LoopText(body), i)
    ensures |LoopText(body)| == |Text(body)| + 2
    ensures var j := i + 1 + |Text(body)|;
            0 <= i && j < |prog| && prog[i] == '[' && TextAt(prog, Text(body), i + 1) && prog[j] == ']'
  {
    hide TextAt, Text;
    TextParts(prog, "[" + Text(body), "]", i);
    TextParts(prog, "[", Text(body), i);
    OneItem(prog, '[', i);
    OneItem(prog, ']', i + 1 + |Text(body)|);
  }

  lemma LoopScans(prog: string, i: int, body: seq<Piece>)
    requires TextAt(prog, LoopText(body), i)
    ensures ScanFrom(prog, i, 1, 1) == At(i + 1 + |Text(body)|)
    ensures ScanFrom(prog, i + 1 + |Text(body)|, -1, -1) == At(i)
  {
    hide Text, ScanFrom, LoopText;
    LoopParts(prog, i, body);
    TextHasNoBracket(body);
    var j := i + 1 + |Text(body)|;
    forall k | i < k < j ensures prog[k] != '[' && prog[k] != ']' {
      assert Text(body)[k - (i + 1)] == prog[i + 1 + (k - (i + 1))];
    }
    ScanForward(prog, i, j);
    ScanBackward(prog, j, i);
  }

  /** Both brackets ask the same question and lead to the same two places. */
  lemma BracketTurn(prog: string, i: int, body: seq<Piece>, pc: int, d: Data)
    requires TextAt(prog, LoopText(body), i) && d.OnTape() && (pc == i || pc == i + 1 + |Text(body)|)
    ensures RunFor(prog, Running(pc, d), 1)
         == Running(if d.tape[d.p] == 0 then i + 2 + |Text(body)| else i + 1, d)
  {
    hide Text, TextAt, ScanFrom, LoopText, RunFor;
    LoopParts(prog, i, body);
    LoopScans(prog, i, body);
    OneTurn(prog, Running(pc, d));
  }

  /** ds lists the data before each turn of the loop and at its end: the current cell is zero at the end
      only. */
  ghost predicate Turns(body: seq<Piece>, ds: seq<Data>) {
    && |ds| >= 1
    && (forall t :: 0 <= t < |ds| ==> ds[t].OnTape() && (ds[t].tape[ds[t].p] == 0 <==> t == |ds| - 1))
    && (forall t :: 0 <= t < |ds| - 1 ==> Play(body, ds[t]) == Done(ds[t + 1]))
  }

  lemma FirstTurn(body: seq<Piece>, ds: seq<Data>)
    requires Turns(body, ds)
    ensures |ds| >= 1 && ds[0].OnTape() && (ds[0].tape[ds[0].p] == 0 <==> |ds| == 1)
    ensures |ds| >= 2 ==> Play(body, ds[0]) == Done(ds[1]) && Turns(body, ds[1..])
  {
    hide Play;
    if |ds| >= 2 {
      assert Play(body, ds[0]) == Done(ds[0 + 1]);
      var rest := ds[1..];
      forall t | 0 <= t < |rest| - 1 ensures Play(body, rest[t]) == Done(rest[t + 1]) {
        assert Play(body, ds[t + 1]) == Done(ds[t + 1 + 1]);
      }
    }
  }

  /** From either bracket a loop with such turns arrives behind its text with the last of the data. */
  lemma {:induction false} LoopRuns(prog: string, i: int, body: seq<Piece>, pc: int, ds: seq<Data>) returns (k: nat)
    requires TextAt(prog, LoopText(body), i) && Turns(body, ds) && (pc == i || pc == i + 1 + |Text(body)|)
    ensures RunFor(prog, Running(pc, ds[0]), k) == Running(i + |LoopText(body)|, ds[|ds| - 1])
    decreases |ds|
  {
    hide *;
    LoopParts(prog, i, body);
    FirstTurn(body, ds);
    BracketTurn(prog, i, body, pc, ds[0]);
    if |ds| == 1 {
      k := 1;
    } else {
      var n := |Text(body)|;
      var m, end := Running(pc, ds[0]), Running(i + |LoopText(body)|, ds[|ds| - 1]);
      TextRuns(prog, i + 1, body, ds[0]);
      BehindDone(ds[1], i + 1 + n);
      Chain(prog, m, 1, Running(i + 1, ds[0]), n, Running(i + 1 + n, ds[1]));
      var k' := LoopRuns(prog, i, body, i + 1 + n, ds[1..]);
      Chain(prog, m, 1 + n, Running(i + 1 + n, ds[1]), k', end);
      k := 1 + n + k';
    }
  }

  // ----- Multiplication -----

  function MulBody(m: nat): seq<Piece> { [Piece(1, m, 0), Piece(-1, -1, 0)] }

  lemma MulText(m: nat)
    ensures LoopText(MulBody(m)) == "[>" + Copies('+', m) + "<-]"
  {
    var q, r := Piece(1, m, 0), Piece(-1, -1, 0);
    assert PieceText(q) == ">" + Copies('+', m);
    assert PieceText(r) == "<-";
    assert MulBody(m)[1..] == [r];
    assert [r][1..] == [];
    assert Text([r]) == PieceText(r);
  }

  /** After t turns the counter has lost t and the other cell has gained t times m. */
  function MulData(d: Data, m: nat, t: nat): Data
    requires 0 <= d.p < |d.tape| - 1 && t <= d.tape[d.p]
  {
    d.(tape := d.tape[d.p := d.tape[d.p] - t][d.p + 1 := (d.tape[d.p + 1] + t * m) % 256])
  }

  lemma PlayTwo(q: Piece, r: Piece, d: Data, d': Data, d'': Data)
    requires PlayOne(q, d) == Done(d') && PlayOne(r, d') == Done(d'')
    ensures Play([q, r], d) == Done(d'')
  {
    hide PlayOne;
    assert [q, r][1..] == [r];
    assert [r][1..] == [];
    assert Play([r], d') == Done(d'');
  }

  lemma MulAdds(y: int, t: nat, m: nat)
    ensures ((y + t * m) % 256 + m) % 256 == (y + (t + 1) * m) % 256
  {
    assert (t + 1) * m == t * m + m;
    ModAdds(y + t * m, m);
  }

  lemma MulTurn(d: Data, m: nat, t: nat)
    requires 0 <= d.p < |d.tape| - 1 && t < d.tape[d.p]
    ensures Play(MulBody(m), MulData(d, m, t)) == Done(MulData(d, m, t + 1))
  {
    hide PlayOne, Play;
    var q, r, p := Piece(1, m, 0), Piece(-1, -1, 0), d.p;
    var x, v, w := d.tape[p], (d.tape[p + 1] + t * m) % 256, (d.tape[p + 1] + (t + 1) * m) % 256;
    MulAdds(d.tape[p + 1], t, m);
    var e := d.(tape := d.tape[p := x - t][p + 1 := v]);
    var e' := e.(p := p + 1, tape := e.tape[p + 1 := w]);
    NoDots(q, e, e');
    var e'' := e'.(p := p, tape := e'.tape[p := x - t - 1]);
    NoDots(r, e', e'');
    assert e''.tape == d.tape[p := x - (t + 1)][p + 1 := w];
    PlayTwo(q, r, e, e', e'');
  }

  /** A piece that prints nothing. */
  lemma NoDots(q: Piece, d: Data, d': Data)
    requires q.dots == 0 && 0 <= d.p + q.move < |d.tape|
    requires d' == d.(p := d.p + q.move,
                      tape := d.tape[d.p + q.move := (d.tape[d.p + q.move] + q.add) % 256])
    ensures PlayOne(q, d) == Done(d')
  {
    var p := d.p + q.move;
    if q.add == 0 {
      assert d.tape[p := d.tape[p]] == d.tape;
    } else {
      var v := (d.tape[p] + q.add) % 256;
      assert d.out + seq(0, _ => v) == d.out;
    }
  }

  lemma MulTurns(d: Data, m: nat) returns (ds: seq<Data>)
    requires 0 <= d.p < |d.tape| - 1
    ensures Turns(MulBody(m), ds) && ds[0] == d && ds[|ds| - 1] == MulData(d, m, d.tape[d.p])
  {
    hide Play, MulBody;
    var x := d.tape[d.p];
    ds := seq(x + 1, t requires 0 <= t <= x => MulData(d, m, t));
    forall t | 0 <= t < |ds| - 1 ensures Play(MulBody(m), ds[t]) == Done(ds[t + 1]) {
      MulTurn(d, m, t);
    }
    assert MulData(d, m, 0) == d;
  }

  /** The loop multiplies: it empties the current cell and adds m times its value to the next one. */
  lemma LoopMultiplies(prog: string, i: int, m: nat, d: Data) returns (k: nat)
    requires TextAt(prog, "[>" + Copies('+', m) + "<-]", i) && 0 <= d.p < |d.tape| - 1
    ensures RunFor(prog, Running(i, d), k)
         == Running(i + m + 5, d.(tape := d.tape[d.p := 0][d.p + 1 := (d.tape[d.p + 1] + d.tape[d.p] * m) % 256]))
  {
    hide RunFor, Play, Turns, Text, TextAt, MulBody;
    MulText(m);
    var ds := MulTurns(d, m);
    k := LoopRuns(prog, i, MulBody(m), i, ds);
  }

  lemma ModTimes(x: int, y: int, m: nat)
    ensures (y + x % 256 * m) % 256 == (y + x * m) % 256
  {
    var q := x / 256;
    assert x == 256 * q + x % 256;
    assert x * m == 256 * (q * m) + x % 256 * m;
    ModMultiple(y + x % 256 * m, q * m);
  }

  lemma ModMultiple(x: int, q: int)
    ensures (x + 256 * q) % 256 == x % 256
  {}

  /** The program "n times +, [>, m times +, <-]" in front of any character that is no command: on two
      cells that hold x and y it leaves 0 and y + (x + n) * m, modulo 256. */
  lemma Multiplies(n: nat, m: nat, t: char, d: Data) returns (k: nat)
    requires t !in "><+-.[]" && 0 <= d.p < |d.tape| - 1
    ensures RunFor(Copies('+', n) + ("[>" + Copies('+', m) + "<-]") + [t], Running(0, d), k)
         == Halted(d.(tape := d.tape[d.p := 0]
                                    [d.p + 1 := (d.tape[d.p + 1] + (d.tape[d.p] + n) * m) % 256]))
  {
    hide RunFor, Step;
    var loop := "[>" + Copies('+', m) + "<-]";
    var prog := Copies('+', n) + loop + [t];
    var x, y, end := d.tape[d.p], d.tape[d.p + 1], n + m + 5;
    var d1 := d.(tape := d.tape[d.p := (x + n) % 256]);
    var v := (y + (x + n) * m) % 256;
    var d2 := d.(tape := d.tape[d.p := 0][d.p + 1 := v]);
    assert TextAt(prog, Copies('+', n), 0) && TextAt(prog, loop, n) && prog[end] == t;
    PlusRow(prog, 0, n, d);
    var k' := LoopMultiplies(prog, n, m, d1);
    ModTimes(x + n, y, m);
    assert d1.tape[d.p := 0][d.p + 1 := v] == d2.tape;
    Chain(prog, Running(0, d), n, Running(n, d1), k', Running(end, d2));
    Stops(prog, end, d2);
    Chain(prog, Running(0, d), n + k', Running(end, d2), 1, Halted(d2));
    k := n + k' + 1;
  }

  // ----- The program of the original -----

  const PROG := "++++++++++" + "[>+++++++>++++++++++>+++>+<<<<-]"
              + ">++.>+.+++++++..+++." + ">++.<<+++++++++++++++.>.+++." + "------.--------.>+.>." + "!"

  const SETUP := [Piece(1, 7, 0), Piece(1, 10, 0), Piece(1, 3, 0), Piece(1, 1, 0), Piece(-4, -1, 0)]

  const HELLO := [Piece(1, 2, 1), Piece(1, 1, 1), Piece(0, 7, 2), Piece(0, 3, 1)]

  const WORLD := [Piece(1, 2, 1), Piece(-2, 15, 1), Piece(1, 0, 1), Piece(0, 3, 1)]

  const END := [Piece(0, -6, 1), Piece(0, -8, 1), Piece(1, 1, 1), Piece(1, 0, 1)]

  const GREETING: seq<Byte> := [72, 101, 108, 108, 111, 32, 87, 111, 114, 108, 100, 33, 10]

  lemma TextNext(qs: seq<Piece>, k: nat)
    requires k < |qs|
    ensures Text(qs[k..]) == PieceText(qs[k]) + Text(qs[k + 1..])
  {
    hide PieceText;
    assert qs[k..][1..] == qs[k + 1..];
  }

  lemma NoText(qs: seq<Piece>)
    requires qs == []
    ensures Text(qs) == ""
  {}

  lemma SetupSpelled()
    ensures PieceText(SETUP[0]) == ">+++++++"
    ensures PieceText(SETUP[1]) == ">++++++++++"
    ensures PieceText(SETUP[2]) == ">+++"
    ensures PieceText(SETUP[3]) == ">+"
    ensures PieceText(SETUP[4]) == "<<<<-"
  {}

  lemma SetupText()
    ensures Text(SETUP) == ">+++++++>++++++++++>+++>+<<<<-"
  {
    hide Text, PieceText;
    SetupSpelled();
    assert SETUP[0..] == SETUP;
    TextNext(SETUP, 0);
    TextNext(SETUP, 1);
    TextNext(SETUP, 2);
    TextNext(SETUP, 3);
    TextNext(SETUP, 4);
    NoText(SETUP[5..]);
  }

  lemma HelloSpelled()
    ensures PieceText(HELLO[0]) == ">++."
    ensures PieceText(HELLO[1]) == ">+."
    ensures PieceText(HELLO[2]) == "+++++++.."
    ensures PieceText(HELLO[3]) == "+++."
  {}

  lemma HelloText()
    ensures Text(HELLO) == ">++.>+.+++++++..+++."
  {
    hide Text, PieceText;
    HelloSpelled();
    assert HELLO[0..] == HELLO;
    TextNext(HELLO, 0);
    TextNext(HELLO, 1);
    TextNext(HELLO, 2);
    TextNext(HELLO, 3);
    NoText(HELLO[4..]);
  }

  lemma WorldSpelled()
    ensures PieceText(WORLD[0]) == ">++."
    ensures PieceText(WORLD[1]) == "<<+++++++++++++++."
    ensures PieceText(WORLD[2]) == ">."
    ensures PieceText(WORLD[3]) == "+++."
  {}

  lemma WorldText()
    ensures Text(WORLD) == ">++.<<+++++++++++++++.>.+++."
  {
    hide Text, PieceText;
    WorldSpelled();
    assert WORLD[0..] == WORLD;
    TextNext(WORLD, 0);
    TextNext(WORLD, 1);
    TextNext(WORLD, 2);
    TextNext(WORLD, 3);
    NoText(WORLD[4..]);
  }

  lemma EndSpelled()
    ensures PieceText(END[0]) == "------."
    ensures PieceText(END[1]) == "--------."
    ensures PieceText(END[2]) == ">+."
    ensures PieceText(END[3]) == ">."
  {}

  lemma EndText()
    ensures Text(END) == "------.--------.>+.>."
  {
    hide Text, PieceText;
    EndSpelled();
    assert END[0..] == END;
    TextNext(END, 0);
    TextNext(END, 1);
    TextNext(END, 2);
    TextNext(END, 3);
    NoText(END[4..]);
  }

  /** One piece of a program, on the first five cells. */
  lemma PlayNext(qs: seq<Piece>, k: nat, cs: seq<Byte>, rest: seq<Byte>, p: nat, out: seq<Byte>,
                 cs': seq<Byte>, out': seq<Byte>)
    requires k < |qs| && |cs| == 5 && 0 <= p + qs[k].move < 5
    requires var p' := p + qs[k].move;
             |cs'| == 5 && cs'[p'] == (cs[p'] + qs[k].add) % 256 && cs' == cs[p' := cs'[p']]
             && out' == out + seq(qs[k].dots, _ => cs'[p'])
    ensures Play(qs[k..], Data(cs + rest, p, out)) == Play(qs[k + 1..], Data(cs' + rest, p + qs[k].move, out'))
  {
    var q, p' := qs[k], p + qs[k].move;
    assert qs[k..][1..] == qs[k + 1..];
    assert (cs + rest)[p' := cs'[p']] == cs' + rest;
    if q.add == 0 && q.dots == 0 {
      assert cs' == cs && out' == out;
    } else {
      var v := (cs[p'] + q.add) % 256;
      assert seq(q.dots, _ => v) == seq(q.dots, _ => cs'[p']);
    }
  }

  lemma NothingToPlay(qs: seq<Piece>, d: Data)
    requires qs == []
    ensures Play(qs, d) == Done(d)
  {}

  /** After t turns of its loop the program has 10 - t, 7t, 10t, 3t and t in its cells. */
  function SetupCells(t: nat): seq<Byte>
    requires t <= 10
  {
    [10 - t, 7 * t, 10 * t, 3 * t, t]
  }

  lemma SetupTurn(rest: seq<Byte>, t: nat)
    requires t < 10
    ensures Play(SETUP, Data(SetupCells(t) + rest, 0, [])) == Done(Data(SetupCells(t + 1) + rest, 0, []))
  {
    hide Play;
    var a, b, c, d := 7 * t, 10 * t, 3 * t, t;
    assert SETUP[0..] == SETUP;
    PlayNext(SETUP, 0, [10 - t, a, b, c, d], rest, 0, [], [10 - t, a + 7, b, c, d], []);
    PlayNext(SETUP, 1, [10 - t, a + 7, b, c, d], rest, 1, [], [10 - t, a + 7, b + 10, c, d], []);
    PlayNext(SETUP, 2, [10 - t, a + 7, b + 10, c, d], rest, 2, [], [10 - t, a + 7, b + 10, c + 3, d], []);
    PlayNext(SETUP, 3, [10 - t, a + 7, b + 10, c + 3, d], rest, 3, [], [10 - t, a + 7, b + 10, c + 3, d + 1], []);
    PlayNext(SETUP, 4, [10 - t, a + 7, b + 10, c + 3, d + 1], rest, 4, [], SetupCells(t + 1), []);
    NothingToPlay(SETUP[5..], Data(SetupCells(t + 1) + rest, 0, []));
  }

  lemma HelloPlayed(rest: seq<Byte>)
    ensures Play(HELLO, Data([0, 70, 100, 30, 10] + rest, 0, GREETING[..0]))
         == Done(Data([0, 72, 111, 30, 10] + rest, 2, GREETING[..5]))
  {
    hide Play;
    var w := GREETING;
    assert HELLO[0..] == HELLO;
    PlayNext(HELLO, 0, [0, 70, 100, 30, 10], rest, 0, w[..0], [0, 72, 100, 30, 10], w[..1]);
    PlayNext(HELLO, 1, [0, 72, 100, 30, 10], rest, 1, w[..1], [0, 72, 101, 30, 10], w[..2]);
    PlayNext(HELLO, 2, [0, 72, 101, 30, 10], rest, 2, w[..2], [0, 72, 108, 30, 10], w[..4]);
    PlayNext(HELLO, 3, [0, 72, 108, 30, 10], rest, 2, w[..4], [0, 72, 111, 30, 10], w[..5]);
    NothingToPlay(HELLO[4..], Data([0, 72, 111, 30, 10] + rest, 2, GREETING[..5]));
  }

  lemma WorldPlayed(rest: seq<Byte>)
    ensures Play(WORLD, Data([0, 72, 111, 30, 10] + rest, 2, GREETING[..5]))
         == Done(Data([0, 87, 114, 32, 10] + rest, 2, GREETING[..9]))
  {
    hide Play;
    var w := GREETING;
    assert WORLD[0..] == WORLD;
    PlayNext(WORLD, 0, [0, 72, 111, 30, 10], rest, 2, w[..5], [0, 72, 111, 32, 10], w[..6]);
    PlayNext(WORLD, 1, [0, 72, 111, 32, 10], rest, 3, w[..6], [0, 87, 111, 32, 10], w[..7]);
    PlayNext(WORLD, 2, [0, 87, 111, 32, 10], rest, 1, w[..7], [0, 87, 111, 32, 10], w[..8]);
    PlayNext(WORLD, 3, [0, 87, 111, 32, 10], rest, 2, w[..8], [0, 87, 114, 32, 10], w[..9]);
    NothingToPlay(WORLD[4..], Data([0, 87, 114, 32, 10] + rest, 2, GREETING[..9]));
  }

  lemma EndPlayed(rest: seq<Byte>)
    ensures Play(END, Data([0, 87, 114, 32, 10] + rest, 2, GREETING[..9]))
         == Done(Data([0, 87, 100, 33, 10] + rest, 4, GREETING[..13]))
  {
    hide Play;
    var w := GREETING;
    assert END[0..] == END;
    PlayNext(END, 0, [0, 87, 114, 32, 10], rest, 2, w[..9], [0, 87, 108, 32, 10], w[..10]);
    PlayNext(END, 1, [0, 87, 108, 32, 10], rest, 2, w[..10], [0, 87, 100, 32, 10], w[..11]);
    PlayNext(END, 2, [0, 87, 100, 32, 10], rest, 2, w[..11], [0, 87, 100, 33, 10], w[..12]);
    PlayNext(END, 3, [0, 87, 100, 33, 10], rest, 3, w[..12], [0, 87, 100, 33, 10], w[..13]);
    NothingToPlay(END[4..], Data([0, 87, 100, 33, 10] + rest, 4, GREETING[..13]));
  }

  lemma SixParts(a: string, b: string, c: string, d: string, e: string, t: char)
    ensures var prog := a + b + c + d + e + [t];
            && TextAt(prog, a, 0) && TextAt(prog, b, |a|) && TextAt(prog, c, |a| + |b|)
            && TextAt(prog, d, |a| + |b| + |c|) && TextAt(prog, e, |a| + |b| + |c| + |d|) && prog[|prog| - 1] == t
  {}

  lemma ProgParts()
    ensures |PROG| == 112 && PROG[111] == '!' && TextAt(PROG, Copies('+', 10), 0) && TextAt(PROG, LoopText(SETUP), 10)
    ensures TextAt(PROG, Text(HELLO), 42) && TextAt(PROG, Text(WORLD), 62) && TextAt(PROG, Text(END), 90)
    ensures |LoopText(SETUP)| == 32 && |Text(HELLO)| == 20 && |Text(WORLD)| == 28 && |Text(END)| == 21
  {
    SetupText();
    HelloText();
    WorldText();
    EndText();
    hide Text, TextAt;
    assert Copies('+', 10) == "++++++++++";
    assert LoopText(SETUP) == "[>+++++++>++++++++++>+++>+<<<<-]";
    SixParts("++++++++++", LoopText(SETUP), Text(HELLO), Text(WORLD), Text(END), '!');
  }

  /** What the bytes print as. */
  function Chars(out: seq<Byte>): string { seq(|out|, i requires 0 <= i < |out| => out[i] as char) }

  lemma GreetingChars()
    ensures Chars(GREETING[..13]) == "Hello World!\n"
  {}

  lemma SetupTurns(rest: seq<Byte>) returns (ds: seq<Data>)
    ensures |ds| >= 1 && Turns(SETUP, ds) && ds[0] == Data([10, 0, 0, 0, 0] + rest, 0, [])
    ensures ds[|ds| - 1] == Data([0, 70, 100, 30, 10] + rest, 0, [])
  {
    hide Play;
    ds := seq(11, t requires 0 <= t <= 10 => Data(SetupCells(t) + rest, 0, []));
    forall t | 0 <= t < 10 ensures Play(SETUP, ds[t]) == Done(ds[t + 1]) {
      SetupTurn(rest, t);
    }
  }

  /** Three texts without brackets in a row. */
  lemma ThreeTexts(prog: string, i: int, qs: seq<Piece>, rs: seq<Piece>, ss: seq<Piece>,
                   d: Data, d1: Data, d2: Data, d3: Data)
    requires TextAt(prog, Text(qs), i) && TextAt(prog, Text(rs), i + |Text(qs)|)
    requires TextAt(prog, Text(ss), i + |Text(qs)| + |Text(rs)|)
    requires Play(qs, d) == Done(d1) && Play(rs, d1) == Done(d2) && Play(ss, d2) == Done(d3)
    ensures var n := |Text(qs)| + |Text(rs)| + |Text(ss)|; RunFor(prog, Running(i, d), n) == Running(i + n, d3)
  {
    hide *;
    var j, k := i + |Text(qs)|, i + |Text(qs)| + |Text(rs)|;
    TextRuns(prog, i, qs, d);
    TextRuns(prog, j, rs, d1);
    TextRuns(prog, k, ss, d2);
    BehindDone(d1, j);
    BehindDone(d2, k);
    BehindDone(d3, k + |Text(ss)|);
    Chain(prog, Running(i, d), |Text(qs)|, Running(j, d1), |Text(rs)|, Running(k, d2));
    Chain(prog, Running(i, d), |Text(qs)| + |Text(rs)|, Running(k, d2), |Text(ss)|, Running(k + |Text(ss)|, d3));
  }

  lemma GreetingPlayed(rest: seq<Byte>) returns (d1: Data, d2: Data, d: Data)
    ensures Play(HELLO, Data([0, 70, 100, 30, 10] + rest, 0, [])) == Done(d1)
    ensures Play(WORLD, d1) == Done(d2) && Play(END, d2) == Done(d) && d.out == GREETING[..13]
  {
    hide Play;
    HelloPlayed(rest);
    WorldPlayed(rest);
    EndPlayed(rest);
    d1 := Play(HELLO, Data([0, 70, 100, 30, 10] + rest, 0, GREETING[..0])).d;
    d2 := Play(WORLD, d1).d;
    d := Play(END, d2).d;
  }

  /** From the data its loop leaves, the rest of the program prints the greeting. */
  lemma PrintsGreeting(rest: seq<Byte>) returns (d: Data)
    ensures RunFor(PROG, Running(42, Data([0, 70, 100, 30, 10] + rest, 0, [])), 70) == Halted(d)
    ensures Chars(d.out) == "Hello World!\n"
  {
    hide *;
    var d0 := Data([0, 70, 100, 30, 10] + rest, 0, []);
    var d1, d2;
    d1, d2, d := GreetingPlayed(rest);
    GreetingChars();
    ProgParts();
    ThreeTexts(PROG, 42, HELLO, WORLD, END, d0, d1, d2, d);
    Stops(PROG, 111, d);
    Chain(PROG, Running(42, d0), 69, Running(111, d), 1, Halted(d));
  }

  /** On a fresh tape of at least five cells the program of the original halts, having printed its greeting. */
  lemma Greets(size: nat) returns (k: nat, d: Data)
    requires size >= 5
    ensures RunFor(PROG, Running(0, Data(seq(size, _ => 0), 0, [])), k) == Halted(d)
    ensures Chars(d.out) == "Hello World!\n"
  {
    hide *;
    var rest := seq(size - 5, _ => 0);
    var d0 := Data(seq(size, _ => 0), 0, []);
    ProgParts();
    FreshCells(size);
    PlusRow(PROG, 0, 10, d0);
    var ds := SetupTurns(rest);
    k := LoopRuns(PROG, 10, SETUP, 10, ds);
    Chain(PROG, Running(0, d0), 10, Running(10, ds[0]), k, Running(42, ds[|ds| - 1]));
    d := PrintsGreeting(rest);
    Chain(PROG, Running(0, d0), 10 + k, Running(42, ds[|ds| - 1]), 70, Halted(d));
    k := k + 80;
  }

  lemma FreshCells(size: nat)
    requires size >= 5
    ensures seq<Byte>(size, _ => 0)[0 := 10] == [10, 0, 0, 0, 0] + seq<Byte>(size - 5, _ => 0)
  {}
}
