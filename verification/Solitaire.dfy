/** The peg solitaire solver of testsuit/roottest/solitaire.go, for any board and row length.
    It changes one board in place, takes its moves back, and prints a solution backwards. */
module Solitaire {

  /** Anything that is neither a peg nor a hole is outside the playing field. */
  datatype Field = Outside | Peg | Hole
  type Board = seq<Field>

  function Directions(n: int): seq<int> { [-1, -n, 1, n] }

  predicate CanJump(b: Board, pos: int, dir: int) {
    && 0 <= pos < |b| && b[pos] == Peg
    && 0 <= pos + dir < |b| && b[pos + dir] == Peg
    && 0 <= pos + 2 * dir < |b| && b[pos + 2 * dir] == Hole
  }

  function Jump(b: Board, pos: int, dir: int): Board
    requires CanJump(b, pos, dir)
  {
    b[pos := Hole][pos + dir := Hole][pos + 2 * dir := Peg]
  }

  /** No field of play is in the first or last row. */
  ghost predicate Bordered(b: Board, n: nat) {
    n >= 1 && forall i :: 0 <= i < |b| && b[i] != Outside ==> n <= i < |b| - n
  }

  function Pegs(b: Board): nat {
    if b == [] then 0 else Pegs(b[..|b| - 1]) + if b[|b| - 1] == Peg then 1 else 0
  }

  function Weight(f: Field): int { if f == Peg then 1 else 0 }

  lemma {:induction false} PegsUpdate(b: Board, i: nat, f: Field)
    requires i < |b|
    ensures Pegs(b[i := f]) == Pegs(b) - Weight(b[i]) + Weight(f)
    decreases |b|
  {
    var b' := b[i := f];
    if i == |b| - 1 {
      assert b'[..|b| - 1] == b[..|b| - 1];
    } else {
      assert b'[..|b| - 1] == b[..|b| - 1][i := f];
      PegsUpdate(b[..|b| - 1], i, f);
    }
  }

  /** A jump takes one peg off the board. */
  lemma JumpTakesPeg(b: Board, pos: int, dir: int)
    requires CanJump(b, pos, dir)
    ensures |Jump(b, pos, dir)| == |b| && Pegs(Jump(b, pos, dir)) == Pegs(b) - 1
  {
    hide Pegs;
    PegsUpdate(b, pos, Hole);
    PegsUpdate(b[pos := Hole], pos + dir, Hole);
    PegsUpdate(b[pos := Hole][pos + dir := Hole], pos + 2 * dir, Peg);
  }

  lemma JumpKeepsBorder(b: Board, n: nat, pos: int, dir: int)
    requires CanJump(b, pos, dir) && Bordered(b, n)
    ensures Bordered(Jump(b, pos, dir), n)
  {}

  /** One peg is left, in the centre when there is one to aim for. */
  predicate Solved(b: Board, center: int) {
    Pegs(b) == 1 && (center < 0 || (center < |b| && b[center] == Peg))
  }

  /** Some sequence of jumps from b solves the board. */
  ghost predicate Solvable(b: Board, n: nat, center: int)
    decreases Pegs(b)
  {
    || Solved(b, center)
    || exists pos, dir :: CanJump(b, pos, dir) && dir in Directions(n)
         && (JumpTakesPeg(b, pos, dir); Solvable(Jump(b, pos, dir), n, center))
  }

  ghost predicate IsJump(b: Board, b': Board, n: nat) {
    exists pos, dir :: CanJump(b, pos, dir) && dir in Directions(n) && b' == Jump(b, pos, dir)
  }

  /** A game from b to a solved board, listed backwards. */
  ghost predicate SolutionBackwards(g: seq<Board>, b: Board, n: nat, center: int) {
    && |g| >= 1 && g[|g| - 1] == b && Solved(g[0], center)
    && forall i :: 0 <= i < |g| - 1 ==> IsJump(g[i + 1], g[i], n)
  }

  lemma SolutionExtends(g: seq<Board>, b: Board, b': Board, n: nat, center: int)
    requires SolutionBackwards(g, b', n, center) && IsJump(b, b', n)
    ensures SolutionBackwards(g + [b], b, n, center)
  {
    hide IsJump;
    var g' := g + [b];
    forall i | 0 <= i < |g'| - 1 ensures IsJump(g'[i + 1], g'[i], n) {
      if i < |g| - 1 { assert g'[i + 1] == g[i + 1] && g'[i] == g[i]; }
    }
  }

  /** Solvable means that a game exists. */
  lemma {:induction false} SolvableHasGame(b: Board, n: nat, center: int) returns (g: seq<Board>)
    requires Solvable(b, n, center)
    ensures SolutionBackwards(g, b, n, center)
    decreases Pegs(b)
  {
    if Solved(b, center) {
      g := [b];
    } else {
      var pos, dir :| CanJump(b, pos, dir) && dir in Directions(n)
        && (JumpTakesPeg(b, pos, dir); Solvable(Jump(b, pos, dir), n, center));
      JumpTakesPeg(b, pos, dir);
      var g' := SolvableHasGame(Jump(b, pos, dir), n, center);
      SolutionExtends(g', b, Jump(b, pos, dir), n, center);
      g := g' + [b];
    }
  }

  lemma {:induction false} GameIsSolvable(g: seq<Board>, b: Board, n: nat, center: int)
    requires SolutionBackwards(g, b, n, center)
    ensures Solvable(b, n, center)
    decreases |g|
  {
    if |g| > 1 {
      var k := |g| - 1;
      assert IsJump(g[k - 1 + 1], g[k - 1], n);
      var pos, dir :| CanJump(b, pos, dir) && dir in Directions(n) && g[k - 1] == Jump(b, pos, dir);
      JumpTakesPeg(b, pos, dir);
      GameIsSolvable(g[..k], g[k - 1], n, center);
    }
  }

  lemma {:induction false} PegsOfPrefix(b: Board, i: nat)
    requires i <= |b|
    ensures Pegs(b[..i]) <= Pegs(b)
    decreases |b|
  {
    if i == |b| {
      assert b[..i] == b;
    } else {
      assert b[..|b| - 1][..i] == b[..i];
      PegsOfPrefix(b[..|b| - 1], i);
    }
  }

  /** A peg counts towards every prefix that reaches past it. */
  lemma PegCounts(b: Board, i: nat, j: nat)
    requires i < j <= |b| && b[i] == Peg
    ensures Pegs(b[..i]) + 1 <= Pegs(b[..j])
  {
    assert b[..i + 1][..i] == b[..i];
    assert b[..j][..i + 1] == b[..i + 1];
    PegsOfPrefix(b[..j], i + 1);
  }

  lemma TwoPegs(b: Board, i: nat, j: nat)
    requires i < j < |b| && b[i] == Peg && b[j] == Peg
    ensures Pegs(b) >= 2
  {
    hide Pegs;
    PegCounts(b, i, j);
    PegCounts(b, j, |b|);
    assert b[..|b|] == b;
  }

  lemma SolvedBySinglePeg(b: Board, last: nat, center: int)
    requires last < |b| && b[last] == Peg && Pegs(b) == 1
    ensures Solved(b, center) <==> center < 0 || last == center
  {
    hide Pegs;
    if 0 <= center < |b| && b[center] == Peg && center != last {
      TwoPegs(b, if center < last then center else last, if center < last then last else center);
    }
  }

  /** No jump from position pos solves the board. */
  ghost predicate Hopeless(b: Board, n: nat, center: int, pos: int, dir: int) {
    CanJump(b, pos, dir) ==> !Solvable(Jump(b, pos, dir), n, center)
  }

  ghost predicate HopelessBefore(b: Board, n: nat, center: int, pos: nat) {
    forall p, dir :: 0 <= p < pos && dir in Directions(n) ==> Hopeless(b, n, center, p, dir)
  }

  lemma NothingLeft(b: Board, n: nat, center: int)
    requires HopelessBefore(b, n, center, |b|)
    ensures Solvable(b, n, center) <==> Solved(b, center)
  {
    hide Solved, Directions;
    if Solvable(b, n, center) && !Solved(b, center) {
      var pos, dir :| CanJump(b, pos, dir) && dir in Directions(n)
        && (JumpTakesPeg(b, pos, dir); Solvable(Jump(b, pos, dir), n, center));
      StillHopeless(b, n, center, pos, dir);
    }
  }

  lemma StillHopeless(b: Board, n: nat, center: int, pos: int, dir: int)
    requires HopelessBefore(b, n, center, |b|) && dir in Directions(n) && CanJump(b, pos, dir)
    ensures !Solvable(Jump(b, pos, dir), n, center)
  {
    assert Hopeless(b, n, center, pos, dir);
  }

  lemma JumpSolves(b: Board, n: nat, center: int, pos: int, dir: int)
    requires CanJump(b, pos, dir) && dir in Directions(n) && Solvable(Jump(b, pos, dir), n, center)
    ensures Solvable(b, n, center) && IsJump(b, Jump(b, pos, dir), n)
  {
    JumpTakesPeg(b, pos, dir);
  }

  /** Taking a jump back restores the board. */
  lemma JumpUndone(b: Board, pos: int, dir: int)
    requires CanJump(b, pos, dir) && dir != 0
    ensures Jump(b, pos, dir)[pos := Peg][pos + dir := Peg][pos + 2 * dir := Hole] == b
  {}

  class Solver {
    const board: array<Field>
    const n: nat
    var center: int
    var moves: nat
    var printed: seq<Board>

    constructor (b: Board, n: nat)
      ensures board[..] == b && this.n == n && fresh(board) && printed == [] && moves == 0
    {
      board := new Field[|b|](i requires 0 <= i < |b| => b[i]);
      this.n := n;
      center, moves, printed := 0, 0, [];
    }

    /** The single hole of the starting board, or -1. */
    method InitCenter()
      modifies this`center
      ensures (exists c :: 0 <= c < board.Length && OnlyHole(board[..], c)) ==> OnlyHole(board[..], center)
      ensures !(exists c :: 0 <= c < board.Length && OnlyHole(board[..], c)) ==> center == -1
    {
      var count, pos := 0, 0;
      while pos < board.Length
        invariant 0 <= pos <= board.Length && count >= 0
        invariant count == 0 ==> forall i :: 0 <= i < pos ==> board[i] != Hole
        invariant count == 1 ==> 0 <= center < pos && board[center] == Hole
                                 && forall i :: 0 <= i < pos && board[i] == Hole ==> i == center
        invariant count >= 2 ==> exists i, j :: 0 <= i < j < pos && board[i] == Hole && board[j] == Hole
      {
        if board[pos] == Hole {
          center := pos;
          count := count + 1;
        }
        pos := pos + 1;
      }
      assert count == 1 ==> OnlyHole(board[..], center);
      if count != 1 {
        center := -1;
      }
    }

    method Move(pos: int, dir: int) returns (ok: bool)
      requires 0 <= pos < board.Length && dir != 0 && dir in Directions(n) && Bordered(board[..], n)
      modifies this`moves, board
      ensures ok <==> CanJump(old(board[..]), pos, dir)
      ensures moves == old(moves) + 1
      ensures board[..] == if ok then Jump(old(board[..]), pos, dir) else old(board[..])
    {
      moves := moves + 1;
      ghost var b := board[..];
      assert forall i :: 0 <= i < |b| && b[i] == Peg ==> 0 <= i + dir < |b|;
      if board[pos] == Peg && board[pos + dir] == Peg && board[pos + 2 * dir] == Hole {
        board[pos] := Hole;
        board[pos + dir] := Hole;
        board[pos + 2 * dir] := Peg;
        return true;
      }
      return false;
    }

    method Unmove(pos: int, dir: int)
      requires 0 <= pos < board.Length && 0 <= pos + dir < board.Length && 0 <= pos + 2 * dir < board.Length
      modifies board
      ensures board[..] == old(board[..])[pos := Peg][pos + dir := Peg][pos + 2 * dir := Hole]
    {
      board[pos] := Peg;
      board[pos + dir] := Peg;
      board[pos + 2 * dir] := Hole;
    }

    /** Finds out whether the board can be solved, leaves it as it was, and prints the boards of a
        solution, the last one first. */
    method Solve() returns (ok: bool)
      requires Bordered(board[..], n)
      modifies this`moves, this`printed, board
      ensures board[..] == old(board[..]) && moves >= old(moves)
      ensures ok <==> Solvable(board[..], n, center)
      ensures !ok ==> printed == old(printed)
      ensures ok ==> old(printed) <= printed && SolutionBackwards(printed[|old(printed)|..], board[..], n, center)
      decreases Pegs(board[..])
    {
      hide Solvable, Pegs;
      ghost var b := board[..];
      var last, count, pos := 0, 0, 0;
      NoPegs(b);
      while pos < board.Length
        invariant 0 <= pos <= board.Length && board[..] == b && printed == old(printed) && moves >= old(moves)
        invariant HopelessBefore(b, n, center, pos)
        invariant count == Pegs(b[..pos]) && (count > 0 ==> 0 <= last < pos && b[last] == Peg)
      {
        if board[pos] == Peg {
          var found := TryFrom(pos);
          if found {
            return true;
          }
          last := pos;
          count := count + 1;
        }
        CountStep(b, pos);
        pos := pos + 1;
      }
      NothingLeft(b, n, center);
      assert b[..board.Length] == b;
      if count == 1 {
        SolvedBySinglePeg(b, last, center);
      }
      if count == 1 && (center < 0 || last == center) {
        printed := printed + [board[..]];
        return true;
      }
      return false;
    }

    /** Tries one jump: makes it, solves the rest, and takes it back. */
    method TryJump(pos: int, dir: int) returns (ok: bool)
      requires Bordered(board[..], n) && 0 <= pos < board.Length && dir != 0 && dir in Directions(n)
      modifies this`moves, this`printed, board
      ensures board[..] == old(board[..]) && moves > old(moves)
      ensures ok ==> Solvable(board[..], n, center)
      ensures !ok ==> Hopeless(board[..], n, center, pos, dir) && printed == old(printed)
      ensures ok ==> old(printed) <= printed && SolutionBackwards(printed[|old(printed)|..], board[..], n, center)
      decreases Pegs(board[..]), 0
    {
      hide Solvable, Pegs, SolutionBackwards, Jump, IsJump, Bordered, Hopeless, CanJump, Directions;
      ghost var b := board[..];
      ok := Move(pos, dir);
      if ok {
        JumpTakesPeg(b, pos, dir);
        JumpKeepsBorder(b, n, pos, dir);
        JumpUndone(b, pos, dir);
        JumpInside(b, pos, dir);
        ok := Solve();
        Unmove(pos, dir);
        if ok {
          JumpSolves(b, n, center, pos, dir);
          SolutionExtends(printed[|old(printed)|..], b, Jump(b, pos, dir), n, center);
          LastPrinted(printed, |old(printed)|, b);
          printed := printed + [board[..]];
        }
      }
      HopelessFact(b, n, center, pos, dir);
    }

    /** Tries the four jumps of the peg at pos. */
    method TryFrom(pos: int) returns (ok: bool)
      requires Bordered(board[..], n) && 0 <= pos < board.Length && board[pos] == Peg
      modifies this`moves, this`printed, board
      ensures board[..] == old(board[..]) && moves > old(moves)
      ensures ok ==> Solvable(board[..], n, center)
      ensures !ok ==> forall dir :: dir in Directions(n) ==> Hopeless(board[..], n, center, pos, dir)
      ensures !ok ==> printed == old(printed)
      ensures ok ==> old(printed) <= printed && SolutionBackwards(printed[|old(printed)|..], board[..], n, center)
      decreases Pegs(board[..]), 1
    {
      assert n >= 1;
      hide Solvable, Pegs, SolutionBackwards, Jump, IsJump, Bordered, Hopeless, CanJump;
      ghost var b := board[..];
      var dirs := Directions(n);
      for k := 0 to 4
        invariant board[..] == b && printed == old(printed) && moves >= old(moves) + k
        invariant forall i :: 0 <= i < k ==> Hopeless(b, n, center, pos, dirs[i])
      {
        ok := TryJump(pos, dirs[k]);
        if ok {
          return;
        }
      }
      assert forall dir :: dir in Directions(n) ==> exists i :: 0 <= i < 4 && dirs[i] == dir;
      return false;
    }
  }

  lemma JumpInside(b: Board, pos: int, dir: int)
    requires CanJump(b, pos, dir)
    ensures 0 <= pos < |b| && 0 <= pos + dir < |b| && 0 <= pos + 2 * dir < |b|
  {}

  predicate OnlyHole(b: Board, c: int) {
    0 <= c < |b| && b[c] == Hole && forall i :: 0 <= i < |b| && b[i] == Hole ==> i == c
  }

  lemma HopelessFact(b: Board, n: nat, center: int, pos: int, dir: int)
    ensures (CanJump(b, pos, dir) ==> !Solvable(Jump(b, pos, dir), n, center)) ==> Hopeless(b, n, center, pos, dir)
  {}

  lemma LastPrinted(p: seq<Board>, k: nat, b: Board)
    requires k <= |p|
    ensures (p + [b])[k..] == p[k..] + [b]
  {}

  lemma NoPegs(b: Board)
    ensures Pegs(b[..0]) == 0
  {}

  lemma CountStep(b: Board, pos: nat)
    requires pos < |b|
    ensures Pegs(b[..pos + 1]) == Pegs(b[..pos]) + Weight(b[pos])
  {
    assert b[..pos + 1][..pos] == b[..pos];
  }
}
