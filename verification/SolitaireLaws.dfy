/** Peg solitaire in the words of the game: what one jump is, what a solved board is, and that solving
    does not depend on how the board lies on the table. */
module SolitaireLaws {
  import opened Solitaire

  /** Three fields in line, next to each other in a row or in a column of rows of length n. */
  predicate InLine(n: nat, pos: int, mid: int, far: int) {
    && far - mid == mid - pos
    && (mid == pos + 1 || mid == pos - 1 || mid == pos + n || mid == pos - n)
  }

  /** The peg at pos jumps over the peg at mid into the hole at far; nothing else changes. */
  ghost predicate PegJumps(b: Board, b': Board, n: nat, pos: int, mid: int, far: int) {
    && |b'| == |b| && 0 <= pos < |b| && 0 <= mid < |b| && 0 <= far < |b| && InLine(n, pos, mid, far)
    && b[pos] == Peg && b[mid] == Peg && b[far] == Hole
    && b'[pos] == Hole && b'[mid] == Hole && b'[far] == Peg
    && forall i :: 0 <= i < |b| && i != pos && i != mid && i != far ==> b'[i] == b[i]
  }

  lemma PegJumpIsJump(b: Board, b': Board, n: nat, pos: int, mid: int, far: int)
    requires PegJumps(b, b', n, pos, mid, far)
    ensures IsJump(b, b', n)
  {
    var dir := mid - pos;
    assert dir in Directions(n);
    assert b' == Jump(b, pos, dir);
  }

  /** The jumps of the solver are those of the game. */
  lemma IsJumpMeans(b: Board, b': Board, n: nat)
    ensures IsJump(b, b', n) <==> exists pos, mid, far :: PegJumps(b, b', n, pos, mid, far)
  {
    if IsJump(b, b', n) {
      var pos, dir :| CanJump(b, pos, dir) && dir in Directions(n) && b' == Jump(b, pos, dir);
      assert PegJumps(b, b', n, pos, pos + dir, pos + 2 * dir);
    }
    if pos, mid, far :| PegJumps(b, b', n, pos, mid, far) {
      PegJumpIsJump(b, b', n, pos, mid, far);
    }
  }

  ghost predicate OnlyPeg(b: Board, c: int) {
    0 <= c < |b| && b[c] == Peg && forall i :: 0 <= i < |b| && b[i] == Peg ==> i == c
  }

  lemma {:induction false} SomePeg(b: Board) returns (c: nat)
    requires Pegs(b) > 0
    ensures c < |b| && b[c] == Peg
    decreases |b|
  {
    if b[|b| - 1] == Peg {
      c := |b| - 1;
    } else {
      c := SomePeg(b[..|b| - 1]);
    }
  }

  lemma {:induction false} NoPeg(b: Board)
    requires forall i :: 0 <= i < |b| ==> b[i] != Peg
    ensures Pegs(b) == 0
    decreases |b|
  {
    if b != [] { NoPeg(b[..|b| - 1]); }
  }

  lemma OnePeg(b: Board, c: int)
    requires OnlyPeg(b, c)
    ensures Pegs(b) == 1
  {
    hide Pegs;
    PegsUpdate(b, c, Hole);
    NoPeg(b[c := Hole]);
  }

  /** A board is solved when a single peg is on it, in the centre if there is one to aim for. */
  lemma SolvedMeans(b: Board, center: int)
    ensures Solved(b, center) <==> exists c :: OnlyPeg(b, c) && (center < 0 || center == c)
  {
    hide Pegs;
    if Solved(b, center) {
      var c := SomePeg(b);
      forall i | 0 <= i < |b| && b[i] == Peg ensures i == c {
        if i != c { TwoPegs(b, if i < c then i else c, if i < c then c else i); }
      }
      assert OnlyPeg(b, c);
    }
    if c :| OnlyPeg(b, c) && (center < 0 || center == c) {
      OnePeg(b, c);
    }
  }

  // ----- Symmetries -----

  /** The fields of a board put elsewhere: field i goes to f[i], and g takes it back. */
  ghost predicate Inverses(f: seq<nat>, g: seq<nat>) {
    && |f| == |g|
    && (forall i :: 0 <= i < |f| ==> f[i] < |f| && g[f[i]] == i)
    && (forall i :: 0 <= i < |g| ==> g[i] < |g| && f[g[i]] == i)
  }

  function Moved(b: Board, g: seq<nat>): Board
    requires |g| == |b| && forall i :: 0 <= i < |g| ==> g[i] < |b|
  {
    seq(|b|, i requires 0 <= i < |b| => b[g[i]])
  }

  predicate InPlay(b: Board, i: int) { 0 <= i < |b| && b[i] != Outside }

  /** Fields of play that are in line stay in line. */
  ghost predicate KeepsLines(f: seq<nat>, b: Board, n: nat)
    requires |f| == |b|
  {
    forall pos, mid, far :: InPlay(b, pos) && InPlay(b, mid) && InPlay(b, far) && InLine(n, pos, mid, far)
                       ==> InLine(n, f[pos], f[mid], f[far])
  }

  lemma JumpMoved(b: Board, b': Board, n: nat, f: seq<nat>, g: seq<nat>)
    requires IsJump(b, b', n) && |f| == |b| && Inverses(f, g) && KeepsLines(f, b, n)
    ensures |b'| == |b| && IsJump(Moved(b, g), Moved(b', g), n) && KeepsLines(f, b', n)
  {
    IsJumpMeans(b, b', n);
    var pos, mid, far :| PegJumps(b, b', n, pos, mid, far);
    hide IsJump;
    assert InPlay(b, pos) && InPlay(b, mid) && InPlay(b, far);
    assert forall i :: InPlay(b', i) ==> InPlay(b, i);
    assert PegJumps(Moved(b, g), Moved(b', g), n, f[pos], f[mid], f[far]);
    PegJumpIsJump(Moved(b, g), Moved(b', g), n, f[pos], f[mid], f[far]);
  }

  /** Where the centre goes. */
  function CenterMoved(f: seq<nat>, center: int): int {
    if 0 <= center < |f| then f[center] else center
  }

  lemma SolvedMoved(b: Board, f: seq<nat>, g: seq<nat>, center: int)
    requires |f| == |b| && Inverses(f, g) && Solved(b, center)
    ensures Solved(Moved(b, g), CenterMoved(f, center))
  {
    hide Solved;
    SolvedMeans(b, center);
    var c :| OnlyPeg(b, c) && (center < 0 || center == c);
    assert OnlyPeg(Moved(b, g), f[c]);
    SolvedMeans(Moved(b, g), CenterMoved(f, center));
  }

  lemma {:induction false} SolvableMoved(b: Board, n: nat, center: int, f: seq<nat>, g: seq<nat>)
    requires Solvable(b, n, center) && |f| == |b| && Inverses(f, g) && KeepsLines(f, b, n)
    ensures Solvable(Moved(b, g), n, CenterMoved(f, center))
    decreases Pegs(b)
  {
    hide KeepsLines, Solvable, Pegs, IsJump, Solved;
    if Solved(b, center) {
      SolvedMoved(b, f, g, center);
      SolvedSolvable(Moved(b, g), n, CenterMoved(f, center));
    } else {
      var b' := FirstJump(b, n, center);
      JumpMoved(b, b', n, f, g);
      SolvableMoved(b', n, center, f, g);
      SolvableByJump(Moved(b, g), Moved(b', g), n, CenterMoved(f, center));
    }
  }

  lemma SolvedSolvable(b: Board, n: nat, center: int)
    requires Solved(b, center)
    ensures Solvable(b, n, center)
  {}

  lemma FirstJump(b: Board, n: nat, center: int) returns (b': Board)
    requires Solvable(b, n, center) && !Solved(b, center)
    ensures IsJump(b, b', n) && Solvable(b', n, center) && Pegs(b') < Pegs(b)
  {
    var pos, dir :| CanJump(b, pos, dir) && dir in Directions(n)
      && (JumpTakesPeg(b, pos, dir); Solvable(Jump(b, pos, dir), n, center));
    JumpTakesPeg(b, pos, dir);
    b' := Jump(b, pos, dir);
  }

  lemma SolvableByJump(b: Board, b': Board, n: nat, center: int)
    requires IsJump(b, b', n) && Solvable(b', n, center)
    ensures Solvable(b, n, center)
  {
    hide Solvable;
    var pos, dir :| CanJump(b, pos, dir) && dir in Directions(n) && b' == Jump(b, pos, dir);
    JumpSolves(b, n, center, pos, dir);
  }

  /** Moving back undoes moving. */
  lemma MovedBack(b: Board, f: seq<nat>, g: seq<nat>)
    requires |f| == |b| && Inverses(f, g)
    ensures Moved(Moved(b, g), f) == b && Inverses(g, f)
  {}

  /** A rearrangement that keeps lines both ways does not change what can be solved. */
  lemma SolvableSymmetric(b: Board, n: nat, center: int, f: seq<nat>, g: seq<nat>)
    requires |f| == |b| && Inverses(f, g) && KeepsLines(f, b, n) && KeepsLines(g, Moved(b, g), n)
    ensures Solvable(Moved(b, g), n, CenterMoved(f, center)) <==> Solvable(b, n, center)
  {
    hide KeepsLines, Solvable;
    MovedBack(b, f, g);
    if Solvable(b, n, center) {
      SolvableMoved(b, n, center, f, g);
    }
    if Solvable(Moved(b, g), n, CenterMoved(f, center)) {
      SolvableMoved(Moved(b, g), n, CenterMoved(f, center), g, f);
    }
  }

  // ----- Half a turn -----

  function Backwards(size: nat): seq<nat> { seq(size, i requires 0 <= i < size => size - 1 - i) }

  function Turned(b: Board): Board { seq(|b|, i requires 0 <= i < |b| => b[|b| - 1 - i]) }

  lemma BackwardsKeepsLines(b: Board, n: nat)
    ensures KeepsLines(Backwards(|b|), b, n) && Inverses(Backwards(|b|), Backwards(|b|))
  {}

  /** A board can be solved exactly when it can be solved turned by half a turn. */
  lemma SolvableTurned(b: Board, n: nat, center: int)
    ensures Solvable(Turned(b), n, if 0 <= center < |b| then |b| - 1 - center else center) <==> Solvable(b, n, center)
  {
    hide Solvable, KeepsLines, Inverses;
    var f := Backwards(|b|);
    BackwardsKeepsLines(b, n);
    assert Turned(b) == Moved(b, f);
    BackwardsKeepsLines(Turned(b), n);
    SolvableSymmetric(b, n, center, f, f);
  }

  // ----- Rows and columns exchanged -----

  /** The field in row r and column c of a board with rows of length n. */
  function Place(n: nat, r: nat, c: nat): nat { r * n + c }

  lemma PlaceUnique(n: nat, r: nat, c: nat, r': nat, c': nat)
    requires c < n && c' < n && Place(n, r, c) == Place(n, r', c')
    ensures r == r' && c == c'
  {
    if r < r' { RowsApart(n, r, r'); }
    if r' < r { RowsApart(n, r', r); }
  }

  lemma RowsApart(n: nat, r: nat, r': nat)
    requires r < r'
    ensures r * n + n <= r' * n
  {
    assert (r + 1) * n <= r' * n;
  }

  lemma PartsPlace(n: nat, i: nat)
    requires i < n * n
    ensures n > 0 && 0 <= i / n < n && 0 <= i % n < n && i == Place(n, i / n, i % n)
  {
    var q := i / n;
    assert i == q * n + i % n;
    if q >= n { Larger(n, q); }
  }

  lemma Larger(n: nat, q: nat)
    requires q >= n
    ensures q * n >= n * n
  {}

  lemma PlaceInside(n: nat, r: nat, c: nat)
    requires r < n && c < n
    ensures Place(n, r, c) < n * n
  {
    assert r * n <= (n - 1) * n;
  }

  lemma PlaceParts(n: nat, r: nat, c: nat)
    requires r < n && c < n
    ensures Place(n, r, c) < n * n && Place(n, r, c) / n == r && Place(n, r, c) % n == c
  {
    hide Place;
    PlaceInside(n, r, c);
    PartsPlace(n, Place(n, r, c));
    PlaceUnique(n, r, c, Place(n, r, c) / n, Place(n, r, c) % n);
  }

  /** The field across the diagonal. */
  function Across(n: nat, i: nat): (k: nat)
    requires i < n * n
    ensures k < n * n
  {
    PartsPlace(n, i);
    PlaceInside(n, i % n, i / n);
    Place(n, i % n, i / n)
  }

  lemma AcrossTwice(n: nat, i: nat)
    requires i < n * n
    ensures Across(n, Across(n, i)) == i
  {
    hide Place;
    PartsPlace(n, i);
    PlaceParts(n, i % n, i / n);
  }

  /** A step along a row becomes a step along a column, and the other way round. */
  lemma StepAcross(n: nat, i: nat)
    requires i < n * n && n > 0 && i / n < n - 1 && i % n < n - 1
    ensures i + n < n * n && i + 1 < n * n
    ensures Across(n, i + 1) == Across(n, i) + n && Across(n, i + n) == Across(n, i) + 1
  {
    PartsPlace(n, i);
    var r, c := i / n, i % n;
    PlaceSteps(n, r, c);
    PlaceSteps(n, c, r);
    hide Place;
    PlaceParts(n, r, c + 1);
    PlaceParts(n, r + 1, c);
  }

  lemma PlaceSteps(n: nat, r: nat, c: nat)
    ensures Place(n, r, c + 1) == Place(n, r, c) + 1 && Place(n, r + 1, c) == Place(n, r, c) + n
  {}

  lemma AcrossParts(n: nat, i: nat)
    requires i < n * n
    ensures n > 0 && Across(n, i) / n == i % n && Across(n, i) % n == i / n
  {
    hide Place;
    PartsPlace(n, i);
    PlaceParts(n, i % n, i / n);
  }

  function Diagonal(n: nat): seq<nat> { seq(n * n, i requires 0 <= i < n * n => Across(n, i)) }

  lemma DiagonalInverse(n: nat)
    ensures Inverses(Diagonal(n), Diagonal(n))
  {
    hide Across;
    var f := Diagonal(n);
    forall i | 0 <= i < |f| ensures f[i] < |f| && f[f[i]] == i {
      AcrossTwice(n, i);
    }
  }

  /** Not in the first or last row or column. */
  predicate Inner(n: nat, i: int) { 0 <= i < n * n && n > 0 && 1 <= i / n < n - 1 && 1 <= i % n < n - 1 }

  ghost predicate Ringed(b: Board, n: nat) { forall i :: InPlay(b, i) ==> Inner(n, i) }

  lemma LineAcross(n: nat, pos: int, mid: int, far: int)
    requires Inner(n, pos) && Inner(n, mid) && Inner(n, far) && InLine(n, pos, mid, far)
    ensures InLine(n, Across(n, pos), Across(n, mid), Across(n, far))
  {
    hide Across;
    if mid == pos + 1 || mid == pos + n {
      StepAcross(n, pos);
      StepAcross(n, mid);
    } else {
      StepAcross(n, mid);
      StepAcross(n, far);
    }
  }

  lemma DiagonalKeepsLines(b: Board, n: nat)
    requires |b| == n * n && Ringed(b, n)
    ensures KeepsLines(Diagonal(n), b, n)
  {
    hide Across, InLine, Inner;
    var f := Diagonal(n);
    forall pos, mid, far | InPlay(b, pos) && InPlay(b, mid) && InPlay(b, far) && InLine(n, pos, mid, far)
      ensures InLine(n, f[pos], f[mid], f[far])
    {
      LineAcross(n, pos, mid, far);
    }
  }

  // ----- Rows added below -----

  function Padded(b: Board, size: nat): Board { b + seq(if size > |b| then size - |b| else 0, _ => Outside) }

  lemma SolvedPadded(b: Board, size: nat, center: int)
    ensures Solved(Padded(b, size), center) <==> Solved(b, center)
  {
    hide Solved;
    SolvedMeans(b, center);
    SolvedMeans(Padded(b, size), center);
    assert forall i :: 0 <= i < |b| ==> Padded(b, size)[i] == b[i];
    if c :| OnlyPeg(b, c) && (center < 0 || center == c) { assert OnlyPeg(Padded(b, size), c); }
    if c :| OnlyPeg(Padded(b, size), c) && (center < 0 || center == c) { assert OnlyPeg(b, c); }
  }

  lemma JumpPadded(b: Board, b': Board, n: nat, size: nat)
    requires IsJump(b, b', n)
    ensures IsJump(Padded(b, size), Padded(b', size), n)
  {
    hide IsJump;
    IsJumpMeans(b, b', n);
    var pos, mid, far :| PegJumps(b, b', n, pos, mid, far);
    PegJumpIsJump(Padded(b, size), Padded(b', size), n, pos, mid, far);
  }

  lemma JumpUnpadded(b: Board, d: Board, n: nat, size: nat) returns (b': Board)
    requires IsJump(Padded(b, size), d, n)
    ensures IsJump(b, b', n) && d == Padded(b', size)
  {
    hide IsJump;
    IsJumpMeans(Padded(b, size), d, n);
    var pos, mid, far :| PegJumps(Padded(b, size), d, n, pos, mid, far);
    b' := d[..|b|];
    PegJumpIsJump(b, b', n, pos, mid, far);
  }

  lemma {:induction false} PaddedSolvable(b: Board, n: nat, size: nat, center: int)
    requires Solvable(b, n, center)
    ensures Solvable(Padded(b, size), n, center)
    decreases Pegs(b)
  {
    hide Solvable, Pegs, IsJump, Solved, Padded;
    if Solved(b, center) {
      SolvedPadded(b, size, center);
      SolvedSolvable(Padded(b, size), n, center);
    } else {
      var b' := FirstJump(b, n, center);
      JumpPadded(b, b', n, size);
      PaddedSolvable(b', n, size, center);
      SolvableByJump(Padded(b, size), Padded(b', size), n, center);
    }
  }

  lemma {:induction false} UnpaddedSolvable(b: Board, n: nat, size: nat, center: int)
    requires Solvable(Padded(b, size), n, center)
    ensures Solvable(b, n, center)
    decreases Pegs(Padded(b, size))
  {
    hide Solvable, Pegs, IsJump, Solved, Padded;
    SolvedPadded(b, size, center);
    if Solved(b, center) {
      SolvedSolvable(b, n, center);
    } else {
      var d := FirstJump(Padded(b, size), n, center);
      var b' := JumpUnpadded(b, d, n, size);
      UnpaddedSolvable(b', n, size, center);
      SolvableByJump(b, b', n, center);
    }
  }

  /** The board with its rows and columns exchanged, on a square of n by n fields. */
  function Transposed(b: Board, n: nat): Board
    requires |b| <= n * n
  {
    seq(n * n, i requires 0 <= i < n * n => if Across(n, i) < |b| then b[Across(n, i)] else Outside)
  }

  /** A board that fits into a square with nothing in play at its edge can be solved exactly when it can
      be solved with rows and columns exchanged. */
  lemma SolvableTransposed(b: Board, n: nat, center: int)
    requires |b| <= n * n && Ringed(b, n)
    ensures Solvable(Transposed(b, n), n, if 0 <= center < n * n then Across(n, center) else center)
       <==> Solvable(b, n, center)
  {
    hide Solvable, KeepsLines, Inverses, Across, Inner;
    var p, f := Padded(b, n * n), Diagonal(n);
    assert |p| == n * n && Ringed(p, n);
    DiagonalInverse(n);
    DiagonalKeepsLines(p, n);
    TransposedIsMoved(b, n);
    DiagonalKeepsLines(Transposed(b, n), n);
    SolvableSymmetric(p, n, center, f, f);
    if Solvable(b, n, center) { PaddedSolvable(b, n, n * n, center); }
    if Solvable(p, n, center) { UnpaddedSolvable(b, n, n * n, center); }
  }

  lemma TransposedIsMoved(b: Board, n: nat)
    requires |b| <= n * n && Ringed(b, n)
    ensures Moved(Padded(b, n * n), Diagonal(n)) == Transposed(b, n)
    ensures Ringed(Transposed(b, n), n)
  {
    hide Across;
    var d := Transposed(b, n);
    forall i | InPlay(d, i) ensures Inner(n, i) {
      assert InPlay(b, Across(n, i));
      AcrossParts(n, i);
    }
  }
}
