/** The CGA console of tiny/io.go: a window of 24 rows of 80 columns on an unbounded page, kept by
    scrolling a 25-row screen in place.  The screen memory is an array here. */
module Console {

  type Byte = x: int | 0 <= x < 256
  type Cell = x: int | 0 <= x < 0x1_0000

  const COLUMNS := 80
  const ROWS := 24
  const SIZE := 25 * 80
  const COLOR := 0x0700
  const CURSOR: Cell := 0x0720
  const NEWLINE: int := 10

  /** Only the low eight bits of a character are shown. */
  function Glyph(c: int): Cell { COLOR + c % 256 }

  // ----- The page: what was written, laid out without a limit on the rows -----

  function Blank(n: nat): seq<Cell> { seq(n, _ => 0) }

  /** Cells filled up with blanks to whole rows, at least one row. */
  function Padded(cells: seq<Cell>): seq<Cell> {
    if |cells| == 0 then Blank(COLUMNS)
    else cells + Blank((COLUMNS - |cells| % COLUMNS) % COLUMNS)
  }

  /** The characters since the last newline. */
  function CurrentLine(b: seq<int>): seq<int> {
    if b == [] || b[|b| - 1] == NEWLINE then [] else CurrentLine(b[..|b| - 1]) + [b[|b| - 1]]
  }

  function Glyphs(line: seq<int>): seq<Cell> { seq(|line|, i requires 0 <= i < |line| => Glyph(line[i])) }

  /** The current line with the cursor behind it; before the first byte no cursor has been drawn. */
  function LineCells(b: seq<int>): seq<Cell> {
    if b == [] then [] else Glyphs(CurrentLine(b)) + [CURSOR]
  }

  /** The rows of all lines that a newline has ended; a line keeps the cursor that stood behind it. */
  function Above(b: seq<int>): seq<Cell> {
    if b == [] then []
    else
      var a := b[..|b| - 1];
      if b[|b| - 1] == NEWLINE then Above(a) + Padded(LineCells(a)) else Above(a)
  }

  function Page(b: seq<int>): seq<Cell> { Above(b) + Padded(LineCells(b)) }

  /** Where the cursor stands on the page. */
  function CursorAt(b: seq<int>): nat { |Above(b)| + |CurrentLine(b)| }

  lemma PaddedRows(cells: seq<Cell>)
    ensures |Padded(cells)| % COLUMNS == 0 && |Padded(cells)| >= COLUMNS && |cells| <= |Padded(cells)|
    ensures |cells| > 0 ==> |Padded(cells)| < |cells| + COLUMNS
  {}

  lemma {:induction false} AboveRows(b: seq<int>)
    ensures |Above(b)| % COLUMNS == 0
  {
    if b != [] {
      var a := b[..|b| - 1];
      AboveRows(a);
      PaddedRows(LineCells(a));
    }
  }

  /** The cursor is in the last row of the page, and blanks follow it. */
  lemma PageShape(b: seq<int>)
    requires b != []
    ensures |Page(b)| % COLUMNS == 0
    ensures CursorAt(b) < |Page(b)| <= CursorAt(b) + COLUMNS
    ensures Page(b)[CursorAt(b)] == CURSOR
    ensures forall i :: CursorAt(b) < i < |Page(b)| ==> Page(b)[i] == 0
  {
    AboveRows(b);
    PaddedRows(LineCells(b));
  }

  lemma PaddedOne()
    ensures Padded([CURSOR]) == [CURSOR] + Blank(COLUMNS - 1)
  {}

  lemma PaddedLength(cells: seq<Cell>, m: nat)
    requires |cells| >= 1 && m % COLUMNS == 0 && |cells| <= m < |cells| + COLUMNS
    ensures Padded(cells) == cells + Blank(m - |cells|)
  {
    PaddedRows(cells);
    assert |Padded(cells)| == m;
  }

  /** A line grows by one glyph: the cursor gives way and moves on, into a new row if need be. */
  lemma PaddedStep(x: seq<Cell>, g: Cell)
    ensures var n, q := |x|, Padded(x + [CURSOR]);
            && n < |q|
            && Padded(x + [g] + [CURSOR]) == if n + 1 == |q| then q[n := g] + [CURSOR] + Blank(COLUMNS - 1)
                                             else q[n := g][n + 1 := CURSOR]
  {
    var n, q := |x|, Padded(x + [CURSOR]);
    PaddedRows(x + [CURSOR]);
    PaddedLength(x + [CURSOR], |q|);
    hide Padded;
    if n + 1 == |q| {
      PaddedLength(x + [g] + [CURSOR], |q| + COLUMNS);
    } else {
      PaddedLength(x + [g] + [CURSOR], |q|);
    }
  }

  lemma LineStep(b: seq<int>, c: int)
    ensures var b' := b + [c];
            && CurrentLine(b') == (if c == NEWLINE then [] else CurrentLine(b) + [c])
            && Above(b') == (if c == NEWLINE then Page(b) else Above(b))
            && LineCells(b') == (if c == NEWLINE then [CURSOR] else Glyphs(CurrentLine(b)) + [Glyph(c)] + [CURSOR])
  {
    hide Padded;
    var b' := b + [c];
    assert b'[..|b'| - 1] == b && b'[|b'| - 1] == c;
  }

  /** How one more byte changes the page. */
  function NextPage(P: seq<Cell>, p: nat, c: int): seq<Cell>
    requires p < |P|
  {
    if c == NEWLINE then P + [CURSOR] + Blank(COLUMNS - 1)
    else if p + 1 == |P| then P[p := Glyph(c)] + [CURSOR] + Blank(COLUMNS - 1)
    else P[p := Glyph(c)][p + 1 := CURSOR]
  }

  lemma PageStep(b: seq<int>, c: int)
    requires b != []
    ensures var p, P := CursorAt(b), Page(b);
            && CursorAt(b + [c]) == (if c == NEWLINE then |P| else p + 1)
            && p < |P| && Page(b + [c]) == NextPage(P, p, c)
  {
    LineStep(b, c);
    GlyphStep(Above(b), Glyphs(CurrentLine(b)), Glyph(c));
    GlyphsLength(CurrentLine(b));
    PaddedOne();
    hide Above, CurrentLine, Glyphs, Blank, Padded;
    if c == NEWLINE {
      NewRow(Page(b), Blank(COLUMNS - 1));
    }
  }

  lemma NewRow(P: seq<Cell>, r: seq<Cell>)
    ensures P + ([CURSOR] + r) == P + [CURSOR] + r
  {}

  lemma GlyphsLength(line: seq<int>)
    ensures |Glyphs(line)| == |line|
  {}

  lemma GlyphStep(a: seq<Cell>, x: seq<Cell>, g: Cell)
    ensures var P, p := a + Padded(x + [CURSOR]), |a| + |x|;
            && p < |P|
            && a + Padded(x + [g] + [CURSOR]) == if p + 1 == |P| then P[p := g] + [CURSOR] + Blank(COLUMNS - 1)
                                                 else P[p := g][p + 1 := CURSOR]
  {
    hide Blank;
    PaddedStep(x, g);
    hide Padded;
    var q, n, r := Padded(x + [CURSOR]), |x|, Blank(COLUMNS - 1);
    assert (a + q)[|a| + n := g] == a + q[n := g];
    if n + 1 == |q| {
      assert a + (q[n := g] + [CURSOR] + r) == a + q[n := g] + [CURSOR] + r;
    } else {
      assert (a + q[n := g])[|a| + n + 1 := CURSOR] == a + q[n := g][n + 1 := CURSOR];
    }
  }

  lemma EmptyPage()
    ensures Page([]) == Blank(COLUMNS) && Above([]) == [] && CurrentLine([]) == [] && Glyphs([]) == []
  {}

  lemma FirstPage(c: int)
    ensures CursorAt([c]) == (if c == NEWLINE then COLUMNS else 1)
    ensures Page([c]) == if c == NEWLINE then Blank(COLUMNS) + [CURSOR] + Blank(COLUMNS - 1)
                         else [Glyph(c), CURSOR] + Blank(COLUMNS - 2)
  {
    EmptyPage();
    LineStep([], c);
    assert [] + [c] == [c];
    hide Glyph, Padded, Blank, Above, CurrentLine, LineCells, Glyphs;
    PaddedOne();
    if c != NEWLINE {
      PaddedLength([Glyph(c), CURSOR], COLUMNS);
      assert LineCells([c]) == [Glyph(c), CURSOR];
    }
  }

  // ----- The screen: the last 24 rows of the page -----

  function Top(P: seq<Cell>): nat { if |P| <= ROWS * COLUMNS then 0 else |P| - ROWS * COLUMNS }

  /** Rows 0 to 23 show the end of the page, row 24 is blank. */
  function ShownAt(P: seq<Cell>, i: nat): Cell {
    if i < ROWS * COLUMNS && Top(P) + i < |P| then P[Top(P) + i] else 0
  }

  function Shown(P: seq<Cell>): seq<Cell> { seq(SIZE, i requires 0 <= i < SIZE => ShownAt(P, i)) }

  /** One putc on a screen that is already set up. */
  function Put(crt: seq<Cell>, pos: nat, c: int): (seq<Cell>, nat)
    requires |crt| == SIZE && pos < ROWS * COLUMNS
  {
    var pos1 := if c == NEWLINE then pos + COLUMNS - pos % COLUMNS else pos + 1;
    var crt1 := if c == NEWLINE then crt else crt[pos := Glyph(c)];
    if pos1 / COLUMNS >= ROWS then
      var crt2 := crt1[COLUMNS..] + Blank(COLUMNS);
      (crt2[pos1 - COLUMNS := CURSOR], pos1 - COLUMNS)
    else (crt1[pos1 := CURSOR], pos1)
  }

  lemma ShownIs(P: seq<Cell>, s: seq<Cell>)
    requires |s| == SIZE && forall i :: 0 <= i < SIZE ==> s[i] == ShownAt(P, i)
    ensures Shown(P) == s
  {}

  lemma ShownUpdate(P: seq<Cell>, p: nat, g: Cell)
    requires Top(P) <= p < |P|
    ensures p - Top(P) < ROWS * COLUMNS && Shown(P[p := g]) == Shown(P)[p - Top(P) := g]
  {
    var s := Shown(P)[p - Top(P) := g];
    forall i | 0 <= i < SIZE ensures s[i] == ShownAt(P[p := g], i) {}
    ShownIs(P[p := g], s);
  }

  /** A new last row with the cursor in it: the window moves down when it was full. */
  lemma ShownNewRow(P: seq<Cell>)
    requires |P| % COLUMNS == 0
    ensures var P' := P + [CURSOR] + Blank(COLUMNS - 1);
            && Shown(P') == (if |P| >= ROWS * COLUMNS
                             then (Shown(P)[COLUMNS..] + Blank(COLUMNS))[(ROWS - 1) * COLUMNS := CURSOR]
                             else Shown(P)[|P| := CURSOR])
            && |P| - Top(P') == (if |P| >= ROWS * COLUMNS then (ROWS - 1) * COLUMNS else |P|)
  {
    var P' := P + [CURSOR] + Blank(COLUMNS - 1);
    var s := if |P| >= ROWS * COLUMNS
             then (Shown(P)[COLUMNS..] + Blank(COLUMNS))[(ROWS - 1) * COLUMNS := CURSOR]
             else Shown(P)[|P| := CURSOR];
    assert |P'| == |P| + COLUMNS;
    forall i | 0 <= i < SIZE ensures s[i] == ShownAt(P', i) {
      if |P| >= ROWS * COLUMNS {
        assert Top(P') == Top(P) + COLUMNS;
        if i < ROWS * COLUMNS && i != (ROWS - 1) * COLUMNS {
          assert s[i] == Shown(P)[i + COLUMNS] == ShownAt(P, i + COLUMNS);
        }
      } else {
        assert Top(P') == 0 && Top(P) == 0;
        if i != |P| { assert s[i] == Shown(P)[i] == ShownAt(P, i); }
      }
    }
    ShownIs(P', s);
  }

  /** putc keeps the screen showing the page. */
  lemma PutShows(P: seq<Cell>, p: nat, c: int)
    requires |P| % COLUMNS == 0 && p < |P| <= p + COLUMNS
    ensures p - Top(P) < ROWS * COLUMNS && p >= Top(P)
    ensures var P' := NextPage(P, p, c);
            var p' := if c == NEWLINE then |P| else p + 1;
            p' >= Top(P') && Put(Shown(P), p - Top(P), c) == (Shown(P'), p' - Top(P'))
  {
    var g, pos := Glyph(c), p - Top(P);
    assert Top(P) % COLUMNS == 0;
    if c == NEWLINE {
      ShownNewRow(P);
      hide Shown;
      assert pos + COLUMNS - pos % COLUMNS == |P| - Top(P);
    } else {
      ShownUpdate(P, p, g);
      var Q := P[p := g];
      if p + 1 == |P| {
        ShownNewRow(Q);
      } else {
        ShownUpdate(Q, p + 1, CURSOR);
      }
      hide Shown;
    }
  }

  // ----- Writing -----

  /** The screen shows the page of the bytes written; the memory is set up with the first byte. */
  lemma {:induction false} FirstPut(c: int)
    ensures Put(Blank(SIZE), 0, c) == (Shown(Page([c])), CursorAt([c]) - Top(Page([c])))
    ensures CursorAt([c]) >= Top(Page([c]))
  {
    FirstPage(c);
    var s, P := Put(Blank(SIZE), 0, c).0, Page([c]);
    hide Page, CursorAt;
    forall i | 0 <= i < SIZE ensures s[i] == ShownAt(P, i) {}
    ShownIs(P, s);
  }

  /** The console's globals: the screen memory, which is nil until the first putc, and the position. */
  class Screen {
    var crt: array?<Cell>
    var pos: nat
    ghost var written: seq<int>

    /** The screen shows the last rows of everything written so far. */
    ghost predicate Valid()
      reads this, crt
    {
      && (crt == null <==> written == [])
      && (crt != null ==>
            && crt.Length == SIZE && crt[..] == Shown(Page(written))
            && CursorAt(written) >= Top(Page(written)) && pos == CursorAt(written) - Top(Page(written)))
    }

    constructor ()
      ensures Valid() && written == []
    {
      crt, pos, written := null, 0, [];
    }

    method Putc(c: int)
      requires Valid()
      modifies this, crt
      ensures Valid() && written == old(written) + [c]
      ensures crt != null && (old(crt) == null ==> fresh(crt)) && (old(crt) != null ==> crt == old(crt))
    {
      hide Page, Shown, Blank, CursorAt;
      if crt == null {
        crt := new Cell[SIZE];
        pos := 0;
        var i := 0;
        while i < SIZE
          invariant 0 <= i <= SIZE && crt != null && crt.Length == SIZE && fresh(crt) && pos == 0 && written == []
          invariant forall j :: 0 <= j < i ==> crt[j] == 0
        {
          crt[i] := 0;
          i := i + 1;
        }
        AllBlank(crt[..]);
        FirstPut(c);
        assert written + [c] == [c];
      } else {
        PageShape(written);
        PageStep(written, c);
        PutShows(Page(written), CursorAt(written), c);
      }
      ghost var before, at := crt[..], pos;
      Draw(c);
      assert (crt[..], pos) == Put(before, at, c);
      written := written + [c];
    }

    /** The part of putc that follows the set-up: every store is within the screen. */
    method Draw(c: int)
      requires crt != null && crt.Length == SIZE && pos < ROWS * COLUMNS
      modifies this`pos, crt
      ensures (crt[..], pos) == Put(old(crt[..]), old(pos), c)
    {
      if c == NEWLINE {
        pos := pos + COLUMNS - pos % COLUMNS;
      } else {
        crt[pos] := Glyph(c);
        pos := pos + 1;
      }
      if pos / COLUMNS >= ROWS {
        Scroll();
        pos := pos - COLUMNS;
      }
      crt[pos] := CURSOR;
    }

    /** copy(crt[0:], crt[80:]) and a blank last row. */
    method Scroll()
      requires crt != null && crt.Length == SIZE
      modifies crt
      ensures crt[..] == old(crt[..])[COLUMNS..] + Blank(COLUMNS)
    {
      ghost var moved := old(crt[..])[COLUMNS..];
      forall i | 0 <= i < SIZE - COLUMNS {
        crt[i] := crt[i + COLUMNS];
      }
      assert crt[..SIZE - COLUMNS] == moved;
      var i := 0;
      while i < COLUMNS
        invariant 0 <= i <= COLUMNS && crt[..SIZE - COLUMNS] == moved
        invariant forall j :: ROWS * COLUMNS <= j < ROWS * COLUMNS + i ==> crt[j] == 0
      {
        crt[ROWS * COLUMNS + i] := 0;
        i := i + 1;
      }
      assert crt[SIZE - COLUMNS..] == Blank(COLUMNS);
      assert crt[..] == crt[..SIZE - COLUMNS] + crt[SIZE - COLUMNS..];
    }

    method Write(b: seq<Byte>)
      requires Valid()
      modifies this, crt
      ensures Valid() && written == old(written) + b
      ensures old(crt) != null ==> crt == old(crt)
    {
      hide Page, Shown, CursorAt, Valid;
      for k := 0 to |b|
        invariant Valid() && written == old(written) + b[..k]
        invariant old(crt) != null ==> crt == old(crt)
        invariant crt != null && old(crt) == null ==> fresh(crt)
      {
        Putc(b[k]);
        assert b[..k + 1] == b[..k] + [b[k]];
      }
      assert b[..|b|] == b;
    }
  }

  lemma AllBlank(s: seq<Cell>)
    ensures |s| == SIZE && (forall j :: 0 <= j < SIZE ==> s[j] == 0) ==> s == Blank(SIZE)
  {}

  /** Row 24 of what is shown is blank, and so is everything after the cursor. */
  lemma BlankAfterCursor(b: seq<int>, i: nat)
    requires b != [] && i < SIZE
    ensures i >= ROWS * COLUMNS || Top(Page(b)) + i > CursorAt(b) ==> Shown(Page(b))[i] == 0
    ensures Top(Page(b)) + i == CursorAt(b) ==> i < ROWS * COLUMNS && Shown(Page(b))[i] == CURSOR
  {
    PageShape(b);
    hide Page, CursorAt;
  }

  // ----- What a reader sees -----

  /** Characters without a newline are at the end of the current line. */
  lemma {:induction false} LineEndsWith(before: seq<int>, line: seq<int>)
    requires 10 !in line
    ensures CurrentLine(before + line) == CurrentLine(before) + line
    decreases |line|
  {
    if line == [] {
      assert before + line == before;
    } else {
      var n := |line| - 1;
      assert (before + line)[..|before + line| - 1] == before + line[..n];
      LineEndsWith(before, line[..n]);
      assert line == line[..n] + [line[n]];
    }
  }

  lemma LineOnPage(before: seq<int>, line: seq<int>, k: nat)
    requires 10 !in line && k < |line|
    ensures var b := before + line;
            var at := CursorAt(b) - (|line| - k);
            0 <= at < |Page(b)| && Page(b)[at] == 0x0700 + line[k] % 256
  {
    var b := before + line;
    LineEndsWith(before, line);
    var cl, j := CurrentLine(b), |CurrentLine(before)| + k;
    assert cl[j] == line[k];
    hide CurrentLine;
    PaddedRows(LineCells(b));
    assert LineCells(b)[j] == Glyph(line[k]);
    hide LineCells, Above;
    assert Padded(LineCells(b))[j] == Glyph(line[k]);
  }

  lemma ShownOnPage(P: seq<Cell>, p: nat)
    requires Top(P) <= p < |P|
    ensures p - Top(P) < 1920 && Shown(P)[p - Top(P)] == P[p]
  {}

  /** The characters of the current line stand in front of the cursor, as far as they are on the screen:
      white on black, with the low eight bits of the character. */
  lemma LineShown(before: seq<int>, line: seq<int>, k: nat)
    requires 10 !in line && k < |line|
    ensures var b := before + line;
            var pos := CursorAt(b) - Top(Page(b));
            var at := pos - (|line| - k);
            && pos == CursorAt(b) - (if |Page(b)| > 1920 then |Page(b)| - 1920 else 0)
            && 0 <= pos < 1920 && Shown(Page(b))[pos] == 0x0720
            && (at >= 0 ==> Shown(Page(b))[at] == 0x0700 + line[k] % 256)
  {
    hide Page, Shown, CursorAt;
    var b := before + line;
    PageShape(b);
    LineOnPage(before, line, k);
    var at := CursorAt(b) - (|line| - k);
    ShownOnPage(Page(b), CursorAt(b));
    if at >= Top(Page(b)) { ShownOnPage(Page(b), at); }
  }

  /** A newline takes the cursor to the start of the next row of 80. */
  lemma NewlineStartsRow(b: seq<int>)
    requires b != []
    ensures var p, p' := CursorAt(b), CursorAt(b + [10]); p < p' <= p + 80 && p' % 80 == 0
  {
    hide Page;
    PageShape(b);
    PageStep(b, 10);
  }
}
