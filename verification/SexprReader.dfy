/** The lexer and parser of testsuit/ken/rob2.go with their global state: one character of
    pushback, a token buffer of 100 bytes and the current token.  The parser links cells on the heap. */
module SexprReader {
  import opened Sexpr

  const EOF := -1
  const LETTER := 65  // the code of an atom that is no number

  /** A cell: an atom, which is a number or a string, or a pair of references. */
  class Cell {
    var isatom: bool
    var isstring: bool
    var str: Text
    var integer: int
    var car: Cell?
    var cdr: Cell?

    /** new(Slist): all fields zero. */
    constructor ()
      ensures !isatom && car == null && cdr == null
    {
      isatom, isstring, str, integer, car, cdr := false, false, [], 0, null, null;
    }
  }

  /** The cells reachable from c spell out t, using only cells of the given set. */
  ghost predicate Denotes(c: Cell?, t: Slist, cells: set<Cell>)
    reads cells
    decreases t
  {
    match t
    case Nil => c == null
    case Int(n) => c != null && c in cells && c.isatom && !c.isstring && c.integer == n
    case Str(s) => c != null && c in cells && c.isatom && c.isstring && c.str == s
    case Cons(car, cdr) =>
      && c != null && c in cells && !c.isatom
      && Denotes(c.car, car, cells) && Denotes(c.cdr, cdr, cells)
  }

  lemma {:induction false} DenotesMore(c: Cell?, t: Slist, cells: set<Cell>, cells': set<Cell>)
    requires Denotes(c, t, cells) && cells <= cells'
    ensures Denotes(c, t, cells')
    decreases t
  {
    if t.Cons? {
      DenotesMore(c.car, t.car, cells, cells');
      DenotesMore(c.cdr, t.cdr, cells, cells');
    }
  }

  ghost function CellsOf(chain: seq<Cell>): set<Cell> { set c | c in chain }

  /** The cells of a list under construction: each but the last leads to the next and has its element. */
  ghost predicate Linked(chain: seq<Cell>, cars: seq<Slist>, cells: set<Cell>)
    reads chain, cells
  {
    && |chain| == |cars| + 1
    && (forall i :: 0 <= i < |chain| ==> !chain[i].isatom && chain[i] !in cells)
    && (forall i, j :: 0 <= i < j < |chain| ==> chain[i] != chain[j])
    && (forall i :: 0 <= i < |cars| ==> chain[i].cdr == chain[i + 1] && Denotes(chain[i].car, cars[i], cells))
    && chain[|cars|].cdr == null
  }

  /** The cells from the i-th on spell out the rest of the list, once the last cell has its element. */
  lemma {:induction false} LinkedDenotes(chain: seq<Cell>, cars: seq<Slist>, cells: set<Cell>, last: Slist, i: nat)
    requires Linked(chain, cars, cells) && Denotes(chain[|cars|].car, last, cells) && i <= |cars|
    ensures Denotes(chain[i], Chain(cars[i..] + [last], Nil), cells + CellsOf(chain))
    decreases |cars| - i
  {
    var all := cells + CellsOf(chain);
    var rest := cars[i..] + [last];
    assert chain[i] in all;
    if i == |cars| {
      assert rest == [last] && rest[1..] == [];
      DenotesMore(chain[i].car, last, cells, all);
    } else {
      LinkedDenotes(chain, cars, cells, last, i + 1);
      assert rest[0] == cars[i] && rest[1..] == cars[i + 1..] + [last];
      DenotesMore(chain[i].car, cars[i], cells, all);
    }
  }

  function AtomToken(text: Text): Token
    requires |text| >= 1
  {
    if IsDigit(text[0]) then TNum(text) else TSym(text)
  }

  /** Reading an atom that starts at e0: what is certain after i of its bytes. */
  lemma AtomSoFar(s: Text, e0: nat, i: nat)
    requires e0 + i <= |s| && i >= 1
    requires forall k :: e0 <= k < e0 + i ==> !Delimits(s[k])
    requires s[e0] != OPEN
    ensures e0 + i == |s| || i >= BUFFER - 1 ==> Lex(s, e0).LexPanic?
    ensures e0 + i < |s| && Delimits(s[e0 + i]) && i < BUFFER - 1 ==>
              Lex(s, e0) == Lexed(AtomToken(s[e0..e0 + i]), e0 + i)
  {
    var j := AtomEnd(s, e0);
    assert j >= e0 + i;
  }

  class Reader {
    const input: Text
    const tokenbuf: array<Byte>
    var token: int
    var tokenlen: nat
    var peekc: int
    var inputindex: nat
    var lineno: int

    /** A character that was read and pushed back is the last one read. */
    ghost predicate Valid()
      reads this, tokenbuf
    {
      && tokenbuf.Length == BUFFER && tokenlen < BUFFER && inputindex <= |input| && peekc >= EOF
      && (peekc >= 0 ==> inputindex >= 1 && peekc == input[inputindex - 1] && peekc != NUL)
      && (token == EOF || token == OPEN || token == CLOSE || token == ZERO || token == LETTER)
    }

    /** The position the next character comes from. */
    ghost function Pos(): (e: nat)
      requires Valid()
      reads this, tokenbuf
      ensures e <= |input|
    {
      if peekc >= 0 then inputindex - 1 else inputindex
    }

    ghost function Now(): Token
      requires Valid()
      reads this, tokenbuf
    {
      if token == EOF then TEof
      else if token == OPEN then TOpen
      else if token == CLOSE then TClose
      else if token == ZERO then TNum(tokenbuf[..tokenlen])
      else TSym(tokenbuf[..tokenlen])
    }

    constructor (input: Text)
      ensures Valid() && this.input == input && Pos() == 0 && fresh(tokenbuf)
    {
      this.input := input;
      tokenbuf := new Byte[BUFFER](_ => 0);
      token, tokenlen, peekc, inputindex, lineno := EOF, 0, EOF, 0, 1;
    }

    /** The next character, or the end mark, which is never passed. */
    method Get() returns (c: int, panicked: bool)
      requires Valid()
      modifies this`peekc, this`inputindex, this`lineno
      ensures panicked <==> old(Pos()) == |input|
      ensures !panicked ==> lineno == old(lineno) + if old(peekc) < 0 && input[old(inputindex)] == 10 then 1 else 0
      ensures !panicked ==>
                && Valid() && peekc == EOF
                && (if input[old(Pos())] == NUL then c == EOF && Pos() == old(Pos())
                    else c == input[old(Pos())] && Pos() == old(Pos()) + 1)
    {
      c, panicked := 0, false;
      if peekc >= 0 {
        c := peekc;
        peekc := EOF;
      } else {
        if inputindex == |input| {
          panicked := true;
          return;
        }
        c := input[inputindex];
        inputindex := inputindex + 1;
        if c == NEWLINE {
          lineno := lineno + 1;
        }
        if c == NUL {
          inputindex := inputindex - 1;
          c := EOF;
        }
      }
    }

    /** Character c has been read, and the next token is the one that was next at position e. */
    ghost predicate SameToken(e: nat, c: int)
      reads this, tokenbuf
    {
      && Valid() && peekc == EOF
      && (if c == EOF then Lex(input, e) == Lexed(TEof, Pos())
          else Pos() >= 1 && c == input[Pos() - 1] && c != NUL && Lex(input, e) == Lex(input, Pos() - 1))
    }

    /** A character has been read where the token that is due at e starts, or white space before it. */
    method GetAt(ghost e: nat) returns (c: int, panicked: bool)
      requires Valid() && Lex(input, e) == Lex(input, Pos())
      modifies this`peekc, this`inputindex, this`lineno
      ensures panicked ==> Lex(input, e).LexPanic?
      ensures !panicked ==> SameToken(e, c) && Pos() >= old(Pos()) && (c != EOF ==> Pos() > old(Pos()))
    {
      LexBounds(input, Pos());
      hide Lex;
      c, panicked := Get();
    }

    /** Skips white space; leaves the first other character read. */
    method SkipSpace() returns (c: int, panicked: bool)
      requires Valid()
      modifies this`peekc, this`inputindex, this`lineno
      ensures panicked ==> Lex(input, old(Pos())).LexPanic?
      ensures !panicked ==> SameToken(old(Pos()), c) && !WhiteSpace(c)
    {
      hide Lex;
      ghost var e := Pos();
      c, panicked := GetAt(e);
      while !panicked && WhiteSpace(c)
        invariant panicked ==> Lex(input, e).LexPanic?
        invariant !panicked ==> SameToken(e, c)
        decreases !panicked, |input| - (if panicked then 0 else Pos()), WhiteSpace(c)
      {
        LexSkips(input, Pos() - 1);
        c, panicked := GetAt(e);
      }
    }

    /** Reads on while the atom whose first character was read lasts.  Ends with the i bytes of a whole atom
        in the buffer, or with a full buffer. */
    method CollectAtom(first: int) returns (panicked: bool, i: nat)
      requires Valid() && peekc == EOF && Pos() >= 1 && first == input[Pos() - 1]
      requires !Delimits(first) && first != OPEN
      modifies this`peekc, this`inputindex, this`lineno, tokenbuf
      ensures panicked ==> Lex(input, old(Pos()) - 1).LexPanic?
      ensures !panicked ==>
                && Valid() && 1 <= i <= BUFFER - 1 && old(Pos()) - 1 + i <= |input|
                && tokenbuf[..i] == input[old(Pos()) - 1..old(Pos()) - 1 + i]
                && (if i < BUFFER - 1 then Lex(input, old(Pos()) - 1) == Lexed(AtomToken(tokenbuf[..i]), Pos())
                    else Lex(input, old(Pos()) - 1).LexPanic?)
    {
      hide Lex;
      var c := first;
      ghost var e0 := Pos() - 1;
      i, panicked := 0, false;
      while i < BUFFER - 1
        invariant 0 <= i <= BUFFER - 1 && Valid() && peekc == EOF && e0 + i < |input| && Pos() == e0 + i + 1
        invariant c == input[e0 + i] && !Delimits(c)
        invariant forall k :: e0 <= k < e0 + i ==> !Delimits(input[k])
        invariant tokenbuf[..i] == input[e0..e0 + i] && !panicked
        invariant i == BUFFER - 1 ==> Lex(input, e0).LexPanic?
      {
        tokenbuf[i] := c;
        i := i + 1;
        assert tokenbuf[..i] == input[e0..e0 + i];
        AtomSoFar(input, e0, i);
        c, panicked := Get();
        if panicked || c == EOF {
          return;
        }
        if WhiteSpace(c) || c == CLOSE {
          peekc := c;
          return;
        }
      }
    }

    /** Collects the atom whose first character has been read and makes it the current token. */
    method ReadAtom(first: int) returns (panicked: bool)
      requires Valid() && peekc == EOF && Pos() >= 1 && first == input[Pos() - 1]
      requires !Delimits(first) && first != OPEN
      modifies this, tokenbuf
      ensures match Lex(input, old(Pos()) - 1)
              case LexPanic => panicked
              case Lexed(tok, pos) => !panicked && Valid() && Now() == tok && Pos() == pos
    {
      hide Lex;
      var i;
      panicked, i := CollectAtom(first);
      if panicked {
        return;
      }
      if i >= BUFFER - 1 {
        panicked := true;
        return;
      }
      ghost var text := tokenbuf[..i];
      tokenlen := i;
      tokenbuf[i] := NUL;
      if IsDigit(tokenbuf[0]) {
        token := ZERO;
      } else {
        token := LETTER;
      }
      assert tokenbuf[..i] == text;
    }

    method NextToken() returns (panicked: bool)
      requires Valid()
      modifies this, tokenbuf
      ensures match Lex(input, old(Pos()))
              case LexPanic => panicked
              case Lexed(tok, pos) => !panicked && Valid() && Now() == tok && Pos() == pos
    {
      tokenbuf[0] := NUL;
      var c;
      c, panicked := SkipSpace();
      if panicked {
        return;
      }
      if c == EOF {
        token := EOF;
      } else if c == OPEN || c == CLOSE {
        token := c;
      } else {
        panicked := ReadAtom(c);
      }
    }

    /** The leading digits of the token buffer. */
    method ReadNumber() returns (v: int)
      requires Valid()
      ensures v == Atoi(tokenbuf[..tokenlen])
    {
      hide Wrap;
      v := 0;
      var i := 0;
      assert tokenbuf[..tokenlen] == tokenbuf[0..tokenlen];
      while i < tokenlen && IsDigit(tokenbuf[i])
        invariant 0 <= i <= tokenlen
        invariant Atoi(tokenbuf[..tokenlen]) == AtoiFrom(tokenbuf[i..tokenlen], v)
      {
        assert tokenbuf[i..tokenlen][0] == tokenbuf[i] && tokenbuf[i..tokenlen][1..] == tokenbuf[i + 1..tokenlen];
        v := Wrap(10 * v + (tokenbuf[i] - ZERO));
        i := i + 1;
      }
    }

    /** Reads one element and the token behind it. */
    method ParseOne() returns (t: Cell?, panicked: bool, ghost cells: set<Cell>)
      requires Valid()
      modifies this, tokenbuf
      ensures fresh(cells)
      ensures match Parse(input, old(Now()), old(Pos()))
              case ParsePanic => panicked
              case Parsed(t', tok, pos) => !panicked && Denotes(t, t', cells) && Valid() && Now() == tok && Pos() == pos
      decreases Left(input, Now(), Pos()), 0
    {
      hide Lex, AtoiFrom;
      t, panicked, cells := null, false, {};
      if token == EOF || token == CLOSE {
        return;
      }
      if token == OPEN {
        panicked := NextToken();
        if panicked { return; }
        t, panicked, cells := ParseChain();
        if panicked { return; }
        if token != CLOSE {
          panicked := true;
          return;
        }
        panicked := NextToken();
      } else {
        t := Atom();
        cells := {t};
        panicked := NextToken();
      }
    }

    /** A new cell for the atom in the token buffer. */
    method Atom() returns (t: Cell)
      requires Valid() && (token == ZERO || token == LETTER)
      ensures fresh(t)
      ensures Denotes(t, if token == ZERO then Int(Atoi(tokenbuf[..tokenlen])) else Str(tokenbuf[..tokenlen]), {t})
    {
      hide AtoiFrom;
      t := new Cell();
      if token == ZERO {
        t.integer := ReadNumber();
        t.isstring := false;
      } else {
        t.str := tokenbuf[..tokenlen];
        t.isstring := true;
      }
      t.isatom := true;
    }

    /** Reads one element into the last cell of a chain. */
    method ParseCell(slist: Cell, ghost chain: seq<Cell>, ghost cars: seq<Slist>, ghost cells: set<Cell>)
        returns (panicked: bool, ghost element: Slist, ghost cells': set<Cell>)
      requires Valid() && Linked(chain, cars, cells) && chain[|cars|] == slist
      modifies this, tokenbuf, slist`car
      ensures cells <= cells' && fresh(cells' - cells)
      ensures match Parse(input, old(Now()), old(Pos()))
              case ParsePanic => panicked
              case Parsed(t', tok, pos) => !panicked && element == t' && Valid() && Now() == tok && Pos() == pos
      ensures !panicked ==> Linked(chain, cars, cells') && Denotes(slist.car, element, cells')
      decreases Left(input, Now(), Pos()), 1
    {
      hide Lex, Parse, Linked, Denotes;
      var car;
      ghost var more;
      ghost var r := Parse(input, Now(), Pos());
      car, panicked, more := ParseOne();
      element, cells' := Nil, cells;
      if !panicked {
        element := r.t;
        LinkedMore(chain, cars, cells, more);
        cells' := cells + more;
        DenotesMore(car, element, more, cells');
        Attach(slist, car, chain, cars, cells', element);
      }
    }

    /** A list under construction: its chain of cells holds what has been read, and start is what the whole
        list will be. */
    ghost predicate Building(start: Parsed, t: Cell, slist: Cell, chain: seq<Cell>, cars: seq<Slist>, cells: set<Cell>)
      reads this, tokenbuf, chain, cells
    {
      && Valid() && Linked(chain, cars, cells) && chain[0] == t && chain[|cars|] == slist
      && start == Chained(cars, ParseList(input, Now(), Pos()))
    }

    /** One turn of the loop: an element into the last cell, and a new last cell unless the list ends. */
    method ParseNext(ghost start: Parsed, t: Cell, slist: Cell, ghost chain: seq<Cell>, ghost cars: seq<Slist>,
          ghost cells: set<Cell>)
        returns (panicked: bool, done: bool, slist': Cell, ghost chain': seq<Cell>, ghost cars': seq<Slist>,
              ghost cells': set<Cell>)
      requires Building(start, t, slist, chain, cars, cells)
      modifies this, tokenbuf, slist`car, slist`cdr
      ensures panicked ==> start.ParsePanic?
      ensures cells <= cells' && fresh(cells' - cells)
      ensures slist' == slist || fresh(slist')
      ensures !panicked && !done ==>
                && Building(start, t, slist', chain', cars', cells') && fresh(slist') && chain' == chain + [slist']
                && Left(input, Now(), Pos()) < old(Left(input, Now(), Pos()))
      ensures !panicked && done ==>
                && start.Parsed? && Denotes(t, start.t, cells' + CellsOf(chain)) && chain' == chain
                && Valid() && Now() == start.tok && Pos() == start.pos
      decreases Left(input, Now(), Pos()), 2
    {
      hide Lex, Parse, Linked, Denotes, ParseList, Chain, Chained;
      ghost var tok, pos := Now(), Pos();
      ghost var element;
      done, slist', chain', cars' := false, slist, chain, cars;
      ParseListOnce(input, tok, pos);
      LinkedShape(chain, cars, cells);
      panicked, element, cells' := ParseCell(slist, chain, cars, cells);
      if panicked {
        ChainedPanic(cars);
        return;
      }
      ChainedStep(cars, element, ParseList(input, tok, pos), Now(), Pos(), input);
      if token == CLOSE || token == EOF {
        LinkedDenotes(chain, cars, cells', element, 0);
        assert cars[0..] + [element] == cars + [element];
        done := true;
        return;
      }
      slist' := Extend(slist, chain, cars, cells', element);
      chain', cars' := chain + [slist'], cars + [element];
    }

    /** The first cell of a list. */
    method NewList() returns (slist: Cell)
      requires Valid()
      ensures fresh(slist) && Building(ParseList(input, Now(), Pos()), slist, slist, [slist], [], {})
    {
      hide Lex, Parse, ParseList;
      slist := new Cell();
      ChainedNothing(ParseList(input, Now(), Pos()));
    }

    /** Reads elements up to a closing parenthesis or the end, each into the last cell of a chain that
        grows by one cell at a time. */
    method ParseChain() returns (t: Cell, panicked: bool, ghost cells: set<Cell>)
      requires Valid()
      modifies this, tokenbuf
      ensures fresh(cells)
      ensures match ParseList(input, old(Now()), old(Pos()))
              case ParsePanic => panicked
              case Parsed(t', tok, pos) => !panicked && Denotes(t, t', cells) && Valid() && Now() == tok && Pos() == pos
      decreases Left(input, Now(), Pos()), 3
    {
      hide Lex, Parse, Linked, Denotes, ParseList, Chain, Chained, Building, CellsOf;
      var slist := NewList();
      t, panicked, cells := slist, false, {};
      ghost var start := ParseList(input, Now(), Pos());
      ghost var chain, cars: seq<Slist> := [slist], [];
      var done := false;
      while !done
        invariant !panicked && fresh(cells) && fresh(slist) && (forall c :: c in chain ==> fresh(c))
        invariant done ==> start.Parsed? && Denotes(t, start.t, cells)
        invariant done ==> Valid() && Now() == start.tok && Pos() == start.pos
        invariant !done ==> Building(start, t, slist, chain, cars, cells) && Valid()
        invariant !done ==> Left(input, Now(), Pos()) <= old(Left(input, Now(), Pos()))
        decreases !done, if done then 0 else Left(input, Now(), Pos())
      {
        panicked, done, slist, chain, cars, cells := ParseNext(start, t, slist, chain, cars, cells);
        if panicked { return; }
        if done {
          assert forall c :: c in CellsOf(chain) ==> c in chain by { InChain(chain); }
          cells := cells + CellsOf(chain);
        } else {
          BuildingValid(start, t, slist, chain, cars, cells);
        }
      }
    }

    lemma BuildingValid(start: Parsed, t: Cell, slist: Cell, chain: seq<Cell>, cars: seq<Slist>, cells: set<Cell>)
      requires Building(start, t, slist, chain, cars, cells)
      ensures Valid()
    {}
  }

  lemma InChain(chain: seq<Cell>)
    ensures forall c :: c in CellsOf(chain) ==> c in chain
  {}

  lemma LinkedShape(chain: seq<Cell>, cars: seq<Slist>, cells: set<Cell>)
    requires Linked(chain, cars, cells)
    ensures |chain| == |cars| + 1
  {}

  lemma LexBounds(s: Text, e: nat)
    ensures e < |s| && s[e] == NUL ==> Lex(s, e) == Lexed(TEof, e)
    ensures e >= |s| ==> Lex(s, e).LexPanic?
  {}

  lemma LexSkips(s: Text, e: nat)
    ensures e < |s| && WhiteSpace(s[e]) ==> Lex(s, e) == Lex(s, e + 1)
  {}

  /** slist.list.car = car for the last cell of a chain. */
  method Attach(slist: Cell, car: Cell?, ghost chain: seq<Cell>, ghost cars: seq<Slist>, ghost cells: set<Cell>,
        ghost element: Slist)
    requires Linked(chain, cars, cells) && chain[|cars|] == slist && Denotes(car, element, cells)
    modifies slist`car
    ensures Linked(chain, cars, cells) && Denotes(slist.car, element, cells)
  {
    hide Denotes;
    slist.car := car;
  }

  /** slist.list.cdr = new(Slist) for the last cell of a chain. */
  method Extend(slist: Cell, ghost chain: seq<Cell>, ghost cars: seq<Slist>, ghost cells: set<Cell>,
        ghost element: Slist) returns (last: Cell)
    requires Linked(chain, cars, cells) && chain[|cars|] == slist && Denotes(slist.car, element, cells)
    modifies slist`cdr
    ensures fresh(last) && Linked(chain + [last], cars + [element], cells)
  {
    hide Denotes;
    last := new Cell();
    slist.cdr := last;
  }

  lemma ChainedNothing(r: Parsed)
    ensures Chained([], r) == r
  {}

  function WithCar(car: Slist, r: Parsed): Parsed {
    match r
    case ParsePanic => ParsePanic
    case Parsed(cdr, tok, pos) => Parsed(Cons(car, cdr), tok, pos)
  }

  /** One element of a list, and what the rest then is. */
  lemma ParseListOnce(s: Text, tok: Token, e: nat)
    requires e <= |s|
    ensures Stops(tok) ==> Parse(s, tok, e) == Parsed(Nil, tok, e)
    ensures var r, l := Parse(s, tok, e), ParseList(s, tok, e);
            && (r.ParsePanic? ==> l == ParsePanic)
            && (r.Parsed? ==> l == if Stops(r.tok) then Parsed(Cons(r.t, Nil), r.tok, r.pos)
                                   else WithCar(r.t, ParseList(s, r.tok, r.pos)))
  {
    hide Lex;
  }

  lemma LinkedMore(chain: seq<Cell>, cars: seq<Slist>, cells: set<Cell>, more: set<Cell>)
    requires Linked(chain, cars, cells) && forall i :: 0 <= i < |chain| ==> chain[i] !in more
    ensures Linked(chain, cars, cells + more)
  {
    forall i | 0 <= i < |cars| ensures Denotes(chain[i].car, cars[i], cells + more) {
      DenotesMore(chain[i].car, cars[i], cells, cells + more);
    }
  }

  /** The chain of cells with these contents, ending in rest. */
  function Chain(cars: seq<Slist>, rest: Slist): Slist {
    if cars == [] then rest else Cons(cars[0], Chain(cars[1..], rest))
  }

  ghost function Chained(cars: seq<Slist>, r: Parsed): Parsed {
    if r.ParsePanic? then ParsePanic else Parsed(Chain(cars, r.t), r.tok, r.pos)
  }

  lemma ChainedPanic(cars: seq<Slist>)
    ensures Chained(cars, ParsePanic) == ParsePanic
  {}

  lemma {:induction false} ChainAppends(cars: seq<Slist>, car: Slist, rest: Slist)
    ensures Chain(cars + [car], rest) == Chain(cars, Cons(car, rest))
    decreases |cars|
  {
    if cars == [] {
      assert [] + [car] == [car] && [car][1..] == [];
    } else {
      assert (cars + [car])[1..] == cars[1..] + [car];
      ChainAppends(cars[1..], car, rest);
    }
  }

  lemma ChainedStep(cars: seq<Slist>, car: Slist, r: Parsed, tok: Token, pos: nat, s: Text)
    requires pos <= |s|
    requires r == if Stops(tok) then Parsed(Cons(car, Nil), tok, pos) else WithCar(car, ParseList(s, tok, pos))
    ensures Stops(tok) ==> Chained(cars, r) == Parsed(Chain(cars + [car], Nil), tok, pos)
    ensures !Stops(tok) ==> Chained(cars, r) == Chained(cars + [car], ParseList(s, tok, pos))
  {
    hide Chain, ParseList;
    if Stops(tok) {
      ChainAppends(cars, car, Nil);
    } else if ParseList(s, tok, pos).Parsed? {
      ChainAppends(cars, car, ParseList(s, tok, pos).t);
    }
  }

  /** OpenFile on the given input, then one Parse. */
  method ReadOne(input: Text) returns (t: Cell?, panicked: bool, ghost cells: set<Cell>)
    ensures match Read(input)
            case ParsePanic => panicked
            case Parsed(t', _, _) => !panicked && Denotes(t, t', cells)
  {
    hide Lex;
    var r := new Reader(input);
    t, cells := null, {};
    panicked := r.NextToken();
    if !panicked {
      t, panicked, cells := r.ParseOne();
    }
  }

  /** The printer walks over the cells. */
  method PrintCells(c: Cell?, doparen: bool, ghost t: Slist, ghost cells: set<Cell>) returns (out: Text)
    requires Denotes(c, t, cells)
    ensures out == PrintOne(t, doparen)
    decreases t
  {
    if c == null {
      return [];
    }
    if c.isatom {
      if c.isstring {
        return c.str;
      }
      return Decimal(c.integer);
    }
    out := [];
    if doparen {
      out := [OPEN];
    }
    var car := PrintCells(c.car, true, t.car, cells);
    out := out + car;
    if c.cdr != null {
      var cdr := PrintCells(c.cdr, false, t.cdr, cells);
      out := out + [SPACE] + cdr;
    }
    if doparen {
      out := out + [CLOSE];
    }
  }

  /** main: reads one expression and prints it on a line, or prints nothing when there is none. */
  method Echo(input: Text) returns (out: Text, panicked: bool)
    ensures match Read(input)
            case ParsePanic => panicked
            case Parsed(t, _, _) => !panicked && out == if t.Nil? then [] else PrintOne(t, true) + [NEWLINE]
  {
    hide Lex, Parse, PrintOne;
    var t;
    ghost var cells;
    out := [];
    t, panicked, cells := ReadOne(input);
    if !panicked && t != null {
      ghost var tree := Read(input).t;
      out := PrintCells(t, true, tree, cells);
      out := out + [NEWLINE];
    }
  }
}
