/** The S-expression reader and printer of testsuit/ken/rob2.go, as functions on byte strings.
    The reader looks one token ahead and panics on an unterminated input, an atom of 99 bytes or
    more, or a list that is not closed. */
module Sexpr {
  import opened Texts

  type Byte = x: int | 0 <= x < 256
  type Text = seq<Byte>

  const NUL: Byte := 0
  const TAB: Byte := 9
  const NEWLINE: Byte := 10
  const RETURN: Byte := 13
  const SPACE: Byte := 32
  const OPEN: Byte := 40
  const CLOSE: Byte := 41
  const MINUS: Byte := 45
  const ZERO: Byte := 48

  const BUFFER := 100

  predicate WhiteSpace(c: int) { c == SPACE || c == TAB || c == RETURN || c == NEWLINE }

  predicate IsDigit(c: int) { ZERO <= c <= ZERO + 9 }

  /** Ends an atom without belonging to it. */
  predicate Delimits(c: int) { WhiteSpace(c) || c == CLOSE || c == NUL }

  /** int is 32 bits wide and wraps around. */
  const HALF := 0x8000_0000

  function Wrap(v: int): int { (v + HALF) % (2 * HALF) - HALF }

  datatype Slist = Nil | Int(n: int) | Str(s: Text) | Cons(car: Slist, cdr: Slist)

  // ----- Tokens -----

  datatype Token = TEof | TOpen | TClose | TNum(text: Text) | TSym(text: Text)

  datatype Lexed = Lexed(tok: Token, pos: nat) | LexPanic

  /** The first position from e on that holds a delimiter; the length of s when there is none. */
  function AtomEnd(s: Text, e: nat): (j: nat)
    requires e <= |s|
    ensures e <= j <= |s|
    ensures forall k :: e <= k < j ==> !Delimits(s[k])
    ensures j < |s| ==> Delimits(s[j])
    decreases |s| - e
  {
    if e == |s| || Delimits(s[e]) then e else AtomEnd(s, e + 1)
  }

  /** NextToken from position e. */
  function Lex(s: Text, e: nat): (r: Lexed)
    ensures r.Lexed? ==> e <= r.pos <= |s| && (!r.tok.TEof? ==> e < r.pos)
    decreases |s| - e
  {
    if e >= |s| then LexPanic
    else if WhiteSpace(s[e]) then Lex(s, e + 1)
    else if s[e] == NUL then Lexed(TEof, e)
    else if s[e] == OPEN then Lexed(TOpen, e + 1)
    else if s[e] == CLOSE then Lexed(TClose, e + 1)
    else
      var j := AtomEnd(s, e);
      if j == |s| || j - e >= BUFFER - 1 then LexPanic
      else Lexed(if IsDigit(s[e]) then TNum(s[e..j]) else TSym(s[e..j]), j)
  }

  /** atoi: the leading digits, with wrap-around at every step. */
  function AtoiFrom(t: Text, v: int): int
    decreases |t|
  {
    if t == [] || !IsDigit(t[0]) then v else AtoiFrom(t[1..], Wrap(10 * v + (t[0] - ZERO)))
  }

  function Atoi(t: Text): int { AtoiFrom(t, 0) }

  // ----- The parser -----

  datatype Parsed = Parsed(t: Slist, tok: Token, pos: nat) | ParsePanic

  predicate Stops(tok: Token) { tok.TEof? || tok.TClose? }

  /** How much input is left, counting the token read ahead. */
  function Left(s: Text, tok: Token, e: nat): nat
    requires e <= |s|
  {
    2 * (|s| - e) + if tok.TEof? then 0 else 1
  }

  function Advance(s: Text, t: Slist, e: nat): (r: Parsed)
    requires e <= |s|
    ensures r.Parsed? ==> r.pos <= |s| && Left(s, r.tok, r.pos) <= 2 * (|s| - e)
  {
    match Lex(s, e)
    case LexPanic => ParsePanic
    case Lexed(tok, pos) => Parsed(t, tok, pos)
  }

  function Parse(s: Text, tok: Token, e: nat): (r: Parsed)
    requires e <= |s|
    ensures r.Parsed? ==> r.pos <= |s| && Left(s, r.tok, r.pos) <= Left(s, tok, e)
    ensures r.Parsed? && !Stops(tok) ==> Left(s, r.tok, r.pos) < Left(s, tok, e)
    decreases Left(s, tok, e), 0
  {
    match tok
    case TEof | TClose => Parsed(Nil, tok, e)
    case TNum(text) => Advance(s, Int(Atoi(text)), e)
    case TSym(text) => Advance(s, Str(text), e)
    case TOpen =>
      match Lex(s, e)
      case LexPanic => ParsePanic
      case Lexed(tok1, e1) =>
        match ParseList(s, tok1, e1)
        case ParsePanic => ParsePanic
        case Parsed(t, tok2, e2) => if tok2.TClose? then Advance(s, t, e2) else ParsePanic
  }

  function ParseList(s: Text, tok: Token, e: nat): (r: Parsed)
    requires e <= |s|
    ensures r.Parsed? ==> r.pos <= |s| && Left(s, r.tok, r.pos) <= Left(s, tok, e) && Stops(r.tok)
    decreases Left(s, tok, e), 1
  {
    match Parse(s, tok, e)
    case ParsePanic => ParsePanic
    case Parsed(car, tok1, e1) =>
      if Stops(tok1) then Parsed(Cons(car, Nil), tok1, e1)
      else
        match ParseList(s, tok1, e1)
        case ParsePanic => ParsePanic
        case Parsed(cdr, tok2, e2) => Parsed(Cons(car, cdr), tok2, e2)
  }

  /** OpenFile and one Parse. */
  function Read(s: Text): Parsed {
    match Lex(s, 0)
    case LexPanic => ParsePanic
    case Lexed(tok, e) => Parse(s, tok, e)
  }

  // ----- The printer -----

  function Digits(n: nat): (d: Text)
    ensures |d| >= 1 && forall i :: 0 <= i < |d| ==> IsDigit(d[i])
  {
    if n < 10 then [ZERO + n] else Digits(n / 10) + [ZERO + n % 10]
  }

  function Decimal(n: int): Text { if n < 0 then [MINUS] + Digits(-n) else Digits(n) }

  function PrintOne(t: Slist, doparen: bool): Text {
    match t
    case Nil => []
    case Int(n) => Decimal(n)
    case Str(s) => s
    case Cons(car, cdr) =>
      var inner := PrintOne(car, true) + if cdr.Nil? then [] else [SPACE] + PrintOne(cdr, false);
      if doparen then [OPEN] + inner + [CLOSE] else inner
  }

  /** The printed line, followed by the byte that ends an input. */
  function Print(t: Slist): Text { PrintOne(t, true) + [NEWLINE] + [NUL] }

  // ----- The trees the parser builds -----

  predicate AtomText(s: Text) {
    && 1 <= |s| < BUFFER - 1 && s[0] != OPEN && !IsDigit(s[0])
    && forall i :: 0 <= i < |s| ==> !Delimits(s[i])
  }

  predicate Element(t: Slist) {
    match t
    case Nil => false
    case Int(n) => -HALF <= n < HALF
    case Str(s) => AtomText(s)
    case Cons(car, cdr) => (car.Nil? && cdr.Nil?) || (Element(car) && (cdr.Nil? || Tail(cdr)))
  }

  predicate Tail(t: Slist) { t.Cons? && Element(t.car) && (t.cdr.Nil? || Tail(t.cdr)) }

  predicate NoNegative(t: Slist) {
    match t
    case Nil => true
    case Int(n) => n >= 0
    case Str(_) => true
    case Cons(car, cdr) => NoNegative(car) && NoNegative(cdr)
  }

  /** A negative number prints as a text that reads back as a string. */
  function Retag(t: Slist): Slist {
    match t
    case Int(n) => if n < 0 then Str(Decimal(n)) else t
    case Cons(car, cdr) => Cons(Retag(car), Retag(cdr))
    case _ => t
  }

  lemma {:induction false} RetagIdentity(t: Slist)
    ensures Retag(t) == t <==> NoNegative(t)
  {
    if t.Cons? {
      RetagIdentity(t.car);
      RetagIdentity(t.cdr);
    }
  }

  // ----- Numbers -----

  lemma WrapRange(v: int)
    ensures -HALF <= Wrap(v) < HALF
    ensures -HALF <= v < HALF ==> Wrap(v) == v
  {}

  lemma {:induction false} AtoiRange(t: Text, v: int)
    requires -HALF <= v < HALF
    ensures -HALF <= AtoiFrom(t, v) < HALF
    decreases |t|
  {
    if t != [] && IsDigit(t[0]) {
      var w := 10 * v + (t[0] - ZERO);
      WrapRange(w);
      AtoiRange(t[1..], Wrap(w));
    }
  }

  lemma {:induction false} AtoiAppend(t: Text, c: Byte, v: int)
    requires IsDigit(c) && forall i :: 0 <= i < |t| ==> IsDigit(t[i])
    ensures AtoiFrom(t + [c], v) == Wrap(10 * AtoiFrom(t, v) + (c - ZERO))
    decreases |t|
  {
    hide Wrap;
    if t == [] {
      assert (t + [c])[1..] == [];
    } else {
      assert (t + [c])[0] == t[0] && (t + [c])[1..] == t[1..] + [c];
      AtoiAppend(t[1..], c, Wrap(10 * v + (t[0] - ZERO)));
    }
  }

  /** Reading the digits of a number gives the number back. */
  lemma {:induction false} AtoiOfDigits(n: nat)
    requires n < HALF
    ensures Atoi(Digits(n)) == n
  {
    hide Wrap, AtoiFrom;
    if n < 10 {
      AtoiAppend([], ZERO + n, 0);
      assert [] + [ZERO + n] == Digits(n);
      assert AtoiFrom([], 0) == 0 by { NoDigits(); }
    } else {
      AtoiOfDigits(n / 10);
      AtoiAppend(Digits(n / 10), ZERO + n % 10, 0);
    }
    WrapRange(n);
  }

  lemma NoDigits()
    ensures AtoiFrom([], 0) == 0
  {}

  function Pow10(k: nat): nat { if k == 0 then 1 else 10 * Pow10(k - 1) }

  lemma {:induction false} DigitsLength(n: nat, k: nat)
    requires k >= 1 && n < Pow10(k)
    ensures |Digits(n)| <= k
  {
    if n >= 10 {
      DigitsLength(n / 10, k - 1);
    }
  }

  lemma DigitsAreShort(n: nat)
    requires n < 2 * HALF
    ensures |Digits(n)| <= 11
  {
    assert Pow10(3) == 1000;
    assert Pow10(6) == 1000 * Pow10(3);
    assert Pow10(9) == 1000 * Pow10(6);
    assert Pow10(11) == 100 * Pow10(9);
    DigitsLength(n, 11);
  }

  lemma DecimalIsShort(n: int)
    requires -HALF <= n < HALF
    ensures 1 <= |Decimal(n)| <= 12
  {
    DigitsAreShort(if n < 0 then -n else n);
  }

  /** A negative number prints as an atom that starts with its sign. */
  lemma DecimalIsAtom(n: int)
    requires -HALF <= n < HALF
    ensures n < 0 ==> AtomText(Decimal(n))
    ensures n >= 0 ==> IsDigit(Decimal(n)[0]) && forall i :: 0 <= i < |Decimal(n)| ==> !Delimits(Decimal(n)[i])
  {
    DecimalIsShort(n);
  }

  // ----- What the parser builds -----

  predicate TokenOk(tok: Token) { tok.TSym? ==> AtomText(tok.text) }

  lemma {:induction false} LexTokenOk(s: Text, e: nat)
    ensures Lex(s, e).Lexed? ==> TokenOk(Lex(s, e).tok)
    decreases |s| - e
  {
    if e < |s| && WhiteSpace(s[e]) { LexTokenOk(s, e + 1); }
  }

  /** Parse builds a well-formed element, or nothing at a stopping token. */
  lemma {:induction false} ParseShape(s: Text, tok: Token, e: nat)
    requires e <= |s| && TokenOk(tok)
    ensures Parse(s, tok, e).Parsed? ==>
              && TokenOk(Parse(s, tok, e).tok)
              && (if Stops(tok) then Parse(s, tok, e).t.Nil? else Element(Parse(s, tok, e).t))
    decreases Left(s, tok, e), 0
  {
    hide AtomText, Lex;
    LexTokenOk(s, e);
    match tok
    case TNum(text) => AtoiRange(text, 0);
    case TOpen =>
      var r := Lex(s, e);
      if r.Lexed? {
        ParseListShape(s, r.tok, r.pos);
        var l := ParseList(s, r.tok, r.pos);
        if l.Parsed? { LexTokenOk(s, l.pos); }
      }
    case _ =>
  }

  lemma {:induction false} ParseListShape(s: Text, tok: Token, e: nat)
    requires e <= |s| && TokenOk(tok)
    ensures ParseList(s, tok, e).Parsed? ==>
              && TokenOk(ParseList(s, tok, e).tok)
              && (if Stops(tok) then ParseList(s, tok, e).t == Cons(Nil, Nil) else Tail(ParseList(s, tok, e).t))
    decreases Left(s, tok, e), 1
  {
    hide AtomText, Lex;
    ParseShape(s, tok, e);
    var r := Parse(s, tok, e);
    if r.Parsed? && !Stops(r.tok) {
      ParseListShape(s, r.tok, r.pos);
    }
  }

  lemma ReadShape(s: Text)
    ensures Read(s).Parsed? ==> Read(s).t.Nil? || Element(Read(s).t)
  {
    LexTokenOk(s, 0);
    var r := Lex(s, 0);
    if r.Lexed? { ParseShape(s, r.tok, r.pos); }
  }

  // ----- Reading what was printed -----

  lemma LexAtom(s: Text, f: Text, e: nat)
    requires TextAt(s, f, e) && 1 <= |f| < BUFFER - 1 && f[0] != OPEN
    requires forall i :: 0 <= i < |f| ==> !Delimits(f[i])
    requires e + |f| < |s| && Delimits(s[e + |f|])
    ensures Lex(s, e) == Lexed(if IsDigit(f[0]) then TNum(f) else TSym(f), e + |f|)
  {
    var j := AtomEnd(s, e);
    assert f[0] == s[e];
    forall k | e <= k < e + |f| ensures !Delimits(s[k]) {
      assert s[k] == f[k - e];
    }
    assert j == e + |f|;
    assert s[e..j] == f;
  }

  lemma ParseAtomPrinted(s: Text, t: Slist, e: nat)
    requires Element(t) && !t.Cons? && TextAt(s, PrintOne(t, true), e)
    requires e + |PrintOne(t, true)| < |s| && Delimits(s[e + |PrintOne(t, true)|])
    ensures Lex(s, e).Lexed? && !Stops(Lex(s, e).tok)
    ensures Parse(s, Lex(s, e).tok, Lex(s, e).pos) == Advance(s, Retag(t), e + |PrintOne(t, true)|)
  {
    hide TextAt, Lex;
    if t.Int? {
      DecimalIsShort(t.n);
      DecimalIsAtom(t.n);
      if t.n >= 0 { AtoiOfDigits(t.n); }
    }
    LexAtom(s, PrintOne(t, true), e);
    hide Digits, AtomText, AtoiFrom, Delimits;
  }

  lemma LexMark(s: Text, e: nat)
    requires e < |s|
    ensures s[e] == OPEN ==> Lex(s, e) == Lexed(TOpen, e + 1)
    ensures s[e] == CLOSE ==> Lex(s, e) == Lexed(TClose, e + 1)
    ensures WhiteSpace(s[e]) ==> Lex(s, e) == Lex(s, e + 1)
    ensures s[e] == NUL ==> Lex(s, e) == Lexed(TEof, e)
  {}

  /** The parts of a printed list. */
  lemma PrintedParts(s: Text, t: Slist, e: nat)
    requires t.Cons?
    requires TextAt(s, PrintOne(t, false), e)
    ensures TextAt(s, PrintOne(t.car, true), e)
    ensures !t.cdr.Nil? ==>
              var m := e + |PrintOne(t.car, true)|;
              && m < |s| && s[m] == SPACE && TextAt(s, PrintOne(t.cdr, false), m + 1)
              && m + 1 + |PrintOne(t.cdr, false)| == e + |PrintOne(t, false)|
    ensures t.cdr.Nil? ==> |PrintOne(t, false)| == |PrintOne(t.car, true)|
  {
    hide TextAt;
    var f := PrintOne(t.car, true);
    if t.cdr.Nil? {
      assert PrintOne(t, false) == f + [];
      TextParts(s, f, [], e);
    } else {
      var rest := PrintOne(t.cdr, false);
      assert PrintOne(t, false) == f + ([SPACE] + rest);
      TextParts(s, f, [SPACE] + rest, e);
      TextParts(s, [SPACE], rest, e + |f|);
      OneItem(s, SPACE, e + |f|);
    }
  }

  lemma PrintedParens(s: Text, t: Slist, e: nat)
    requires t.Cons? && TextAt(s, PrintOne(t, true), e)
    ensures e < |s| && s[e] == OPEN && TextAt(s, PrintOne(t, false), e + 1)
    ensures var m := e + 1 + |PrintOne(t, false)|; m < |s| && s[m] == CLOSE && m + 1 == e + |PrintOne(t, true)|
  {
    hide TextAt;
    var inner := PrintOne(t, false);
    assert PrintOne(t, true) == [OPEN] + inner + [CLOSE];
    TextParts(s, [OPEN] + inner, [CLOSE], e);
    TextParts(s, [OPEN], inner, e);
    OneItem(s, OPEN, e);
    OneItem(s, CLOSE, e + 1 + |inner|);
  }

  /** An element reads back from its printed form wherever a delimiter follows it. */
  lemma {:induction false} ParsePrinted(s: Text, t: Slist, e: nat)
    requires Element(t) && TextAt(s, PrintOne(t, true), e)
    requires e + |PrintOne(t, true)| < |s| && Delimits(s[e + |PrintOne(t, true)|])
    ensures Lex(s, e).Lexed? && !Stops(Lex(s, e).tok)
    ensures Parse(s, Lex(s, e).tok, Lex(s, e).pos) == Advance(s, Retag(t), e + |PrintOne(t, true)|)
    decreases t, 3
  {
    if !t.Cons? {
      ParseAtomPrinted(s, t, e);
    } else {
      hide TextAt, PrintOne, Retag, Lex, Element, Advance;
      PrintedParens(s, t, e);
      LexMark(s, e);
      ParseListPrinted(s, t, e + 1);
    }
  }

  lemma {:induction false} ParseListPrinted(s: Text, t: Slist, e: nat)
    requires t.Cons? && Element(t) && TextAt(s, PrintOne(t, false), e)
    requires e + |PrintOne(t, false)| < |s| && s[e + |PrintOne(t, false)|] == CLOSE
    ensures Lex(s, e).Lexed? && (t.car.Nil? <==> Stops(Lex(s, e).tok))
    ensures ParseList(s, Lex(s, e).tok, Lex(s, e).pos) == Parsed(Retag(t), TClose, e + |PrintOne(t, false)| + 1)
    decreases t, 2
  {
    ElementParts(t);
    hide TextAt, Lex, Parse, ParseList, Element, Retag, PrintOne, Delimits;
    if t.car.Nil? {
      EmptyListReads(s, e);
    } else if t.cdr.Nil? {
      ParseLastPrinted(s, t, e);
    } else {
      ParseMorePrinted(s, t, e);
    }
  }

  /** The last cell of a list. */
  lemma {:induction false} ParseLastPrinted(s: Text, t: Slist, e: nat)
    requires t.Cons? && !t.car.Nil? && t.cdr.Nil? && Element(t) && TextAt(s, PrintOne(t, false), e)
    requires e + |PrintOne(t, false)| < |s| && s[e + |PrintOne(t, false)|] == CLOSE
    ensures Lex(s, e).Lexed? && !Stops(Lex(s, e).tok)
    ensures ParseList(s, Lex(s, e).tok, Lex(s, e).pos) == Parsed(Retag(t), TClose, e + |PrintOne(t, false)| + 1)
    decreases t, 1
  {
    hide *;
    ElementParts(t);
    PrintedParts(s, t, e);
    CellEnd(s, t, e);
    ParsePrinted(s, t.car, e);
    LastCellReads(s, t, e);
  }

  /** A cell of a list with more cells behind it. */
  lemma {:induction false} ParseMorePrinted(s: Text, t: Slist, e: nat)
    requires t.Cons? && !t.car.Nil? && !t.cdr.Nil? && Element(t) && TextAt(s, PrintOne(t, false), e)
    requires e + |PrintOne(t, false)| < |s| && s[e + |PrintOne(t, false)|] == CLOSE
    ensures Lex(s, e).Lexed? && !Stops(Lex(s, e).tok)
    ensures ParseList(s, Lex(s, e).tok, Lex(s, e).pos) == Parsed(Retag(t), TClose, e + |PrintOne(t, false)| + 1)
    decreases t, 1
  {
    hide *;
    ElementParts(t);
    PrintedParts(s, t, e);
    CellEnd(s, t, e);
    ParsePrinted(s, t.car, e);
    ParseListPrinted(s, t.cdr, e + |PrintOne(t.car, true)| + 1);
    MoreCellsRead(s, t, e);
  }

  /** What a list consists of, and how the simplest one prints. */
  lemma ElementParts(t: Slist)
    requires t.Cons? && Element(t)
    ensures t.car.Nil? ==> t.cdr.Nil? && |PrintOne(t, false)| == 0 && Retag(t) == Cons(Nil, Nil)
    ensures !t.car.Nil? ==> Element(t.car) && (!t.cdr.Nil? ==> t.cdr.Cons? && Element(t.cdr) && !t.cdr.car.Nil?)
    ensures Stops(TClose)
  {}

  /** A delimiter follows the first element of a printed list. */
  lemma CellEnd(s: Text, t: Slist, e: nat)
    requires t.Cons? && TextAt(s, PrintOne(t, false), e)
    requires e + |PrintOne(t, false)| < |s| && s[e + |PrintOne(t, false)|] == CLOSE
    ensures var m := e + |PrintOne(t.car, true)|; m < |s| && Delimits(s[m]) && (t.cdr.Nil? ==> s[m] == CLOSE)
  {
    hide TextAt, PrintOne;
    PrintedParts(s, t, e);
  }

  /** The last cell of a list, once its element has been read. */
  lemma LastCellReads(s: Text, t: Slist, e: nat)
    requires t.Cons? && t.cdr.Nil? && |PrintOne(t, false)| == |PrintOne(t.car, true)|
    requires Lex(s, e).Lexed? && e + |PrintOne(t.car, true)| < |s| && s[e + |PrintOne(t.car, true)|] == CLOSE
    requires Parse(s, Lex(s, e).tok, Lex(s, e).pos) == Advance(s, Retag(t.car), e + |PrintOne(t.car, true)|)
    ensures ParseList(s, Lex(s, e).tok, Lex(s, e).pos) == Parsed(Retag(t), TClose, e + |PrintOne(t, false)| + 1)
  {
    hide Lex, Parse, ParseList, PrintOne, Advance;
    LastReads(s, Lex(s, e).tok, Lex(s, e).pos, e + |PrintOne(t.car, true)|, Retag(t.car));
  }

  /** A cell with more behind it, once its element and the rest have been read. */
  lemma MoreCellsRead(s: Text, t: Slist, e: nat)
    requires t.Cons? && t.cdr.Cons? && Lex(s, e).Lexed?
    requires var m := e + |PrintOne(t.car, true)|;
             && m < |s| && s[m] == SPACE && m + 1 + |PrintOne(t.cdr, false)| == e + |PrintOne(t, false)|
             && Parse(s, Lex(s, e).tok, Lex(s, e).pos) == Advance(s, Retag(t.car), m)
             && Lex(s, m + 1).Lexed? && !Stops(Lex(s, m + 1).tok)
             && ParseList(s, Lex(s, m + 1).tok, Lex(s, m + 1).pos)
                == Parsed(Retag(t.cdr), TClose, m + 1 + |PrintOne(t.cdr, false)| + 1)
    ensures ParseList(s, Lex(s, e).tok, Lex(s, e).pos) == Parsed(Retag(t), TClose, e + |PrintOne(t, false)| + 1)
  {
    hide Lex, Parse, ParseList, PrintOne, Advance, Stops;
    MoreReads(s, Lex(s, e).tok, Lex(s, e).pos, e + |PrintOne(t.car, true)|, Retag(t.car), Retag(t.cdr),
              e + |PrintOne(t, false)| + 1);
  }

  lemma EmptyListReads(s: Text, e: nat)
    requires e < |s| && s[e] == CLOSE
    ensures Lex(s, e) == Lexed(TClose, e + 1)
    ensures ParseList(s, TClose, e + 1) == Parsed(Cons(Nil, Nil), TClose, e + 1)
  {
    LexMark(s, e);
  }

  lemma LastReads(s: Text, tok: Token, pos: nat, m: nat, car: Slist)
    requires pos <= |s| && m < |s| && s[m] == CLOSE && Parse(s, tok, pos) == Advance(s, car, m)
    ensures ParseList(s, tok, pos) == Parsed(Cons(car, Nil), TClose, m + 1)
  {
    hide Lex;
    LexMark(s, m);
    ParseListStep(s, tok, pos, car, TClose, m + 1);
  }

  lemma MoreReads(s: Text, tok: Token, pos: nat, m: nat, car: Slist, cdr: Slist, end: nat)
    requires pos <= |s| && m < |s| && s[m] == SPACE && Parse(s, tok, pos) == Advance(s, car, m)
    requires Lex(s, m + 1).Lexed? && !Stops(Lex(s, m + 1).tok)
    requires ParseList(s, Lex(s, m + 1).tok, Lex(s, m + 1).pos) == Parsed(cdr, TClose, end)
    ensures ParseList(s, tok, pos) == Parsed(Cons(car, cdr), TClose, end)
  {
    hide Lex;
    LexMark(s, m);
    ParseListStep(s, tok, pos, car, Lex(s, m + 1).tok, Lex(s, m + 1).pos);
  }

  lemma ParseListStep(s: Text, tok: Token, e: nat, car: Slist, tok1: Token, e1: nat)
    requires e <= |s| && Parse(s, tok, e) == Parsed(car, tok1, e1)
    ensures e1 <= |s|
    ensures Stops(tok1) ==> ParseList(s, tok, e) == Parsed(Cons(car, Nil), tok1, e1)
    ensures !Stops(tok1) && ParseList(s, tok1, e1).Parsed? ==>
              var r := ParseList(s, tok1, e1);
              ParseList(s, tok, e) == Parsed(Cons(car, r.t), r.tok, r.pos)
  {}

  lemma LineLayout(f: Text)
    ensures var s := f + [NEWLINE] + [NUL];
            && |s| == |f| + 2 && s[|f|] == NEWLINE && s[|f| + 1] == NUL && TextAt(s, f, 0)
  {}

  /** At the end of the line nothing is left to read. */
  lemma LexLineEnd(s: Text, n: nat)
    requires |s| == n + 2 && s[n] == NEWLINE && s[n + 1] == NUL
    ensures Lex(s, n) == Lexed(TEof, n + 1)
  {
    LexMark(s, n);
    LexMark(s, n + 1);
  }

  /** Reading the printed form of a tree gives the tree back, except that negative numbers come
      back as strings. */
  lemma ReadPrinted(t: Slist)
    requires t.Nil? || Element(t)
    ensures Read(Print(t)) == Parsed(Retag(t), TEof, |PrintOne(t, true)| + 1)
  {
    var s, n := Print(t), |PrintOne(t, true)|;
    LineLayout(PrintOne(t, true));
    LexLineEnd(s, n);
    if t.Nil? {
      assert PrintOne(t, true) == [];
    } else {
      hide PrintOne, Print, TextAt, Lex, Retag, Element, Parse;
      ParsePrinted(s, t, 0);
    }
  }

  /** The round trip is exact for exactly the trees without negative numbers. */
  lemma RoundTrip(t: Slist)
    requires t.Nil? || Element(t)
    ensures Read(Print(t)).Parsed? && (Read(Print(t)).t == t <==> NoNegative(t))
  {
    ReadPrinted(t);
    RetagIdentity(t);
  }

  /** Whatever input the parser accepts, printing the result and reading it again gives the same
      tree, unless some number wrapped around to a negative one. */
  lemma ReadPrintRead(s: Text)
    requires Read(s).Parsed?
    ensures Read(Print(Read(s).t)).Parsed?
    ensures Read(Print(Read(s).t)).t == Read(s).t <==> NoNegative(Read(s).t)
  {
    ReadShape(s);
    RoundTrip(Read(s).t);
  }

  lemma AtoiWraps(n: nat)
    requires HALF <= n < 2 * HALF
    ensures Atoi(Digits(n)) == n - 2 * HALF
  {
    hide AtoiFrom, Wrap;
    var q, r := n / 10, n % 10;
    AtoiOfDigits(q);
    AtoiAppend(Digits(q), ZERO + r, 0);
    assert 10 * q + r == n;
    WrapHigh(n);
  }

  lemma WrapHigh(n: int)
    requires HALF <= n < 2 * HALF
    ensures Wrap(n) == n - 2 * HALF
  {}

  /** Such inputs exist: a numeral too large for int by less than a factor of two is accepted as a
      negative number, which does not survive printing and reading. */
  lemma WrappedInput(n: nat)
    requires 2147483648 <= n < 4294967296
    ensures var s := Digits(n) + [NEWLINE] + [NUL];
            && Read(s).Parsed? && Read(s).t == Int(n - 4294967296)
            && Read(Print(Read(s).t)).Parsed? && Read(Print(Read(s).t)).t != Read(s).t
  {
    var f := Digits(n);
    var s := f + [NEWLINE] + [NUL];
    LineLayout(f);
    LexLineEnd(s, |f|);
    AtoiWraps(n);
    DigitsAreShort(n);
    LexAtom(s, f, 0);
    hide Lex, TextAt, Digits;
    RoundTrip(Int(n - 2 * HALF));
  }
}
