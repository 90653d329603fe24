/** When printing and reading again is exact, seen from the input of testsuit/ken/rob2.go: the numerals of
    the expression that is read decide. */
module SexprInput {
  import opened Sexpr

  // ----- Numerals -----

  /** The number that the leading digits of t write behind v, without any bound. */
  function NumeralFrom(t: Text, v: nat): nat
    decreases |t|
  {
    if t == [] || !IsDigit(t[0]) then v else NumeralFrom(t[1..], 10 * v + (t[0] - ZERO))
  }

  function Numeral(t: Text): nat { NumeralFrom(t, 0) }

  /** Too large for int, by an amount that makes it negative. */
  predicate Overflows(t: Text) { Numeral(t) % (2 * HALF) >= HALF }

  lemma ShiftedRemainder(x: int, k: int)
    ensures (x + 2 * HALF * k) % (2 * HALF) == x % (2 * HALF)
  {
    var m := 2 * HALF;
    var a, b := (x + m * k) / m, x / m;
    assert m * (a - b - k) == x % m - (x + m * k) % m;
  }

  /** Wrapping early does not change the number after the next digit. */
  lemma WrapDigit(v: int, d: int)
    ensures Wrap(10 * Wrap(v) + d) == Wrap(10 * v + d)
  {
    var q := (v + HALF) / (2 * HALF);
    assert Wrap(v) == v - 2 * HALF * q;
    ShiftedRemainder(10 * v + d + HALF, -10 * q);
  }

  /** atoi is the number written, reduced to 32 bits. */
  lemma {:induction false} AtoiIsWrapped(t: Text, v: nat)
    ensures AtoiFrom(t, Wrap(v)) == Wrap(NumeralFrom(t, v))
    decreases |t|
  {
    hide Wrap;
    if t != [] && IsDigit(t[0]) {
      WrapDigit(v, t[0] - ZERO);
      AtoiIsWrapped(t[1..], 10 * v + (t[0] - ZERO));
    }
  }

  lemma NegativeIsOverflow(t: Text)
    ensures Atoi(t) < 0 <==> Overflows(t)
  {
    hide AtoiFrom, NumeralFrom;
    AtoiIsWrapped(t, 0);
    WrapRange(0);
    WrapSign(Numeral(t));
  }

  lemma WrapSign(v: nat)
    ensures Wrap(v) < 0 <==> v % (2 * HALF) >= HALF
  {
    var m := 2 * HALF;
    ShiftedRemainder(v % m + HALF, v / m);
    assert v + HALF == v % m + HALF + m * (v / m);
  }

  // ----- The numerals of one expression -----

  /** From token tok on, with d lists open: no numeral overflows before the expression is complete. */
  predicate NumeralsFit(s: Text, tok: Token, e: nat, d: nat)
    requires e <= |s|
    decreases Left(s, tok, e)
  {
    match tok
    case TEof => true
    case TClose => d <= 1 || NumeralsFitAfter(s, tok, e, d - 1)
    case TOpen => NumeralsFitAfter(s, tok, e, d + 1)
    case TNum(text) => !Overflows(text) && (d == 0 || NumeralsFitAfter(s, tok, e, d))
    case TSym(_) => d == 0 || NumeralsFitAfter(s, tok, e, d)
  }

  predicate NumeralsFitAfter(s: Text, tok: Token, e: nat, d: nat)
    requires e <= |s| && !tok.TEof?
    decreases Left(s, tok, e), 0
  {
    match Lex(s, e)
    case LexPanic => true
    case Lexed(tok', e') => NumeralsFit(s, tok', e', d)
  }

  /** No numeral of the first expression of s overflows. */
  predicate InputFits(s: Text) {
    match Lex(s, 0)
    case LexPanic => true
    case Lexed(tok, e) => NumeralsFit(s, tok, e, 0)
  }

  /** What is left to check once an element has been read. */
  predicate FitsThen(s: Text, r: Parsed, d: nat)
    requires r.Parsed? ==> r.pos <= |s|
  {
    r.Parsed? && NoNegative(r.t) && (d == 0 || NumeralsFit(s, r.tok, r.pos, d))
  }

  /** Within a list, the check goes on behind an opening and a closing parenthesis. */
  lemma ParenthesesFit(s: Text, e: nat, d: nat)
    requires e <= |s|
    ensures Lex(s, e).Lexed? ==> (NumeralsFit(s, TOpen, e, d) <==> NumeralsFit(s, Lex(s, e).tok, Lex(s, e).pos, d + 1))
    ensures Lex(s, e).Lexed? ==>
              (NumeralsFit(s, TClose, e, d + 1) <==> d == 0 || NumeralsFit(s, Lex(s, e).tok, Lex(s, e).pos, d))
  {
    hide Lex;
  }

  /** The parts of a parsed list. */
  lemma OpenParts(s: Text, e: nat)
    requires e <= |s| && Parse(s, TOpen, e).Parsed?
    ensures Lex(s, e).Lexed?
    ensures var l := ParseList(s, Lex(s, e).tok, Lex(s, e).pos);
            && l.Parsed? && l.tok.TClose? && Lex(s, l.pos).Lexed?
            && Parse(s, TOpen, e) == Parsed(l.t, Lex(s, l.pos).tok, Lex(s, l.pos).pos)
  {
    hide Lex;
  }

  lemma {:induction false} ParseChecks(s: Text, tok: Token, e: nat, d: nat)
    requires e <= |s| && !Stops(tok) && Parse(s, tok, e).Parsed?
    ensures NumeralsFit(s, tok, e, d) <==> FitsThen(s, Parse(s, tok, e), d)
    decreases Left(s, tok, e), 0
  {
    hide Lex, AtoiFrom, NumeralFrom, Overflows;
    match tok
    case TNum(text) => NegativeIsOverflow(text);
    case TSym(_) =>
    case TOpen =>
      OpenParts(s, e);
      var r := Lex(s, e);
      var l := ParseList(s, r.tok, r.pos);
      hide NumeralsFit, Parse, ParseList, NoNegative;
      ParseListChecks(s, r.tok, r.pos, d + 1);
      ParenthesesFit(s, e, d);
      ParenthesesFit(s, l.pos, d);
  }

  /** The parts of a parsed list body. */
  lemma ListParts(s: Text, tok: Token, e: nat)
    requires e <= |s| && ParseList(s, tok, e).Parsed?
    ensures var r, l := Parse(s, tok, e), ParseList(s, tok, e);
            && r.Parsed? && l.t.Cons? && l.t.car == r.t
            && (if Stops(r.tok) then l == Parsed(Cons(r.t, Nil), r.tok, r.pos)
                else var m := ParseList(s, r.tok, r.pos); m.Parsed? && l == Parsed(Cons(r.t, m.t), m.tok, m.pos))
  {
    hide Lex, Parse;
  }

  lemma {:induction false} ParseListChecks(s: Text, tok: Token, e: nat, d: nat)
    requires e <= |s| && ParseList(s, tok, e).Parsed? && d >= 1
    ensures NumeralsFit(s, tok, e, d) <==> FitsThen(s, ParseList(s, tok, e), d)
    decreases Left(s, tok, e), 1
  {
    hide Lex, NumeralsFit, ParseList;
    ListParts(s, tok, e);
    var r := Parse(s, tok, e);
    if !Stops(tok) {
      hide Parse;
      ParseChecks(s, tok, e, d);
      if Stops(r.tok) {
        assert NoNegative(Cons(r.t, Nil)) <==> NoNegative(r.t);
      } else {
        ParseListChecks(s, r.tok, r.pos, d);
      }
    }
  }

  /** On every input the parser accepts, printing the result and reading it again gives the same tree if
      and only if no numeral of the expression overflows to a negative number. */
  lemma ReadPrintReadInput(s: Text)
    requires Read(s).Parsed?
    ensures Read(Print(Read(s).t)).Parsed?
    ensures Read(Print(Read(s).t)).t == Read(s).t <==> InputFits(s)
  {
    ReadPrintRead(s);
    var r := Lex(s, 0);
    hide Lex, Print, Parse;
    if Stops(r.tok) {
      StopReads(s, r.tok, r.pos);
    } else {
      ParseChecks(s, r.tok, r.pos, 0);
    }
  }

  lemma StopReads(s: Text, tok: Token, e: nat)
    requires e <= |s| && Stops(tok)
    ensures Parse(s, tok, e) == Parsed(Nil, tok, e) && NumeralsFit(s, tok, e, 0)
  {}
}
