/** What testsuit/ken/rob2.go makes of written expressions, said with characters: every layout of an
    expression reads as the same tree, and the tree prints in one plain layout. */
module SexprForms {
  import opened Sexpr
  import opened Texts

  /** An expression as written: a name, a number, or a list with some white space in front of each part. */
  datatype Form = Name(s: string) | Number(n: nat) | List(body: Body)

  datatype Body = End(gap: string) | Item(gap: string, first: Form, rest: Body)

  function Numeral(n: nat): string {
    if n < 10 then ["0123456789"[n]] else Numeral(n / 10) + ["0123456789"[n % 10]]
  }

  function FormText(f: Form): string {
    match f
    case Name(s) => s
    case Number(n) => Numeral(n)
    case List(body) => "(" + BodyText(body) + ")"
  }

  function BodyText(b: Body): string {
    match b
    case End(gap) => gap
    case Item(gap, first, rest) => gap + FormText(first) + BodyText(rest)
  }

  predicate IsGap(g: string) { forall i :: 0 <= i < |g| ==> g[i] in " \t\r\n" }

  /** A name of 1 to 98 bytes that neither looks like a number nor holds anything that ends a name. */
  predicate IsName(s: string) {
    && 1 <= |s| <= 98 && s[0] != '(' && !('0' <= s[0] <= '9')
    && forall i :: 0 <= i < |s| ==> s[i] < 256 as char && s[i] !in "\0 \t\r\n)"
  }

  /** Names and numbers are kept apart from what follows them in a list. */
  predicate Legible(f: Form) {
    match f
    case Name(s) => IsName(s)
    case Number(n) => n < 2147483648
    case List(body) => BodyLegible(body)
  }

  predicate BodyLegible(b: Body) {
    && IsGap(b.gap)
    && (b.Item? ==> Legible(b.first) && BodyLegible(b.rest) && (!b.first.List? && b.rest.Item? ==> b.rest.gap != ""))
  }

  function Bytes(s: string): Text { seq(|s|, i requires 0 <= i < |s| => s[i] as int % 256) }

  /** The tree a written expression stands for; an empty list is a cell with nothing in it. */
  function Tree(f: Form): Slist {
    match f
    case Name(s) => Str(Bytes(s))
    case Number(n) => Int(n)
    case List(body) => if body.End? then Cons(Nil, Nil) else BodyTree(body)
  }

  function BodyTree(b: Body): Slist {
    match b
    case End(_) => Nil
    case Item(_, first, rest) => Cons(Tree(first), BodyTree(rest))
  }

  // ----- Characters and bytes -----

  lemma BytesJoin(a: string, b: string)
    ensures Bytes(a + b) == Bytes(a) + Bytes(b)
  {}

  lemma {:induction false} NumeralBytes(n: nat)
    ensures Bytes(Numeral(n)) == Digits(n)
  {
    if n < 10 {
      assert Bytes(Numeral(n)) == [ZERO + n];
    } else {
      NumeralBytes(n / 10);
      BytesJoin(Numeral(n / 10), ["0123456789"[n % 10]]);
      assert Bytes(["0123456789"[n % 10]]) == [ZERO + n % 10];
    }
  }

  lemma GapBytes(g: string, i: nat)
    requires IsGap(g) && i < |g|
    ensures WhiteSpace(Bytes(g)[i])
  {}

  lemma NameBytes(s: string)
    requires IsName(s)
    ensures AtomText(Bytes(s))
  {}

  // ----- Reading -----

  lemma {:induction false} GapSkipped(s: Text, g: string, e: nat)
    requires IsGap(g) && TextAt(s, Bytes(g), e)
    ensures Lex(s, e) == Lex(s, e + |g|)
    decreases |g|
  {
    if g != "" {
      GapBytes(g, 0);
      assert Bytes(g)[0] == s[e];
      LexMark(s, e);
      hide Lex;
      assert g == g[..1] + g[1..];
      BytesJoin(g[..1], g[1..]);
      TextParts(s, Bytes(g[..1]), Bytes(g[1..]), e);
      GapSkipped(s, g[1..], e + 1);
    }
  }

  /** The parts of a list body stand one behind the other. */
  lemma BodyParts(s: Text, b: Body, e: nat)
    requires TextAt(s, Bytes(BodyText(b)), e)
    ensures TextAt(s, Bytes(b.gap), e)
    ensures b.Item? ==> var m := e + |b.gap| + |FormText(b.first)|;
                        && TextAt(s, Bytes(FormText(b.first)), e + |b.gap|) && TextAt(s, Bytes(BodyText(b.rest)), m)
                        && e + |BodyText(b)| == m + |BodyText(b.rest)|
  {
    hide TextAt;
    if b.Item? {
      var g, f, r := b.gap, FormText(b.first), BodyText(b.rest);
      BytesJoin(g + f, r);
      BytesJoin(g, f);
      TextParts(s, Bytes(g + f), Bytes(r), e);
      TextParts(s, Bytes(g), Bytes(f), e);
    }
  }

  lemma ListParts(s: Text, b: Body, e: nat)
    requires TextAt(s, Bytes("(" + BodyText(b) + ")"), e)
    ensures TextAt(s, Bytes(BodyText(b)), e + 1)
    ensures var m := e + 1 + |BodyText(b)|; m < |s| && s[e] == OPEN && s[m] == CLOSE
  {
    hide TextAt;
    var t := BodyText(b);
    BytesJoin("(" + t, ")");
    BytesJoin("(", t);
    assert Bytes("(") == [OPEN] && Bytes(")") == [CLOSE];
    TextParts(s, Bytes("(" + t), Bytes(")"), e);
    TextParts(s, Bytes("("), Bytes(t), e);
    OneItem(s, OPEN, e);
    OneItem(s, CLOSE, e + 1 + |t|);
  }

  /** Ends a list: a closing parenthesis, or the end of the input. */
  predicate Ends(c: int) { c == CLOSE || c == NUL }

  function EndToken(s: Text, e: nat): (r: Lexed)
    requires e < |s|
    ensures r.Lexed? && r.pos <= |s|
  {
    if s[e] == CLOSE then Lexed(TClose, e + 1) else Lexed(TEof, e)
  }

  /** Something that ends a name stands in front of the next part or of the closing parenthesis. */
  lemma BodyDelimits(s: Text, b: Body, e: nat)
    requires BodyLegible(b) && TextAt(s, Bytes(BodyText(b)), e) && (b.Item? ==> b.gap != "")
    requires e + |BodyText(b)| < |s| && Ends(s[e + |BodyText(b)|])
    ensures e < |s| && Delimits(s[e])
  {
    BodyParts(s, b, e);
    if b.gap != "" {
      GapBytes(b.gap, 0);
      assert Bytes(b.gap)[0] == s[e];
    }
  }

  lemma NameParses(s: Text, t: string, e: nat)
    requires IsName(t) && TextAt(s, Bytes(t), e) && e + |t| < |s| && Delimits(s[e + |t|])
    ensures Lex(s, e) == Lexed(TSym(Bytes(t)), e + |t|)
  {
    NameBytes(t);
    hide Lex, IsName, Bytes;
    LexAtom(s, Bytes(t), e);
  }

  lemma NumberParses(s: Text, n: nat, e: nat)
    requires n < 2147483648 && TextAt(s, Bytes(Numeral(n)), e)
    requires e + |Numeral(n)| < |s| && Delimits(s[e + |Numeral(n)|])
    ensures Lex(s, e) == Lexed(TNum(Digits(n)), e + |Numeral(n)|) && Atoi(Digits(n)) == n
  {
    hide Lex, AtoiFrom, Digits, Numeral;
    NumeralBytes(n);
    DigitsAreShort(n);
    AtoiOfDigits(n);
    LexAtom(s, Digits(n), e);
  }

  lemma AtomParses(s: Text, f: Form, e: nat)
    requires Legible(f) && !f.List? && TextAt(s, Bytes(FormText(f)), e)
    requires e + |FormText(f)| < |s| && Delimits(s[e + |FormText(f)|])
    ensures Lex(s, e).Lexed? && !Stops(Lex(s, e).tok)
    ensures Parse(s, Lex(s, e).tok, Lex(s, e).pos) == Advance(s, Tree(f), e + |FormText(f)|)
  {
    hide Lex, Atoi, IsName, Bytes, Numeral, Digits, TextAt, Delimits, Advance;
    match f
    case Name(t) => NameParses(s, t, e);
    case Number(n) => NumberParses(s, n, e);
  }

  /** A written expression parses as its tree; the next token comes from behind it. */
  lemma {:induction false} FormParses(s: Text, f: Form, e: nat)
    requires Legible(f) && TextAt(s, Bytes(FormText(f)), e)
    requires !f.List? ==> e + |FormText(f)| < |s| && Delimits(s[e + |FormText(f)|])
    ensures Lex(s, e).Lexed? && !Stops(Lex(s, e).tok)
    ensures Parse(s, Lex(s, e).tok, Lex(s, e).pos) == Advance(s, Tree(f), e + |FormText(f)|)
    decreases f
  {
    hide Lex;
    if f.List? {
      ListParts(s, f.body, e);
      LexMark(s, e);
      BodyParses(s, f.body, e + 1);
    } else {
      AtomParses(s, f, e);
    }
  }

  lemma {:induction false} BodyParses(s: Text, b: Body, e: nat)
    requires BodyLegible(b) && TextAt(s, Bytes(BodyText(b)), e)
    requires e + |BodyText(b)| < |s| && Ends(s[e + |BodyText(b)|])
    ensures b.End? ==> Lex(s, e) == EndToken(s, e + |BodyText(b)|)
    ensures b.Item? ==> Lex(s, e).Lexed? && !Stops(Lex(s, e).tok)
    ensures ParseList(s, Lex(s, e).tok, Lex(s, e).pos)
         == var l := EndToken(s, e + |BodyText(b)|);
            Parsed(if b.End? then Cons(Nil, Nil) else BodyTree(b), l.tok, l.pos)
    decreases b
  {
    hide Lex, ParseList, Parse;
    BodyParts(s, b, e);
    GapSkipped(s, b.gap, e);
    if b.End? {
      LexMark(s, e + |b.gap|);
      NoElement(s, Lex(s, e).tok, Lex(s, e).pos);
    } else {
      var m := e + |b.gap| + |FormText(b.first)|;
      if !b.first.List? { BodyDelimits(s, b.rest, m); }
      FormParses(s, b.first, e + |b.gap|);
      BodyParses(s, b.rest, m);
      var r := Lex(s, m);
      ParseListStep(s, Lex(s, e).tok, Lex(s, e).pos, Tree(b.first), r.tok, r.pos);
    }
  }

  lemma NoElement(s: Text, tok: Token, e: nat)
    requires e <= |s| && Stops(tok)
    ensures ParseList(s, tok, e) == Parsed(Cons(Nil, Nil), tok, e)
  {}

  /** An input: white space, an expression, white space, and the byte that ends it. */
  function Input(before: string, f: Form, after: string): Text { Bytes(before + FormText(f) + after) + [0] }

  lemma InputParts(before: string, f: Form, after: string)
    requires IsGap(after)
    ensures var s, m := Input(before, f, after), |before| + |FormText(f)|;
            && TextAt(s, Bytes(before), 0) && TextAt(s, Bytes(FormText(f)), |before|) && TextAt(s, Bytes(after), m)
            && |s| == m + |after| + 1 && s[m + |after|] == NUL && Delimits(s[m])
  {
    var s, m := Input(before, f, after), |before| + |FormText(f)|;
    BytesJoin(before + FormText(f), after);
    BytesJoin(before, FormText(f));
    if after != "" {
      GapBytes(after, 0);
      assert Bytes(after)[0] == s[m];
    }
  }

  /** Every layout of an expression reads as the same tree, and nothing is left to read. */
  lemma ReadsForm(before: string, f: Form, after: string)
    requires Legible(f) && IsGap(before) && IsGap(after)
    ensures Read(Input(before, f, after)) == Parsed(Tree(f), TEof, |before| + |FormText(f)| + |after|)
  {
    hide Lex, Parse, Input, Bytes, FormText, Tree, TextAt, IsGap, Legible, Delimits;
    var s, m := Input(before, f, after), |before| + |FormText(f)|;
    InputParts(before, f, after);
    GapSkipped(s, before, 0);
    FormParses(s, f, |before|);
    GapSkipped(s, after, m);
    LexMark(s, m + |after|);
  }

  /** A list that is not closed is an error. */
  lemma UnclosedPanics(b: Body)
    requires BodyLegible(b)
    ensures Read(Bytes("(" + BodyText(b)) + [0]) == ParsePanic
  {
    hide Lex, ParseList, BodyText, BodyLegible, BodyTree;
    var s := Bytes("(" + BodyText(b)) + [0];
    BytesJoin("(", BodyText(b));
    assert Bytes("(") == [OPEN];
    assert TextAt(s, Bytes(BodyText(b)), 1) && s[0] == OPEN && s[|BodyText(b)| + 1] == NUL;
    hide Bytes, TextAt;
    LexMark(s, 0);
    BodyParses(s, b, 1);
  }

  /** A name or number of 99 bytes or more is an error, whatever follows it. */
  lemma LongAtomPanics(s: string, rest: Text)
    requires |s| >= 99 && s[0] != '(' && forall i :: 0 <= i < |s| ==> s[i] < 256 as char && s[i] !in "\0 \t\r\n)"
    ensures Read(Bytes(s) + rest) == ParsePanic
  {
    hide Lex;
    var t := Bytes(s) + rest;
    forall k | 0 <= k < |s| ensures !Delimits(t[k]) {
      assert t[k] == s[k] as int;
    }
    LexLong(t, |s|);
  }

  lemma LexLong(t: Text, n: nat)
    requires 99 <= n <= |t| && t[0] != OPEN && forall k :: 0 <= k < n ==> !Delimits(t[k])
    ensures Lex(t, 0) == LexPanic
  {
    assert AtomEnd(t, 0) >= n;
  }

  // ----- Printing -----

  /** No white space but a single blank in front of every part of a list after the first. */
  function Plain(f: Form): Form {
    match f
    case List(body) => List(PlainBody(body, ""))
    case _ => f
  }

  function PlainBody(b: Body, gap: string): Body {
    match b
    case End(_) => End("")
    case Item(_, first, rest) => Item(gap, Plain(first), PlainBody(rest, " "))
  }

  lemma {:induction false} PrintsForm(f: Form)
    ensures PrintOne(Tree(f), true) == Bytes(FormText(Plain(f)))
    decreases f
  {
    match f
    case Name(_) =>
    case Number(n) => NumeralBytes(n);
    case List(body) =>
      var t := BodyText(PlainBody(body, ""));
      BytesJoin("(" + t, ")");
      BytesJoin("(", t);
      assert Bytes("(") == [OPEN] && Bytes(")") == [CLOSE];
      if body.Item? {
        PrintsBody(body);
      } else {
        assert PrintOne(Cons(Nil, Nil), true) == [OPEN] + [] + [CLOSE];
      }
  }

  lemma {:induction false} PrintsBody(b: Body)
    requires b.Item?
    ensures PrintOne(BodyTree(b), false) == Bytes(BodyText(PlainBody(b, "")))
    ensures PrintOne(BodyTree(b), true) == [OPEN] + PrintOne(BodyTree(b), false) + [CLOSE]
    decreases b
  {
    PrintsForm(b.first);
    var f, r := FormText(Plain(b.first)), BodyText(PlainBody(b.rest, " "));
    BytesJoin(f, r);
    assert "" + f == f;
    if b.rest.Item? {
      PrintsBody(b.rest);
      var r' := BodyText(PlainBody(b.rest, ""));
      BytesJoin(" ", r');
      assert Bytes(" ") == [SPACE];
      assert r == " " + r' by { GapFirst(b.rest, " "); }
    }
  }

  lemma GapFirst(b: Body, gap: string)
    requires b.Item?
    ensures BodyText(PlainBody(b, gap)) == gap + BodyText(PlainBody(b, ""))
  {
    var f, r := FormText(Plain(b.first)), BodyText(PlainBody(b.rest, " "));
    assert gap + f + r == gap + ("" + f + r);
  }

  lemma PrintsNegative(n: int)
    requires n < 0
    ensures PrintOne(Int(n), true) == Bytes("-" + Numeral(-n))
  {
    hide Numeral, Digits;
    NumeralBytes(-n);
    BytesJoin("-", Numeral(-n));
    assert Bytes("-") == [MINUS];
  }

  /** What main prints for an input: the expression in its plain layout, on a line of its own. */
  lemma Reformats(before: string, f: Form, after: string)
    requires Legible(f) && IsGap(before) && IsGap(after)
    ensures var r := Read(Input(before, f, after));
            r.Parsed? && !r.t.Nil? && PrintOne(r.t, true) + [10] == Bytes(FormText(Plain(f)) + "\n")
  {
    hide Read, PrintOne, FormText;
    ReadsForm(before, f, after);
    PrintsForm(f);
    BytesJoin(FormText(Plain(f)), "\n");
    assert Bytes("\n") == [10];
  }

  // ----- Lists of two names, and the input of the original -----

  function Pair(a: string, sep: string, b: string): Form { List(Item("", Name(a), Item(sep, Name(b), End("")))) }

  lemma PairText(a: string, sep: string, b: string)
    ensures FormText(Pair(a, sep, b)) == "(" + a + sep + b + ")"
  {
    var last := Item(sep, Name(b), End(""));
    assert BodyText(End("")) == "";
    assert BodyText(last) == sep + b + "";
    assert BodyText(Item("", Name(a), last)) == "" + a + (sep + b + "");
  }

  lemma PairFacts(a: string, sep: string, b: string)
    requires IsName(a) && IsName(b) && IsGap(sep) && sep != ""
    ensures Legible(Pair(a, sep, b)) && Plain(Pair(a, sep, b)) == Pair(a, " ", b)
    ensures Tree(Pair(a, sep, b)) == Cons(Str(Bytes(a)), Cons(Str(Bytes(b)), Nil))
  {
    hide IsName, IsGap, Bytes;
    var last, all := Item(sep, Name(b), End("")), Item("", Name(a), Item(sep, Name(b), End("")));
    NoGap();
    assert BodyLegible(End("")) && BodyLegible(last) && BodyLegible(all);
    assert PlainBody(End(""), " ") == End("");
    assert PlainBody(last, " ") == Item(" ", Name(b), End(""));
    assert PlainBody(all, "") == Item("", Name(a), Item(" ", Name(b), End("")));
    assert BodyTree(End("")) == Nil;
    assert BodyTree(last) == Cons(Str(Bytes(b)), Nil);
    assert BodyTree(all) == Cons(Str(Bytes(a)), BodyTree(last));
  }

  lemma NoGap()
    ensures IsGap("")
  {}

  /** Whichever of the four kinds of white space separates two names, they read as a list of two, which
      prints with a blank. */
  lemma PairReads(a: string, sep: char, b: string)
    requires IsName(a) && IsName(b) && (sep == ' ' || sep == '\t' || sep == '\r' || sep == '\n')
    ensures var t := Cons(Str(Bytes(a)), Cons(Str(Bytes(b)), Nil));
            && Read(Bytes("(" + a + [sep] + b + ")\n") + [0]) == Parsed(t, TEof, |a| + |b| + 4)
            && PrintOne(t, true) == Bytes("(" + a + " " + b + ")")
  {
    hide Read, PrintOne, Bytes, Legible, Plain, Tree, FormText, IsName, Pair;
    var f := Pair(a, [sep], b);
    PairFacts(a, [sep], b);
    PairText(a, [sep], b);
    PairText(a, " ", b);
    assert "" + ("(" + a + [sep] + b + ")") + "\n" == "(" + a + [sep] + b + ")\n";
    ReadsForm("", f, "\n");
    PrintsForm(f);
  }

  const SUM := List(Item("", Name("add"), Item(" ", Number(12), Item(" ", Number(34), End("")))))

  const DEFN := List(Item("", Name("defn"), Item(" ", Name("foo"), Item(" ", SUM, End("")))))

  lemma ItemText(gap: string, f: Form, ft: string, r: Body, rt: string)
    requires FormText(f) == ft && BodyText(r) == rt
    ensures BodyText(Item(gap, f, r)) == gap + ft + rt
  {}

  lemma EndText()
    ensures BodyText(End("")) == ""
  {}

  lemma SumText()
    ensures FormText(SUM) == "(add 12 34)"
  {
    assert Numeral(12) == "12" && Numeral(34) == "34";
    var c := Item(" ", Number(34), End(""));
    assert BodyText(c) == " 34";
    var b := Item(" ", Number(12), c);
    assert BodyText(b) == " 12 34";
    assert BodyText(Item("", Name("add"), b)) == "add 12 34";
  }

  lemma DefnText()
    ensures FormText(DEFN) == "(defn foo (add 12 34))"
  {
    var c := Item(" ", SUM, End(""));
    var b := Item(" ", Name("foo"), c);
    assert FormText(Name("foo")) == "foo" && FormText(Name("defn")) == "defn";
    assert FormText(DEFN) == "(" + BodyText(Item("", Name("defn"), b)) + ")";
    hide FormText, BodyText, SUM, DEFN;
    SumText();
    EndText();
    ItemText(" ", SUM, "(add 12 34)", End(""), "");
    ItemText(" ", Name("foo"), "foo", c, " " + "(add 12 34)" + "");
    ItemText("", Name("defn"), "defn", b, " " + "foo" + (" " + "(add 12 34)" + ""));
    DefnSpelled();
  }

  lemma DefnSpelled()
    ensures "(" + ("" + "defn" + (" " + "foo" + (" " + "(add 12 34)" + ""))) + ")" == "(defn foo (add 12 34))"
  {}

  lemma DefnFacts()
    ensures Legible(DEFN) && Plain(DEFN) == DEFN
    ensures Tree(DEFN) == var sum := Cons(Str(Bytes("add")), Cons(Int(12), Cons(Int(34), Nil)));
                          Cons(Str(Bytes("defn")), Cons(Str(Bytes("foo")), Cons(sum, Nil)))
  {
    hide Bytes, Numeral;
  }

  /** The program of the original reads as this tree and prints as it was written. */
  lemma ProgramReads()
    ensures var sum := Cons(Str(Bytes("add")), Cons(Int(12), Cons(Int(34), Nil)));
            var t := Cons(Str(Bytes("defn")), Cons(Str(Bytes("foo")), Cons(sum, Nil)));
            && Read(Bytes("(defn foo (add 12 34))\n") + [0]) == Parsed(t, TEof, 23)
            && PrintOne(t, true) == Bytes("(defn foo (add 12 34))")
  {
    hide Read, PrintOne, Bytes, FormText, Legible, Plain, Tree, DEFN;
    DefnText();
    DefnFacts();
    assert "" + "(defn foo (add 12 34))" + "\n" == "(defn foo (add 12 34))\n";
    ReadsForm("", DEFN, "\n");
    PrintsForm(DEFN);
  }
}
