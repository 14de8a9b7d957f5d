/**
 Printed values, fields and selections: their text, their tokens, and that the
 lexer finds the tokens in the text and the parser the trees in the tokens.
 */
module QueryText {
  import opened Common
  import opened GraphSyntax
  import opened StringValue
  import opened GraphLexer

  // ---- What can be printed ----

  /** How many dots v starts with. Dots in front of a name or number become part of it; three would be a spread. */
  function Dots(v: string): (n: nat)
    ensures n <= |v| && (n < |v| ==> v[n] != '.')
    ensures forall i :: 0 <= i < n ==> v[i] == '.'
  {
    if v == [] || v[0] != '.' then 0 else 1 + Dots(v[1..])
  }

  /** A name that is read as a name. */
  predicate PlainName(v: string) {
    && Dots(v) != 3 && IsWord(v[Dots(v)..])
    && Lower(v) !in {"on", "true", "false"}
  }

  predicate IsName(v: string) {
    v != [] && NameRun(v) == |v|
  }

  predicate IsWord(v: string) {
    IsName(v) && !Digit(v[0])
  }

  predicate IsNumber(v: string) {
    Dots(v) != 3 && IsNumeral(v[Dots(v)..])
  }

  predicate IsNumeral(v: string) {
    v != [] && (v[0] in "+-" || Digit(v[0])) && NumberRun(v) == |v|
  }

  /** A value as the parser builds them. */
  predicate Clean(n: Node)
    decreases n
  {
    match n.kind
    case NodeStr => n.children == []
    case NodeNum => IsNumber(n.val) && n.children == []
    case NodeBool => n.val in {"true", "false"} && n.children == []
    case NodeVar => IsName(n.val) && n.children == []
    case NodeLabel => PlainName(n.val) && n.children == []
    case NodeList => n.val == "" && forall c <- n.children :: Clean(c) && c.name == ""
    case NodeObj => n.val == "" && forall c <- n.children :: Clean(c) && PlainName(c.name)
  }

  predicate CleanArg(a: Arg) {
    PlainName(a.name) && Clean(a.val) && a.val.name == ""
  }

  predicate CleanHeader(h: Header) {
    && PlainName(h.name) && (h.alias == "" || PlainName(h.alias))
    && |h.args| < MAX_ARGS
    && forall a <- h.args :: CleanArg(a)
  }

  /** All strings in the value survive being printed. */
  predicate Lasting(n: Node)
    decreases n
  {
    (n.kind.NodeStr? ==> Survives(n.val)) && forall c <- n.children :: Lasting(c)
  }

  predicate LastingHeader(h: Header) {
    forall a <- h.args :: Lasting(a.val)
  }

  /** No string in the value ends in a backslash, which would take the closing quote with it. */
  predicate Closing(n: Node)
    decreases n
  {
    (n.kind.NodeStr? ==> !EndsInBackslash(n.val)) && forall c <- n.children :: Closing(c)
  }

  predicate ClosingHeader(h: Header) {
    forall a <- h.args :: Closing(a.val)
  }

  // ---- What is read back ----

  /** The value with its strings as they are read back from their print. */
  function Reread(n: Node): Node
    decreases n
  {
    n.(val := if n.kind.NodeStr? then Unescape(EscapeQuotes(n.val)) else n.val, children := RereadAll(n.children))
  }

  function RereadAll(ns: seq<Node>): seq<Node>
    decreases ns
  {
    if ns == [] then [] else [Reread(ns[0])] + RereadAll(ns[1..])
  }

  function RereadArgs(args: seq<Arg>): seq<Arg> {
    if args == [] then [] else [args[0].(val := Reread(args[0].val))] + RereadArgs(args[1..])
  }

  function RereadHeader(h: Header): Header {
    h.(args := RereadArgs(h.args))
  }

  /** A value whose strings all close is read back as it is exactly if they all survive. */
  lemma {:induction false} RereadSame(n: Node)
    requires Closing(n)
    ensures Reread(n) == n <==> Lasting(n)
    decreases n
  {
    if n.kind.NodeStr? {
      PrintedUnescapes(n.val);
    }
    RereadAllSame(n.children);
  }

  lemma {:induction false} RereadAllSame(ns: seq<Node>)
    requires forall c <- ns :: Closing(c)
    ensures RereadAll(ns) == ns <==> forall c <- ns :: Lasting(c)
    decreases ns
  {
    if ns != [] {
      assert ns[0] in ns && ns == [ns[0]] + ns[1..];
      RereadSame(ns[0]);
      RereadAllSame(ns[1..]);
      assert RereadAll(ns)[0] == Reread(ns[0]) && RereadAll(ns)[1..] == RereadAll(ns[1..]);
    }
  }

  lemma {:induction false} RereadArgsSame(args: seq<Arg>)
    requires forall a <- args :: Closing(a.val)
    ensures RereadArgs(args) == args <==> forall a <- args :: Lasting(a.val)
  {
    if args != [] {
      assert args[0] in args && args == [args[0]] + args[1..];
      RereadSame(args[0].val);
      RereadArgsSame(args[1..]);
      assert RereadArgs(args)[0].val == Reread(args[0].val) && RereadArgs(args)[1..] == RereadArgs(args[1..]);
    }
  }

  /** What is read back is as clean as what was printed. */
  lemma {:induction false} RereadClean(n: Node)
    requires Clean(n)
    ensures Clean(Reread(n)) && Reread(n).name == n.name && Reread(n).kind == n.kind
    decreases n
  {
    match n.kind
    case NodeList => RereadAllClean(n.children);
    case NodeObj => RereadAllClean(n.children);
    case _ =>
  }

  lemma {:induction false} RereadAllClean(ns: seq<Node>)
    requires forall c <- ns :: Clean(c)
    ensures |RereadAll(ns)| == |ns|
    ensures forall i {:trigger RereadAll(ns)[i]} :: 0 <= i < |ns| ==> Clean(RereadAll(ns)[i]) && RereadAll(ns)[i].name == ns[i].name
    decreases ns
  {
    if ns != [] {
      assert ns[0] in ns;
      RereadClean(ns[0]);
      RereadAllClean(ns[1..]);
    }
  }

  lemma {:induction false} RereadArgsClean(args: seq<Arg>)
    requires forall a <- args :: CleanArg(a)
    ensures |RereadArgs(args)| == |args| && forall a <- RereadArgs(args) :: CleanArg(a)
  {
    if args != [] {
      assert args[0] in args && CleanArg(args[0]);
      RereadClean(args[0].val);
      RereadArgsClean(args[1..]);
    }
  }

  // ---- Text ----

  function Text(n: Node): string
    decreases n
  {
    match n.kind
    case NodeStr => "\"" + EscapeQuotes(n.val) + "\""
    case NodeVar => "$" + n.val
    case NodeList => "[" + ListText(n.children) + "]"
    case NodeObj => "{" + ObjText(n.children) + "}"
    case _ => n.val
  }

  function ListText(ns: seq<Node>): string
    decreases ns
  {
    if ns == [] then "" else Text(ns[0]) + (if |ns| == 1 then "" else ", " + ListText(ns[1..]))
  }

  function ObjText(ns: seq<Node>): string
    decreases ns
  {
    if ns == [] then ""
    else ns[0].name + ": " + Text(ns[0]) + (if |ns| == 1 then "" else ", " + ObjText(ns[1..]))
  }

  function ArgsText(args: seq<Arg>): string {
    if args == [] then ""
    else args[0].name + ": " + Text(args[0].val) + (if |args| == 1 then "" else ", " + ArgsText(args[1..]))
  }

  function HeaderText(h: Header): string {
    (if h.alias == "" then "" else h.alias + ": ") + h.name + (if h.args == [] then "" else "(" + ArgsText(h.args) + ")")
  }

  // ---- Tokens ----

  function Toks(n: Node): seq<Token>
    decreases n
  {
    match n.kind
    case NodeStr => [StringVal(n.val)]
    case NodeNum => [NumberVal(n.val)]
    case NodeBool => [BoolVal(n.val)]
    case NodeVar => [Variable(n.val)]
    case NodeLabel => [Name(n.val)]
    case NodeList => [ListOpen] + ListToks(n.children) + [ListClose]
    case NodeObj => [ObjOpen] + ObjToks(n.children) + [ObjClose]
  }

  function ListToks(ns: seq<Node>): seq<Token>
    decreases ns
  {
    if ns == [] then [] else Toks(ns[0]) + ListToks(ns[1..])
  }

  function ObjToks(ns: seq<Node>): seq<Token>
    decreases ns
  {
    if ns == [] then [] else [Name(ns[0].name), Colon] + Toks(ns[0]) + ObjToks(ns[1..])
  }

  function ArgsToks(args: seq<Arg>): seq<Token> {
    if args == [] then [] else [Name(args[0].name), Colon] + Toks(args[0].val) + ArgsToks(args[1..])
  }

  function HeaderToks(h: Header): seq<Token> {
    (if h.alias == "" then [] else [Name(h.alias), Colon]) + [Name(h.name)]
      + (if h.args == [] then [] else [ArgsOpen] + ArgsToks(h.args) + [ArgsClose])
  }

  // ---- Reading one lexeme ----

  /** A byte at which names and numbers end. */
  predicate Stops(s: string) {
    s != [] && s[0] in " ,:()[]{}"
  }

  lemma NoPunct(c: char)
    requires c !in "!():=[]{|}"
    ensures !HasPunct("" + [c])
  {
    assert "" + [c] == [c];
  }

  lemma LexBlank(c: char, rest: string)
    requires Blank(c)
    ensures Lex("", [c] + rest) == Lex("", rest)
  {
    var s := [c] + rest;
    assert s[1..] == rest;
    assert Next("", s) == Go([], "", rest);
    PutNothing(Lex("", rest));
  }

  lemma LexPunct(c: char, rest: string)
    requires IsPunct(c)
    ensures Lex("", [c] + rest) == Put([PunctToken(c)], Lex("", rest))
  {
    var s := [c] + rest;
    assert s[0] == c && s[1..] == rest;
    PunctMove(c, s);
  }

  lemma PunctMove(c: char, s: string)
    requires IsPunct(c) && s != [] && s[0] == c
    ensures Next("", s) == Go([PunctToken(c)], "", s[1..])
  {
    assert ("" + [c])[0] in "!():=[]{|}";
    assert HasPunct("" + [c]);
  }

  lemma {:induction false} NameRunEnds(v: string, rest: string)
    requires NameRun(v) == |v| && (rest == [] || !Alnum(rest[0]))
    ensures NameRun(v + rest) == |v|
  {
    if v == [] {
      assert v + rest == rest;
    } else {
      assert (v + rest)[1..] == v[1..] + rest;
      NameRunEnds(v[1..], rest);
    }
  }

  lemma {:induction false} DigitRunEnds(v: string, rest: string)
    requires rest == [] || !Digit(rest[0])
    ensures DigitRun(v + rest) == DigitRun(v)
  {
    if v == [] {
      assert v + rest == rest;
    } else {
      assert (v + rest)[1..] == v[1..] + rest;
      if Digit(v[0]) {
        DigitRunEnds(v[1..], rest);
      }
    }
  }

  lemma TailOf(v: string, rest: string, k: nat)
    requires k <= |v|
    ensures (v + rest)[k..] == v[k..] + rest
  {
  }

  lemma NumberRunEnds(v: string, rest: string)
    requires NumberRun(v) == |v| && Stops(rest)
    ensures NumberRun(v + rest) == |v|
  {
    var s := v + rest;
    TailOf(v, rest, Taken(v, "+-"));
    DigitRunEnds(v[Taken(v, "+-")..], rest);
    assert Taken(s, "+-") == Taken(v, "+-");
    var b := WholeRun(v);
    assert WholeRun(s) == b;
    TailOf(v, rest, b);
    if Taken(v[b..], ".") == 1 {
      TailOf(v[b..], rest, 1);
      DigitRunEnds(v[b..][1..], rest);
    }
    var c := b + FractionRun(v[b..]);
    assert FractionRun(s[b..]) == FractionRun(v[b..]);
    TailOf(v, rest, c);
  }

  // ---- Dots in front of a name or number ----

  predicate AllDots(p: string) {
    Dots(p) == |p|
  }

  lemma NoPunctInDots(p: string, c: char)
    requires AllDots(p) && c !in "!():=[]{|}"
    ensures !HasPunct(p + [c])
  {
    assert forall i :: 0 <= i < |p| ==> (p + [c])[i] == '.';
  }

  lemma {:induction false} DotsAppend(p: string, w: string)
    requires AllDots(p)
    ensures Dots(p + w) == |p| + Dots(w)
  {
    if p == [] {
      assert p + w == w;
    } else {
      assert (p + w)[1..] == p[1..] + w;
      DotsAppend(p[1..], w);
    }
  }

  lemma NotSimple(c: char)
    requires c in "+-." || Alnum(c)
    ensures !Simple(c) && c !in "!():=[]{|}" && c != '"' && c != '\''
  {
  }

  lemma NextAtDot(p: string, s: string)
    requires AllDots(p) && s != [] && s[0] == '.'
    ensures Next(p, s) == DotMove(p, s[1..])
  {
    NotSimple('.');
    NoPunctInDots(p, '.');
  }

  lemma OneDot(p: string, rest: string)
    requires |p| != 2 && rest != [] && rest[0] != '.'
    ensures DotMove(p, rest) == Go([], p + ".", rest)
  {
    assert rest[..0] == "" && p + "." + "" == p + ".";
    assert |p + "."| != |"..."|;
  }

  lemma TwoDots(p: string, rest: string)
    requires |p| != 1
    ensures DotMove(p, "." + rest) == Go([], p + "..", rest)
  {
    var s := "." + rest;
    assert s[..1] == "." && s[1..] == rest && p + "." + "." == p + "..";
    assert |p + ".."| != |"..."|;
  }

  /** lex goes on where a move leaves it that finds nothing. */
  ghost predicate LexStep(lex: (string, string) -> Lexed, p: string, s: string) {
    var m := Next(p, s);
    m.Go? && m.found == [] ==> lex(p, s) == lex(m.pending, m.rest)
  }

  ghost predicate Lexes(lex: (string, string) -> Lexed) {
    forall p, s {:trigger LexStep(lex, p, s)} :: LexStep(lex, p, s)
  }

  lemma TheLex() returns (lex: (string, string) -> Lexed)
    ensures Lexes(lex)
    ensures forall p, s {:trigger lex(p, s)} :: lex(p, s) == Lex(p, s)
  {
    lex := (p, s) => Lex(p, s);
    forall p, s ensures LexStep(lex, p, s) {
      var m := Next(p, s);
      if m.Go? {
        PutNothing(Lex(m.pending, m.rest));
      }
    }
  }

  lemma OneDotPasses(lex: (string, string) -> Lexed, p: string, rest: string)
    requires Lexes(lex) && AllDots(p) && |p| != 2 && rest != [] && rest[0] != '.'
    ensures lex(p, "." + rest) == lex(p + ".", rest)
  {
    var s := "." + rest;
    assert s[1..] == rest;
    NextAtDot(p, s);
    OneDot(p, rest);
    assert LexStep(lex, p, s);
  }

  lemma TwoDotsPass(lex: (string, string) -> Lexed, p: string, rest: string)
    requires Lexes(lex) && AllDots(p) && |p| != 1
    ensures lex(p, ".." + rest) == lex(p + "..", rest)
  {
    var s := ".." + rest;
    assert s[1..] == "." + rest;
    NextAtDot(p, s);
    TwoDots(p, rest);
    assert LexStep(lex, p, s);
  }

  /** Dots are passed over, two at a time, unless they are three. */
  lemma {:induction false} DotsPass(lex: (string, string) -> Lexed, p: string, d: string, rest: string)
    requires Lexes(lex) && AllDots(p) && AllDots(d) && |p| % 2 == 0 && |p| + |d| != 3 && rest != [] && rest[0] != '.'
    ensures lex(p, d + rest) == lex(p + d, rest)
    decreases |d|
  {
    if d == [] {
      assert d + rest == rest && p + d == p;
    } else if |d| == 1 {
      assert d == ".";
      OneDotPasses(lex, p, rest);
    } else {
      DotsTail(d);
      assert d + rest == ".." + (d[2..] + rest) && p + ".." + d[2..] == p + d;
      TwoDotsPass(lex, p, d[2..] + rest);
      DotsAppend(p, "..");
      DotsPass(lex, p + "..", d[2..], rest);
    }
  }

  lemma DotsTail(d: string)
    requires AllDots(d) && |d| >= 2
    ensures AllDots(d[2..]) && d == ".." + d[2..] && AllDots("..")
  {
    assert d[1..][1..] == d[2..];
    assert Dots(".") == 1;
  }

  /** What is read behind dots has them in its text. */
  lemma BehindDots(v: string, rest: string) returns (p: string, w: string)
    requires Dots(v) != 3 && Dots(v) < |v|
    ensures v == p + w && AllDots(p) && w == v[Dots(v)..]
    ensures Lex("", v + rest) == Lex(p, w + rest)
  {
    p, w := v[..Dots(v)], v[Dots(v)..];
    DotsOf(v);
    var lex := TheLex();
    DotsPass(lex, "", p, w + rest);
    DottedText(p, w, rest);
  }

  lemma DottedText(p: string, w: string, rest: string)
    ensures "" + p == p && p + w + rest == p + (w + rest)
  {
  }

  lemma {:induction false} DotsOf(v: string)
    ensures AllDots(v[..Dots(v)])
  {
    if v != [] && v[0] == '.' {
      DotsOf(v[1..]);
      assert v[..Dots(v)][1..] == v[1..][..Dots(v[1..])];
    }
  }

  lemma LexWord(p: string, w: string, rest: string)
    requires AllDots(p) && IsWord(w) && Stops(rest)
    ensures Lex(p, w + rest) == Put([WordToken(p + w)], Lex("", rest))
  {
    var s := w + rest;
    NameRunEnds(w, rest);
    assert Alnum(w[0]);
    NoPunctInDots(p, s[0]);
    assert s[..|w|] == w && s[|w|..] == rest;
    assert Next(p, s) == NameMove(p, s);
  }

  lemma NumberNext(p: string, c: char, s: string)
    requires AllDots(p) && s != [] && s[0] == c && (c in "+-" || Digit(c))
    ensures Next(p, s) == NumberMove(p, s, NumberRun(s))
  {
    NotSimple(c);
    NoPunctInDots(p, c);
  }

  lemma NumberGo(p: string, w: string, rest: string)
    requires Stops(rest)
    ensures NumberMove(p, w + rest, |w|) == Go([NumberVal(p + w)], "", rest)
  {
    var s := w + rest;
    assert s[..|w|] == w && s[|w|..] == rest;
  }

  lemma LexNumber(v: string, rest: string)
    requires IsNumber(v) && Stops(rest)
    ensures Lex("", v + rest) == Put([NumberVal(v)], Lex("", rest))
  {
    var p, w := BehindDots(v, rest);
    LexNumeral(p, w, rest);
  }

  lemma LexNumeral(p: string, w: string, rest: string)
    requires AllDots(p) && IsNumeral(w) && Stops(rest)
    ensures Lex(p, w + rest) == Put([NumberVal(p + w)], Lex("", rest))
  {
    NumberRunEnds(w, rest);
    NumberNext(p, w[0], w + rest);
    NumberGo(p, w, rest);
  }

  lemma LexName(v: string, rest: string)
    requires PlainName(v) && Stops(rest)
    ensures Lex("", v + rest) == Put([Name(v)], Lex("", rest))
  {
    var p, w := BehindDots(v, rest);
    LexWord(p, w, rest);
  }

  lemma LexVariable(v: string, rest: string)
    requires IsName(v) && Stops(rest)
    ensures Lex("", "$" + v + rest) == Put([Variable(v)], Lex("", rest))
  {
    var s := "$" + v + rest;
    assert s[1..] == v + rest;
    NameRunEnds(v, rest);
    assert (v + rest)[..|v|] == v && (v + rest)[|v|..] == rest;
    assert Next("", s) == SimpleMove('$', v + rest);
  }

  /** A printed string is read back, if it does not end in a backslash. */
  lemma LexString(v: string, rest: string)
    requires !EndsInBackslash(v)
    ensures Lex("", "\"" + EscapeQuotes(v) + "\"" + rest) == Put([StringVal(Unescape(EscapeQuotes(v)))], Lex("", rest))
  {
    CloseFound(v, rest, false);
    var p := EscapeQuotes(v);
    var tail := p + "\"" + rest;
    var s := "\"" + p + "\"" + rest;
    assert s == "\"" + tail;
    QuoteOpens(tail, s);
    assert tail[..|p|] == p && tail[|p| + 1..] == rest;
  }

  lemma QuoteOpens(tail: string, s: string)
    requires s == "\"" + tail
    ensures s != [] && Next("", s) == StringMove('"', tail)
  {
    assert s[0] == '"' && s[1..] == tail;
    NoPunct('"');
  }

  lemma LiteralIs(v: string)
    ensures Lex("", "\"" + EscapeQuotes(v) + "\"") ==
      if EndsInBackslash(v) then Lexed([Eof]) else Lexed([StringVal(Unescape(EscapeQuotes(v))), Eof])
  {
    var p := EscapeQuotes(v);
    var tail := p + "\"";
    var s := "\"" + p + "\"";
    CloseFound(v, "", false);
    assert tail + "" == tail;
    assert s == "\"" + tail;
    QuoteOpens(tail, s);
    if !EndsInBackslash(v) {
      assert tail[..|p|] == p && tail[|p| + 1..] == "";
      LastToken(s, StringVal(Unescape(p)));
    }
  }

  lemma LastToken(s: string, t: Token)
    requires Next("", s) == Go([t], "", "")
    ensures Lex("", s) == Lexed([t, Eof])
  {
    assert Lex("", "") == Lexed([Eof]);
    assert [t] + [Eof] == [t, Eof];
  }

  /** Exactly the values that survive come back from a literal on its own. */
  lemma LiteralSurvives(v: string)
    ensures Lex("", "\"" + EscapeQuotes(v) + "\"") == Lexed([StringVal(v), Eof]) <==> Survives(v)
  {
    LiteralIs(v);
    PrintedUnescapes(v);
  }

  lemma OneEscape(s: string, e: string)
    requires |s| >= 2 && s[0] == '\\' && EscapeOf(s[1..]) == (e, 1)
    ensures Unescape(s) == e + Unescape(s[2..])
  {
  }

  /** A value that does not: backslash and n, as the parser reads it from two backslashes and n, comes back as a newline. */
  lemma NewlineChanged()
    ensures Unescape("\\\\n") == "\\n" && !Survives("\\n")
    ensures Lex("", "\"" + EscapeQuotes("\\n") + "\"") == Lexed([StringVal("\n"), Eof])
  {
    var v, w := "\\n", "\\\\n";
    assert v[1..] == "n" && w[1..] == v && w[2..] == "n" && v[2..] == "" && "n"[1..] == "";
    OneEscape(w, "\\");
    OneEscape(v, "\n");
    assert Unescape("n") == ['n'] + Unescape("") && "\\" + "n" == v && "\n" + "" == "\n";
    SurvivesTail(v);
    assert EscapeQuotes("n") == ['n'] + EscapeQuotes("") && EscapeQuotes(v) == ['\\'] + EscapeQuotes("n");
    assert ['\\'] + "n" == v;
    LiteralIs(v);
  }

  // ---- Reading values and headers ----

  /** The text in front of rest is read as the tokens, wherever it stands. */
  ghost predicate Reads(text: string, toks: seq<Token>, rest: string) {
    Lex("", text + rest) == Put(toks, Lex("", rest))
  }

  lemma ReadsBoth(a: string, x: seq<Token>, b: string, y: seq<Token>, rest: string)
    requires Reads(a, x, b + rest) && Reads(b, y, rest)
    ensures Reads(a + b, x + y, rest)
  {
    assert a + b + rest == a + (b + rest);
    PutTwice(x, y, Lex("", rest));
  }

  lemma ReadsNothing(rest: string)
    ensures Reads("", [], rest)
  {
    assert "" + rest == rest;
    PutNothing(Lex("", rest));
  }

  lemma ReadsBlank(c: char, rest: string)
    requires Blank(c)
    ensures Reads([c], [], rest)
  {
    LexBlank(c, rest);
    PutNothing(Lex("", rest));
  }

  lemma ReadsComma(rest: string)
    ensures Reads(", ", [], rest)
  {
    ReadsBlanks(',', ' ', rest);
  }

  lemma ReadsBlanks(c: char, d: char, rest: string)
    requires Blank(c) && Blank(d)
    ensures Reads([c, d], [], rest)
  {
    ReadsBlank(d, rest);
    ReadsBlank(c, [d] + rest);
    ReadsBoth([c], [], [d], [], rest);
    assert [c] + [d] == [c, d];
  }

  lemma ReadsPunct(c: char, rest: string)
    requires IsPunct(c)
    ensures Reads([c], [PunctToken(c)], rest)
  {
    LexPunct(c, rest);
  }

  lemma ReadsPunctBlank(c: char, d: char, rest: string)
    requires IsPunct(c) && Blank(d)
    ensures Reads([c, d], [PunctToken(c)], rest)
  {
    assert [c] + [d] == [c, d] && [PunctToken(c)] + [] == [PunctToken(c)];
    ReadsBlank(d, rest);
    ReadsPunct(c, [d] + rest);
    ReadsBoth([c], [PunctToken(c)], [d], [], rest);
  }

  lemma ReadsName(v: string, rest: string)
    requires PlainName(v) && Stops(rest)
    ensures Reads(v, [Name(v)], rest)
  {
    LexName(v, rest);
  }

  lemma ReadsWord(w: string, rest: string)
    requires IsWord(w) && Stops(rest)
    ensures Reads(w, [WordToken(w)], rest)
  {
    LexWord("", w, rest);
    assert "" + w == w;
  }

  /** A name with the colon behind it. */
  lemma ReadsKey(v: string, rest: string)
    requires PlainName(v)
    ensures Reads(v + ": ", [Name(v), Colon], rest)
  {
    ReadsColon(rest);
    ReadsName(v, ": " + rest);
    ReadsThen(v, Name(v), ": ", Colon, rest);
  }

  lemma ReadsColon(rest: string)
    ensures Reads(": ", [Colon], rest)
  {
    ReadsPunctBlank(':', ' ', rest);
    assert [':', ' '] == ": ";
  }

  lemma ReadsThen(a: string, x: Token, b: string, y: Token, rest: string)
    requires Reads(a, [x], b + rest) && Reads(b, [y], rest)
    ensures Reads(a + b, [x, y], rest)
  {
    ReadsBoth(a, [x], b, [y], rest);
    assert [x] + [y] == [x, y];
  }

  /** One entry of a list, with the separator in front of the next. */
  lemma ReadsEntry(text: string, toks: seq<Token>, more: bool, text': string, toks': seq<Token>, rest: string)
    requires Reads(text, toks, (if more then ", " + text' else "") + rest)
    requires more ==> Reads(text', toks', rest)
    requires !more ==> toks' == []
    ensures Reads(text + (if more then ", " + text' else ""), toks + toks', rest)
  {
    if more {
      ReadsComma(text' + rest);
      ReadsBoth(", ", [], text', toks', rest);
      assert [] + toks' == toks';
      ReadsBoth(text, toks, ", " + text', toks', rest);
    } else {
      ReadsNothing(rest);
      ReadsBoth(text, toks, "", [], rest);
    }
  }

  lemma ReadsWrapped(open: char, text: string, toks: seq<Token>, close: char, rest: string)
    requires IsPunct(open) && IsPunct(close) && Reads(text, toks, [close] + rest)
    ensures Reads([open] + text + [close], [PunctToken(open)] + toks + [PunctToken(close)], rest)
  {
    ReadsPunct(close, rest);
    ReadsBoth(text, toks, [close], [PunctToken(close)], rest);
    ReadsPunct(open, text + [close] + rest);
    ReadsBoth([open], [PunctToken(open)], text + [close], toks + [PunctToken(close)], rest);
    assert [open] + (text + [close]) == [open] + text + [close];
    assert [PunctToken(open)] + (toks + [PunctToken(close)]) == [PunctToken(open)] + toks + [PunctToken(close)];
  }

  lemma ParensText(text: string, rest: string)
    ensures ['('] + text + [')'] == "(" + text + ")" && [')'] + rest == ")" + rest
  {
  }

  lemma ReadsParens(text: string, toks: seq<Token>, rest: string)
    requires Reads(text, toks, ")" + rest)
    ensures Reads("(" + text + ")", [ArgsOpen] + toks + [ArgsClose], rest)
  {
    ParensText(text, rest);
    assert PunctToken('(') == ArgsOpen && PunctToken(')') == ArgsClose;
    ReadsWrapped('(', text, toks, ')', rest);
  }

  lemma ReadsScalar(n: Node, rest: string)
    requires Clean(n) && Closing(n) && !n.kind.NodeList? && !n.kind.NodeObj? && Stops(rest)
    ensures Reads(Text(n), Toks(Reread(n)), rest)
  {
    match n.kind
    case NodeStr =>
      LexString(n.val, rest);
      assert Text(n) + rest == "\"" + EscapeQuotes(n.val) + "\"" + rest;
    case NodeNum => LexNumber(n.val, rest);
    case NodeBool =>
      BoolIsWord(n.val);
      ReadsWord(n.val, rest);
    case NodeVar => LexVariable(n.val, rest);
    case NodeLabel => LexName(n.val, rest);
  }

  lemma BoolIsWord(v: string)
    requires v in {"true", "false"}
    ensures IsWord(v) && WordToken(v) == BoolVal(v)
  {
    assert Lower(v) == v;
    if v == "true" {
      assert v[1..] == "rue" && v[1..][1..] == "ue" && v[1..][1..][1..] == "e" && v[1..][1..][1..][1..] == "";
      assert NameRun("e") == 1;
      assert NameRun("ue") == 2;
      assert NameRun("rue") == 3;
    } else {
      assert v[1..] == "alse" && "alse"[1..] == "lse" && "lse"[1..] == "se" && "se"[1..] == "e" && "e"[1..] == "";
      assert NameRun("e") == 1;
      assert NameRun("se") == 2;
      assert NameRun("lse") == 3;
      assert NameRun("alse") == 4;
    }
  }

  /** The lexer finds a printed value's tokens. */
  lemma {:induction false} ReadsNode(n: Node, rest: string)
    requires Clean(n) && Closing(n) && Stops(rest)
    ensures Reads(Text(n), Toks(Reread(n)), rest)
    decreases n
  {
    match n.kind
    case NodeList =>
      ReadsList(n.children, "]" + rest);
      ReadsWrapped('[', ListText(n.children), ListToks(RereadAll(n.children)), ']', rest);
    case NodeObj =>
      ReadsObj(n.children, "}" + rest);
      ReadsWrapped('{', ObjText(n.children), ObjToks(RereadAll(n.children)), '}', rest);
    case _ =>
      ReadsScalar(n, rest);
  }

  lemma {:induction false} ReadsList(ns: seq<Node>, rest: string)
    requires (forall c <- ns :: Clean(c) && Closing(c)) && Stops(rest)
    ensures Reads(ListText(ns), ListToks(RereadAll(ns)), rest)
    decreases ns
  {
    if ns == [] {
      ReadsNothing(rest);
    } else {
      var more := |ns| > 1;
      var tail := if more then ", " + ListText(ns[1..]) else "";
      ReadsNode(ns[0], tail + rest);
      ReadsList(ns[1..], rest);
      RereadFirst(ns);
      ReadsEntry(Text(ns[0]), Toks(Reread(ns[0])), more, ListText(ns[1..]), ListToks(RereadAll(ns[1..])), rest);
    }
  }

  lemma {:induction false} ReadsObj(ns: seq<Node>, rest: string)
    requires (forall c <- ns :: Clean(c) && Closing(c) && PlainName(c.name)) && Stops(rest)
    ensures Reads(ObjText(ns), ObjToks(RereadAll(ns)), rest)
    decreases ns
  {
    if ns == [] {
      ReadsNothing(rest);
    } else {
      var more := |ns| > 1;
      var tail := if more then ", " + ObjText(ns[1..]) else "";
      ReadsNode(ns[0], tail + rest);
      RereadFirst(ns);
      ReadsMember(ns[0].name, Text(ns[0]), Toks(Reread(ns[0])), tail + rest);
      ReadsObj(ns[1..], rest);
      ReadsEntry(ns[0].name + ": " + Text(ns[0]), [Name(ns[0].name), Colon] + Toks(Reread(ns[0])), more,
                 ObjText(ns[1..]), ObjToks(RereadAll(ns[1..])), rest);
    }
  }

  lemma RereadFirst(ns: seq<Node>)
    requires ns != []
    ensures RereadAll(ns) != [] && RereadAll(ns)[0] == Reread(ns[0]) && RereadAll(ns)[1..] == RereadAll(ns[1..])
    ensures Reread(ns[0]).name == ns[0].name && |RereadAll(ns)| == 1 + |RereadAll(ns[1..])|
  {
  }

  lemma ReadsMember(key: string, text: string, toks: seq<Token>, rest: string)
    requires PlainName(key) && Reads(text, toks, rest)
    ensures Reads(key + ": " + text, [Name(key), Colon] + toks, rest)
  {
    ReadsKey(key, text + rest);
    ReadsBoth(key + ": ", [Name(key), Colon], text, toks, rest);
  }

  lemma {:induction false} ReadsArgs(args: seq<Arg>, rest: string)
    requires (forall a <- args :: CleanArg(a) && Closing(a.val)) && Stops(rest)
    ensures Reads(ArgsText(args), ArgsToks(RereadArgs(args)), rest)
    decreases |args|
  {
    if args == [] {
      ReadsNothing(rest);
    } else {
      var more := |args| > 1;
      var tail := if more then ", " + ArgsText(args[1..]) else "";
      var a := args[0];
      assert a in args && CleanArg(a);
      ReadsNode(a.val, tail + rest);
      var b := a.(val := Reread(a.val));
      assert RereadArgs(args)[0] == b && RereadArgs(args)[1..] == RereadArgs(args[1..]);
      ReadsMember(a.name, Text(a.val), Toks(b.val), tail + rest);
      ReadsArgs(args[1..], rest);
      ReadsEntry(a.name + ": " + Text(a.val), [Name(a.name), Colon] + Toks(b.val), more,
                 ArgsText(args[1..]), ArgsToks(RereadArgs(args[1..])), rest);
    }
  }

  /** The lexer finds a printed field's tokens. */
  lemma ReadsHeader(h: Header, rest: string)
    requires CleanHeader(h) && ClosingHeader(h) && Stops(rest)
    ensures Reads(HeaderText(h), HeaderToks(RereadHeader(h)), rest)
  {
    var args := if h.args == [] then "" else "(" + ArgsText(h.args) + ")";
    var argToks := if h.args == [] then [] else [ArgsOpen] + ArgsToks(RereadArgs(h.args)) + [ArgsClose];
    if h.args == [] {
      ReadsNothing(rest);
    } else {
      ReadsArgs(h.args, ")" + rest);
      ReadsParens(ArgsText(h.args), ArgsToks(RereadArgs(h.args)), rest);
    }
    ReadsName(h.name, args + rest);
    if h.alias == "" {
      ReadsNothing(h.name + (args + rest));
    } else {
      ReadsKey(h.alias, h.name + (args + rest));
    }
    var front := if h.alias == "" then "" else h.alias + ": ";
    var frontToks := if h.alias == "" then [] else [Name(h.alias), Colon];
    ReadsBoth(front, frontToks, h.name, [Name(h.name)], args + rest);
    ReadsBoth(front + h.name, frontToks + [Name(h.name)], args, argToks, rest);
  }
}
