/** The lexemes of a query, spelled out byte by byte, and the tokens a text of lexemes is read as. */
module LexicalGrammar {
  import opened Common
  import opened GraphSyntax
  import opened StringValue
  import opened GraphLexer
  import opened QueryText

  datatype Lexeme =
    | Gap(c: char)
    | Comment(line: string, end: char)
    | Mark(c: char)
    | ThreeDots
    | Var(name: string)
    | Word(name: string)
    | Numeral(sign: string, whole: string, fraction: Option<string>, imaginary: bool)
    | Quoted(q: char, body: string)

  const MARKS := map[
    '{' := ObjOpen, '}' := ObjClose, '[' := ListOpen, ']' := ListClose, '(' := ArgsOpen, ')' := ArgsClose,
    ':' := Colon, '=' := Equals, '!' := Required, '@' := Directive]

  predicate NameByte(c: char) {
    'a' <= c <= 'z' || 'A' <= c <= 'Z' || '0' <= c <= '9' || c == '_'
  }

  predicate AllDigits(s: string) {
    forall c <- s :: '0' <= c <= '9'
  }

  function Fraction(f: Option<string>): string {
    if f.None? then "" else "." + f.value
  }

  function Text(l: Lexeme): string {
    match l
    case Gap(c) => [c]
    case Comment(line, end) => "#" + line + [end]
    case Mark(c) => [c]
    case ThreeDots => "..."
    case Var(name) => "$" + name
    case Word(name) => name
    case Numeral(sign, whole, fraction, imaginary) => sign + whole + Fraction(fraction) + if imaginary then "i" else ""
    case Quoted(q, body) => [q] + body + [q]
  }

  /** The bytes are those of the lower-case word, each in either case. */
  predicate AnyCase(s: string, word: string) {
    |s| == |word| && forall k | 0 <= k < |s| :: s[k] == word[k] || ('A' <= s[k] <= 'Z' && s[k] as int + 32 == word[k] as int)
  }

  /** The token, or none, that a lexeme is read as. */
  ghost predicate ReadAs(l: Lexeme, ts: seq<Token>) {
    match l
    case Gap(_) => ts == []
    case Comment(_, _) => ts == []
    case Mark(c) => c in MARKS && ts == [MARKS[c]]
    case ThreeDots => ts == [Spread]
    case Var(name) => ts == [Variable(name)]
    case Word(name) =>
      if AnyCase(name, "on") then ts == [On]
      else if AnyCase(name, "true") then ts == [BoolVal("true")]
      else if AnyCase(name, "false") then ts == [BoolVal("false")]
      else ts == [Name(name)]
    case Numeral(_, _, _, _) => ts == [NumberVal(Text(l))]
    case Quoted(_, body) => ts == [StringVal(body)]
  }

  predicate Spelt(l: Lexeme) {
    match l
    case Gap(c) => c in " ,\t\r\n"
    case Comment(line, end) => '\r' !in line && '\n' !in line && end in "\r\n"
    case Mark(c) => c in MARKS
    case ThreeDots => true
    case Var(name) => name != "" && forall c <- name :: NameByte(c)
    case Word(name) => name != "" && !('0' <= name[0] <= '9') && forall c <- name :: NameByte(c)
    case Numeral(sign, whole, fraction, _) =>
      sign in {"", "+", "-"} && AllDigits(whole) && (sign == "" ==> whole != "") && (fraction.Some? ==> AllDigits(fraction.value))
    case Quoted(q, body) => q in "\"'" && q !in body && '\\' !in body
  }

  /** What may stand behind a lexeme: no byte that would continue it. A word is not the last thing in a text. */
  predicate Apart(l: Lexeme, rest: string) {
    match l
    case ThreeDots => rest == "" || rest[0] != '.'
    case Var(_) => rest == "" || !NameByte(rest[0])
    case Word(_) => rest != "" && !NameByte(rest[0])
    case Numeral(_, _, fraction, imaginary) =>
      rest == "" || (!NameByte(rest[0]) && (rest[0] == '.' ==> fraction.Some? || imaginary))
    case _ => true
  }

  // ---- One lexeme ----

  lemma ReadsGap(c: char, rest: string)
    requires c in " ,\t\r\n"
    ensures Lex("", [c] + rest) == Lex("", rest)
  {
    LexBlank(c, rest);
  }

  lemma {:induction false} LineEnds(line: string, end: char, rest: string)
    requires '\r' !in line && '\n' !in line && end in "\r\n"
    ensures AfterLine(line + [end] + rest) == rest
  {
    var s := line + [end] + rest;
    if line == "" {
      assert s[0] == end && s[1..] == rest;
    } else {
      assert s[0] == line[0] && s[1..] == line[1..] + [end] + rest;
      LineEnds(line[1..], end, rest);
    }
  }

  lemma ReadsComment(line: string, end: char, rest: string)
    requires '\r' !in line && '\n' !in line && end in "\r\n"
    ensures Lex("", "#" + line + [end] + rest) == Lex("", rest)
  {
    var s := "#" + line + [end] + rest;
    assert s[0] == '#' && s[1..] == line + [end] + rest;
    LineEnds(line, end, rest);
    assert Next("", s) == Go([], "", rest);
    PutNothing(Lex("", rest));
  }

  lemma MarkIsPunct(c: char)
    requires c in MARKS && c != '!' && c != '@'
    ensures IsPunct(c) && PunctToken(c) == MARKS[c]
  {
  }

  lemma MarkMove(c: char, s: string)
    requires (c == '!' || c == '@') && s != "" && s[0] == c
    ensures Lex("", s) == Put([MARKS[c]], Lex("", s[1..]))
  {
    assert Next("", s) == SimpleMove(c, s[1..]);
  }

  lemma ReadsMark(c: char, rest: string)
    requires c in MARKS
    ensures Lex("", [c] + rest) == Put([MARKS[c]], Lex("", rest))
  {
    if c == '!' || c == '@' {
      MarkMove(c, [c] + rest);
      assert ([c] + rest)[1..] == rest;
    } else {
      MarkIsPunct(c);
      LexPunct(c, rest);
    }
  }

  lemma ReadsDots(rest: string)
    requires rest == "" || rest[0] != '.'
    ensures Lex("", "..." + rest) == Put([Spread], Lex("", rest))
  {
    var s, two, one := "..." + rest, ".." + rest, "." + rest;
    assert s[0] == '.' && s[1..] == two && two == "." + one;
    NextAtDot("", s);
    TwoDots("", one);
    assert "" + ".." == "..";
    PutNothing(Lex("..", one));
    LastDot(rest);
  }

  lemma LastDot(rest: string)
    requires rest == "" || rest[0] != '.'
    ensures Lex("..", "." + rest) == Put([Spread], Lex("", rest))
  {
    var one := "." + rest;
    assert one[0] == '.' && one[1..] == rest;
    assert AllDots("..") by {
      assert ".."[1..] == ".";
    }
    NextAtDot("..", one);
    assert rest[..0] == "" && rest[0..] == rest && ".." + "." + "" == "...";
  }

  lemma {:induction false} NameRuns(v: string, rest: string)
    requires (forall c <- v :: NameByte(c)) && (rest == "" || !NameByte(rest[0]))
    ensures NameRun(v + rest) == |v|
  {
    if v == "" {
      assert v + rest == rest;
    } else {
      assert (v + rest)[0] == v[0] && (v + rest)[1..] == v[1..] + rest && v[0] in v;
      NameRuns(v[1..], rest);
    }
  }

  lemma ReadsVar(v: string, rest: string)
    requires v != "" && (forall c <- v :: NameByte(c)) && (rest == "" || !NameByte(rest[0]))
    ensures Lex("", "$" + v + rest) == Put([Variable(v)], Lex("", rest))
  {
    NameRuns(v, rest);
    BehindDollar(v, rest);
    VarTaken(v, rest, "$" + v + rest, v + rest);
  }

  lemma BehindDollar(v: string, rest: string)
    ensures ("$" + v + rest)[0] == '$' && ("$" + v + rest)[1..] == v + rest
  {
  }

  lemma VarTaken(v: string, rest: string, s: string, t: string)
    requires v != "" && t == v + rest && NameRun(t) == |v| && s != "" && s[0] == '$' && s[1..] == t
    ensures Lex("", s) == Put([Variable(v)], Lex("", rest))
  {
    assert t[..|v|] == v && t[|v|..] == rest;
    assert Next("", s) == SimpleMove('$', t);
  }

  lemma CaseFolds(s: string, word: string)
    requires forall c <- word :: 'a' <= c <= 'z'
    ensures AnyCase(s, word) <==> Lower(s) == word
  {
    var l := Lower(s);
    if AnyCase(s, word) {
      forall k | 0 <= k < |s| ensures l[k] == word[k] {
        assert word[k] in word;
      }
    }
    if l == word {
      forall k | 0 <= k < |s| ensures s[k] == word[k] || ('A' <= s[k] <= 'Z' && s[k] as int + 32 == word[k] as int) {
        assert l[k] == word[k];
      }
    }
  }

  lemma WordReadAs(v: string)
    ensures ReadAs(Word(v), [WordToken(v)])
  {
    CaseFolds(v, "on");
    CaseFolds(v, "true");
    CaseFolds(v, "false");
  }

  lemma ReadsWord(v: string, rest: string)
    requires Spelt(Word(v)) && Apart(Word(v), rest)
    ensures Lex("", v + rest) == Put([WordToken(v)], Lex("", rest))
  {
    var s := v + rest;
    NameRuns(v, rest);
    assert s[0] == v[0] && v[0] in v;
    WordNext(v[0], s);
    assert s[..|v|] == v && s[|v|..] == rest && "" + v == v;
  }

  lemma WordNext(c: char, s: string)
    requires s != "" && s[0] == c && NameByte(c) && !('0' <= c <= '9')
    ensures Next("", s) == NameMove("", s)
  {
    NoPunct(c);
  }

  lemma {:induction false} DigitRuns(v: string, rest: string)
    requires AllDigits(v) && (rest == "" || !('0' <= rest[0] <= '9'))
    ensures DigitRun(v + rest) == |v|
  {
    if v == "" {
      assert v + rest == rest;
    } else {
      assert (v + rest)[0] == v[0] && (v + rest)[1..] == v[1..] + rest && v[0] in v;
      assert forall c <- v[1..] :: c in v;
      DigitRuns(v[1..], rest);
    }
  }

  lemma SignRuns(sign: string, whole: string, rest: string)
    requires sign in {"", "+", "-"} && AllDigits(whole) && (sign == "" ==> whole != "")
    requires rest == "" || !('0' <= rest[0] <= '9')
    ensures WholeRun(sign + whole + rest) == |sign + whole|
  {
    var s := sign + whole + rest;
    assert s[|sign|..] == whole + rest;
    DigitRuns(whole, rest);
    if sign == "" {
      assert s[0] == whole[0] && whole[0] in whole;
    } else {
      assert s[0] == sign[0];
    }
  }

  lemma FractionRuns(f: Option<string>, rest: string)
    requires f.Some? ==> AllDigits(f.value)
    requires rest == "" || (!('0' <= rest[0] <= '9') && (rest[0] == '.' ==> f.Some?))
    ensures FractionRun(Fraction(f) + rest) == |Fraction(f)|
  {
    if f.Some? {
      var s := "." + f.value + rest;
      assert s[0] == '.' && s[1..] == f.value + rest;
      DigitRuns(f.value, rest);
    } else {
      assert "" + rest == rest;
    }
  }

  lemma PartsRun(a: string, b: string, i: string, rest: string)
    requires WholeRun(a + (b + (i + rest))) == |a| && FractionRun(b + (i + rest)) == |b| && Taken(i + rest, "i") == |i|
    ensures NumberRun(a + b + i + rest) == |a + b + i|
  {
    var s := a + b + i + rest;
    assert s == a + (b + (i + rest)) && s[|a|..] == b + (i + rest) && s[|a| + |b|..] == i + rest;
  }

  lemma NumeralRuns(l: Lexeme, rest: string)
    requires l.Numeral? && Spelt(l) && Apart(l, rest)
    ensures NumberRun(Text(l) + rest) == |Text(l)|
  {
    var b, i := Fraction(l.fraction), if l.imaginary then "i" else "";
    SignRuns(l.sign, l.whole, b + (i + rest));
    FractionRuns(l.fraction, i + rest);
    PartsRun(l.sign + l.whole, b, i, rest);
  }

  lemma ReadsNumeral(l: Lexeme, rest: string)
    requires l.Numeral? && Spelt(l) && Apart(l, rest)
    ensures Lex("", Text(l) + rest) == Put([NumberVal(Text(l))], Lex("", rest))
  {
    var v, s := Text(l), Text(l) + rest;
    NumeralRuns(l, rest);
    NumeralStarts(l, rest);
    NumberNext("", s[0], s);
    assert s[..|v|] == v && s[|v|..] == rest && "" + v == v;
  }

  /** A number with a name behind it is refused. */
  lemma NumeralRefused(l: Lexeme, rest: string)
    requires l.Numeral? && Spelt(l) && !l.imaginary && rest != "" && NameByte(rest[0]) && rest[0] != 'i' && !('0' <= rest[0] <= '9')
    ensures Lex("", Text(l) + rest) == BadText
  {
    var v, b := Text(l), Fraction(l.fraction);
    SignRuns(l.sign, l.whole, b + ("" + rest));
    FractionRuns(l.fraction, "" + rest);
    PartsRun(l.sign + l.whole, b, "", rest);
    NumeralStarts(l, rest);
    assert (v + rest)[|v|..] == rest;
    NumberNext("", (v + rest)[0], v + rest);
  }

  lemma NumeralStarts(l: Lexeme, rest: string)
    requires l.Numeral? && Spelt(l)
    ensures var s := Text(l) + rest;
      s != "" && (s[0] in "+-" || Digit(s[0])) && AllDots("")
  {
    assert (Text(l) + rest)[0] == if l.sign == "" then l.whole[0] else l.sign[0];
    assert l.sign == "" ==> l.whole[0] in l.whole;
  }

  lemma ReadsQuoted(q: char, body: string, rest: string)
    requires Spelt(Quoted(q, body))
    ensures Lex("", [q] + body + [q] + rest) == Put([StringVal(body)], Lex("", rest))
  {
    var s, t := [q] + body + [q] + rest, body + [q] + rest;
    assert s[0] == q && s[1..] == t;
    CloseIsFirst(t, q, false);
    assert ClosesAt(t, q, false, |body|);
    forall i | 0 <= i < |body| ensures !ClosesAt(t, q, false, i) {
      assert t[i] == body[i] && body[i] in body;
    }
    assert FindClose(t, q, false) == |body|;
    assert t[..|body|] == body && t[|body| + 1..] == rest;
    UnescapePlain(body);
    NoPunct(q);
    assert Next("", s) == StringMove(q, t);
  }

  // ---- Whole texts ----

  /** A lexeme with something behind it that does not continue it is read as its token. */
  lemma LexemeRead(l: Lexeme, rest: string) returns (ts: seq<Token>)
    requires Spelt(l) && Apart(l, rest)
    ensures ReadAs(l, ts) && Lex("", Text(l) + rest) == Put(ts, Lex("", rest))
  {
    ts := [];
    PutNothing(Lex("", rest));
    match l
    case Gap(c) => ReadsGap(c, rest);
    case Comment(line, end) => ReadsComment(line, end, rest);
    case Mark(c) => ReadsMark(c, rest); ts := [MARKS[c]];
    case ThreeDots => ReadsDots(rest); ts := [Spread];
    case Var(name) => ReadsVar(name, rest); ts := [Variable(name)];
    case Word(name) => WordReadAs(name); ReadsWord(name, rest); ts := [WordToken(name)];
    case Numeral(_, _, _, _) => ReadsNumeral(l, rest); ts := [NumberVal(Text(l))];
    case Quoted(q, body) => ReadsQuoted(q, body, rest); ts := [StringVal(body)];
  }

  function Texts(ls: seq<Lexeme>): string {
    if ls == [] then "" else Text(ls[0]) + Texts(ls[1..])
  }

  /** Every lexeme is spelled, and what follows does not continue it. */
  predicate Written(ls: seq<Lexeme>) {
    ls == [] || (Spelt(ls[0]) && Apart(ls[0], Texts(ls[1..])) && Written(ls[1..]))
  }

  ghost predicate AllReadAs(ls: seq<Lexeme>, ts: seq<Token>) {
    if ls == [] then ts == []
    else exists k | 0 <= k <= |ts| :: ReadAs(ls[0], ts[..k]) && AllReadAs(ls[1..], ts[k..])
  }

  /** A text of lexemes is read as their tokens and the end. */
  lemma {:induction false} TextIsRead(ls: seq<Lexeme>) returns (ts: seq<Token>)
    requires Written(ls)
    ensures AllReadAs(ls, ts) && Lex("", Texts(ls)) == Lexed(ts + [Eof])
  {
    if ls == [] {
      ts := [];
      assert [] + [Eof] == [Eof];
    } else {
      var t := LexemeRead(ls[0], Texts(ls[1..]));
      var rest := TextIsRead(ls[1..]);
      ts := t + rest;
      assert ts[..|t|] == t && ts[|t|..] == rest;
      assert t + (rest + [Eof]) == ts + [Eof];
    }
  }

  /** A byte outside of names, strings and comments that starts no lexeme is refused. */
  lemma OtherByteRefused(c: char, rest: string)
    requires !NameByte(c) && c !in MARKS && c !in " ,\t\r\n#$\"'.+-|"
    ensures Lex("", [c] + rest) == BadText
  {
    var s := [c] + rest;
    assert s[0] == c && s[1..] == rest;
    NoPunct(c);
  }
}
