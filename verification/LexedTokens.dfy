/**
 What the lexer finds can be printed: the text of every name, number and
 variable it returns is read back as the same token.
 */
module LexedTokens {
  import opened Common
  import opened GraphSyntax
  import opened GraphLexer
  import opened QueryText

  /** The text of the token is read as this token. */
  predicate Printable(t: Token) {
    match t
    case Name(v) => PlainName(v)
    case Variable(v) => IsName(v)
    case NumberVal(v) => IsNumber(v)
    case BoolVal(v) => v in {"true", "false"}
    case _ => true
  }

  ghost predicate AllPrintable(ts: seq<Token>) {
    forall t <- ts :: Printable(t)
  }

  /** What is pending in front of a name or number: dots, but not three. */
  predicate Prefix(p: string) {
    HasPunct(p) || (AllDots(p) && |p| != 3)
  }

  // ---- The text of a run ----

  lemma {:induction false} NameRunPrefix(s: string)
    ensures NameRun(s[..NameRun(s)]) == NameRun(s)
  {
    if s != [] && Alnum(s[0]) {
      NameRunPrefix(s[1..]);
      assert s[..NameRun(s)][1..] == s[1..][..NameRun(s[1..])];
    }
  }

  lemma {:induction false} DigitRunPrefix(s: string, n: nat)
    requires DigitRun(s) <= n <= |s|
    ensures DigitRun(s[..n]) == DigitRun(s)
    decreases |s|
  {
    if s != [] && Digit(s[0]) {
      assert s[..n][1..] == s[1..][..n - 1];
      DigitRunPrefix(s[1..], n - 1);
    }
  }

  lemma WholeRunPrefix(s: string, n: nat)
    requires WholeRun(s) <= n <= |s| && n > 0
    ensures WholeRun(s[..n]) == WholeRun(s)
  {
    var a := Taken(s, "+-");
    assert Taken(s[..n], "+-") == a;
    assert s[..n][a..] == s[a..][..n - a];
    DigitRunPrefix(s[a..], n - a);
  }

  lemma FractionRunPrefix(s: string, n: nat)
    requires FractionRun(s) <= n <= |s|
    requires n == 0 ==> s == [] || s[0] != '.'
    ensures FractionRun(s[..n]) == FractionRun(s)
  {
    if n > 0 && s[0] == '.' {
      assert s[..n][1..] == s[1..][..n - 1];
      DigitRunPrefix(s[1..], n - 1);
    }
  }

  lemma NumberRunPrefix(s: string)
    requires s != [] && (s[0] in "+-" || Digit(s[0]))
    ensures IsNumeral(s[..NumberRun(s)])
  {
    var n := NumberRun(s);
    var w := s[..n];
    var a := WholeRun(s);
    WholeRunPrefix(s, n);
    assert w[a..] == s[a..][..n - a];
    FractionRunPrefix(s[a..], n - a);
    var b := a + FractionRun(s[a..]);
    assert w[b..] == s[b..][..n - b];
  }

  // ---- Tokens with dots in front ----

  lemma DotsBehind(p: string, w: string)
    requires AllDots(p) && |p| != 3 && w != [] && w[0] != '.'
    ensures Dots(p + w) == |p| && (p + w)[|p|..] == w
  {
    DotsAppend(p, w);
  }

  lemma NumberPrintable(p: string, s: string)
    requires AllDots(p) && |p| != 3 && s != [] && (s[0] in "+-" || Digit(s[0]))
    ensures Printable(NumberVal(p + s[..NumberRun(s)]))
  {
    NumberRunPrefix(s);
    DotsBehind(p, s[..NumberRun(s)]);
  }

  lemma WordPrintable(p: string, s: string)
    requires AllDots(p) && |p| != 3 && s != [] && Alnum(s[0]) && !Digit(s[0])
    ensures Printable(WordToken(p + s[..NameRun(s)]))
  {
    NameRunPrefix(s);
    DotsBehind(p, s[..NameRun(s)]);
  }

  lemma DotsStay(p: string, d: string)
    requires AllDots(p) && AllDots(d)
    ensures AllDots(p + d)
  {
    DotsAppend(p, d);
  }

  lemma DotMoveKeeps(p: string, rest: string)
    requires AllDots(p) && DotMove(p, rest).Go?
    ensures Prefix(DotMove(p, rest).pending)
  {
    assert Dots(".") == 1 && Dots("..") == 2 by { DotsTail(".."); }
    var n := Taken(rest, ".");
    var d := "." + rest[..n];
    assert d == "." || d == "..";
    DotsStay(p, d);
    var here := p + "." + rest[..n];
    assert here == p + d;
    if |here| == 3 {
      assert here == "..." by { ThreeDots(here); }
    }
  }

  lemma ThreeDots(p: string)
    requires AllDots(p) && |p| == 3
    ensures p == "..."
  {
    assert forall i :: 0 <= i < 3 ==> p[i] == '.';
  }

  lemma PunctStays(p: string, c: char)
    requires HasPunct(p)
    ensures HasPunct(p + [c])
  {
    var i :| 0 <= i < |p| && p[i] in "!():=[]{|}";
    assert (p + [c])[i] in "!():=[]{|}";
  }

  /** A move finds printable tokens, and never the end. */
  ghost predicate Finds(m: Move) {
    m.Go? ==> AllPrintable(m.found) && Eof !in m.found && Prefix(m.pending)
  }

  lemma SimpleFinds(c: char, rest: string)
    requires Simple(c)
    ensures Finds(SimpleMove(c, rest))
  {
    assert AllDots("");
    if c == '$' {
      NameRunPrefix(rest);
    }
  }

  lemma TokenFinds(p: string, c: char, s: string)
    requires AllDots(p) && |p| != 3 && s != [] && s[0] == c
    ensures Finds(TokenMove(p, c, s))
  {
    assert AllDots("");
    if c == '"' || c == '\'' {
    } else if c == '.' {
      if DotMove(p, s[1..]).Go? {
        DotMoveKeeps(p, s[1..]);
      }
    } else if c in "+-" || Digit(c) {
      NumberPrintable(p, s);
    } else if Alnum(c) {
      WordPrintable(p, s);
    }
  }

  lemma NextFinds(p: string, s: string)
    requires Prefix(p)
    ensures Finds(Next(p, s))
  {
    if s != [] {
      var c := s[0];
      if Simple(c) {
        SimpleFinds(c, s[1..]);
      } else if HasPunct(p + [c]) {
        assert AllDots("");
      } else {
        assert !HasPunct(p) by {
          if HasPunct(p) { PunctStays(p, c); }
        }
        TokenFinds(p, c, s);
      }
    }
  }

  /** All tokens of a text are printable, and the end stands behind all others. */
  lemma {:induction false} LexPrintable(p: string, s: string)
    requires Prefix(p) && Lex(p, s).Lexed?
    ensures var ts := Lex(p, s).tokens;
      AllPrintable(ts) && ts != [] && ts[|ts| - 1] == Eof && Ended(ts)
    decreases |s|
  {
    NextFinds(p, s);
    var m := Next(p, s);
    if m.Go? {
      LexPrintable(m.pending, m.rest);
      EndedBehind(m.found, Lex(m.pending, m.rest).tokens);
    }
  }

  lemma EndedBehind(a: seq<Token>, b: seq<Token>)
    requires Eof !in a && Ended(b)
    ensures Ended(a + b)
  {
    forall i {:trigger (a + b)[i]} | 0 <= i < |a + b| - 1 ensures (a + b)[i] != Eof {
      if i < |a| {
        assert a[i] in a;
      } else {
        assert b[i - |a|] != Eof;
      }
    }
  }

  lemma TextPrintable(text: string)
    requires Lex("", text).Lexed?
    ensures var ts := Lex("", text).tokens;
      AllPrintable(ts) && ts != [] && ts[|ts| - 1] == Eof && Ended(ts)
  {
    assert AllDots("");
    LexPrintable("", text);
  }
}
