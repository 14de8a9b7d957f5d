/**
 The lexer: what tokens a text has, and the scanner that finds them by moving
 two positions over it. Text that was passed over without a token, after "|"
 or ".", becomes part of the next one.
 */
module GraphLexer {
  import opened Common
  import opened GraphSyntax
  import opened StringValue

  datatype Lexed = BadText | Lexed(tokens: seq<Token>)

  predicate Blank(c: char) {
    c == ',' || c == ' ' || c == '\t' || LineEnd(c)
  }

  predicate LineEnd(c: char) {
    c == '\r' || c == '\n'
  }

  predicate Digit(c: char) {
    '0' <= c <= '9'
  }

  predicate Alnum(c: char) {
    c == '_' || Digit(c) || 'a' <= c <= 'z' || 'A' <= c <= 'Z'
  }

  /** The length of the name in front of s. */
  function NameRun(s: string): (n: nat)
    ensures n <= |s| && (n < |s| ==> !Alnum(s[n]))
  {
    if s == [] || !Alnum(s[0]) then 0 else 1 + NameRun(s[1..])
  }

  function DigitRun(s: string): (n: nat)
    ensures n <= |s|
  {
    if s == [] || !Digit(s[0]) then 0 else 1 + DigitRun(s[1..])
  }

  /** 1 if s starts with one of the bytes. */
  function Taken(s: string, bytes: string): (n: nat)
    ensures n <= |s| && n <= 1
  {
    if s != [] && s[0] in bytes then 1 else 0
  }

  function WholeRun(s: string): (n: nat)
    ensures n <= |s|
    ensures s != [] && (s[0] in "+-" || Digit(s[0])) ==> n > 0
  {
    var a := Taken(s, "+-");
    a + DigitRun(s[a..])
  }

  function FractionRun(s: string): (n: nat)
    ensures n <= |s|
  {
    if Taken(s, ".") == 1 then 1 + DigitRun(s[1..]) else 0
  }

  /** The length of the number in front of s: sign, digits, fraction, and an imaginary "i". */
  function NumberRun(s: string): (n: nat)
    ensures n <= |s|
    ensures s != [] && (s[0] in "+-" || Digit(s[0])) ==> n > 0
  {
    var a := WholeRun(s);
    var b := a + FractionRun(s[a..]);
    b + Taken(s[b..], "i")
  }

  lemma SuffixOf(s: string, i: nat, k: nat)
    requires i + k <= |s|
    ensures s[i..][k..] == s[i + k..]
  {
  }

  function AfterLine(s: string): (r: string)
    ensures |r| <= |s|
  {
    if s == [] then [] else if LineEnd(s[0]) then s[1..] else AfterLine(s[1..])
  }

  /** The token of a word: "on", "true" and "false" are recognised in any case. */
  function WordToken(val: string): Token {
    if Lower(val) == "on" then On
    else if Lower(val) == "true" || Lower(val) == "false" then BoolVal(Lower(val))
    else Name(val)
  }

  predicate IsPunct(c: char) {
    c in "{}[]():="
  }

  function PunctToken(c: char): Token
    requires IsPunct(c)
  {
    match c
    case '{' => ObjOpen
    case '}' => ObjClose
    case '[' => ListOpen
    case ']' => ListClose
    case '(' => ArgsOpen
    case ')' => ArgsClose
    case ':' => Colon
    case _ => Equals
  }

  predicate HasPunct(s: string) {
    exists i :: 0 <= i < |s| && s[i] in "!():=[]{|}"
  }

  function Put(ts: seq<Token>, r: Lexed): Lexed {
    if r.BadText? then r else Lexed(ts + r.tokens)
  }

  /** What the scanner does next: fail, end, or find tokens and leave passed-over text and the rest. */
  datatype Move = Bad | End | Go(found: seq<Token>, pending: string, rest: string)

  predicate Simple(c: char) {
    c in "#@!$" || Blank(c)
  }

  function SimpleMove(c: char, rest: string): Move {
    if c == '#' then Go([], "", AfterLine(rest))
    else if c == '@' then Go([Directive], "", rest)
    else if c == '!' then Go([Required], "", rest)
    else if c == '$' then
      var n := NameRun(rest);
      Go(if n > 0 then [Variable(rest[..n])] else [], "", rest[n..])
    else Go([], "", rest)
  }

  function StringMove(q: char, rest: string): Move {
    var k := FindClose(rest, q, false);
    if k < 0 then End else Go([StringVal(Unescape(rest[..k]))], "", rest[k + 1..])
  }

  function DotMove(pending: string, rest: string): Move {
    var n := Taken(rest, ".");
    var here := pending + "." + rest[..n];
    if here == "..." then Go([Spread], "", rest[n..]) else Go([], here, rest[n..])
  }

  /** A number of n bytes, unless a name follows at once. */
  function NumberMove(pending: string, s: string, n: nat): Move
    requires n <= |s|
  {
    if n < |s| && Alnum(s[n]) then Bad else Go([NumberVal(pending + s[..n])], "", s[n..])
  }

  /** A name that runs to the end of the text is dropped. */
  function NameMove(pending: string, s: string): Move {
    var n := NameRun(s);
    if n == |s| then End else Go([WordToken(pending + s[..n])], "", s[n..])
  }

  function TokenMove(pending: string, c: char, s: string): (m: Move)
    requires s != [] && s[0] == c
    ensures m.Go? ==> |m.rest| < |s|
  {
    if c == '"' || c == '\'' then StringMove(c, s[1..])
    else if c == '.' then DotMove(pending, s[1..])
    else if c in "+-" || Digit(c) then NumberMove(pending, s, NumberRun(s))
    else if Alnum(c) then NameMove(pending, s)
    else Bad
  }

  function Next(pending: string, s: string): (m: Move)
    ensures m.Go? ==> |m.rest| < |s|
  {
    if s == [] then End
    else
      var c, rest := s[0], s[1..];
      if Simple(c) then SimpleMove(c, rest)
      else if HasPunct(pending + [c]) then
        if IsPunct(c) then Go([PunctToken(c)], "", rest) else Go([], pending + [c], rest)
      else TokenMove(pending, c, s)
  }

  /** The tokens of s when pending was passed over just in front of it. */
  function Lex(pending: string, s: string): Lexed
    decreases |s|
  {
    match Next(pending, s)
    case Bad => BadText
    case End => Lexed([Eof])
    case Go(found, pending', rest) => Put(found, Lex(pending', rest))
  }

  class Lexer {
    const input: string
    var start: nat
    var pos: nat
    var items: seq<Token>
    var bad: bool

    ghost predicate Valid()
      reads this
    {
      start <= pos <= |input|
    }

    ghost function Pending(): string
      requires Valid()
      reads this
    {
      input[start..pos]
    }

    ghost function Left(): string
      requires Valid()
      reads this
    {
      input[pos..]
    }

    /** The scanner has made the move. */
    ghost predicate Went(more: bool, before: seq<Token>, m: Move)
      requires Valid()
      reads this
    {
      match m
      case Bad => bad && !more
      case End => !bad && !more && items == before + [Eof]
      case Go(found, pending, rest) =>
        !bad && more && items == before + found && Pending() == pending && Left() == rest
    }

    constructor (input: string)
      ensures Valid() && this.input == input && !bad && start == pos == 0 && items == []
    {
      this.input, start, pos, items, bad := input, 0, 0, [], false;
    }

    method Emit(t: Token)
      requires Valid()
      modifies this`items, this`start
      ensures Valid() && items == old(items) + [t] && start == pos
    {
      items := items + [t];
      start := pos;
    }

    method AcceptNameRun()
      requires Valid()
      modifies this`pos
      ensures Valid() && pos == old(pos) + NameRun(input[old(pos)..])
    {
      while pos < |input| && Alnum(input[pos])
        invariant Valid()
        invariant pos + NameRun(input[pos..]) == old(pos) + NameRun(input[old(pos)..])
        decreases |input| - pos
      {
        assert input[pos..][1..] == input[pos + 1..];
        pos := pos + 1;
      }
    }

    method AcceptDigitRun()
      requires Valid()
      modifies this`pos
      ensures Valid() && pos == old(pos) + DigitRun(input[old(pos)..])
    {
      while pos < |input| && Digit(input[pos])
        invariant Valid()
        invariant pos + DigitRun(input[pos..]) == old(pos) + DigitRun(input[old(pos)..])
        decreases |input| - pos
      {
        assert input[pos..][1..] == input[pos + 1..];
        pos := pos + 1;
      }
    }

    method Accept(bytes: string) returns (ok: bool)
      requires Valid()
      modifies this`pos
      ensures Valid() && pos == old(pos) + Taken(input[old(pos)..], bytes) && ok == (pos > old(pos))
    {
      ok := pos < |input| && input[pos] in bytes;
      if ok {
        pos := pos + 1;
      }
    }

    /** Sign and digits. */
    method ScanWhole()
      requires Valid()
      modifies this`pos
      ensures Valid() && pos == old(pos) + WholeRun(input[old(pos)..])
    {
      ghost var was := pos;
      var _ := Accept("+-");
      SuffixOf(input, was, pos - was);
      AcceptDigitRun();
    }

    /** A point and digits. */
    method ScanFraction()
      requires Valid()
      modifies this`pos
      ensures Valid() && pos == old(pos) + FractionRun(input[old(pos)..])
    {
      ghost var was := pos;
      var dot := Accept(".");
      if dot {
        SuffixOf(input, was, 1);
        AcceptDigitRun();
      }
    }

    method ScanNumber() returns (ok: bool)
      requires Valid()
      modifies this`pos
      ensures Valid() && pos == old(pos) + NumberRun(input[old(pos)..])
      ensures ok == !(pos < |input| && Alnum(input[pos]))
    {
      ghost var was := pos;
      ScanWhole();
      SuffixOf(input, was, pos - was);
      ScanFraction();
      SuffixOf(input, was, pos - was);
      var _ := Accept("i");
      ok := !(pos < |input| && Alnum(input[pos]));
    }

    method SkipComment()
      requires Valid()
      modifies this`pos
      ensures Valid() && pos >= old(pos) && input[pos..] == AfterLine(input[old(pos)..])
    {
      while pos < |input| && !LineEnd(input[pos])
        invariant Valid() && pos >= old(pos)
        invariant AfterLine(input[pos..]) == AfterLine(input[old(pos)..])
        decreases |input| - pos
      {
        assert input[pos..][1..] == input[pos + 1..];
        pos := pos + 1;
      }
      if pos < |input| {
        assert input[pos..][1..] == input[pos + 1..];
        pos := pos + 1;
      }
    }

    /** Moves to the closing quote of a string whose content begins at pos. */
    method ScanString(q: char) returns (closed: bool)
      requires Valid()
      modifies this`pos
      ensures Valid() && pos >= old(pos)
      ensures var k := FindClose(input[old(pos)..], q, false);
        closed == (k >= 0) && (closed ==> pos == old(pos) + k)
    {
      var escaped := false;
      while pos < |input|
        invariant Valid() && pos >= old(pos)
        invariant var k := FindClose(input[old(pos)..], q, false);
          var m := FindClose(input[pos..], q, escaped);
          (k < 0) == (m < 0) && (k >= 0 ==> old(pos) + k == pos + m)
        decreases |input| - pos
      {
        var r := input[pos];
        assert input[pos..][1..] == input[pos + 1..];
        if r == '\\' {
          escaped := true;
          pos := pos + 1;
          continue;
        }
        if !escaped && r == q {
          return true;
        }
        if escaped {
          escaped := false;
        }
        pos := pos + 1;
      }
      closed := false;
    }

    method LexString(q: char) returns (more: bool)
      requires Valid() && start == pos - 1 && input[start] == q && !bad
      modifies this
      ensures Valid() && pos >= old(pos)
      ensures Went(more, old(items), StringMove(q, old(Left())))
    {
      start := pos;
      ghost var was := pos;
      more := ScanString(q);
      if !more {
        Emit(Eof);
        return;
      }
      assert input[start..pos] == input[was..][..pos - was];
      var value := UnescapeValue(input[start..pos]);
      Emit(StringVal(value));
      pos := pos + 1;
      start := pos;
      SuffixOf(input, was, pos - was);
    }

    method LexNumber() returns (more: bool)
      requires Valid() && pos < |input| && (input[pos] in "+-" || Digit(input[pos])) && !bad
      modifies this
      ensures Valid() && pos > old(pos)
      ensures Went(more, old(items), NumberMove(old(Pending()), old(Left()), NumberRun(old(Left()))))
    {
      ghost var was := pos;
      ghost var s := input[pos..];
      ghost var n := NumberRun(s);
      more := ScanNumber();
      SuffixOf(input, was, n);
      Middle(input, start, was, was + n);
      assert input[start..pos] == old(Pending()) + s[..n] && Left() == s[n..];
      assert more == !(n < |s| && Alnum(s[n]));
      if !more {
        bad := true;
        return;
      }
      Emit(NumberVal(input[start..pos]));
    }

    method LexName() returns (more: bool)
      requires Valid() && pos < |input| && Alnum(input[pos]) && !bad
      modifies this
      ensures Valid() && pos > old(pos)
      ensures Went(more, old(items), NameMove(old(Pending()), old(Left())))
    {
      ghost var was := pos;
      AcceptNameRun();
      SuffixOf(input, was, pos - was);
      if pos == |input| {
        Emit(Eof);
        return false;
      }
      Middle(input, start, was, pos);
      Emit(WordToken(input[start..pos]));
      more := true;
    }

    /** White space, comments, directives, "!" and variables. */
    method LexSimple(c: char)
      requires Valid() && !bad && pos < |input| && c == input[pos] && Simple(c)
      modifies this
      ensures Valid() && pos > old(pos)
      ensures Went(true, old(items), SimpleMove(c, old(Left())[1..]))
    {
      SuffixOf(input, pos, 1);
      pos := pos + 1;
      start := pos;
      assert Left() == old(Left())[1..];
      if c == '#' {
        SkipComment();
        start := pos;
      } else if c == '@' {
        Emit(Directive);
      } else if c == '!' {
        Emit(Required);
      } else if c == '$' {
        LexVariable();
      }
    }

    /** What stands behind "$": a variable, if a name does. */
    method LexVariable()
      requires Valid() && !bad && start == pos
      modifies this
      ensures Valid() && pos >= old(pos) && start == pos && !bad
      ensures var rest := old(Left());
        var n := NameRun(rest);
        items == old(items) + (if n > 0 then [Variable(rest[..n])] else []) && Left() == rest[n..]
    {
      ghost var was := pos;
      AcceptNameRun();
      SuffixOf(input, was, pos - was);
      assert input[start..pos] == input[was..][..pos - was];
      if pos > start {
        Emit(Variable(input[start..pos]));
      }
    }

    method LexDot()
      requires Valid() && !bad && pos < |input| && input[pos] == '.'
      modifies this
      ensures Valid() && pos > old(pos)
      ensures Went(true, old(items), DotMove(old(Pending()), old(Left())[1..]))
    {
      SuffixOf(input, pos, 1);
      ghost var was, rest := pos, input[pos + 1..];
      pos := pos + 1;
      var _ := Accept(".");
      SuffixOf(input, was + 1, pos - was - 1);
      Middle(input, start, was, was + 1);
      Middle(input, start, was + 1, pos);
      assert input[was..][..1] == ".";
      assert input[start..pos] == old(Pending()) + "." + rest[..pos - was - 1];
      if input[start..pos] == "..." {
        Emit(Spread);
      }
    }

    /** Strings, numbers, names and dots. */
    method LexToken(c: char) returns (more: bool)
      requires Valid() && !bad && pos < |input| && input[pos] == c
      modifies this
      ensures Valid() && (more ==> pos > old(pos))
      ensures Went(more, old(items), TokenMove(old(Pending()), c, old(Left())))
    {
      SuffixOf(input, pos, 1);
      if c == '"' || c == '\'' {
        start, pos := pos, pos + 1;
        more := LexString(c);
      } else if c == '.' {
        LexDot();
        more := true;
      } else if c in "+-" || Digit(c) {
        more := LexNumber();
      } else if Alnum(c) {
        more := LexName();
      } else {
        bad, more := true, false;
      }
    }

    /** One call of the root state and of the state it hands over to. */
    method Step() returns (more: bool)
      requires Valid() && !bad
      modifies this
      ensures Valid() && (more ==> pos > old(pos))
      ensures Went(more, old(items), Next(old(Pending()), old(Left())))
    {
      if pos == |input| {
        Emit(Eof);
        return false;
      }
      var c := input[pos];
      SuffixOf(input, pos, 1);
      Middle(input, start, pos, pos + 1);
      assert input[pos..][..1] == [c];
      more := true;
      if Simple(c) {
        LexSimple(c);
      } else if HasPunct(input[start..pos + 1]) {
        pos := pos + 1;
        if IsPunct(c) {
          Emit(PunctToken(c));
        }
      } else {
        more := LexToken(c);
      }
    }

    /** Runs the states to the end. */
    method Run()
      requires Valid() && !bad && start == pos == 0 && items == []
      modifies this
      ensures Valid() && Lex("", input) == if bad then BadText else Lexed(items)
    {
      var more := true;
      assert Pending() == "" && Left() == input;
      ghost var whole := Lex("", input);
      PutNothing(whole);
      while more
        invariant Valid()
        invariant more ==> !bad && whole == Put(items, Lex(Pending(), Left()))
        invariant !more ==> whole == if bad then BadText else Lexed(items)
        decreases more, |input| - pos
      {
        ghost var before, tail := items, Lex(Pending(), Left());
        ghost var m := Next(Pending(), Left());
        more := Step();
        if m.Go? {
          PutTwice(before, m.found, Lex(m.pending, m.rest));
        }
      }
    }
  }

  lemma PutNothing(r: Lexed)
    ensures Put([], r) == r
  {
    assert r.Lexed? ==> [] + r.tokens == r.tokens;
  }

  lemma PutTwice(a: seq<Token>, b: seq<Token>, r: Lexed)
    ensures Put(a, Put(b, r)) == Put(a + b, r)
  {
    assert r.Lexed? ==> a + (b + r.tokens) == a + b + r.tokens;
  }

  lemma Middle(s: string, i: nat, j: nat, k: nat)
    requires i <= j <= k <= |s|
    ensures s[i..k] == s[i..j] + s[j..][..k - j]
  {
  }
}
