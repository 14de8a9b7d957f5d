/**
 Scripts as SQL reads them: words, strings, quoted names, comments and blocks.
 The splitter cuts every script exactly at the semicolons between them.
 */
module SqlGrammar {
  import opened SqlScript

  // ---- Tokens ----

  /**
   A token of a script. Quotes inside a string or a quoted name are doubled when it is spelled; the open ones have no
   end of their own, so the text ends in them.
   */
  datatype Token =
    | Word(text: string) | Sign(c: char) | Dash | Semicolon
    | Str(body: string) | Name(body: string) | Comment(body: string)
    | OpenStr(body: string) | OpenName(body: string) | OpenComment(body: string)

  predicate WordChar(c: char) {
    c == '_' || '0' <= c <= '9' || 'A' <= c <= 'Z' || 'a' <= c <= 'z'
  }

  function Doubled(s: string, quote: char): string {
    if s == "" then "" else (if s[0] == quote then [quote, quote] else [s[0]]) + Doubled(s[1..], quote)
  }

  function Spelling(t: Token): string {
    match t
    case Word(text) => text
    case Sign(c) => [c]
    case Dash => "-"
    case Semicolon => ";"
    case Str(body) => "'" + Doubled(body, '\'') + "'"
    case Name(body) => "\"" + Doubled(body, '"') + "\""
    case Comment(body) => "--" + body + "\n"
    case OpenStr(body) => "'" + Doubled(body, '\'')
    case OpenName(body) => "\"" + Doubled(body, '"')
    case OpenComment(body) => "--" + body
  }

  function Texts(ts: seq<Token>): (r: seq<string>)
    ensures |r| == |ts|
  {
    seq(|ts|, i requires 0 <= i < |ts| => Spelling(ts[i]))
  }

  function Concat(ws: seq<string>): string {
    if ws == [] then "" else ws[0] + Concat(ws[1..])
  }

  function Spell(ts: seq<Token>): string {
    Concat(Texts(ts))
  }

  predicate IsOpen(t: Token) {
    t.OpenStr? || t.OpenName? || t.OpenComment?
  }

  predicate TokenOk(t: Token) {
    match t
    case Word(text) => text != "" && forall c <- text :: WordChar(c)
    case Sign(c) => !WordChar(c) && c !in {'\'', '"', ';', '-'}
    case Comment(body) => '\n' !in body
    case OpenComment(body) => '\n' !in body
    case _ => true
  }

  /** t and u stand for themselves when one follows the other. */
  predicate Apart(t: Token, u: Token) {
    && !(t.Word? && u.Word?)
    && !(t.Dash? && (u.Dash? || u.Comment? || u.OpenComment?))
    && !(t.Str? && (u.Str? || u.OpenStr?))
    && !(t.Name? && (u.Name? || u.OpenName?))
  }

  predicate Tokens(ts: seq<Token>) {
    && (forall i {:trigger ts[i]} :: 0 <= i < |ts| ==> TokenOk(ts[i]))
    && (forall i {:trigger Joined(ts, i)} :: 0 <= i < |ts| - 1 ==> Joined(ts, i))
  }

  predicate Joined(ts: seq<Token>, i: int)
    requires 0 <= i < |ts| - 1
  {
    !IsOpen(ts[i]) && Apart(ts[i], ts[i + 1])
  }

  // ---- Statements ----

  /** The word is kw, in any case. */
  predicate Says(text: string, kw: string) {
    |text| == |kw| && forall i :: 0 <= i < |kw| ==> text[i] == kw[i] || (text[i] as int == kw[i] as int + 32)
  }

  /** How many blocks are open behind the token: BEGIN opens one, and END closes the last one, if there is one. */
  function Level(level: nat, t: Token): nat {
    if t.Word? && Says(t.text, "BEGIN") then level + 1
    else if t.Word? && Says(t.text, "END") && level > 0 then level - 1
    else level
  }

  /** The statements: cut at the semicolons outside of all blocks. */
  function Statements(ts: seq<Token>, level: nat, cur: seq<Token>): seq<seq<Token>>
    decreases |ts|
  {
    if ts == [] then [cur]
    else if ts[0].Semicolon? && level == 0 then [cur] + Statements(ts[1..], 0, [])
    else Statements(ts[1..], Level(level, ts[0]), cur + [ts[0]])
  }

  function Spelled(stmts: seq<seq<Token>>): seq<string> {
    if stmts == [] then [] else [Spell(stmts[0])] + Spelled(stmts[1..])
  }

  lemma {:induction false} ConcatAppend(ws: seq<string>, w: string)
    ensures Concat(ws + [w]) == Concat(ws) + w
  {
    if ws == [] {
      assert [w][1..] == [];
    } else {
      assert (ws + [w])[1..] == ws[1..] + [w];
      ConcatAppend(ws[1..], w);
    }
  }

  lemma SpellOne(ts: seq<Token>, t: Token)
    ensures Spell(ts + [t]) == Spell(ts) + Spelling(t)
  {
    assert Texts(ts + [t]) == Texts(ts) + [Spelling(t)];
    ConcatAppend(Texts(ts), Spelling(t));
  }

  lemma TextsFirst(ts: seq<Token>)
    requires ts != []
    ensures Texts(ts)[0] == Spelling(ts[0]) && Texts(ts)[1..] == Texts(ts[1..])
  {
  }

  // ---- One token ----

  /** The text from p on starts with w. */
  predicate At(q: string, p: nat, w: string) {
    p + |w| <= |q| && forall k {:trigger w[k]} :: 0 <= k < |w| ==> q[p + k] == w[k]
  }

  lemma AtSlice(q: string, p: nat, w: string)
    requires At(q, p, w)
    ensures q[p..p + |w|] == w
  {
  }

  lemma AtSplit(q: string, p: nat, u: string, w: string)
    requires At(q, p, u + w)
    ensures At(q, p, u) && At(q, p + |u|, w)
  {
    forall k | 0 <= k < |u| ensures q[p + k] == u[k] {
      assert (u + w)[k] == u[k];
    }
    forall k | 0 <= k < |w| ensures q[p + |u| + k] == w[k] {
      assert (u + w)[|u| + k] == w[k];
    }
  }

  lemma AtByte(q: string, p: nat, w: string)
    requires At(q, p, w) && w != ""
    ensures q[p] == w[0] && At(q, p + 1, w[1..])
  {
    assert w[0] == q[p + 0];
    forall k | 0 <= k < |w[1..]| ensures q[p + 1 + k] == w[1..][k] {
      assert w[k + 1] == w[1..][k];
    }
  }

  /** The byte at p, if there is one, is not c. */
  predicate NotAt(q: string, p: nat, c: char) {
    p < |q| ==> q[p] != c
  }

  /** The state after n more bytes have been copied, in the given mode. */
  function Ahead(q: string, x: Split, n: nat, mode: Mode): Split
    requires x.i + n <= |q|
  {
    x.(i := x.i + n, mode := mode, buf := x.buf + q[x.i..x.i + n])
  }

  lemma AheadTwice(q: string, x: Split, n: nat, mode: Mode, k: nat, mode': Mode)
    requires x.i + n + k <= |q|
    ensures Ahead(q, Ahead(q, x, n, mode), k, mode') == Ahead(q, x, n + k, mode')
  {
    SliceTwice(q, x.i, n, k, x.buf);
  }

  lemma SliceTwice(q: string, i: nat, n: nat, k: nat, buf: string)
    requires i + n + k <= |q|
    ensures buf + q[i..i + n] + q[i + n..i + n + k] == buf + q[i..i + n + k]
  {
    assert q[i..i + n] + q[i + n..i + n + k] == q[i..i + n + k];
  }

  lemma AheadNone(q: string, x: Split)
    requires x.i <= |q|
    ensures Ahead(q, x, 0, x.mode) == x
  {
    assert q[x.i..x.i] == "" && x.buf + "" == x.buf;
  }

  predicate Inside(mode: Mode, quote: char) {
    (mode == InString && quote == '\'') || (mode == InQuote && quote == '"')
  }

  lemma DoubledFirst(body: string, quote: char)
    requires body != ""
    ensures Doubled(body, quote) == (if body[0] == quote then [quote, quote] else [body[0]]) + Doubled(body[1..], quote)
  {
  }

  /** What is inside of a string or a quoted name is passed, however many quotes are doubled in it. */
  lemma {:induction false} RunBody(q: string, run: Split -> seq<string>, x: Split, body: string, quote: char)
    requires IsRun(q, run) && Inside(x.mode, quote) && At(q, x.i, Doubled(body, quote))
    ensures run(x) == run(Ahead(q, x, |Doubled(body, quote)|, x.mode))
    decreases |body|
  {
    if body == "" {
      AheadNone(q, x);
    } else {
      DoubledFirst(body, quote);
      var n := if body[0] == quote then 2 else 1;
      AtSplit(q, x.i, if n == 2 then [quote, quote] else [body[0]], Doubled(body[1..], quote));
      QuotedStep(q, x, quote, body[0]);
      var y := Ahead(q, x, n, x.mode);
      assert Step(q, x) == y;
      RunBody(q, run, y, body[1..], quote);
      AheadTwice(q, x, n, x.mode, |Doubled(body[1..], quote)|, x.mode);
    }
  }

  lemma QuotedStep(q: string, x: Split, quote: char, c: char)
    requires Inside(x.mode, quote) && At(q, x.i, if c == quote then [quote, quote] else [c])
    ensures x.i < |q| && Step(q, x) == Ahead(q, x, if c == quote then 2 else 1, x.mode)
  {
    var w := if c == quote then [quote, quote] else [c];
    AtByte(q, x.i, w);
    if c == quote {
      AtByte(q, x.i + 1, w[1..]);
    }
  }

  /** From a quote to behind the one that closes it. */
  lemma RunQuoted(q: string, run: Split -> seq<string>, x: Split, body: string, quote: char)
    requires IsRun(q, run) && x.mode == Plain && quote in {'\'', '"'}
    requires At(q, x.i, [quote] + Doubled(body, quote) + [quote]) && NotAt(q, x.i + |Doubled(body, quote)| + 2, quote)
    ensures run(x) == run(Ahead(q, x, |Doubled(body, quote)| + 2, Plain))
  {
    var d := Doubled(body, quote);
    AtSplit(q, x.i, [quote] + d, [quote]);
    var y := RunOpened(q, run, x, body, quote);
    AtByte(q, y.i, [quote]);
    var z := Ahead(q, y, 1, Plain);
    assert Step(q, y) == z;
    AheadTwice(q, x, |d| + 1, y.mode, 1, Plain);
  }

  /** From a quote to behind what it opens. */
  lemma RunOpened(q: string, run: Split -> seq<string>, x: Split, body: string, quote: char) returns (y: Split)
    requires IsRun(q, run) && x.mode == Plain && quote in {'\'', '"'}
    requires At(q, x.i, [quote] + Doubled(body, quote))
    ensures Inside(y.mode, quote) && y == Ahead(q, x, |Doubled(body, quote)| + 1, y.mode) && run(x) == run(y)
  {
    var d, mode := Doubled(body, quote), if quote == '"' then InQuote else InString;
    AtSplit(q, x.i, [quote], d);
    AtByte(q, x.i, [quote]);
    assert Nested(q, x.i, x.depth) == x.depth;
    var z := Ahead(q, x, 1, mode);
    assert Step(q, x) == z;
    RunBody(q, run, z, body, quote);
    AheadTwice(q, x, 1, mode, |d|, mode);
    y := Ahead(q, z, |d|, mode);
  }

  /** What is inside of a comment is passed. */
  lemma {:induction false} RunCommented(q: string, run: Split -> seq<string>, x: Split, body: string)
    requires IsRun(q, run) && x.mode == InComment && At(q, x.i, body) && '\n' !in body
    ensures run(x) == run(Ahead(q, x, |body|, InComment))
    decreases |body|
  {
    if body == "" {
      AheadNone(q, x);
    } else {
      AtByte(q, x.i, body);
      assert body[0] in body;
      var y := Ahead(q, x, 1, InComment);
      assert Step(q, x) == y;
      RunCommented(q, run, y, body[1..]);
      AheadTwice(q, x, 1, InComment, |body| - 1, InComment);
    }
  }

  /** From two dashes to the end of the line, or of what is left. */
  lemma RunDashes(q: string, run: Split -> seq<string>, x: Split, body: string)
    requires IsRun(q, run) && x.mode == Plain && At(q, x.i, "--" + body) && '\n' !in body
    ensures run(x) == run(Ahead(q, x, |body| + 2, InComment))
  {
    AtSplit(q, x.i, "--", body);
    AtByte(q, x.i, "--");
    AtByte(q, x.i + 1, "-");
    assert Nested(q, x.i, x.depth) == x.depth;
    var y := Ahead(q, x, 2, InComment);
    assert Step(q, x) == y;
    RunCommented(q, run, y, body);
    AheadTwice(q, x, 2, InComment, |body|, InComment);
  }

  lemma RunComment(q: string, run: Split -> seq<string>, x: Split, body: string)
    requires IsRun(q, run) && x.mode == Plain && At(q, x.i, "--" + body + "\n") && '\n' !in body
    ensures run(x) == run(Ahead(q, x, |body| + 3, Plain))
  {
    AtSplit(q, x.i, "--" + body, "\n");
    RunDashes(q, run, x, body);
    var y := Ahead(q, x, |body| + 2, InComment);
    AtByte(q, y.i, "\n");
    assert Step(q, y) == Ahead(q, y, 1, Plain);
    AheadTwice(q, x, |body| + 2, InComment, 1, Plain);
  }

  // ---- Words ----

  /** A keyword stands at the start of a word exactly if it is the word. */
  lemma WordIsKeyword(q: string, p: nat, w: string, kw: string)
    requires At(q, p, w) && TokenOk(Word(w)) && (p > 0 ==> !WordChar(q[p - 1])) && (p + |w| < |q| ==> !WordChar(q[p + |w|]))
    requires kw in {"BEGIN", "END"}
    ensures IsKeyword(q, p, kw) == Says(w, kw)
  {
    forall i | 0 <= i < |w| ensures q[p + i] == w[i] && WordChar(w[i]) {
      assert w[i] in w;
    }
    forall i | 0 <= i < |kw| && p + i < |q|
      ensures i < |w| ==> (Upper(q[p + i]) == kw[i] <==> w[i] == kw[i] || w[i] as int == kw[i] as int + 32)
    {
    }
    if |w| < |kw| && p + |w| < |q| {
      KeywordLetter(q[p + |w|], kw, |w|);
    }
    assert |w| > |kw| ==> q[p + |kw|] == w[|kw|] && WordByte(w[|kw|]);
  }

  lemma KeywordLetter(c: char, kw: string, i: nat)
    requires kw in {"BEGIN", "END"} && i < |kw| && !WordChar(c)
    ensures Upper(c) != kw[i]
  {
  }

  /** Inside of a word no keyword starts. */
  lemma InWordNoKeyword(q: string, p: nat, depth: nat)
    requires 0 < p < |q| && WordChar(q[p - 1])
    ensures Nested(q, p, depth) == depth
  {
  }

  lemma {:induction false} RunLetters(q: string, run: Split -> seq<string>, x: Split, w: string)
    requires IsRun(q, run) && x.mode == Plain && At(q, x.i, w) && x.i > 0 && WordChar(q[x.i - 1]) && forall c <- w :: WordChar(c)
    ensures run(x) == run(Ahead(q, x, |w|, Plain))
    decreases |w|
  {
    if w == "" {
      AheadNone(q, x);
    } else {
      AtByte(q, x.i, w);
      assert w[0] in w && forall c <- w[1..] :: c in w;
      InWordNoKeyword(q, x.i, x.depth);
      var y := Ahead(q, x, 1, Plain);
      assert Step(q, x) == y;
      RunLetters(q, run, y, w[1..]);
      AheadTwice(q, x, 1, Plain, |w| - 1, Plain);
    }
  }

  lemma RunWord(q: string, run: Split -> seq<string>, x: Split, w: string)
    requires IsRun(q, run) && x.mode == Plain && At(q, x.i, w) && TokenOk(Word(w))
    requires (x.i > 0 ==> !WordChar(q[x.i - 1])) && (x.i + |w| < |q| ==> !WordChar(q[x.i + |w|]))
    ensures run(x) == run(Ahead(q, x, |w|, Plain).(depth := Level(x.depth, Word(w))))
  {
    var level := Level(x.depth, Word(w));
    var y := RunFirstLetter(q, run, x, w);
    RunLetters(q, run, y, w[1..]);
    assert Ahead(q, y, |w| - 1, Plain) == Ahead(q, x, |w|, Plain).(depth := level) by {
      AheadTwice(q, x.(depth := level), 1, Plain, |w| - 1, Plain);
    }
  }

  lemma RunFirstLetter(q: string, run: Split -> seq<string>, x: Split, w: string) returns (y: Split)
    requires IsRun(q, run) && x.mode == Plain && At(q, x.i, w) && TokenOk(Word(w))
    requires (x.i > 0 ==> !WordChar(q[x.i - 1])) && (x.i + |w| < |q| ==> !WordChar(q[x.i + |w|]))
    ensures y == Ahead(q, x.(depth := Level(x.depth, Word(w))), 1, Plain) && run(x) == run(y)
    ensures At(q, y.i, w[1..]) && WordChar(q[x.i]) && forall c <- w[1..] :: WordChar(c)
  {
    AtByte(q, x.i, w);
    assert w[0] in w && forall c <- w[1..] :: c in w;
    WordIsKeyword(q, x.i, w, "BEGIN");
    WordIsKeyword(q, x.i, w, "END");
    FirstLetter(q, x, w);
    y := Step(q, x);
  }

  lemma FirstLetter(q: string, x: Split, w: string)
    requires x.i < |q| && x.mode == Plain && w != "" && q[x.i] == w[0] && WordChar(w[0])
    requires IsKeyword(q, x.i, "BEGIN") == Says(w, "BEGIN") && IsKeyword(q, x.i, "END") == Says(w, "END")
    ensures Step(q, x) == Ahead(q, x.(depth := Level(x.depth, Word(w))), 1, Plain)
  {
    assert Nested(q, x.i, x.depth) == Level(x.depth, Word(w));
  }

  // ---- Whole scripts ----

  /** The bytes around the token keep it what it is. */
  predicate Bounded(q: string, p: nat, t: Token)
    requires p + |Spelling(t)| <= |q|
  {
    match t
    case Word(text) => (p > 0 ==> !WordChar(q[p - 1])) && (p + |text| < |q| ==> !WordChar(q[p + |text|]))
    case Dash => NotAt(q, p + 1, '-')
    case Str(body) => NotAt(q, p + |Doubled(body, '\'')| + 2, '\'')
    case Name(body) => NotAt(q, p + |Doubled(body, '"')| + 2, '"')
    case _ => true
  }

  /** A token that does not cut is passed and copied as it is. */
  lemma RunToken(q: string, run: Split -> seq<string>, x: Split, t: Token)
    requires IsRun(q, run) && x.mode == Plain && TokenOk(t) && !IsOpen(t) && At(q, x.i, Spelling(t)) && Bounded(q, x.i, t)
    requires t.Semicolon? ==> x.depth > 0
    ensures run(x) == run(Split(x.i + |Spelling(t)|, Plain, Level(x.depth, t), x.buf + Spelling(t), x.parts))
  {
    AtSlice(q, x.i, Spelling(t));
    match t
    case Word(text) => RunWord(q, run, x, text);
    case Str(body) => RunQuoted(q, run, x, body, '\'');
    case Name(body) => RunQuoted(q, run, x, body, '"');
    case Comment(body) => RunComment(q, run, x, body);
    case _ => RunSign(q, run, x, t);
  }

  lemma RunSign(q: string, run: Split -> seq<string>, x: Split, t: Token)
    requires IsRun(q, run) && x.mode == Plain && TokenOk(t) && (t.Sign? || t.Dash? || t.Semicolon?)
    requires At(q, x.i, Spelling(t)) && Bounded(q, x.i, t) && (t.Semicolon? ==> x.depth > 0)
    ensures run(x) == run(Split(x.i + 1, Plain, x.depth, x.buf + Spelling(t), x.parts))
  {
    AtByte(q, x.i, Spelling(t));
    var c := q[x.i];
    assert !WordChar(c) && Nested(q, x.i, x.depth) == x.depth;
    assert Step(q, x) == Ahead(q, x, 1, Plain);
    assert q[x.i..x.i + 1] == [c];
  }

  /** The end of a text inside of a string, a quoted name or a comment. */
  lemma RunOpen(q: string, run: Split -> seq<string>, x: Split, t: Token)
    requires IsRun(q, run) && x.mode == Plain && TokenOk(t) && IsOpen(t) && At(q, x.i, Spelling(t)) && x.i + |Spelling(t)| == |q|
    ensures run(x) == x.parts + Kept([x.buf + Spelling(t)])
  {
    var y: Split;
    match t {
      case OpenStr(body) => y := RunOpened(q, run, x, body, '\'');
      case OpenName(body) => y := RunOpened(q, run, x, body, '"');
      case OpenComment(body) =>
        RunDashes(q, run, x, body);
        y := Ahead(q, x, |body| + 2, InComment);
    }
    AtSlice(q, x.i, Spelling(t));
    assert y.buf == x.buf + Spelling(t);
    KeptOne(y.buf, x.parts);
  }

  lemma KeptOne(s: string, parts: seq<string>)
    ensures parts + Kept([s]) == AddKept(parts, s)
  {
    assert [s][1..] == [];
  }

  lemma KeptCut(s: string, rest: seq<string>, parts: seq<string>)
    ensures parts + Kept([s] + rest) == AddKept(parts, s) + Kept(rest)
  {
    assert ([s] + rest)[1..] == rest;
    if Trim(s) != "" {
      assert parts + ([Trim(s)] + Kept(rest)) == parts + [Trim(s)] + Kept(rest);
    } else {
      assert [] + Kept(rest) == Kept(rest);
    }
  }

  /** How a spelled token starts. */
  lemma SpellingStarts(t: Token)
    requires TokenOk(t)
    ensures var s := Spelling(t);
      && s != "" && (WordChar(s[0]) <==> t.Word?)
      && (s[0] == '-' <==> t.Dash? || t.Comment? || t.OpenComment?)
      && (s[0] == '\'' <==> t.Str? || t.OpenStr?) && (s[0] == '"' <==> t.Name? || t.OpenName?)
  {
    if t.Word? {
      assert t.text[0] in t.text;
    }
  }

  /** How it ends. */
  lemma SpellingEnds(t: Token)
    requires TokenOk(t) && !t.Word? && !IsOpen(t)
    ensures var s := Spelling(t);
      s != "" && !WordChar(s[|s| - 1])
  {
  }

  /** What is left of the text from p on is spelled by ts, and nothing in front of it joins its first word. */
  ghost predicate Left(q: string, p: nat, ts: seq<Token>) {
    && At(q, p, Spell(ts)) && p + |Spell(ts)| == |q| && Tokens(ts)
    && (ts != [] && ts[0].Word? && p > 0 ==> !WordChar(q[p - 1]))
  }

  lemma AtEdges(q: string, p: nat, w: string)
    requires At(q, p, w) && w != ""
    ensures q[p] == w[0] && q[p + |w| - 1] == w[|w| - 1]
  {
    assert w[0] == q[p + 0];
  }

  lemma TokensDrop(ts: seq<Token>)
    requires ts != [] && Tokens(ts)
    ensures Tokens(ts[1..]) && TokenOk(ts[0]) && (|ts| > 1 ==> !IsOpen(ts[0]) && Apart(ts[0], ts[1]))
  {
    assert |ts| > 1 ==> Joined(ts, 0);
    forall i {:trigger Joined(ts[1..], i)} | 0 <= i < |ts| - 2 ensures Joined(ts[1..], i) {
      assert Joined(ts, i + 1);
    }
  }

  lemma TokenAt(q: string, p: nat, ts: seq<Token>)
    requires ts != [] && At(q, p, Spell(ts))
    ensures var n := |Spelling(ts[0])|;
      At(q, p, Spelling(ts[0])) && At(q, p + n, Spell(ts[1..])) && |Spell(ts)| == n + |Spell(ts[1..])|
  {
    ConcatAt(q, p, Texts(ts));
    TextsFirst(ts);
  }

  lemma ConcatAt(q: string, p: nat, ws: seq<string>)
    requires ws != [] && At(q, p, Concat(ws))
    ensures At(q, p, ws[0]) && At(q, p + |ws[0]|, Concat(ws[1..])) && |Concat(ws)| == |ws[0]| + |Concat(ws[1..])|
  {
    AtSplit(q, p, ws[0], Concat(ws[1..]));
  }

  /** Behind a token that is no word. */
  lemma TokenEnds(q: string, p: nat, t: Token)
    requires TokenOk(t) && !t.Word? && !IsOpen(t) && At(q, p, Spelling(t))
    ensures |Spelling(t)| > 0 && !WordChar(q[p + |Spelling(t)| - 1])
  {
    SpellingEnds(t);
    AtEdges(q, p, Spelling(t));
  }

  lemma TokenLeft(q: string, p: nat, ts: seq<Token>)
    requires ts != [] && Left(q, p, ts)
    ensures var n := |Spelling(ts[0])|;
      && At(q, p, Spelling(ts[0])) && TokenOk(ts[0])
      && (IsOpen(ts[0]) ==> p + n == |q| && ts == [ts[0]])
      && (!IsOpen(ts[0]) ==> Left(q, p + n, ts[1..]) && (|ts| > 1 ==> Apart(ts[0], ts[1])))
  {
    TokensDrop(ts);
    TokenAt(q, p, ts);
    if !ts[0].Word? && !IsOpen(ts[0]) {
      TokenEnds(q, p, ts[0]);
    }
  }

  /** The token is bounded by what follows it. */
  lemma TokenBounded(q: string, p: nat, t: Token, rest: seq<Token>)
    requires TokenOk(t) && At(q, p, Spelling(t)) && !IsOpen(t) && (t.Word? && p > 0 ==> !WordChar(q[p - 1]))
    requires Left(q, p + |Spelling(t)|, rest) && (rest != [] ==> Apart(t, rest[0]))
    ensures Bounded(q, p, t)
  {
    if rest != [] {
      NextByte(q, p + |Spelling(t)|, rest);
    }
  }

  lemma NextByte(q: string, p: nat, rest: seq<Token>)
    requires rest != [] && Left(q, p, rest)
    ensures p < |q| && (WordChar(q[p]) <==> rest[0].Word?)
    ensures (q[p] == '-' <==> rest[0].Dash? || rest[0].Comment? || rest[0].OpenComment?)
    ensures (q[p] == '\'' <==> rest[0].Str? || rest[0].OpenStr?) && (q[p] == '"' <==> rest[0].Name? || rest[0].OpenName?)
  {
    TokenAt(q, p, rest);
    SpellingStarts(rest[0]);
    AtByte(q, p, Spelling(rest[0]));
  }

  /** The texts of the statements that are not blank, trimmed. */
  function Cut(ts: seq<Token>, level: nat, cur: seq<Token>): seq<string> {
    Kept(Spelled(Statements(ts, level, cur)))
  }

  lemma {:induction false} RunTokens(q: string, run: Split -> seq<string>, p: nat, ts: seq<Token>, level: nat, cur: seq<Token>, parts: seq<string>)
    requires IsRun(q, run) && Left(q, p, ts)
    ensures run(Split(p, Plain, level, Spell(cur), parts)) == parts + Cut(ts, level, cur)
    decreases |ts|
  {
    if ts == [] {
      NothingLeft(q, run, p, level, cur, parts);
    } else {
      var n, rest := |Spelling(ts[0])|, ts[1..];
      TokenLeft(q, p, ts);
      if IsOpen(ts[0]) {
        OpenLeft(q, run, p, ts, level, cur, parts);
      } else if ts[0].Semicolon? && level == 0 {
        RunTokens(q, run, p + n, rest, 0, [], AddKept(parts, Spell(cur)));
        PassCut(q, run, p, ts, cur, parts);
      } else {
        RunTokens(q, run, p + n, rest, Level(level, ts[0]), cur + [ts[0]], parts);
        PassToken(q, run, p, ts, level, cur, parts);
      }
    }
  }

  lemma OpenLeft(q: string, run: Split -> seq<string>, p: nat, ts: seq<Token>, level: nat, cur: seq<Token>, parts: seq<string>)
    requires IsRun(q, run) && ts != [] && IsOpen(ts[0]) && Left(q, p, ts)
    ensures run(Split(p, Plain, level, Spell(cur), parts)) == parts + Cut(ts, level, cur)
  {
    TokenLeft(q, p, ts);
    SpellOne(cur, ts[0]);
    RunOpen(q, run, Split(p, Plain, level, Spell(cur), parts), ts[0]);
    LastCut(ts[0], level, cur);
  }

  lemma PassCut(q: string, run: Split -> seq<string>, p: nat, ts: seq<Token>, cur: seq<Token>, parts: seq<string>)
    requires IsRun(q, run) && ts != [] && ts[0].Semicolon? && Left(q, p, ts)
    requires run(Split(p + |Spelling(ts[0])|, Plain, 0, Spell([]), AddKept(parts, Spell(cur)))) == AddKept(parts, Spell(cur)) + Cut(ts[1..], 0, [])
    ensures run(Split(p, Plain, 0, Spell(cur), parts)) == parts + Cut(ts, 0, cur)
  {
    TokenAt(q, p, ts);
    AtByte(q, p, ";");
    RunSeparator(q, run, p, Spell(cur), parts);
    CutHere(ts, cur, parts);
  }

  lemma PassToken(q: string, run: Split -> seq<string>, p: nat, ts: seq<Token>, level: nat, cur: seq<Token>, parts: seq<string>)
    requires IsRun(q, run) && ts != [] && Left(q, p, ts) && !IsOpen(ts[0]) && (ts[0].Semicolon? ==> level > 0)
    requires var t := ts[0];
      run(Split(p + |Spelling(t)|, Plain, Level(level, t), Spell(cur + [t]), parts)) == parts + Cut(ts[1..], Level(level, t), cur + [t])
    ensures run(Split(p, Plain, level, Spell(cur), parts)) == parts + Cut(ts, level, cur)
  {
    TokenLeft(q, p, ts);
    TokenBounded(q, p, ts[0], ts[1..]);
    SpellOne(cur, ts[0]);
    RunToken(q, run, Split(p, Plain, level, Spell(cur), parts), ts[0]);
    CutLater(ts, level, cur);
  }

  lemma CutLater(ts: seq<Token>, level: nat, cur: seq<Token>)
    requires ts != [] && !(ts[0].Semicolon? && level == 0)
    ensures Cut(ts, level, cur) == Cut(ts[1..], Level(level, ts[0]), cur + [ts[0]])
  {
    assert Statements(ts, level, cur) == Statements(ts[1..], Level(level, ts[0]), cur + [ts[0]]);
  }

  lemma NothingLeft(q: string, run: Split -> seq<string>, p: nat, level: nat, cur: seq<Token>, parts: seq<string>)
    requires IsRun(q, run) && p == |q|
    ensures run(Split(p, Plain, level, Spell(cur), parts)) == parts + Cut([], level, cur)
  {
    KeptOne(Spell(cur), parts);
    assert [cur][1..] == [];
    assert Spelled([cur]) == [Spell(cur)];
  }

  lemma LastCut(t: Token, level: nat, cur: seq<Token>)
    requires !t.Semicolon?
    ensures Cut([t], level, cur) == Kept([Spell(cur + [t])])
  {
    assert [t][1..] == [];
    var all := [cur + [t]];
    assert Statements([], Level(level, t), cur + [t]) == all;
    assert all[1..] == [] && Spelled(all) == [Spell(cur + [t])];
  }

  lemma CutHere(ts: seq<Token>, cur: seq<Token>, parts: seq<string>)
    requires ts != [] && ts[0].Semicolon?
    ensures parts + Cut(ts, 0, cur) == AddKept(parts, Spell(cur)) + Cut(ts[1..], 0, [])
  {
    var others := Statements(ts[1..], 0, []);
    var all := [cur] + others;
    assert Statements(ts, 0, cur) == all;
    assert all[0] == cur && all[1..] == others;
    assert Spelled(all) == [Spell(cur)] + Spelled(others);
    KeptCut(Spell(cur), Spelled(others), parts);
  }

  /**
   Every script is cut exactly at the semicolons outside of strings, quoted names, comments and BEGIN .. END: the parts
   are the statements between them, trimmed, without the blank ones.
   */
  lemma ScriptIsCut(ts: seq<Token>)
    requires Tokens(ts)
    ensures Run(Spell(ts), START) == Kept(Spelled(Statements(ts, 0, [])))
  {
    var q := Spell(ts);
    var run := TheRun(q);
    assert q[0..|q|] == q;
    RunTokens(q, run, 0, ts, 0, [], []);
    assert [] + Cut(ts, 0, []) == Cut(ts, 0, []);
  }

  // ---- Every text is a script ----

  lemma {:induction false} QuotedSplit(text: string, quote: char) returns (body: string, closed: bool, rest: string)
    ensures if closed then text == Doubled(body, quote) + [quote] + rest && |rest| < |text| && (rest != "" ==> rest[0] != quote)
            else text == Doubled(body, quote) && rest == ""
    decreases |text|
  {
    if text == "" {
      body, closed, rest := "", false, "";
    } else if text[0] == quote && (|text| == 1 || text[1] != quote) {
      body, closed, rest := "", true, text[1..];
      assert text == [quote] + rest && "" + [quote] + rest == [quote] + rest;
    } else {
      var n := if text[0] == quote then 2 else 1;
      var c := text[0];
      body, closed, rest := QuotedSplit(text[n..], quote);
      assert text[..n] == if n == 2 then [quote, quote] else [c];
      assert text == text[..n] + text[n..];
      assert ([c] + body)[1..] == body;
      var d := Doubled(body, quote);
      body := [c] + body;
      assert Doubled(body, quote) == text[..n] + d;
      if closed {
        assert text[..n] + (d + [quote] + rest) == text[..n] + d + [quote] + rest;
      }
    }
  }

  lemma {:induction false} LineSplit(text: string) returns (body: string, closed: bool, rest: string)
    ensures '\n' !in body
    ensures if closed then text == body + "\n" + rest && |rest| < |text| else text == body && rest == ""
    decreases |text|
  {
    if text == "" {
      body, closed, rest := "", false, "";
    } else if text[0] == '\n' {
      body, closed, rest := "", true, text[1..];
      assert text == "\n" + rest && "" + "\n" + rest == "\n" + rest;
    } else {
      body, closed, rest := LineSplit(text[1..]);
      assert text == [text[0]] + text[1..];
      if closed {
        assert [text[0]] + (body + "\n" + rest) == [text[0]] + body + "\n" + rest;
      }
      body := [text[0]] + body;
    }
  }

  lemma {:induction false} WordSplit(text: string) returns (word: string, rest: string)
    ensures text == word + rest && (rest != "" ==> !WordChar(rest[0])) && forall c <- word :: WordChar(c)
    ensures text != "" && WordChar(text[0]) ==> word != ""
    decreases |text|
  {
    if text == "" || !WordChar(text[0]) {
      word, rest := "", text;
    } else {
      word, rest := WordSplit(text[1..]);
      assert text == [text[0]] + text[1..] && [text[0]] + (word + rest) == [text[0]] + word + rest;
      word := [text[0]] + word;
    }
  }

  /** The first token of a text and what follows it. */
  lemma FirstToken(text: string) returns (t: Token, rest: string)
    requires text != ""
    ensures TokenOk(t) && text == Spelling(t) + rest && |rest| < |text| && Followed(t, rest)
  {
    var c, tail := text[0], text[1..];
    assert text == [c] + tail;
    if WordChar(c) {
      var w;
      w, rest := WordSplit(text);
      t := Word(w);
    } else if c == '\'' || c == '"' {
      t, rest := QuotedToken(tail, c);
      assert [c] + tail == Spelling(t) + rest;
    } else if c == '-' && tail != "" && tail[0] == '-' {
      t, rest := CommentToken(tail[1..]);
      assert text == "--" + tail[1..];
    } else {
      rest := tail;
      t := if c == ';' then Semicolon else if c == '-' then Dash else Sign(c);
    }
  }

  /** What may follow a token so that it stands for itself. */
  predicate Followed(t: Token, rest: string) {
    && (IsOpen(t) ==> rest == "")
    && (rest != "" ==>
          match t
          case Word(_) => !WordChar(rest[0])
          case Dash => rest[0] != '-'
          case Str(_) => rest[0] != '\''
          case Name(_) => rest[0] != '"'
          case _ => true)
  }

  lemma QuotedToken(tail: string, quote: char) returns (t: Token, rest: string)
    requires quote in {'\'', '"'}
    ensures TokenOk(t) && [quote] + tail == Spelling(t) + rest && |rest| <= |tail| && Followed(t, rest)
  {
    var body, closed;
    body, closed, rest := QuotedSplit(tail, quote);
    var d := Doubled(body, quote);
    if closed {
      t := if quote == '"' then Name(body) else Str(body);
      assert Spelling(t) == [quote] + d + [quote];
      assert [quote] + (d + [quote] + rest) == [quote] + d + [quote] + rest;
    } else {
      t := if quote == '"' then OpenName(body) else OpenStr(body);
      assert Spelling(t) == [quote] + d && [quote] + d + "" == [quote] + d;
    }
  }

  lemma CommentToken(tail: string) returns (t: Token, rest: string)
    ensures TokenOk(t) && "--" + tail == Spelling(t) + rest && |rest| <= |tail| && Followed(t, rest)
  {
    var body, closed;
    body, closed, rest := LineSplit(tail);
    if closed {
      t := Comment(body);
      assert "--" + (body + "\n" + rest) == "--" + body + "\n" + rest;
    } else {
      t := OpenComment(body);
      assert "--" + body + "" == "--" + body;
    }
  }

  lemma SpellCons(t: Token, ts: seq<Token>)
    ensures Spell([t] + ts) == Spelling(t) + Spell(ts)
  {
    var all := Texts([t] + ts);
    assert all == [Spelling(t)] + Texts(ts);
    assert all[1..] == Texts(ts);
  }

  lemma TokensCons(t: Token, ts: seq<Token>)
    requires TokenOk(t) && Tokens(ts) && Followed(t, Spell(ts))
    ensures Tokens([t] + ts)
  {
    var all := [t] + ts;
    if ts != [] {
      SpellCons(ts[0], ts[1..]);
      assert ts == [ts[0]] + ts[1..];
      SpellingStarts(ts[0]);
      assert Spell(ts)[0] == Spelling(ts[0])[0];
      assert Apart(t, ts[0]);
    }
    forall i {:trigger Joined(all, i)} | 0 <= i < |all| - 1 ensures Joined(all, i) {
      if i > 0 {
        assert Joined(ts, i - 1);
      }
    }
  }

  /** So every text is spelled by tokens, and it is known how it is cut. */
  lemma {:induction false} EveryTextIsSpelled(text: string) returns (ts: seq<Token>)
    ensures Tokens(ts) && Spell(ts) == text
    decreases |text|
  {
    if text == "" {
      ts := [];
    } else {
      var t, rest := FirstToken(text);
      ts := EveryTextIsSpelled(rest);
      TokensCons(t, ts);
      SpellCons(t, ts);
      ts := [t] + ts;
    }
  }

  // ---- Trimming ----

  /** Trimming takes white space off both ends, all of it and nothing else. */
  lemma {:induction false} TrimMeans(s: string) returns (a: string, b: string)
    ensures s == a + Trim(s) + b && (forall c <- a + b :: Space(c))
    ensures Trim(s) != "" ==> !Space(Trim(s)[0]) && !Space(Trim(s)[|Trim(s)| - 1])
  {
    a := TrimsLeft(s);
    b := TrimsRight(TrimLeft(s));
    assert s == a + (Trim(s) + b) == a + Trim(s) + b;
  }

  lemma {:induction false} TrimsLeft(s: string) returns (a: string)
    ensures s == a + TrimLeft(s) && (forall c <- a :: Space(c)) && (TrimLeft(s) != "" ==> !Space(TrimLeft(s)[0]))
    decreases |s|
  {
    a := "";
    if s != "" && Space(s[0]) {
      a := TrimsLeft(s[1..]);
      assert s == [s[0]] + s[1..];
      a := [s[0]] + a;
    }
  }

  lemma {:induction false} TrimsRight(s: string) returns (b: string)
    ensures s == TrimRight(s) + b && (forall c <- b :: Space(c))
    ensures TrimRight(s) != "" ==> TrimRight(s)[0] == s[0] && !Space(TrimRight(s)[|TrimRight(s)| - 1])
    decreases |s|
  {
    b := "";
    if s != "" && Space(s[|s| - 1]) {
      var n := |s| - 1;
      b := TrimsRight(s[..n]);
      assert s == s[..n] + [s[n]];
      b := b + [s[n]];
    }
  }
}
