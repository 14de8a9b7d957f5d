/**
 Splitting a SQLite script into statements, and handing each statement its
 consecutive slice of the arguments.
 */
module SqlScript {

  // ---- Words and white space ----

  /** White space by the Unicode property. */
  predicate Space(c: char) {
    || '\t' <= c <= '\r' || c == ' ' || c == '\U{85}' || c == '\U{A0}' || c == '\U{1680}'
    || '\U{2000}' <= c <= '\U{200A}' || '\U{2028}' <= c <= '\U{2029}'
    || c == '\U{202F}' || c == '\U{205F}' || c == '\U{3000}'
  }

  function TrimLeft(s: string): string {
    if s != "" && Space(s[0]) then TrimLeft(s[1..]) else s
  }

  function TrimRight(s: string): string {
    if s != "" && Space(s[|s| - 1]) then TrimRight(s[..|s| - 1]) else s
  }

  function Trim(s: string): string {
    TrimRight(TrimLeft(s))
  }

  predicate WordByte(c: char) {
    'a' <= c <= 'z' || 'A' <= c <= 'Z' || '0' <= c <= '9' || c == '_'
  }

  function Upper(c: char): char {
    if 'a' <= c <= 'z' then (c as int - 32) as char else c
  }

  /** The word kw stands at i, in any case and not as part of a longer word. */
  predicate IsKeyword(q: string, i: nat, kw: string) {
    && i + |kw| <= |q|
    && (forall j | 0 <= j < |kw| :: Upper(q[i + j]) == kw[j])
    && (i > 0 ==> !WordByte(q[i - 1]))
    && (i + |kw| < |q| ==> !WordByte(q[i + |kw|]))
  }

  // ---- The automaton ----

  datatype Mode = Plain | InString | InQuote | InComment

  /** The state of a split: where it is, what it is inside of, and what it has collected. */
  datatype Split = Split(i: nat, mode: Mode, depth: nat, buf: string, parts: seq<string>)

  const START := Split(0, Plain, 0, "", [])

  /** The byte after i is c. */
  predicate Peeks(q: string, i: nat, c: char) {
    i + 1 < |q| && q[i + 1] == c
  }

  function Nested(q: string, i: nat, depth: nat): nat
    requires i < |q|
  {
    if Upper(q[i]) == 'B' && IsKeyword(q, i, "BEGIN") then depth + 1
    else if Upper(q[i]) == 'E' && IsKeyword(q, i, "END") && depth > 0 then depth - 1
    else depth
  }

  /** The bytes from i up to j have been copied, and the split goes on at j. */
  function Copy(q: string, x: Split, j: nat, mode: Mode): Split
    requires x.i <= j <= |q|
  {
    x.(i := j, mode := mode, buf := x.buf + q[x.i..j])
  }

  /** A statement separator: outside of everything. */
  predicate Separates(q: string, x: Split) {
    x.i < |q| && x.mode == Plain && q[x.i] == ';' && x.depth == 0
  }

  function Flush(x: Split): seq<string> {
    if Trim(x.buf) != "" then x.parts + [Trim(x.buf)] else x.parts
  }

  function Step(q: string, x: Split): (y: Split)
    requires x.i < |q|
    ensures x.i < y.i <= |q|
  {
    var c := q[x.i];
    match x.mode
    case InComment => Copy(q, x, x.i + 1, if c == '\n' then Plain else InComment)
    case InString =>
      if c == '\'' && Peeks(q, x.i, '\'') then Copy(q, x, x.i + 2, InString)
      else Copy(q, x, x.i + 1, if c == '\'' then Plain else InString)
    case InQuote =>
      if c == '"' && Peeks(q, x.i, '"') then Copy(q, x, x.i + 2, InQuote)
      else Copy(q, x, x.i + 1, if c == '"' then Plain else InQuote)
    case Plain =>
      var z := x.(depth := Nested(q, x.i, x.depth));
      if c == '\'' then Copy(q, z, x.i + 1, InString)
      else if c == '"' then Copy(q, z, x.i + 1, InQuote)
      else if c == '-' && Peeks(q, x.i, '-') then Copy(q, z, x.i + 2, InComment)
      else if c == ';' && z.depth == 0 then z.(i := x.i + 1, buf := "", parts := Flush(x))
      else Copy(q, z, x.i + 1, Plain)
  }

  function Run(q: string, x: Split): seq<string>
    requires x.i <= |q|
    decreases |q| - x.i
  {
    if x.i == |q| then Flush(x) else Run(q, Step(q, x))
  }

  /** `run` gives the result of the split from every state. */
  ghost predicate IsRun(q: string, run: Split -> seq<string>) {
    && (forall x: Split {:trigger Step(q, x)} | x.i < |q| :: run(x) == run(Step(q, x)))
    && (forall x: Split {:trigger run(x)} | x.i == |q| :: run(x) == Flush(x))
  }

  lemma TheRun(q: string) returns (run: Split -> seq<string>)
    ensures IsRun(q, run) && run(START) == Run(q, START)
  {
    run := (x: Split) => if x.i <= |q| then Run(q, x) else [];
  }

  /** One byte of a string or a quoted name, or a doubled quote; open tells whether it goes on. */
  method ScanQuoted(query: string, i: nat, quote: char, buf: string) returns (next: nat, grown: string, open: bool)
    requires i < |query|
    ensures open == (query[i] != quote || Peeks(query, i, quote))
    ensures next == if query[i] == quote && Peeks(query, i, quote) then i + 2 else i + 1
    ensures next <= |query| && grown == buf + query[i..next]
  {
    var c := query[i];
    open := true;
    if c == quote {
      if i + 1 < |query| && query[i + 1] == quote {
        assert query[i..i + 2] == [c] + [c];
        return i + 2, buf + [c] + [c], open;
      }
      open := false;
    }
    assert query[i..i + 1] == [c];
    next, grown := i + 1, buf + [c];
  }

  /** Counts a BEGIN or END that stands at i. */
  method ScanDepth(query: string, i: nat, depth: nat) returns (d: nat)
    requires i < |query|
    ensures d == Nested(query, i, depth)
  {
    d := depth;
    var c := query[i];
    if c == 'B' || c == 'b' {
      if IsKeyword(query, i, "BEGIN") {
        d := d + 1;
      }
    }
    if c == 'E' || c == 'e' {
      if IsKeyword(query, i, "END") {
        if d > 0 {
          d := d - 1;
        }
      }
    }
  }

  /** The modes of the split as the flags the loop keeps. */
  function ModeOf(inStr: bool, inQuote: bool, inComment: bool): Mode {
    if inComment then InComment else if inStr then InString else if inQuote then InQuote else Plain
  }

  method SplitQuery(query: string) returns (parts: seq<string>)
    ensures parts == Run(query, START)
  {
    parts := [];
    var buf := "";
    var inStr, inQuote, inComment := false, false, false;
    var depth: nat := 0;
    var i: nat := 0;
    ghost var run := TheRun(query);
    while i < |query|
      invariant i <= |query|
      invariant !(inComment && inStr) && !(inComment && inQuote) && !(inStr && inQuote)
      invariant run(Split(i, ModeOf(inStr, inQuote, inComment), depth, buf, parts)) == run(START)
    {
      var c := query[i];
      ghost var x := Split(i, ModeOf(inStr, inQuote, inComment), depth, buf, parts);
      assert run(x) == run(Step(query, x));
      assert query[i..i + 1] == [c];
      if inComment {
        if c == '\n' {
          inComment := false;
        }
        buf := buf + [c];
        i := i + 1;
        assert Step(query, x) == Split(i, ModeOf(inStr, inQuote, inComment), depth, buf, parts);
        continue;
      }
      if inStr {
        i, buf, inStr := ScanQuoted(query, i, '\'', buf);
        assert Step(query, x) == Split(i, ModeOf(inStr, inQuote, inComment), depth, buf, parts);
        continue;
      }
      if inQuote {
        i, buf, inQuote := ScanQuoted(query, i, '"', buf);
        assert Step(query, x) == Split(i, ModeOf(inStr, inQuote, inComment), depth, buf, parts);
        continue;
      }
      depth := ScanDepth(query, i, depth);
      if c == '\'' {
        inStr := true;
        buf := buf + [c];
      } else if c == '"' {
        inQuote := true;
        buf := buf + [c];
      } else if c == '-' {
        if i + 1 < |query| && query[i + 1] == '-' {
          inComment := true;
          assert query[i..i + 2] == [c] + ['-'];
          buf := buf + [c];
          i := i + 1;
          buf := buf + ['-'];
        } else {
          buf := buf + [c];
        }
      } else if c == ';' {
        if depth == 0 {
          var q := Trim(buf);
          if q != "" {
            parts := parts + [q];
          }
          buf := "";
        } else {
          buf := buf + [c];
        }
      } else {
        buf := buf + [c];
      }
      i := i + 1;
      assert Step(query, x) == Split(i, ModeOf(inStr, inQuote, inComment), depth, buf, parts);
    }
    var q := Trim(buf);
    if q != "" {
      parts := parts + [q];
    }
  }

  // ---- Statements ----

  /** From x on, the statement holds no separator of its own and ends outside of everything. */
  predicate ClosedFrom(s: string, x: Split)
    requires x.i <= |s|
    decreases |s| - x.i
  {
    if x.i == |s| then x.mode == Plain && x.depth == 0
    else !Separates(s, x) && ClosedFrom(s, Step(s, x))
  }

  predicate Closed(s: string) {
    ClosedFrom(s, START)
  }

  function Script(stmts: seq<string>): string {
    if stmts == [] then "" else stmts[0] + ";" + Script(stmts[1..])
  }

  /** The trimmed statements that are not blank. */
  function Kept(stmts: seq<string>): seq<string> {
    if stmts == [] then []
    else (if Trim(stmts[0]) != "" then [Trim(stmts[0])] else []) + Kept(stmts[1..])
  }

  /** The statement s stands in q at p, after a separator or at the start, and before a separator or the end. */
  predicate Placed(q: string, p: nat, s: string) {
    && p + |s| <= |q| && q[p..p + |s|] == s
    && (p > 0 ==> q[p - 1] == ';')
    && (p + |s| < |q| ==> q[p + |s|] == ';')
  }

  /** The state of the script's split that corresponds to the state x of the statement's own. */
  function Shifted(x: Split, p: nat, parts: seq<string>): Split {
    x.(i := p + x.i, parts := parts)
  }

  lemma KeywordPlaced(q: string, p: nat, s: string, i: nat, kw: string)
    requires Placed(q, p, s) && i < |s| && kw in {"BEGIN", "END"}
    ensures IsKeyword(q, p + i, kw) == IsKeyword(s, i, kw)
  {
    assert forall j | 0 <= j < |s| :: q[p + j] == s[j];
    if i + |kw| > |s| && p + i + |kw| <= |q| {
      assert q[p + i + (|s| - i)] == ';';
      assert Upper(';') != kw[|s| - i];
    }
  }

  lemma BytesPlaced(q: string, p: nat, s: string, i: nat, j: nat)
    requires Placed(q, p, s) && i <= j <= |s|
    ensures q[p + i..p + j] == s[i..j]
    ensures i < |s| ==> q[p + i] == s[i]
  {
    forall k | 0 <= k < |s| ensures q[p + k] == s[k] {
      assert q[p + k] == q[p..p + |s|][k];
    }
  }

  lemma PeeksPlaced(q: string, p: nat, s: string, i: nat, c: char)
    requires Placed(q, p, s) && i < |s| && c != ';'
    ensures Peeks(q, p + i, c) == Peeks(s, i, c)
  {
    if i + 1 < |s| {
      BytesPlaced(q, p, s, i + 1, i + 1);
    }
  }

  lemma NestedPlaced(q: string, p: nat, s: string, i: nat, depth: nat)
    requires Placed(q, p, s) && i < |s|
    ensures Nested(q, p + i, depth) == Nested(s, i, depth)
  {
    BytesPlaced(q, p, s, i, i);
    KeywordPlaced(q, p, s, i, "BEGIN");
    KeywordPlaced(q, p, s, i, "END");
  }

  /** Where a step goes and what it is inside of then, when it does not separate. */
  function Moved(q: string, x: Split): (nat, Mode)
    requires x.i < |q|
  {
    var c := q[x.i];
    match x.mode
    case InComment => (1, if c == '\n' then Plain else InComment)
    case InString =>
      if c == '\'' && Peeks(q, x.i, '\'') then (2, InString) else (1, if c == '\'' then Plain else InString)
    case InQuote =>
      if c == '"' && Peeks(q, x.i, '"') then (2, InQuote) else (1, if c == '"' then Plain else InQuote)
    case Plain =>
      if c == '\'' then (1, InString)
      else if c == '"' then (1, InQuote)
      else if c == '-' && Peeks(q, x.i, '-') then (2, InComment)
      else (1, Plain)
  }

  lemma StepMoves(q: string, x: Split)
    requires x.i < |q| && !Separates(q, x)
    ensures var (n, mode) := Moved(q, x);
      var depth := if x.mode == Plain then Nested(q, x.i, x.depth) else x.depth;
      x.i + n <= |q| && Step(q, x) == Split(x.i + n, mode, depth, x.buf + q[x.i..x.i + n], x.parts)
  {
  }

  lemma MovedPlaced(q: string, p: nat, s: string, x: Split, parts: seq<string>)
    requires Placed(q, p, s) && x.i < |s|
    ensures Moved(q, Shifted(x, p, parts)) == Moved(s, x)
  {
    BytesPlaced(q, p, s, x.i, x.i);
    PeeksPlaced(q, p, s, x.i, '\'');
    PeeksPlaced(q, p, s, x.i, '"');
    PeeksPlaced(q, p, s, x.i, '-');
  }

  lemma StepPlaced(q: string, p: nat, s: string, x: Split, parts: seq<string>)
    requires Placed(q, p, s) && x.i < |s| && !Separates(s, x)
    ensures Step(q, Shifted(x, p, parts)) == Shifted(Step(s, x), p, parts)
    ensures Step(s, x).buf == x.buf + s[x.i..Step(s, x).i]
  {
    var z := Shifted(x, p, parts);
    BytesPlaced(q, p, s, x.i, x.i);
    StepMoves(s, x);
    StepMoves(q, z);
    MovedPlaced(q, p, s, x, parts);
    NestedPlaced(q, p, s, x.i, x.depth);
    BytesPlaced(q, p, s, x.i, x.i + Moved(s, x).0);
  }

  /** The script's split passes a closed statement and has collected exactly its bytes. */
  lemma {:induction false} RunStatement(q: string, run: Split -> seq<string>, p: nat, s: string, x: Split, parts: seq<string>)
    requires IsRun(q, run) && Placed(q, p, s) && x.i <= |s| && ClosedFrom(s, x) && x.buf == s[..x.i]
    ensures run(Shifted(x, p, parts)) == run(Split(p + |s|, Plain, 0, s, parts))
    decreases |s| - x.i
  {
    if x.i == |s| {
      assert s[..x.i] == s;
    } else {
      StepPlaced(q, p, s, x, parts);
      var y := Step(s, x);
      assert y.buf == s[..y.i];
      RunStatement(q, run, p, s, y, parts);
    }
  }

  function AddKept(parts: seq<string>, s: string): seq<string> {
    if Trim(s) != "" then parts + [Trim(s)] else parts
  }

  /** Passing a separator: the collected statement is added, trimmed, unless it is blank. */
  lemma RunSeparator(q: string, run: Split -> seq<string>, p: nat, s: string, parts: seq<string>)
    requires IsRun(q, run) && p < |q| && q[p] == ';'
    ensures run(Split(p, Plain, 0, s, parts))
         == run(Split(p + 1, Plain, 0, "", AddKept(parts, s)))
  {
    var y := Step(q, Split(p, Plain, 0, s, parts));
  }

  /** The first statement of a script and what is behind it. */
  lemma FirstPlaced(q: string, p: nat, s: string, tail: string)
    requires p <= |q| && q[p..] == s + ";" + tail && (p > 0 ==> q[p - 1] == ';')
    ensures Placed(q, p, s) && p + |s| < |q| && q[p + |s|] == ';' && q[p + |s| + 1..] == tail
  {
    var r := q[p..];
    assert r[..|s|] == s && r[|s|] == ';' && r[|s| + 1..] == tail;
    assert q[p..p + |s|] == r[..|s|];
    assert q[p + |s|] == r[|s|];
    assert q[p + |s| + 1..] == r[|s| + 1..];
  }

  lemma RunFirst(q: string, run: Split -> seq<string>, p: nat, s: string, tail: string, parts: seq<string>)
    requires IsRun(q, run) && p <= |q| && q[p..] == s + ";" + tail && (p > 0 ==> q[p - 1] == ';') && Closed(s)
    ensures p + |s| < |q| && q[p + |s|] == ';' && q[p + |s| + 1..] == tail
    ensures run(Split(p, Plain, 0, "", parts)) == run(Split(p + |s| + 1, Plain, 0, "", AddKept(parts, s)))
  {
    FirstPlaced(q, p, s, tail);
    RunStatement(q, run, p, s, START, parts);
    RunSeparator(q, run, p + |s|, s, parts);
  }

  lemma ScriptFirst(text: string, stmts: seq<string>, last: string)
    requires stmts != [] && text == Script(stmts) + last
    ensures text == stmts[0] + ";" + (Script(stmts[1..]) + last)
  {
  }

  lemma {:induction false} RunScript(q: string, run: Split -> seq<string>, p: nat, stmts: seq<string>, last: string,
                                     parts: seq<string>)
    requires IsRun(q, run) && p <= |q| && q[p..] == Script(stmts) + last && (p > 0 ==> q[p - 1] == ';')
    requires Closed(last) && forall s <- stmts :: Closed(s)
    ensures run(Split(p, Plain, 0, "", parts)) == parts + Kept(stmts + [last])
    decreases |stmts|
  {
    if stmts == [] {
      assert q[p..] == last;
      RunStatement(q, run, p, last, START, parts);
      RunLast(q, run, last, parts);
    } else {
      var s, rest := stmts[0], stmts[1..];
      assert s in stmts && forall t <- rest :: t in stmts;
      var tail := Script(rest) + last;
      ScriptFirst(q[p..], stmts, last);
      RunFirst(q, run, p, s, tail, parts);
      RunScript(q, run, p + |s| + 1, rest, last, AddKept(parts, s));
      KeptFirst(stmts, last, parts);
    }
  }

  lemma KeptFirst(stmts: seq<string>, last: string, parts: seq<string>)
    requires stmts != []
    ensures parts + Kept(stmts + [last]) == AddKept(parts, stmts[0]) + Kept(stmts[1..] + [last])
  {
    assert (stmts + [last])[1..] == stmts[1..] + [last];
    var others := Kept(stmts[1..] + [last]);
    if Trim(stmts[0]) != "" {
      assert parts + ([Trim(stmts[0])] + others) == parts + [Trim(stmts[0])] + others;
    } else {
      assert [] + others == others;
    }
  }

  lemma RunLast(q: string, run: Split -> seq<string>, s: string, parts: seq<string>)
    requires IsRun(q, run)
    ensures run(Split(|q|, Plain, 0, s, parts)) == parts + Kept([] + [s])
  {
    assert [] + [s] == [s] && [s][1..] == [];
    assert Kept([s]) == (if Trim(s) != "" then [Trim(s)] else []) + [];
  }

  /** Splitting a script of closed statements gives the trimmed statements that are not blank, in order. */
  lemma SplitJoined(stmts: seq<string>, last: string)
    requires Closed(last) && forall s <- stmts :: Closed(s)
    ensures Run(Script(stmts) + last, START) == Kept(stmts + [last])
  {
    var q := Script(stmts) + last;
    assert q[0..] == q;
    var run := TheRun(q);
    RunScript(q, run, 0, stmts, last, []);
  }

  // ---- Nothing is lost or invented ----

  function Count(s: string, c: char): nat {
    if s == "" then 0 else (if s[0] == c then 1 else 0) + Count(s[1..], c)
  }

  function Total(parts: seq<string>, c: char): nat {
    if parts == [] then 0 else Count(parts[0], c) + Total(parts[1..], c)
  }

  lemma {:induction false} CountAppend(s: string, t: string, c: char)
    ensures Count(s + t, c) == Count(s, c) + Count(t, c)
  {
    if s == "" {
      assert s + t == t;
    } else {
      assert (s + t)[1..] == s[1..] + t;
      CountAppend(s[1..], t, c);
    }
  }

  lemma {:induction false} TotalAppend(a: seq<string>, p: string, c: char)
    ensures Total(a + [p], c) == Total(a, c) + Count(p, c)
  {
    if a == [] {
      assert a + [p] == [p] && [p][1..] == [];
    } else {
      assert (a + [p])[1..] == a[1..] + [p];
      TotalAppend(a[1..], p, c);
    }
  }

  lemma {:induction false} TrimRightKeeps(s: string, c: char)
    requires !Space(c)
    ensures Count(TrimRight(s), c) == Count(s, c)
  {
    if s != "" && Space(s[|s| - 1]) {
      var n := |s| - 1;
      assert s == s[..n] + [s[n]];
      CountAppend(s[..n], [s[n]], c);
      assert Count([s[n]], c) == 0 + Count([s[n]][1..], c);
      TrimRightKeeps(s[..n], c);
    }
  }

  lemma {:induction false} TrimLeftKeeps(s: string, c: char)
    requires !Space(c)
    ensures Count(TrimLeft(s), c) == Count(s, c)
  {
    if s != "" && Space(s[0]) {
      TrimLeftKeeps(s[1..], c);
    }
  }

  lemma FlushKeeps(x: Split, c: char)
    requires !Space(c)
    ensures Total(Flush(x), c) == Total(x.parts, c) + Count(x.buf, c)
  {
    TrimLeftKeeps(x.buf, c);
    TrimRightKeeps(TrimLeft(x.buf), c);
    TotalAppend(x.parts, Trim(x.buf), c);
  }

  lemma StepKeeps(q: string, x: Split, c: char)
    requires x.i < |q| && !Space(c) && c != ';'
    ensures var y := Step(q, x);
      Total(y.parts, c) + Count(y.buf, c) == Total(x.parts, c) + Count(x.buf, c) + Count(q[x.i..y.i], c)
  {
    var y := Step(q, x);
    if Separates(q, x) {
      FlushKeeps(x, c);
      assert q[x.i..y.i] == ";";
      assert Count(";", c) == 0 + Count(";"[1..], c);
    } else {
      CountAppend(x.buf, q[x.i..y.i], c);
    }
  }

  lemma {:induction false} RunKeeps(q: string, x: Split, c: char)
    requires x.i <= |q| && !Space(c) && c != ';'
    ensures Total(Run(q, x), c) == Total(x.parts, c) + Count(x.buf, c) + Count(q[x.i..], c)
    decreases |q| - x.i
  {
    if x.i == |q| {
      FlushKeeps(x, c);
    } else {
      var y := Step(q, x);
      StepKeeps(q, x, c);
      RunKeeps(q, y, c);
      assert q[x.i..] == q[x.i..y.i] + q[y.i..];
      CountAppend(q[x.i..y.i], q[y.i..], c);
    }
  }

  /** Whatever the script, every byte that is neither white space nor a semicolon is in the statements as often. */
  lemma SplitConserves(q: string, c: char)
    requires !Space(c) && c != ';'
    ensures Total(Run(q, START), c) == Count(q, c)
  {
    assert q[0..] == q;
    RunKeeps(q, START, c);
  }

  // ---- The arguments of the statements ----

  function Flatten<T>(ss: seq<seq<T>>): seq<T> {
    if ss == [] then [] else ss[0] + Flatten(ss[1..])
  }

  lemma {:induction false} FlattenAppend<T>(ss: seq<seq<T>>, s: seq<T>)
    ensures Flatten(ss + [s]) == Flatten(ss) + s
  {
    if ss == [] {
      assert ss + [s] == [s] && [s][1..] == [];
    } else {
      assert (ss + [s])[1..] == ss[1..] + [s];
      FlattenAppend(ss[1..], s);
    }
  }

  lemma {:induction false} TotalPrefix(parts: seq<string>, i: nat, c: char)
    requires i <= |parts|
    ensures Total(parts[..i], c) <= Total(parts, c)
    ensures i < |parts| ==> Total(parts[..i + 1], c) == Total(parts[..i], c) + Count(parts[i], c)
    decreases |parts| - i
  {
    if i < |parts| {
      assert parts[..i + 1] == parts[..i] + [parts[i]];
      TotalAppend(parts[..i], parts[i], c);
      TotalPrefix(parts, i + 1, c);
    } else {
      assert parts[..i] == parts;
    }
  }

  /**
   Hands every statement as many of the remaining arguments as it has markers.
   It succeeds exactly when there are enough, and then the slices are
   consecutive and together a prefix of the arguments.
   */
  method SliceArgs<T>(parts: seq<string>, args: seq<T>) returns (ok: bool, slices: seq<seq<T>>)
    ensures ok == (Total(parts, '?') <= |args|)
    ensures ok ==> |slices| == |parts| && (forall i | 0 <= i < |parts| :: |slices[i]| == Count(parts[i], '?'))
    ensures ok ==> Flatten(slices) == args[..Total(parts, '?')]
  {
    var argIdx := 0;
    slices := [];
    for i := 0 to |parts|
      invariant |slices| == i && argIdx == Total(parts[..i], '?') <= |args|
      invariant forall j | 0 <= j < i :: |slices[j]| == Count(parts[j], '?')
      invariant Flatten(slices) == args[..argIdx]
    {
      var nParams := Count(parts[i], '?');
      var stmtArgs: seq<T> := [];
      TotalPrefix(parts, i, '?');
      if nParams > 0 {
        if argIdx + nParams > |args| {
          TotalPrefix(parts, i + 1, '?');
          return false, slices;
        }
        stmtArgs := args[argIdx..argIdx + nParams];
        argIdx := argIdx + nParams;
      }
      FlattenAppend(slices, stmtArgs);
      slices := slices + [stmtArgs];
    }
    assert parts[..|parts|] == parts;
    return true, slices;
  }

  /** Running a script: it needs exactly as many arguments as the unsplit text has markers. */
  method ExecuteScript<T>(query: string, args: seq<T>) returns (ok: bool, parts: seq<string>, slices: seq<seq<T>>)
    ensures parts == Run(query, START)
    ensures ok == (Count(query, '?') <= |args|)
    ensures ok ==> |slices| == |parts| && Flatten(slices) == args[..Count(query, '?')]
  {
    parts := SplitQuery(query);
    SplitConserves(query, '?');
    ok, slices := SliceArgs(parts, args);
  }
}
