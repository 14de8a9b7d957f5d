/**
 The query rebuilt for one database, printed and parsed again: exactly the
 chosen root fields with everything below them, renumbered in order.
 */
module QueryRoundTrip {
  import opened Common
  import opened GraphSyntax
  import opened GraphLexer
  import opened FieldForest
  import opened FieldParser
  import opened FieldTrees
  import opened FragmentSpread
  import opened GraphDocument
  import opened InlinedDocument
  import opened QueryText
  import opened QueryTree
  import opened QueryBuild
  import opened LexedTokens
  import opened ParsedFields

  // ---- The rebuilt query ----

  function KindWord(k: OpKind): string {
    match k
    case OpQuery => "query"
    case OpMutate => "mutation"
    case OpSub => "subscription"
  }

  function VarsText(vars: seq<VarDef>): string {
    if vars == [] then "" else "$" + vars[0].name + (if |vars| == 1 then "" else ", " + VarsText(vars[1..]))
  }

  function NameText(name: string): string {
    if name == "" then "" else " " + name
  }

  function ParamsText(vars: seq<VarDef>): string {
    if vars == [] then "" else "(" + VarsText(vars) + ")"
  }

  function RebuiltText(op: Operation, ts: seq<Tree>): string {
    KindWord(op.kind) + (NameText(op.name) + (ParamsText(op.vars) + (" { " + TreesText(ts) + " }")))
  }

  /** The trees of the roots with an allowed name in front of position k. */
  ghost function Chosen(f: seq<Field>, allowed: set<string>, k: nat): seq<Tree>
    requires Ordered(f) && k <= |f|
  {
    if k == 0 then []
    else
      Chosen(f, allowed, k - 1) +
        if f[k - 1].parent == -1 && f[k - 1].header.name in allowed then [TreeAt(f, k - 1)] else []
  }

  function Allowed(ts: seq<Tree>, allowed: set<string>): seq<Tree> {
    if ts == [] then []
    else
      var last := |ts| - 1;
      Allowed(ts[..last], allowed) + if ts[last].header.name in allowed then [ts[last]] else []
  }

  lemma {:induction false} ChosenUpTo(f: seq<Field>, allowed: set<string>, k: nat)
    requires Ordered(f) && k <= |f|
    ensures forall j {:trigger Kids(f[..k], -1)[j]} :: 0 <= j < |Kids(f[..k], -1)| ==> 0 <= Kids(f[..k], -1)[j] < |f|
    ensures Chosen(f, allowed, k) == Allowed(TreesAt(f, Kids(f[..k], -1)), allowed)
  {
    if k > 0 {
      ChosenUpTo(f, allowed, k - 1);
      RootsNext(f, k);
      var ids := Kids(f[..k - 1], -1);
      if f[k - 1].parent == -1 {
        TreesAtAppend(f, ids, k - 1);
        AllowedAppend(TreesAt(f, ids), TreeAt(f, k - 1), allowed);
      }
    }
  }

  lemma RootsNext(f: seq<Field>, k: nat)
    requires 0 < k <= |f|
    ensures f[k - 1].parent == -1 ==> Kids(f[..k], -1) == Kids(f[..k - 1], -1) + [k - 1]
    ensures f[k - 1].parent != -1 ==> Kids(f[..k], -1) == Kids(f[..k - 1], -1)
  {
    assert f[..k][..k - 1] == f[..k - 1];
  }

  lemma TreesAtAppend(f: seq<Field>, ids: seq<int>, i: int)
    requires Ordered(f) && 0 <= i < |f| && forall k {:trigger ids[k]} :: 0 <= k < |ids| ==> 0 <= ids[k] < |f|
    ensures TreesAt(f, ids + [i]) == TreesAt(f, ids) + [TreeAt(f, i)]
  {
  }

  lemma AllowedAppend(ts: seq<Tree>, t: Tree, allowed: set<string>)
    ensures Allowed(ts + [t], allowed) == Allowed(ts, allowed) + if t.header.name in allowed then [t] else []
  {
    assert (ts + [t])[..|ts|] == ts;
  }

  /** The chosen trees are the roots' trees whose root has an allowed name. */
  lemma ChosenAreRoots(f: seq<Field>, allowed: set<string>)
    requires Ordered(f)
    ensures Chosen(f, allowed, |f|) == Allowed(Roots(f), allowed)
  {
    ChosenUpTo(f, allowed, |f|);
    assert f[..|f|] == f;
  }

  /** Field i is an allowed root in front of position k, or below one. */
  ghost predicate UnderAllowed(f: seq<Field>, allowed: set<string>, k: int, i: int)
    requires Ordered(f) && 0 <= k <= |f| && 0 <= i < |f|
  {
    exists r {:trigger f[r]} :: 0 <= r < k && f[r].parent == -1 && f[r].header.name in allowed && (i == r || Below(f, i, r))
  }

  /** The allowed roots in front of position k, and everything below them. */
  ghost function KeepSet(f: seq<Field>, allowed: set<string>, k: int): set<int>
    requires Ordered(f) && 0 <= k <= |f|
  {
    set i | 0 <= i < |f| && UnderAllowed(f, allowed, k, i)
  }

  /** What is kept when position k has been looked at too. */
  ghost function WithRoot(f: seq<Field>, allowed: set<string>, keep: set<int>, k: int): set<int>
    requires Ordered(f) && 0 <= k < |f|
  {
    if f[k].parent == -1 && f[k].header.name in allowed then keep + {k} + Descendants(f, k) else keep
  }

  lemma KeepSetNext(f: seq<Field>, allowed: set<string>, k: int)
    requires Ordered(f) && 0 <= k < |f|
    ensures KeepSet(f, allowed, k + 1) == WithRoot(f, allowed, KeepSet(f, allowed, k), k)
  {
    forall i | 0 <= i < |f|
      ensures UnderAllowed(f, allowed, k + 1, i) <==>
        UnderAllowed(f, allowed, k, i) || (f[k].parent == -1 && f[k].header.name in allowed && (i == k || Below(f, i, k)))
    {
    }
  }

  /** Among the roots exactly the allowed ones are kept, and with a field everything below it. */
  ghost predicate KeepsAllowed(f: seq<Field>, allowed: set<string>, keep: set<int>, k: int) {
    && Closed(f, keep)
    && forall i {:trigger f[i]} :: 0 <= i < |f| && f[i].parent == -1 ==>
         (i in keep <==> i < k && f[i].header.name in allowed)
  }

  lemma RootsNotBelow(f: seq<Field>, p: int)
    requires Ordered(f) && 0 <= p < |f|
    ensures forall i {:trigger f[i]} :: 0 <= i < |f| && f[i].parent == -1 ==> i !in Descendants(f, p)
  {
    forall i {:trigger f[i]} | 0 <= i < |f| && f[i].parent == -1 ensures !Below(f, i, p) {
      assert !Below(f, -1, p);
    }
  }

  lemma KeepsNext(f: seq<Field>, allowed: set<string>, keep: set<int>, k: nat)
    requires Ordered(f) && k < |f| && KeepsAllowed(f, allowed, keep, k)
    ensures KeepsAllowed(f, allowed, WithRoot(f, allowed, keep, k), k + 1)
  {
    DescendantsClosed(f, keep, k);
    RootsNotBelow(f, k);
  }

  lemma {:induction false} KeepSetKeeps(f: seq<Field>, allowed: set<string>, k: nat)
    requires Ordered(f) && k <= |f|
    ensures KeepsAllowed(f, allowed, KeepSet(f, allowed, k), k)
  {
    if k > 0 {
      KeepSetKeeps(f, allowed, k - 1);
      KeepSetNext(f, allowed, k - 1);
      KeepsNext(f, allowed, KeepSet(f, allowed, k - 1), k - 1);
    } else {
      assert KeepSet(f, allowed, 0) == {};
    }
  }

  lemma {:induction false} KeptIsChosen(f: seq<Field>, allowed: set<string>, keep: set<int>, k: nat)
    requires Ordered(f) && KeepsAllowed(f, allowed, keep, |f|) && k <= |f|
    ensures Kept(f, -1, keep, k) == Chosen(f, allowed, k)
  {
    if k > 0 {
      KeptIsChosen(f, allowed, keep, k - 1);
      if f[k - 1].parent == -1 && k - 1 in keep {
        PrunedIsTree(f, k - 1, keep);
      }
    }
  }

  method CollectKept(f: seq<Field>, allowed: set<string>) returns (keep: set<int>)
    requires Forest(f)
    ensures keep == KeepSet(f, allowed, |f|)
  {
    keep := {};
    var k := 0;
    while k < |f|
      invariant 0 <= k <= |f|
      invariant keep == KeepSet(f, allowed, k)
    {
      KeepSetNext(f, allowed, k);
      if f[k].parent == -1 && f[k].header.name in allowed {
        keep := MarkDescendants(f, k, keep + {k});
      }
      k := k + 1;
    }
  }

  lemma {:induction false} VarsTextAppend(vars: seq<VarDef>, v: VarDef)
    ensures VarsText(vars + [v]) == VarsText(vars) + (if vars == [] then "" else ", ") + "$" + v.name
  {
    if vars == [] {
      assert vars + [v] == [v];
    } else {
      assert (vars + [v])[1..] == vars[1..] + [v];
      VarsTextAppend(vars[1..], v);
    }
  }

  method WriteVars(buf: Buffer, vars: seq<VarDef>)
    modifies buf
    ensures buf.text == old(buf.text) + VarsText(vars)
  {
    var i := 0;
    while i < |vars|
      invariant 0 <= i <= |vars|
      invariant buf.text == old(buf.text) + VarsText(vars[..i])
    {
      if i > 0 {
        buf.WriteString(", ");
      }
      buf.WriteString("$");
      buf.WriteString(vars[i].name);
      VarsTextAppend(vars[..i], vars[i]);
      assert vars[..i + 1] == vars[..i] + [vars[i]];
      i := i + 1;
    }
    assert vars[..i] == vars;
  }

  method WriteHead(buf: Buffer, op: Operation)
    modifies buf
    ensures buf.text == old(buf.text) + (KindWord(op.kind) + (NameText(op.name) + ParamsText(op.vars)))
  {
    buf.WriteString(KindWord(op.kind));
    if op.name != "" {
      buf.WriteString(" ");
      buf.WriteString(op.name);
    }
    if |op.vars| > 0 {
      buf.WriteString("(");
      WriteVars(buf, op.vars);
      buf.WriteString(")");
    }
  }

  /** What a text is parsed to. */
  function ParseText(text: string): Result<Operation> {
    match Lex("", text)
    case BadText => Failed
    case Lexed(tokens) => ParseDocument(tokens)
  }

  method ParseRaw(raw: string) returns (r: Result<Operation>)
    ensures r == ParseText(raw)
  {
    var lexer := new Lexer(raw);
    lexer.Run();
    r := if lexer.bad then Failed else ParseDocument(lexer.items);
  }

  lemma TextIsForest(text: string)
    requires ParseText(text).Parsed?
    ensures Sound(ParseText(text).value.fields)
  {
    DocumentIsForest(Lex("", text).tokens);
  }

  /** The text of the query for one database. */
  ghost function DatabaseQuery(op: Operation, allowed: set<string>): string
    requires Ordered(op.fields)
  {
    RebuiltText(op, Chosen(op.fields, allowed, |op.fields|))
  }

  /** The query for one database: the raw query's head and its allowed roots, or nothing if it does not parse. */
  method BuildDatabaseQuery(raw: string, rootFields: seq<string>) returns (text: Option<string>)
    ensures text.Some? == ParseText(raw).Parsed?
    ensures text.Some? ==>
      && Ordered(ParseText(raw).value.fields)
      && text.value == DatabaseQuery(ParseText(raw).value, set r | r in rootFields)
  {
    var parsed := ParseRaw(raw);
    if parsed.Failed? { return None; }
    TextIsForest(raw);
    var op := parsed.value;
    var allowed := set r | r in rootFields;
    var keep := CollectKept(op.fields, allowed);
    var written := WriteQuery(op, keep);
    KeepSetKeeps(op.fields, allowed, |op.fields|);
    KeptIsChosen(op.fields, allowed, keep, |op.fields|);
    text := Some(written);
  }

  method WriteQuery(op: Operation, keep: set<int>) returns (text: string)
    requires Forest(op.fields)
    ensures text == RebuiltText(op, Kept(op.fields, -1, keep, |op.fields|))
  {
    var buf := new Buffer();
    WriteHead(buf, op);
    WriteSelection(buf, op.fields, keep);
    text := buf.text;
    FromNothing(KindWord(op.kind), NameText(op.name), ParamsText(op.vars),
                " { " + TreesText(Kept(op.fields, -1, keep, |op.fields|)) + " }");
  }

  method WriteSelection(buf: Buffer, f: seq<Field>, keep: set<int>)
    requires Forest(f)
    modifies buf
    ensures buf.text == old(buf.text) + (" { " + TreesText(Kept(f, -1, keep, |f|)) + " }")
  {
    buf.WriteString(" { ");
    WriteFields(buf, f, -1, keep);
    buf.WriteString(" }");
  }

  lemma FromNothing(a: string, b: string, c: string, d: string)
    ensures "" + (a + (b + c)) + d == a + (b + (c + d))
  {
  }

  // ---- Its tokens ----

  function VarsToks(vars: seq<VarDef>): seq<Token> {
    if vars == [] then [] else [Variable(vars[0].name)] + VarsToks(vars[1..])
  }

  function NameToks(name: string): seq<Token> {
    if name == "" then [] else [Name(name)]
  }

  function ParamsToks(vars: seq<VarDef>): seq<Token> {
    if vars == [] then [] else [ArgsOpen] + VarsToks(vars) + [ArgsClose]
  }

  function RebuiltToks(op: Operation, ts: seq<Tree>): seq<Token> {
    [Name(KindWord(op.kind))] + (NameToks(op.name) + (ParamsToks(op.vars) + ([ObjOpen] + TreesToks(ts) + [ObjClose])))
  }

  function HeadFrom(op: Operation): Head {
    Head(op.kind, op.name, op.vars)
  }

  lemma KindWordIs(k: OpKind)
    ensures var w := KindWord(k);
      && IsWord(w) && WordToken(w) == Name(w) && OpWord(w) && KindOf(w) == k
      && !FragmentWord(Name(w))
  {
    KindLetters(k);
    LowerCaseWord(KindWord(k));
    KindBack(k);
  }

  lemma KindLetters(k: OpKind)
    ensures Letters(KindWord(k)) && KindWord(k)[0] !in "otf"
  {
    match k
    case OpQuery => assert Letters("query");
    case OpMutate => assert Letters("mutation");
    case OpSub => assert Letters("subscription");
  }

  lemma KindBack(k: OpKind)
    requires Lower(KindWord(k)) == KindWord(k)
    ensures OpWord(KindWord(k)) && KindOf(KindWord(k)) == k
  {
    match k
    case OpQuery => assert "query"[0] != "mutation"[0] && "query"[0] != "subscription"[0];
    case OpMutate =>
    case OpSub => assert "mutation"[0] != "subscription"[0];
  }

  predicate Letters(w: string) {
    w != "" && forall i :: 0 <= i < |w| ==> 'a' <= w[i] <= 'z'
  }

  lemma LowerCaseWord(w: string)
    requires Letters(w)
    ensures IsWord(w) && Lower(w) == w && FragmentWord(Name(w)) == (w == "fragment")
    ensures w[0] !in "otf" ==> WordToken(w) == Name(w) && w != "fragment"
  {
    LettersRun(w);
    LettersLower(w);
  }

  lemma LettersLower(w: string)
    requires forall i :: 0 <= i < |w| ==> 'a' <= w[i] <= 'z'
    ensures Lower(w) == w
  {
  }

  lemma {:induction false} LettersRun(w: string)
    requires forall i :: 0 <= i < |w| ==> 'a' <= w[i] <= 'z'
    ensures NameRun(w) == |w|
  {
    if w != [] {
      LettersRun(w[1..]);
    }
  }

  lemma {:induction false} ReadsVars(vars: seq<VarDef>, rest: string)
    requires (forall v <- vars :: IsName(v.name)) && Stops(rest)
    ensures Reads(VarsText(vars), VarsToks(vars), rest)
  {
    if vars == [] {
      ReadsNothing(rest);
    } else {
      var more := |vars| > 1;
      var tail := if more then ", " + VarsText(vars[1..]) else "";
      assert vars[0] in vars;
      LexVariable(vars[0].name, tail + rest);
      ReadsVars(vars[1..], rest);
      ReadsEntry("$" + vars[0].name, [Variable(vars[0].name)], more, VarsText(vars[1..]), VarsToks(vars[1..]), rest);
    }
  }

  lemma ReadsParams(vars: seq<VarDef>, rest: string)
    requires (forall v <- vars :: IsName(v.name)) && Stops(rest)
    ensures Reads(ParamsText(vars), ParamsToks(vars), rest)
  {
    if vars == [] {
      ReadsNothing(rest);
    } else {
      ReadsVars(vars, ")" + rest);
      ReadsParens(VarsText(vars), VarsToks(vars), rest);
    }
  }

  lemma ReadsOpName(name: string, rest: string)
    requires (name == "" || PlainName(name)) && Stops(rest)
    ensures Reads(NameText(name), NameToks(name), rest)
  {
    if name == "" {
      ReadsNothing(rest);
    } else {
      ReadsName(name, rest);
      ReadsBlank(' ', name + rest);
      ReadsBoth([' '], [], name, [Name(name)], rest);
      assert [] + [Name(name)] == [Name(name)];
    }
  }

  /** The lexer finds the rebuilt query's tokens, its strings as they are read back. */
  lemma ReadsQuery(op: Operation, ts: seq<Tree>)
    requires CleanHead(HeadFrom(op)) && CleanTrees(ts) && ClosingTrees(ts)
    ensures Lex("", RebuiltText(op, ts)) == Lexed(RebuiltToks(op, RereadTrees(ts)) + [Eof])
  {
    var toks := TreesToks(RereadTrees(ts));
    var block := " { " + TreesText(ts) + " }";
    var blockToks := [ObjOpen] + toks + [ObjClose];
    assert " }" + "" == " }";
    ReadsTrees(ts, " }" + "");
    ReadsBlock(TreesText(ts), toks, "");
    ReadsHead(op, block, blockToks);
    assert RebuiltText(op, ts) + "" == RebuiltText(op, ts);
  }

  lemma ReadsHead(op: Operation, block: string, blockToks: seq<Token>)
    requires CleanHead(HeadFrom(op)) && Reads(block, blockToks, "") && Stops(block)
    ensures Reads(KindWord(op.kind) + (NameText(op.name) + (ParamsText(op.vars) + block)),
                  [Name(KindWord(op.kind))] + (NameToks(op.name) + (ParamsToks(op.vars) + blockToks)), "")
  {
    var a, b := NameText(op.name), ParamsText(op.vars);
    assert block + "" == block;
    ReadsParams(op.vars, block);
    ReadsBoth(b, ParamsToks(op.vars), block, blockToks, "");
    assert (b + block) + "" == b + block;
    ReadsOpName(op.name, b + block);
    ReadsBoth(a, NameToks(op.name), b + block, ParamsToks(op.vars) + blockToks, "");
    assert (a + (b + block)) + "" == a + (b + block);
    KindWordIs(op.kind);
    ReadsWord(KindWord(op.kind), a + (b + block));
    ReadsBoth(KindWord(op.kind), [Name(KindWord(op.kind))], a + (b + block),
              NameToks(op.name) + (ParamsToks(op.vars) + blockToks), "");
  }

  // ---- Parsing the rebuilt query ----

  lemma {:induction false} ParsesVars(vars: seq<VarDef>, rest: seq<Token>)
    ensures ParseParams(VarsToks(vars) + ([ArgsClose] + rest), []) == Complete([], rest)
  {
    if vars == [] {
      assert VarsToks(vars) + ([ArgsClose] + rest) == [ArgsClose] + rest;
    } else {
      var tail := VarsToks(vars[1..]) + ([ArgsClose] + rest);
      assert VarsToks(vars) + ([ArgsClose] + rest) == [Variable(vars[0].name)] + tail;
      assert tail[0].Variable? || tail[0] == ArgsClose;
      ParsesVars(vars[1..], rest);
      SkipsVariable(vars[0].name, tail);
    }
  }

  /** A bare variable between the parentheses defines nothing. */
  lemma SkipsVariable(name: string, tail: seq<Token>)
    requires tail != [] && (tail[0].Variable? || tail[0] == ArgsClose)
    ensures ParseParams([Variable(name)] + tail, []) == ParseParams(tail, [])
  {
    assert ([Variable(name)] + tail)[1..] == tail;
    var nothing: seq<VarDef> := [];
    assert nothing + [] == nothing;
  }

  lemma ParsesParams(vars: seq<VarDef>, rest: seq<Token>)
    requires !Peek(rest, ArgsOpen)
    ensures ParseParamsIfAny(ParamsToks(vars) + rest) == Complete([], rest)
  {
    if vars == [] {
      assert ParamsToks(vars) + rest == rest;
    } else {
      var inside := VarsToks(vars) + ([ArgsClose] + rest);
      assert ParamsToks(vars) + rest == [ArgsOpen] + inside;
      assert ([ArgsOpen] + inside)[1..] == inside;
      ParsesVars(vars, rest);
    }
  }

  /** What the printed selection parses to, brace included. */
  lemma ParsesSelection(ts: seq<Tree>, tail: seq<Token>)
    requires CleanTrees(ts) && BareTrees(ts)
    ensures ParseFields(map[], TreesToks(ts) + ([ObjClose] + tail)) ==
      if ts != [] && |FlatAll(ts)| <= MAX_FIELDS then Parsed(FlatAll(ts), [ObjClose] + tail) else Failed
  {
    var rest := [ObjClose] + tail;
    if ts == [] {
      assert TreesToks(ts) + rest == rest;
    } else {
      TreesStart(ts, rest);
      RunsTrees(ts, rest);
      LimitOn(State(TreesToks(ts) + rest, [], []));
    }
  }

  lemma TreesStart(ts: seq<Tree>, rest: seq<Token>)
    requires ts != []
    ensures StartsSelection(TreesToks(ts) + rest)
  {
    HeaderFront(ts[0].header);
  }

  lemma GoesOn(run: State -> Result<seq<Field>>, ts: seq<Tree>, rest: seq<Token>)
    requires Runs(run) && CleanTrees(ts) && BareTrees(ts) && Peek(rest, ObjClose)
    ensures run(State(TreesToks(ts) + rest, [], [])) == run(State(rest, FlatAll(ts), []))
  {
    ParsesTrees(run, ts, rest, [], []);
    FlatAllSound(ts);
    SpliceEmpty(FlatAll(ts));
  }

  lemma RunEnds(f: seq<Field>, rest: seq<Token>)
    requires Peek(rest, ObjClose)
    ensures Run(false, map[], State(rest, f, [])) == Parsed(f, rest)
  {
  }

  lemma RunsTrees(ts: seq<Tree>, rest: seq<Token>)
    requires CleanTrees(ts) && BareTrees(ts) && Peek(rest, ObjClose)
    ensures Run(false, map[], State(TreesToks(ts) + rest, [], [])) == Parsed(FlatAll(ts), rest)
  {
    var run := TheRun(false, map[]);
    GoesOn(run, ts, rest);
    RunEnds(FlatAll(ts), rest);
  }

  /** The head in front of a selection is read back, without its variables. */
  lemma ParsesHead(op: Operation, rest: seq<Token>)
    requires Peek(rest, ObjOpen)
    ensures ParseHead([Name(KindWord(op.kind))] + (NameToks(op.name) + (ParamsToks(op.vars) + rest)))
      == Parsed(Head(op.kind, op.name, []), rest)
  {
    var params := ParamsToks(op.vars) + rest;
    KindWordIs(op.kind);
    ParsesParams(op.vars, rest);
    ParamsFront(op.vars, rest);
    if op.name == "" {
      NoName(params);
      UnnamedHead(KindWord(op.kind), params, rest);
    } else {
      NamedHead(KindWord(op.kind), op.name, params, rest);
    }
  }

  lemma NoName(params: seq<Token>)
    ensures NameToks("") + params == params
  {
  }

  lemma ParamsFront(vars: seq<VarDef>, rest: seq<Token>)
    requires Peek(rest, ObjOpen)
    ensures ParamsToks(vars) + rest != [] && !(ParamsToks(vars) + rest)[0].Name?
  {
  }

  lemma UnnamedHead(word: string, params: seq<Token>, rest: seq<Token>)
    requires OpWord(word) && Peek(rest, ObjOpen) && ParseParamsIfAny(params) == Complete([], rest)
    requires params != [] && !params[0].Name?
    ensures ParseHead([Name(word)] + params) == Parsed(Head(KindOf(word), "", []), rest)
  {
    assert ([Name(word)] + params)[1..] == params;
    assert ParseDirectives(rest, []) == Parsed([], rest);
  }

  lemma NamedHead(word: string, name: string, params: seq<Token>, rest: seq<Token>)
    requires OpWord(word) && Peek(rest, ObjOpen) && ParseParamsIfAny(params) == Complete([], rest)
    ensures ParseHead([Name(word)] + ([Name(name)] + params)) == Parsed(Head(KindOf(word), name, []), rest)
  {
    assert ([Name(word)] + ([Name(name)] + params))[2..] == params;
    assert ParseDirectives(rest, []) == Parsed([], rest);
  }

  lemma SelectionIs(h: Head, ts: seq<Tree>)
    requires CleanTrees(ts) && BareTrees(ts)
    ensures ParseSelection(map[], h, [ObjOpen] + (TreesToks(ts) + ([ObjClose] + [Eof]))) ==
      if ts != [] && |FlatAll(ts)| <= MAX_FIELDS then Parsed(Operation(h.kind, h.name, h.vars, FlatAll(ts)), [Eof]) else Failed
  {
    var inside := TreesToks(ts) + ([ObjClose] + [Eof]);
    assert ([ObjOpen] + inside)[1..] == inside;
    ParsesSelection(ts, [Eof]);
    assert ([ObjClose] + [Eof])[1..] == [Eof];
  }

  // ---- Where "on" stands ----

  lemma {:induction false} NoOnInVars(vars: seq<VarDef>)
    ensures On !in VarsToks(vars)
  {
    if vars != [] {
      NoOnInVars(vars[1..]);
    }
  }

  /** The printed selection is parsed without fragments, so its "on" would stand behind spreads. */
  lemma TreesOnSpread(ts: seq<Tree>)
    requires CleanTrees(ts) && BareTrees(ts)
    ensures OnSpread(TreesToks(ts))
  {
    RunsTrees(ts, [ObjClose]);
    var p := RunTokens(false, map[], State(TreesToks(ts) + [ObjClose], [], []));
    assert p == (p + [ObjClose])[..|p|] && TreesToks(ts) == (TreesToks(ts) + [ObjClose])[..|p|];
  }

  lemma NoOnInHead(op: Operation)
    ensures OnSpread(NameToks(op.name)) && OnSpread(ParamsToks(op.vars))
  {
    NoOnInVars(op.vars);
    forall i {:trigger ParamsToks(op.vars)[i]} | 0 <= i < |ParamsToks(op.vars)| ensures ParamsToks(op.vars)[i] != On {
      assert 0 < i < |ParamsToks(op.vars)| - 1 ==> ParamsToks(op.vars)[i] in VarsToks(op.vars);
    }
  }

  lemma RebuiltOnSpread(op: Operation, ts: seq<Tree>)
    requires CleanTrees(ts) && BareTrees(ts)
    ensures OnSpread(RebuiltToks(op, ts) + [Eof])
  {
    TreesOnSpread(ts);
    NoOnInHead(op);
    OnSpreadBoth([ObjOpen], TreesToks(ts));
    OnSpreadBoth([ObjOpen] + TreesToks(ts), [ObjClose]);
    var block := [ObjOpen] + TreesToks(ts) + [ObjClose];
    OnSpreadBoth(ParamsToks(op.vars), block);
    OnSpreadBoth(NameToks(op.name), ParamsToks(op.vars) + block);
    OnSpreadBoth([Name(KindWord(op.kind))], NameToks(op.name) + (ParamsToks(op.vars) + block));
    OnSpreadBoth(RebuiltToks(op, ts), [Eof]);
  }

  // ---- The rebuilt query parsed ----

  /** A document that starts with its operation and in which no fragment can be defined. */
  lemma OnlyOperation(word: string, tail: seq<Token>, r: Result<Operation>)
    requires OnSpread([Name(word)] + tail) && OpWord(word) && !FragmentWord(Name(word))
    requires ParseOp(map[], [Name(word)] + tail) == r
    ensures var toks := [Name(word)] + tail;
      ParseDocument(toks) ==
        if Quiet(toks) && r.Parsed? then Parsed(r.value.(fields := MarkKeywords(r.value.fields)), r.rest) else Failed
  {
    var toks := [Name(word)] + tail;
    assert toks[0..] == toks;
    ScanRefuses(map[], toks, 0);
    assert OperationOf(map[], toks) == toks;
  }

  /** The allowed roots' trees, if there are any and they are not too many, and no name of them opens a definition. */
  predicate Accepted(op: Operation, ts: seq<Tree>) {
    ts != [] && |FlatAll(ts)| <= MAX_FIELDS && Quiet(RebuiltToks(op, ts) + [Eof])
  }

  /** The operation of the given trees, without variable definitions. */
  function OperationFor(op: Operation, ts: seq<Tree>): Operation {
    Operation(op.kind, op.name, [], MarkKeywords(FlatAll(ts)))
  }

  lemma ParsesRebuilt(op: Operation, ts: seq<Tree>)
    requires CleanTrees(ts) && BareTrees(ts)
    ensures ParseDocument(RebuiltToks(op, ts) + [Eof]) ==
      if Accepted(op, ts) then Parsed(OperationFor(op, ts), [Eof]) else Failed
  {
    var rest := [ObjOpen] + (TreesToks(ts) + ([ObjClose] + [Eof]));
    var tail := NameToks(op.name) + (ParamsToks(op.vars) + rest);
    RebuiltSplit(op, ts);
    RebuiltOnSpread(op, ts);
    KindWordIs(op.kind);
    ParsesHead(op, rest);
    SelectionIs(Head(op.kind, op.name, []), ts);
    OnlyOperation(KindWord(op.kind), tail, ParseSelection(map[], Head(op.kind, op.name, []), rest));
  }

  lemma RebuiltSplit(op: Operation, ts: seq<Tree>)
    ensures RebuiltToks(op, ts) + [Eof] ==
      [Name(KindWord(op.kind))] +
        (NameToks(op.name) + (ParamsToks(op.vars) + ([ObjOpen] + (TreesToks(ts) + ([ObjClose] + [Eof])))))
  {
  }

  /**
   Printing trees under an operation's head, lexing the print and parsing the tokens gives an operation of the same kind
   and name with the array of the trees, their strings as they are read back. It fails exactly when there is no tree, the
   array is over the limit, or some name is the word that opens a fragment definition. Variable definitions do not survive.
   */
  lemma RebuiltParses(op: Operation, ts: seq<Tree>)
    requires CleanHead(HeadFrom(op)) && CleanTrees(ts) && BareTrees(ts) && ClosingTrees(ts)
    ensures var us := RereadTrees(ts);
      && ParseText(RebuiltText(op, ts)) == (if Accepted(op, us) then Parsed(OperationFor(op, us), [Eof]) else Failed)
      && Sound(FlatAll(us)) && Roots(FlatAll(us)) == us
      && (us == ts <==> LastingTrees(ts))
  {
    var us := RereadTrees(ts);
    RereadTreesClean(ts);
    RereadTreesSame(ts);
    FlatAllSound(us);
    RootsOfFlat(us);
    ReadsQuery(op, ts);
    ParsesRebuilt(op, us);
  }

  /** Operations for different trees differ. */
  lemma OperationTellsTrees(op: Operation, ts: seq<Tree>, us: seq<Tree>)
    ensures OperationFor(op, ts) == OperationFor(op, us) <==> ts == us
  {
    KeywordRoots(ts);
    KeywordRoots(us);
  }

  lemma KeywordRoots(ts: seq<Tree>)
    ensures Ordered(MarkKeywords(FlatAll(ts))) && Roots(MarkKeywords(FlatAll(ts))) == ts
  {
    FlatAllSound(ts);
    RootsOfFlat(ts);
    SameRoots(FlatAll(ts), MarkKeywords(FlatAll(ts)));
  }

  // ---- Trees of parsed fields ----

  lemma {:induction false} TreeClean(f: seq<Field>, i: int)
    requires Ordered(f) && CleanFields(f) && 0 <= i < |f|
    ensures CleanTree(TreeAt(f, i))
    decreases |f| - i
  {
    var kids := Kids(f, i);
    assert CleanHeader(f[i].header);
    forall j | 0 <= j < |kids| ensures CleanTree(TreeAt(f, i).kids[j]) {
      KidAt(f, i, j);
      TreeClean(f, kids[j]);
    }
  }

  lemma CleanMore(ts: seq<Tree>, t: Tree)
    requires CleanTrees(ts) && CleanTree(t)
    ensures CleanTrees(ts + [t]) && ts + [] == ts
  {
  }

  lemma {:induction false} ChosenClean(f: seq<Field>, allowed: set<string>, k: nat)
    requires Ordered(f) && CleanFields(f) && k <= |f|
    ensures CleanTrees(Chosen(f, allowed, k))
  {
    if k > 0 {
      ChosenClean(f, allowed, k - 1);
      if f[k - 1].parent == -1 && f[k - 1].header.name in allowed {
        TreeClean(f, k - 1);
        CleanMore(Chosen(f, allowed, k - 1), TreeAt(f, k - 1));
      }
    }
  }

  /** The writer prints no directives, so what is printed is the array without them. */
  function WithoutDirectives(f: seq<Field>): (r: seq<Field>)
    ensures |r| == |f|
  {
    seq(|f|, i requires 0 <= i < |f| => f[i].(header := f[i].header.(directives := [])))
  }

  lemma BareFields(f: seq<Field>)
    requires Ordered(f)
    ensures Ordered(WithoutDirectives(f)) && SameParents(f, WithoutDirectives(f))
    ensures CleanFields(f) ==> CleanFields(WithoutDirectives(f))
  {
    var g := WithoutDirectives(f);
    forall i {:trigger g[i]} | 0 <= i < |f| ensures g[i].parent == f[i].parent && (CleanHeader(f[i].header) ==> CleanHeader(g[i].header)) {
    }
  }

  lemma {:induction false} SameTexts(ts: seq<Tree>, us: seq<Tree>)
    requires |ts| == |us| && forall k {:trigger ts[k]} :: 0 <= k < |ts| ==> TreeText(ts[k]) == TreeText(us[k])
    ensures TreesText(ts) == TreesText(us)
  {
    if ts != [] {
      SameTexts(ts[1..], us[1..]);
    }
  }

  lemma {:induction false} BareTreeText(f: seq<Field>, i: int)
    requires Ordered(f) && Ordered(WithoutDirectives(f)) && 0 <= i < |f|
    ensures var t := TreeAt(WithoutDirectives(f), i);
      BareTree(t) && TreeText(t) == TreeText(TreeAt(f, i))
    decreases |f| - i
  {
    var g := WithoutDirectives(f);
    var t, u := TreeAt(g, i), TreeAt(f, i);
    KidsSame(g, f, i);
    var kids := Kids(f, i);
    forall j {:trigger t.kids[j]} | 0 <= j < |kids| ensures BareTree(t.kids[j]) && TreeText(t.kids[j]) == TreeText(u.kids[j]) {
      KidAt(f, i, j);
      BareTreeText(f, kids[j]);
    }
    SameTexts(t.kids, u.kids);
  }

  /** The trees have no directives and are printed as the others. */
  ghost predicate PrintedAs(ts: seq<Tree>, us: seq<Tree>) {
    BareTrees(ts) && |ts| == |us| && forall j {:trigger ts[j]} :: 0 <= j < |ts| ==> TreeText(ts[j]) == TreeText(us[j])
  }

  lemma PrintedBoth(ts: seq<Tree>, us: seq<Tree>, t: Tree, u: Tree)
    requires PrintedAs(ts, us) && BareTree(t) && TreeText(t) == TreeText(u)
    ensures PrintedAs(ts + [t], us + [u])
  {
  }

  lemma {:induction false} ChosenBare(f: seq<Field>, allowed: set<string>, k: nat)
    requires Ordered(f) && Ordered(WithoutDirectives(f)) && k <= |f|
    ensures PrintedAs(Chosen(WithoutDirectives(f), allowed, k), Chosen(f, allowed, k))
    decreases k
  {
    if k > 0 {
      var g := WithoutDirectives(f);
      var ts, us := Chosen(g, allowed, k - 1), Chosen(f, allowed, k - 1);
      ChosenBare(f, allowed, k - 1);
      assert g[k - 1].parent == f[k - 1].parent && g[k - 1].header.name == f[k - 1].header.name;
      if f[k - 1].parent == -1 && f[k - 1].header.name in allowed {
        assert PrintedAs(ts + [TreeAt(g, k - 1)], us + [TreeAt(f, k - 1)]) by {
          BareTreeText(f, k - 1);
          PrintedBoth(ts, us, TreeAt(g, k - 1), TreeAt(f, k - 1));
        }
      }
    }
  }

  // ---- From text to text ----

  /** The trees of the allowed roots as they are printed. */
  ghost function Printed(op: Operation, allowed: set<string>): seq<Tree>
    requires Ordered(op.fields)
  {
    BareFields(op.fields);
    Chosen(WithoutDirectives(op.fields), allowed, |op.fields|)
  }

  lemma PrintedIs(op: Operation, allowed: set<string>)
    requires Ordered(op.fields) && CleanFields(op.fields)
    ensures var ts := Printed(op, allowed);
      && CleanTrees(ts) && BareTrees(ts)
      && RebuiltText(op, ts) == DatabaseQuery(op, allowed)
      && Ordered(WithoutDirectives(op.fields)) && ts == Allowed(Roots(WithoutDirectives(op.fields)), allowed)
  {
    var f := op.fields;
    var g := WithoutDirectives(f);
    BareFields(f);
    ChosenClean(g, allowed, |f|);
    ChosenBare(f, allowed, |f|);
    ChosenAreRoots(g, allowed);
    SameTexts(Chosen(g, allowed, |f|), Chosen(f, allowed, |f|));
  }

  /**
   For every query text: the text rebuilt for some roots parses to the operation of the same kind and name with exactly
   the trees of those roots, renumbered in order, without directives, and with their strings as they are read back, unless
   one ends in a backslash. It is refused exactly when no root is allowed, too many fields are left, or a name that is left
   is the word "fragment"; and the very trees come back exactly if all strings survive.
   */
  lemma TextRoundTrip(raw: string, allowed: set<string>)
    requires ParseText(raw).Parsed?
    ensures Sound(ParseText(raw).value.fields)
    ensures var op := ParseText(raw).value;
      var ts := Printed(op, allowed);
      var us := RereadTrees(ts);
      && Ordered(WithoutDirectives(op.fields)) && ts == Allowed(Roots(WithoutDirectives(op.fields)), allowed)
      && Sound(FlatAll(us)) && Roots(FlatAll(us)) == us
      && (ClosingTrees(ts) ==>
            && ParseText(DatabaseQuery(op, allowed)) == (if Accepted(op, us) then Parsed(OperationFor(op, us), [Eof]) else Failed)
            && (OperationFor(op, us) == OperationFor(op, ts) <==> LastingTrees(ts)))
  {
    var op := ParseText(raw).value;
    TextIsForest(raw);
    TextPrintable(raw);
    DocumentClean(Lex("", raw).tokens);
    PrintedIs(op, allowed);
    var ts := Printed(op, allowed);
    var us := RereadTrees(ts);
    FlatAllSound(us);
    RootsOfFlat(us);
    if ClosingTrees(ts) {
      RebuiltParses(op, ts);
      OperationTellsTrees(op, us, ts);
    }
  }

  // ---- The whole query ----

  lemma {:induction false} AllowedAll(ts: seq<Tree>, allowed: set<string>)
    requires forall t <- ts :: t.header.name in allowed
    ensures Allowed(ts, allowed) == ts
  {
    if ts != [] {
      assert ts[|ts| - 1] in ts;
      AllowedAll(ts[..|ts| - 1], allowed);
    }
  }

  /** No field has a directive or comes from an inline fragment. */
  ghost predicate Ordinary(f: seq<Field>) {
    f == WithoutDirectives(f) && f == MarkKeywords(Untyped(f))
  }

  /**
   Keeping every root of a query without directives and inline fragments, and no string of which ends in a backslash,
   gives the very same operation back, but for its variables, exactly if it is accepted and all its strings survive.
   */
  lemma WholeQueryReturns(raw: string, allowed: set<string>)
    requires ParseText(raw).Parsed? && Ordinary(ParseText(raw).value.fields)
    ensures Sound(ParseText(raw).value.fields)
    ensures var op := ParseText(raw).value;
      var ts := Roots(op.fields);
      (forall t <- ts :: t.header.name in allowed) && ClosingTrees(ts) ==>
        && Printed(op, allowed) == ts
        && (ParseText(DatabaseQuery(op, allowed)) == Parsed(op.(vars := []), [Eof])
            <==> Accepted(op, RereadTrees(ts)) && LastingTrees(ts))
  {
    var op := ParseText(raw).value;
    TextRoundTrip(raw, allowed);
    if forall t <- Roots(op.fields) :: t.header.name in allowed {
      AllowedAll(Roots(op.fields), allowed);
      FlatOfTrees(op.fields);
    }
  }
}
