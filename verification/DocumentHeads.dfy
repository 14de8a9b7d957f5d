/** How the head of an operation, a fragment definition and an inline fragment are read, token by token. */
module DocumentHeads {
  import opened Common
  import LexicalGrammar
  import opened GraphSyntax
  import opened FieldForest
  import opened FieldParser
  import opened FragmentSpread
  import opened GraphDocument
  import opened QueryText
  import opened QueryTree
  import opened FieldDirectives

  // ---- Variables ----

  /** A variable definition: its type, as tokens, and its default value. */
  datatype Definition = Variable(name: string, typ: seq<Token>, default: Option<Node>)

  function TypeToken(t: Token): Option<string> {
    match t
    case Required => Some("!")
    case ListOpen => Some("[")
    case ListClose => Some("]")
    case Name(v) => Some(v)
    case _ => None
  }

  predicate IsType(ts: seq<Token>) {
    forall t <- ts :: TypeToken(t).Some? && t != Name("")
  }

  function TypeText(ts: seq<Token>): string
    requires IsType(ts)
  {
    if ts == [] then "" else TypeToken(ts[0]).value + TypeText(ts[1..])
  }

  lemma TypeStep(t: Token, ts: seq<Token>)
    requires TypeToken(t).Some?
    ensures ParseType([t] + ts) == (TypeToken(t).value + ParseType(ts).0, ParseType(ts).1)
  {
    assert ([t] + ts)[1..] == ts;
  }

  lemma {:induction false} TypeRead(ts: seq<Token>, rest: seq<Token>)
    requires IsType(ts) && (rest != [] ==> TypeToken(rest[0]).None?)
    ensures ParseType(ts + rest) == (TypeText(ts), rest)
  {
    if ts == [] {
      assert ts + rest == rest;
    } else {
      assert ts[0] in ts && forall t <- ts[1..] :: t in ts;
      TypeStep(ts[0], ts[1..] + rest);
      assert ts + rest == [ts[0]] + (ts[1..] + rest);
      TypeRead(ts[1..], rest);
    }
  }

  /** A default is any value but a variable. */
  predicate IsDefault(n: Node) {
    Clean(n) && n.name == "" && !n.kind.NodeVar?
  }

  predicate Defined(d: Definition) {
    IsType(d.typ) && (d.default.Some? ==> IsDefault(d.default.value))
  }

  function DefaultToks(d: Option<Node>): seq<Token> {
    if d.None? then [] else [Equals] + Toks(d.value)
  }

  function TypeToks(typ: seq<Token>): seq<Token> {
    if typ == [] then [] else [Colon] + typ
  }

  /** $name, then a colon and the type, then an equals sign and the default; both may be missing. */
  function DefinitionToks(d: Definition): seq<Token> {
    [Token.Variable(d.name)] + (TypeToks(d.typ) + DefaultToks(d.default))
  }

  /** What is kept of a definition: the default, or else the type; of a bare variable nothing. */
  function Kept(d: Definition): seq<VarDef>
    requires Defined(d)
  {
    if d.default.Some? then [VarDef(d.name, d.default.value)]
    else if d.typ != [] then [VarDef(d.name, Node(NodeVar, "", TypeText(d.typ), []))]
    else []
  }

  function Concat<T>(parts: seq<seq<T>>): seq<T> {
    if parts == [] then [] else parts[0] + Concat(parts[1..])
  }

  predicate AllDefined(ds: seq<Definition>) {
    forall k | 0 <= k < |ds| :: Defined(ds[k])
  }

  function DefinitionsToks(ds: seq<Definition>): seq<Token> {
    Concat(seq(|ds|, k requires 0 <= k < |ds| => DefinitionToks(ds[k])))
  }

  function AllKept(ds: seq<Definition>): seq<VarDef>
    requires AllDefined(ds)
  {
    Concat(seq(|ds|, k requires 0 <= k < |ds| => Kept(ds[k])))
  }

  /** Another variable or the closing parenthesis follows. */
  predicate NextVariable(rest: seq<Token>) {
    rest != [] && (rest[0].Variable? || rest[0] == ArgsClose)
  }

  lemma DefaultRead(v: Node, rest: seq<Token>)
    requires IsDefault(v)
    ensures Toks(v) != [] && ParseDefault(Toks(v) + rest) == Parsed(v, rest)
  {
    ParsesNode(v, rest);
    assert v.(name := "") == v;
    assert (Toks(v) + rest)[0] == Toks(v)[0];
  }

  lemma TypeTextFull(ts: seq<Token>)
    requires IsType(ts) && ts != []
    ensures TypeText(ts) != ""
  {
    assert ts[0] in ts;
  }

  lemma DefaultStep(name: string, inside: seq<Token>, r: Result<Node>)
    requires ParseDefault(inside) == r && r.Parsed?
    ensures ParseVarDef(name, [Equals] + inside) == Parsed([VarDef(name, r.value)], r.rest)
  {
    assert ([Equals] + inside)[1..] == inside;
  }

  lemma DefaultedRead(name: string, v: Node, rest: seq<Token>)
    requires IsDefault(v)
    ensures ParseVarDef(name, [Equals] + (Toks(v) + rest)) == Parsed([VarDef(name, v)], rest)
  {
    DefaultRead(v, rest);
    DefaultStep(name, Toks(v) + rest, Parsed(v, rest));
  }

  lemma BareRead(name: string, rest: seq<Token>)
    requires NextVariable(rest)
    ensures ParseVarDef(name, rest) == Parsed([], rest)
  {
  }

  /** Behind a type stands a default, or neither a default nor more of the type. */
  lemma TypedStep(name: string, inside: seq<Token>, text: string, tail: seq<Token>, v: Node, rest: seq<Token>)
    requires ParseType(inside) == (text, tail) && text != ""
    requires if Peek(tail, Equals) then ParseDefault(tail[1..]) == Parsed(v, rest) else v == Node(NodeVar, "", text, []) && rest == tail
    ensures ParseVarDef(name, [Colon] + inside) == Parsed([VarDef(name, v)], rest)
  {
    assert ([Colon] + inside)[1..] == inside;
  }

  lemma TypedRead(name: string, typ: seq<Token>, tail: seq<Token>, v: Node, rest: seq<Token>)
    requires IsType(typ) && typ != [] && tail != [] && TypeToken(tail[0]).None?
    requires if tail[0] == Equals then ParseDefault(tail[1..]) == Parsed(v, rest)
             else v == Node(NodeVar, "", TypeText(typ), []) && rest == tail
    ensures ParseVarDef(name, [Colon] + (typ + tail)) == Parsed([VarDef(name, v)], rest)
  {
    TypeRead(typ, tail);
    TypeTextFull(typ);
    TypedStep(name, typ + tail, TypeText(typ), tail, v, rest);
  }

  lemma TypedDefaultRead(name: string, typ: seq<Token>, v: Node, rest: seq<Token>)
    requires IsType(typ) && typ != [] && IsDefault(v)
    ensures ParseVarDef(name, [Colon] + (typ + ([Equals] + (Toks(v) + rest)))) == Parsed([VarDef(name, v)], rest)
  {
    DefaultRead(v, rest);
    BehindEquals(name, typ, Toks(v) + rest, v, rest);
  }

  lemma BehindEquals(name: string, typ: seq<Token>, inside: seq<Token>, v: Node, rest: seq<Token>)
    requires IsType(typ) && typ != [] && ParseDefault(inside) == Parsed(v, rest)
    ensures ParseVarDef(name, [Colon] + (typ + ([Equals] + inside))) == Parsed([VarDef(name, v)], rest)
  {
    assert ([Equals] + inside)[1..] == inside;
    TypedRead(name, typ, [Equals] + inside, v, rest);
  }

  lemma DefinitionRead(d: Definition, rest: seq<Token>)
    requires Defined(d) && NextVariable(rest)
    ensures ParseVarDef(d.name, TypeToks(d.typ) + (DefaultToks(d.default) + rest)) == Parsed(Kept(d), rest)
  {
    var tail := DefaultToks(d.default) + rest;
    assert tail == if d.default.Some? then [Equals] + (Toks(d.default.value) + rest) else rest;
    assert TypeToks(d.typ) + tail == if d.typ == [] then tail else [Colon] + (d.typ + tail);
    if d.typ == [] && d.default.None? {
      BareRead(d.name, rest);
    } else if d.typ == [] {
      DefaultedRead(d.name, d.default.value, rest);
    } else if d.default.None? {
      TypedRead(d.name, d.typ, rest, Node(NodeVar, "", TypeText(d.typ), []), rest);
    } else {
      TypedDefaultRead(d.name, d.typ, d.default.value, rest);
    }
  }

  lemma ParamStep(name: string, inside: seq<Token>, kept: seq<VarDef>, rest: seq<Token>, vars: seq<VarDef>)
    requires ParseVarDef(name, inside) == Parsed(kept, rest) && |vars| < 25
    ensures ParseParams([Token.Variable(name)] + inside, vars) == ParseParams(rest, vars + kept)
  {
    assert ([Token.Variable(name)] + inside)[1..] == inside;
  }

  lemma FrontToks(d: Definition, more: seq<Token>, rest: seq<Token>)
    ensures DefinitionToks(d) + more + rest
         == [Token.Variable(d.name)] + (TypeToks(d.typ) + (DefaultToks(d.default) + (more + rest)))
  {
    var a, b, c := [Token.Variable(d.name)], TypeToks(d.typ), DefaultToks(d.default);
    Grouped(a, b, c, more, rest);
  }

  lemma Grouped(a: seq<Token>, b: seq<Token>, c: seq<Token>, d: seq<Token>, e: seq<Token>)
    ensures a + (b + c) + d + e == a + (b + (c + (d + e)))
  {
  }

  lemma ParamsClose(vars: seq<VarDef>, rest: seq<Token>)
    requires |vars| < 25
    ensures ParseParams([ArgsClose] + rest, vars) == Complete(vars, rest)
  {
    assert ([ArgsClose] + rest)[1..] == rest;
  }

  /** One definition in front of others. */
  lemma OneRead(d: Definition, more: seq<Token>, rest: seq<Token>, vars: seq<VarDef>)
    requires Defined(d) && NextVariable(more + rest) && |vars| < 25
    ensures ParseParams(DefinitionToks(d) + more + rest, vars) == ParseParams(more + rest, vars + Kept(d))
  {
    DefinitionRead(d, more + rest);
    FrontToks(d, more, rest);
    ParamStep(d.name, TypeToks(d.typ) + (DefaultToks(d.default) + (more + rest)), Kept(d), more + rest, vars);
  }

  type Reader = (seq<Token>, seq<VarDef>) -> Params

  /** read ends at the closing parenthesis. */
  ghost predicate Closes(read: Reader) {
    forall vars: seq<VarDef>, rest: seq<Token> {:trigger read([ArgsClose] + rest, vars)} :: |vars| < 25 ==>
      read([ArgsClose] + rest, vars) == Complete(vars, rest)
  }

  /** read takes the tokens of a definition for what is kept of it. */
  ghost predicate Takes(read: Reader, toks: seq<Token>, kept: seq<VarDef>) {
    && toks != [] && toks[0].Variable?
    && forall more: seq<Token>, rest: seq<Token>, vars: seq<VarDef> {:trigger read(toks + more + rest, vars)} ::
         NextVariable(more + rest) && |vars| < 25 ==> read(toks + more + rest, vars) == read(more + rest, vars + kept)
  }

  lemma TheReader() returns (read: Reader)
    ensures Closes(read) && (forall d {:trigger DefinitionToks(d)} :: Defined(d) ==> Takes(read, DefinitionToks(d), Kept(d)))
    ensures forall ts, vars {:trigger read(ts, vars)} :: read(ts, vars) == ParseParams(ts, vars)
  {
    read := (ts, vars) => ParseParams(ts, vars);
    forall vars: seq<VarDef>, rest: seq<Token> | |vars| < 25 ensures read([ArgsClose] + rest, vars) == Complete(vars, rest) {
      ParamsClose(vars, rest);
    }
    forall d | Defined(d) ensures Takes(read, DefinitionToks(d), Kept(d)) {
      forall more, rest, vars: seq<VarDef> | NextVariable(more + rest) && |vars| < 25
        ensures read(DefinitionToks(d) + more + rest, vars) == read(more + rest, vars + Kept(d))
      {
        OneRead(d, more, rest, vars);
      }
    }
  }

  lemma {:induction false} AllRead(read: Reader, toks: seq<seq<Token>>, kept: seq<seq<VarDef>>, vars: seq<VarDef>, rest: seq<Token>)
    requires Closes(read) && |toks| == |kept| && forall k {:trigger toks[k]} :: 0 <= k < |toks| ==> Takes(read, toks[k], kept[k])
    requires |vars| + |Concat(kept)| < 25
    ensures read(Concat(toks) + ([ArgsClose] + rest), vars) == Complete(vars + Concat(kept), rest)
    decreases |toks|
  {
    var end := [ArgsClose] + rest;
    if toks == [] {
      assert Concat(toks) + end == end && vars + [] == vars;
    } else {
      var more := Concat(toks[1..]);
      assert NextVariable(more + end) by {
        assert |toks| > 1 ==> Takes(read, toks[1], kept[1]) && more[0] == toks[1][0];
        assert |toks| == 1 ==> more + end == end;
      }
      assert Takes(read, toks[0], kept[0]);
      assert read(toks[0] + more + end, vars) == read(more + end, vars + kept[0]);
      AllRead(read, toks[1..], kept[1..], vars + kept[0], rest);
      assert vars + kept[0] + Concat(kept[1..]) == vars + Concat(kept);
    }
  }

  /** Variable definitions are read in order, at most 24 that are kept. */
  lemma DefinitionsRead(ds: seq<Definition>, vars: seq<VarDef>, rest: seq<Token>)
    requires AllDefined(ds) && |vars| + |AllKept(ds)| < 25
    ensures ParseParams(DefinitionsToks(ds) + ([ArgsClose] + rest), vars) == Complete(vars + AllKept(ds), rest)
  {
    var read := TheReader();
    var toks := seq(|ds|, k requires 0 <= k < |ds| => DefinitionToks(ds[k]));
    var kept := seq(|ds|, k requires 0 <= k < |ds| => Kept(ds[k]));
    AllRead(read, toks, kept, vars, rest);
  }

  // ---- The head ----

  const KINDS := map["query" := OpQuery, "mutation" := OpMutate, "subscription" := OpSub]

  /** The word in lower case opens its own kind; in any other case it opens a query. */
  predicate Opens(word: string, kind: OpKind) {
    || (word in KINDS && kind == KINDS[word])
    || (word !in KINDS && kind == OpQuery && exists w <- KINDS :: LexicalGrammar.AnyCase(word, w))
  }

  lemma WordOpens(word: string)
    ensures OpWord(word) <==> exists w <- KINDS :: LexicalGrammar.AnyCase(word, w)
    ensures OpWord(word) ==> Opens(word, KindOf(word))
  {
    LexicalGrammar.CaseFolds(word, "query");
    LexicalGrammar.CaseFolds(word, "mutation");
    LexicalGrammar.CaseFolds(word, "subscription");
    assert "query" in KINDS && "mutation" in KINDS && "subscription" in KINDS;
  }

  function NameTok(name: Option<string>): seq<Token> {
    if name.None? then [] else [Name(name.value)]
  }

  function VariablesToks(ds: seq<Definition>): seq<Token> {
    if ds == [] then [] else [ArgsOpen] + (DefinitionsToks(ds) + [ArgsClose])
  }

  lemma Enclosed(inner: seq<Token>, rest: seq<Token>)
    ensures ParseParamsIfAny([ArgsOpen] + (inner + [ArgsClose]) + rest) == ParseParams(inner + ([ArgsClose] + rest), [])
  {
    var ts, inside := [ArgsOpen] + (inner + [ArgsClose]) + rest, inner + ([ArgsClose] + rest);
    assert ts == [ArgsOpen] + inside && ts[1..] == inside;
  }

  lemma ParamsRead(ds: seq<Definition>, rest: seq<Token>)
    requires AllDefined(ds) && |AllKept(ds)| < 25 && !Peek(rest, ArgsOpen)
    ensures ParseParamsIfAny(VariablesToks(ds) + rest) == Complete(AllKept(ds), rest)
  {
    if ds == [] {
      assert [] + rest == rest;
    } else {
      DefinitionsRead(ds, [], rest);
      assert [] + AllKept(ds) == AllKept(ds);
      Enclosed(DefinitionsToks(ds), rest);
    }
  }

  lemma NameTaken(word: string, name: Option<string>, behind: seq<Token>)
    requires name.None? ==> behind != [] && !behind[0].Name?
    ensures var ts := [Name(word)] + (NameTok(name) + behind);
      (|ts| > 1 && ts[1].Name? <==> name.Some?) && ts[0] == Name(word)
      && (if name.Some? then |ts| > 1 && ts[1] == Name(name.value) && ts[2..] == behind else ts[1..] == behind)
  {
    if name.None? {
      assert [] + behind == behind;
    }
  }

  /** An operation's word, name, variables and directives are read up to its selection. */
  lemma HeadRead(word: string, kind: OpKind, name: Option<string>, ds: seq<Definition>, dirs: seq<FieldDirective>, rest: seq<Token>)
    requires Opens(word, kind) && AllDefined(ds) && |AllKept(ds)| < 25
    requires (forall d <- dirs :: CleanDirective(d)) && Peek(rest, ObjOpen)
    ensures ParseHead([Name(word)] + (NameTok(name) + (VariablesToks(ds) + (DirectivesToks(dirs) + rest))))
         == Parsed(Head(kind, if name.Some? then name.value else "", AllKept(ds)), rest)
  {
    var behind := DirectivesToks(dirs) + rest;
    NoArgsNext(dirs, rest);
    ParamsRead(ds, behind);
    ParsesDirectives(dirs, [], rest);
    assert [] + dirs == dirs;
    WordOpens(word);
    NotAName(ds, dirs, rest);
    NameTaken(word, name, VariablesToks(ds) + behind);
    HeadParts([Name(word)] + (NameTok(name) + (VariablesToks(ds) + behind)), word, name, VariablesToks(ds) + behind, AllKept(ds), behind, dirs, rest);
  }

  lemma NotAName(ds: seq<Definition>, dirs: seq<FieldDirective>, rest: seq<Token>)
    requires Peek(rest, ObjOpen)
    ensures var ts := VariablesToks(ds) + (DirectivesToks(dirs) + rest);
      ts != [] && !ts[0].Name?
  {
    if ds == [] {
      assert [] + (DirectivesToks(dirs) + rest) == DirectivesToks(dirs) + rest;
      if dirs == [] {
        assert [] + rest == rest;
      } else {
        assert (DirectivesToks(dirs) + rest)[0] == Directive;
      }
    }
  }

  lemma HeadParts(ts: seq<Token>, word: string, name: Option<string>, behind: seq<Token>, vars: seq<VarDef>, tail: seq<Token>,
                  dirs: seq<FieldDirective>, rest: seq<Token>)
    requires ts != [] && ts[0] == Name(word) && OpWord(word)
    requires (|ts| > 1 && ts[1].Name? <==> name.Some?)
    requires if name.Some? then |ts| > 1 && ts[1] == Name(name.value) && ts[2..] == behind else ts[1..] == behind
    requires ParseParamsIfAny(behind) == Complete(vars, tail) && ParseDirectives(tail, []) == Parsed(dirs, rest)
    ensures ParseHead(ts) == Parsed(Head(KindOf(word), if name.Some? then name.value else "", vars), rest)
  {
  }

  /** Without a word the selection is that of a query; any other token in its place is refused. */
  lemma HeadMissing(ts: seq<Token>)
    ensures Peek(ts, ObjOpen) ==> ParseHead(ts) == Parsed(Head(OpQuery, "", []), ts)
    ensures !Peek(ts, ObjOpen) && !(ts != [] && ts[0].Name? && exists w <- KINDS :: LexicalGrammar.AnyCase(ts[0].val, w)) ==> ParseHead(ts).Failed?
  {
    if ts != [] && ts[0].Name? {
      WordOpens(ts[0].val);
    }
  }

  /** Neither a fragment nor an operation starts with the word. */
  predicate NoKeyWord(word: string) {
    !LexicalGrammar.AnyCase(word, "fragment") && forall w <- KINDS :: !LexicalGrammar.AnyCase(word, w)
  }

  /** The operation is the first one that no fragment encloses: what stands in front of it is skipped. */
  lemma {:induction false} OperationFound(frags: Fragments, front: seq<Token>, op: seq<Token>)
    requires forall t <- front :: t != Eof && t != ObjOpen && (t.Name? ==> NoKeyWord(t.val))
    requires op != [] && (op[0] == ObjOpen || (op[0].Name? && exists w <- KINDS :: LexicalGrammar.AnyCase(op[0].val, w)))
    ensures OperationOf(frags, front + op) == op
    decreases |front|
  {
    if front == [] {
      assert front + op == op;
      if op[0].Name? {
        WordOpens(op[0].val);
        LexicalGrammar.CaseFolds(op[0].val, "fragment");
      }
    } else {
      assert (front + op)[0] == front[0] && (front + op)[1..] == front[1..] + op && front[0] in front;
      assert forall t <- front[1..] :: t in front;
      if front[0].Name? {
        WordOpens(front[0].val);
        LexicalGrammar.CaseFolds(front[0].val, "fragment");
      }
      OperationFound(frags, front[1..], op);
    }
  }

  // ---- Fragment definitions ----

  /** A definition registers the fields of its selection under its name, in place of an earlier one; then the document goes on. */
  lemma DefinitionRegistered(frags: Fragments, word: string, name: string, on: string, sel: seq<Token>, fields: seq<Field>, rest: seq<Token>)
    requires LexicalGrammar.AnyCase(word, "fragment") && ParseFields(frags, sel) == Parsed(fields, [ObjClose] + rest)
    ensures Scan(frags, [Name(word), Name(name), On, Name(on), ObjOpen] + sel) == Scan(frags[name := fields], rest)
  {
    LexicalGrammar.CaseFolds(word, "fragment");
    var ts := [Name(word), Name(name), On, Name(on), ObjOpen] + sel;
    FiveInFront(Name(word), Name(name), On, Name(on), ObjOpen, sel);
    ScanDefinition(frags, ts, ts[1..], Parsed(fields, [ObjClose] + rest), rest);
  }

  lemma FiveInFront(a: Token, b: Token, c: Token, d: Token, e: Token, sel: seq<Token>)
    ensures var ts := [a, b, c, d, e] + sel;
      ts[0] == a && ts[1..][0] == b && ts[1..][1] == c && ts[1..][2] == d && ts[1..][3] == e && ts[1..][4..] == sel
  {
  }

  lemma ScanDefinition(frags: Fragments, ts: seq<Token>, def: seq<Token>, r: Result<seq<Field>>, rest: seq<Token>)
    requires ts != [] && FragmentWord(ts[0]) && def == ts[1..] && FragmentHead(def) && ParseFields(frags, def[4..]) == r
    requires r.Parsed? && r.rest != [] && r.rest[1..] == rest
    ensures Scan(frags, ts) == Scan(frags[def[0].val := r.value], rest)
  {
  }

  /** The word with anything else behind it is refused. */
  lemma DefinitionRefused(frags: Fragments, ts: seq<Token>)
    requires ts != [] && ts[0].Name? && LexicalGrammar.AnyCase(ts[0].val, "fragment")
    requires !(|ts| >= 5 && ts[1].Name? && ts[2] == On && ts[3].Name? && ts[4] == ObjOpen)
    ensures Scan(frags, ts).Failed?
  {
    LexicalGrammar.CaseFolds(ts[0].val, "fragment");
  }

  /** A spread of a fragment nobody defined is refused. */
  lemma UnknownRefused(limited: bool, frags: Fragments, s: State, name: string, rest: seq<Token>)
    requires InRange(s) && s.rest == [Spread, Name(name)] + rest && name !in frags
    ensures Step(limited, frags, s) == Stopped
  {
    assert s.rest[1..] == [Name(name)] + rest;
  }

  // ---- Inline fragments ----

  /** What an inline fragment makes of a field that was there before. */
  function Marked(f: Field, i: int, p: int, args: seq<Arg>): Field {
    if i == p then f.(ftype := Union)
    else if i > p && f.parent == p then f.(ftype := Member, header := f.header.(args := args))
    else f
  }

  /**
   An inline fragment makes the innermost open field a union and the type behind "on" one of its members, which all have
   the union's arguments. Without an open field it is refused.
   */
  lemma InlineRead(limited: bool, frags: Fragments, s: State, rest: seq<Token>)
    requires InRange(s) && Ordered(s.fields) && s.rest == [Spread, On] + rest && (limited ==> |s.fields| < 1200)
    ensures s.stack == [] || ParseField(rest).Failed? ==> Step(limited, frags, s) == Stopped
    ensures s.stack != [] && ParseField(rest).Parsed? ==>
      var p, n, h, r := s.stack[|s.stack| - 1], |s.fields|, ParseField(rest).value, Step(limited, frags, s);
      && r.More? && |r.next.fields| == n + 1
      && r.next.fields[n] == Field(n, p, Member, h.(args := s.fields[p].header.args), [])
      && (forall i {:trigger r.next.fields[i]} :: 0 <= i < n && i != p ==> r.next.fields[i] == Marked(s.fields[i], i, p, s.fields[p].header.args))
      && r.next.fields[p] == s.fields[p].(ftype := Union, children := s.fields[p].children + [n])
  {
    assert s.rest[1..] == [On] + rest && ([On] + rest)[1..] == rest;
    if s.stack != [] && ParseField(rest).Parsed? {
      var p, h := s.stack[|s.stack| - 1], ParseField(rest);
      SingleSpliced(MarkUnion(s.fields, p), p, h.value);
      InlineGoes(limited, frags, s, p, rest, h, Splice(MarkUnion(s.fields, p), p, Single(h.value)));
      MembersMarked(s.fields, p, h.value);
    }
  }

  lemma InlineGoes(limited: bool, frags: Fragments, s: State, p: int, rest: seq<Token>, h: Result<Header>, all: seq<Field>)
    requires InRange(s) && s.rest != [] && s.rest[0] == Spread && s.rest[1..] == [On] + rest && (limited ==> |s.fields| < 1200)
    requires s.stack != [] && p == s.stack[|s.stack| - 1] && ParseField(rest) == h && h.Parsed?
    requires 0 <= p < |s.fields| && all == Splice(MarkUnion(s.fields, p), p, Single(h.value))
    ensures Step(limited, frags, s).More? && Step(limited, frags, s).next.fields == MarkMembers(all, p)
  {
    var inner := State(rest, s.fields, s.stack);
    StepsInline(limited, frags, s, rest);
    InlineFields(inner, p, h, all);
  }

  lemma StepsInline(limited: bool, frags: Fragments, s: State, rest: seq<Token>)
    requires InRange(s) && s.rest != [] && s.rest[0] == Spread && s.rest[1..] == [On] + rest && (limited ==> |s.fields| < 1200)
    ensures Step(limited, frags, s) == Inline(State(rest, s.fields, s.stack))
  {
    assert ([On] + rest)[1..] == rest;
  }

  lemma InlineFields(s: State, p: int, h: Result<Header>, all: seq<Field>)
    requires InRange(s) && s.stack != [] && p == s.stack[|s.stack| - 1] && ParseField(s.rest) == h && h.Parsed?
    requires 0 <= p < |s.fields| && all == Splice(MarkUnion(s.fields, p), p, Single(h.value))
    ensures Inline(s).More? && Inline(s).next.fields == MarkMembers(all, p)
  {
    var marked := s.(fields := MarkUnion(s.fields, p));
    NormalIs(marked, h.value, h.rest, all);
    InlineIs(s, p, marked, Opened(h.rest, all, s.stack, |s.fields|));
  }

  lemma MembersMarked(f: seq<Field>, p: int, h: Header)
    requires Ordered(f) && 0 <= p < |f|
    ensures var n, r := |f|, MarkMembers(MarkUnion(f, p)[p := f[p].(ftype := Union, children := f[p].children + [|f|])] + [Field(|f|, p, Plain, h, [])], p);
      && |r| == n + 1 && r[n] == Field(n, p, Member, h.(args := f[p].header.args), [])
      && (forall i {:trigger r[i]} :: 0 <= i < n && i != p ==> r[i] == Marked(f[i], i, p, f[p].header.args))
      && r[p] == f[p].(ftype := Union, children := f[p].children + [n])
  {
  }

  lemma SingleSpliced(f: seq<Field>, p: int, h: Header)
    requires 0 <= p < |f|
    ensures Splice(f, p, Single(h)) == f[p := f[p].(children := f[p].children + [|f|])] + [Field(|f|, p, Plain, h, [])]
  {
    var single, n := Single(h), |f|;
    assert Kids(single, -1) == [0] by {
      assert single[..0] == [];
    }
    assert Add([0], n) == [n] && Add([], n) == [];
    assert MovedAll(single, n, p) == [Moved(single[0], 0, n, p)];
  }

  /** The 1201st field of a selection is refused, a spread in its place too. */
  lemma FieldLimit(frags: Fragments, s: State)
    requires InRange(s) && |s.fields| == 1200 && !Peek(s.rest, ObjClose)
    ensures Step(true, frags, s) == Stopped
  {
  }
}
