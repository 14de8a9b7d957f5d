/**
 A document: fragment definitions and an operation. The fragments are collected
 first, wherever they stand; then the operation is parsed.
 */
module GraphDocument {
  import opened Common
  import opened GraphSyntax
  import opened FieldForest
  import opened FieldParser
  import opened FragmentSpread

  datatype OpKind = OpQuery | OpMutate | OpSub

  /** A default or type of a variable; its type is kept as text. */
  datatype VarDef = VarDef(name: string, val: Node)

  /** What stands in front of an operation's selection. */
  datatype Head = Head(kind: OpKind, name: string, vars: seq<VarDef>)

  datatype Operation = Operation(kind: OpKind, name: string, vars: seq<VarDef>, fields: seq<Field>)

  // ---- The head of an operation ----

  /** A word that opens an operation, in any case. */
  predicate OpWord(word: string) {
    Lower(word) in {"query", "mutation", "subscription"}
  }

  /** The kind it opens: only the lower-case words count, everything else is a query. */
  function KindOf(word: string): OpKind {
    if word == "mutation" then OpMutate else if word == "subscription" then OpSub else OpQuery
  }

  /** The text of a variable's type and what stands behind it. */
  function ParseType(ts: seq<Token>): (r: (string, seq<Token>))
    ensures |r.1| <= |ts|
    ensures r.0 != "" ==> |r.1| < |ts|
  {
    if Peek(ts, Required) then var r := ParseType(ts[1..]); ("!" + r.0, r.1)
    else if Peek(ts, ListOpen) then var r := ParseType(ts[1..]); ("[" + r.0, r.1)
    else if Peek(ts, ListClose) then var r := ParseType(ts[1..]); ("]" + r.0, r.1)
    else if ts != [] && ts[0].Name? then var r := ParseType(ts[1..]); (ts[0].val + r.0, r.1)
    else ("", ts)
  }

  /** The tokens a default value may start with. */
  predicate StartsValue(ts: seq<Token>) {
    ts != [] && match ts[0]
      case Name(_) => true
      case StringVal(_) => true
      case NumberVal(_) => true
      case BoolVal(_) => true
      case ObjOpen => true
      case ListOpen => true
      case _ => false
  }

  function ParseDefault(ts: seq<Token>): (r: Result<Node>)
    ensures r.Parsed? ==> |r.rest| < |ts|
  {
    if StartsValue(ts) then ParseValue(ts) else Failed
  }

  /** A variable definition behind its name; a bare variable defines nothing. */
  function ParseVarDef(name: string, ts: seq<Token>): (r: Result<seq<VarDef>>)
    ensures r.Parsed? ==> |r.rest| <= |ts|
  {
    if Peek(ts, Colon) then
      var t := ParseType(ts[1..]);
      if t.0 == "" then Failed
      else if Peek(t.1, Equals) then
        var v := ParseDefault(t.1[1..]);
        if v.Failed? then Failed else Parsed([VarDef(name, v.value)], v.rest)
      else Parsed([VarDef(name, Node(NodeVar, "", t.0, []))], t.1)
    else if Peek(ts, Equals) then
      var v := ParseDefault(ts[1..]);
      if v.Failed? then Failed else Parsed([VarDef(name, v.value)], v.rest)
    else Parsed([], ts)
  }

  /** The variable definitions of a head: refused, complete, or a loop that never ends because they are not closed. */
  datatype Params = Refused | Endless | Complete(vars: seq<VarDef>, rest: seq<Token>)

  /** The definitions between the operation's parentheses; other tokens are skipped. */
  function ParseParams(ts: seq<Token>, vars: seq<VarDef>): (r: Params)
    ensures r.Complete? ==> |r.rest| < |ts|
    decreases |ts|
  {
    if |vars| >= MAX_ARGS then Refused
    else if ts == [] || ts[0] == Eof then Endless
    else if ts[0] == ArgsClose then Complete(vars, ts[1..])
    else if !ts[0].Variable? then ParseParams(ts[1..], vars)
    else
      var d := ParseVarDef(ts[0].val, ts[1..]);
      if d.Failed? then Refused else ParseParams(d.rest, vars + d.value)
  }

  function ParseParamsIfAny(ts: seq<Token>): Params {
    if Peek(ts, ArgsOpen) then ParseParams(ts[1..], []) else Complete([], ts)
  }

  /** A head: keyword, name, variables and directives; or none, and the operation is a query. */
  function ParseHead(ts: seq<Token>): Result<Head> {
    if Peek(ts, ObjOpen) then Parsed(Head(OpQuery, "", []), ts)
    else if ts == [] || !ts[0].Name? || !OpWord(ts[0].val) then Failed
    else
      var named := |ts| > 1 && ts[1].Name?;
      var p := ParseParamsIfAny(if named then ts[2..] else ts[1..]);
      if !p.Complete? then Failed
      else
        var d := ParseDirectives(p.rest, []);
        if d.Failed? then Failed
        else Parsed(Head(KindOf(ts[0].val), if named then ts[1].val else "", p.vars), d.rest)
  }

  /** The selection of an operation, up to its closing brace. */
  function ParseSelection(frags: Fragments, h: Head, ts: seq<Token>): Result<Operation> {
    if !Peek(ts, ObjOpen) then Failed
    else
      var f := ParseFields(frags, ts[1..]);
      if f.Failed? then Failed else Parsed(Operation(h.kind, h.name, h.vars, f.value), f.rest[1..])
  }

  function ParseOp(frags: Fragments, ts: seq<Token>): Result<Operation> {
    var h := ParseHead(ts);
    if h.Failed? then Failed else ParseSelection(frags, h.value, h.rest)
  }

  // ---- Documents ----

  /** What a token outside the fragments must be for the operation to start there. */
  predicate StartsOperation(t: Token) {
    t == ObjOpen || (t.Name? && OpWord(t.val))
  }

  /** The document from its operation on; nothing if there is none outside the fragments. */
  function OperationOf(frags: Fragments, ts: seq<Token>): seq<Token>
    decreases |ts|
  {
    if ts == [] || ts[0] == Eof then []
    else if FragmentWord(ts[0]) then
      var r := Definition(frags, ts[1..]);
      if r.Failed? then [] else OperationOf(frags[ts[1].val := r.value], r.rest[1..])
    else if StartsOperation(ts[0]) then ts
    else OperationOf(frags, ts[1..])
  }

  /** Root fields with neither arguments nor children are keywords. */
  function MarkKeywords(fields: seq<Field>): (r: seq<Field>)
    ensures |r| == |fields|
  {
    seq(|fields|, i requires 0 <= i < |fields| =>
      var f := fields[i];
      if f.parent == -1 && f.header.args == [] && f.children == [] then f.(ftype := Keyword) else f)
  }

  /** A document: its fragments first, then the operation. */
  function ParseDocument(ts: seq<Token>): Result<Operation> {
    var frags := Scan(map[], ts);
    if frags.Failed? then Failed
    else
      var op := ParseOp(frags.value, OperationOf(map[], ts));
      if op.Failed? then Failed else Parsed(op.value.(fields := MarkKeywords(op.value.fields)), op.rest)
  }

  // ---- Parsed documents are forests ----

  lemma KeywordsKeepShape(f: seq<Field>)
    ensures SameShape(f, MarkKeywords(f))
  {
  }

  /** Whatever a document holds, the fields it is parsed to are a pre-order forest. */
  lemma DocumentIsForest(ts: seq<Token>)
    requires ParseDocument(ts).Parsed?
    ensures Sound(ParseDocument(ts).value.fields)
  {
    var frags := Scan(map[], ts).value;
    var bodies := ScanBodies(map[], map[], ts);
    ScanMatches(map[], map[], ts);
    forall f | f in frags ensures Sound(frags[f]) {
      assert Defines(bodies[f], frags[f]);
    }
    var h := ParseHead(OperationOf(map[], ts));
    ParsedIsForest(frags, h.rest[1..]);
    var f := ParseFields(frags, h.rest[1..]).value;
    KeywordsKeepShape(f);
    SameShapeForest(f, MarkKeywords(f));
    assert OpenPath(f, []);
    SameShapePreOrder(f, MarkKeywords(f), []);
  }
}
