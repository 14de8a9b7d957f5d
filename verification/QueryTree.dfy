/**
 Printed selections: the lexer and the parser undo the printer.
 */
module QueryTree {
  import opened Common
  import opened GraphSyntax
  import opened GraphLexer
  import opened FieldForest
  import opened FieldParser
  import opened FieldTrees
  import opened QueryText

  // ---- Parsing values and headers ----

  lemma FrontOf(a: seq<Token>, rest: seq<Token>)
    requires a != []
    ensures (a + rest)[0] == a[0] && (a + rest)[1..] == a[1..] + rest
  {
  }

  lemma ToksFront(n: Node)
    requires Clean(n)
    ensures Toks(n) != [] && Toks(n)[0] !in {Eof, ListClose, ObjClose}
  {
  }

  lemma OpensList(inside: seq<Token>)
    ensures ParseValue([ListOpen] + inside) == ParseList(inside, [])
  {
    assert ([ListOpen] + inside)[1..] == inside;
  }

  lemma OpensObj(inside: seq<Token>)
    ensures ParseValue([ObjOpen] + inside) == ParseObj(inside, [])
  {
    assert ([ObjOpen] + inside)[1..] == inside;
  }

  lemma TakesToken(t: Token, rest: seq<Token>)
    ensures [t] + rest != [] && ([t] + rest)[0] == t && ([t] + rest)[1..] == rest
  {
  }

  /** The token of a scalar. */
  function ScalarToken(n: Node): Token
    requires !n.kind.NodeList? && !n.kind.NodeObj?
  {
    match n.kind
    case NodeStr => StringVal(n.val)
    case NodeNum => NumberVal(n.val)
    case NodeBool => BoolVal(n.val)
    case NodeVar => Variable(n.val)
    case NodeLabel => Name(n.val)
  }

  lemma ParsesScalar(n: Node, rest: seq<Token>)
    requires Clean(n) && !n.kind.NodeList? && !n.kind.NodeObj?
    ensures ParseValue(Toks(n) + rest) == Parsed(n.(name := ""), rest)
  {
    var t := ScalarToken(n);
    assert Toks(n) == [t];
    TakesToken(t, rest);
    ScalarParsed(n, [t] + rest);
  }

  lemma ScalarParsed(n: Node, ts: seq<Token>)
    requires !n.kind.NodeList? && !n.kind.NodeObj? && n.children == [] && ts != [] && ts[0] == ScalarToken(n)
    ensures ParseValue(ts) == Parsed(n.(name := ""), ts[1..])
  {
  }

  /** The parser builds the printed value; a member's key is put on it by the enclosing object. */
  lemma {:induction false} ParsesNode(n: Node, rest: seq<Token>)
    requires Clean(n)
    ensures ParseValue(Toks(n) + rest) == Parsed(n.(name := ""), rest)
    decreases n, 0
  {
    match n.kind
    case NodeList =>
      var inside := ListToks(n.children) + ([ListClose] + rest);
      assert Toks(n) + rest == [ListOpen] + inside;
      OpensList(inside);
      ParsesList(n.children, [], rest);
      assert [] + n.children == n.children;
    case NodeObj =>
      var inside := ObjToks(n.children) + ([ObjClose] + rest);
      assert Toks(n) + rest == [ObjOpen] + inside;
      OpensObj(inside);
      ParsesObj(n.children, [], rest);
      assert [] + n.children == n.children;
    case _ =>
      ParsesScalar(n, rest);
  }

  lemma ListStep(toks: seq<Token>, v: Node, tail: seq<Token>, acc: seq<Node>)
    requires toks != [] && toks[0] !in {Eof, ListClose} && ParseValue(toks + tail) == Parsed(v, tail)
    ensures ParseList(toks + tail, acc) == ParseList(tail, acc + [v])
  {
    FrontOf(toks, tail);
  }

  lemma {:induction false} ParsesList(ns: seq<Node>, acc: seq<Node>, rest: seq<Token>)
    requires forall c <- ns :: Clean(c) && c.name == ""
    ensures ParseList(ListToks(ns) + ([ListClose] + rest), acc) == Parsed(Node(NodeList, "", "", acc + ns), rest)
    decreases ns, 1
  {
    if ns == [] {
      assert ListToks(ns) + ([ListClose] + rest) == [ListClose] + rest;
      assert acc + ns == acc;
    } else {
      var tail := ListToks(ns[1..]) + ([ListClose] + rest);
      assert ns[0] in ns;
      ToksFront(ns[0]);
      Associates(Toks(ns[0]), ListToks(ns[1..]), [ListClose] + rest);
      ParsesNode(ns[0], tail);
      assert ns[0].(name := "") == ns[0];
      ListStep(Toks(ns[0]), ns[0], tail, acc);
      ParsesList(ns[1..], acc + [ns[0]], rest);
      MoveFirst(acc, ns);
    }
  }

  lemma ObjStep(key: string, toks: seq<Token>, v: Node, tail: seq<Token>, acc: seq<Node>)
    requires ParseValue(toks + tail) == Parsed(v, tail)
    ensures ParseObj([Name(key), Colon] + (toks + tail), acc) == ParseObj(tail, acc + [v.(name := key)])
  {
    assert ([Name(key), Colon] + (toks + tail))[2..] == toks + tail;
  }

  lemma {:induction false} ParsesObj(ns: seq<Node>, acc: seq<Node>, rest: seq<Token>)
    requires forall c <- ns :: Clean(c) && PlainName(c.name)
    ensures ParseObj(ObjToks(ns) + ([ObjClose] + rest), acc) == Parsed(Node(NodeObj, "", "", acc + ns), rest)
    decreases ns, 1
  {
    if ns == [] {
      assert ObjToks(ns) + ([ObjClose] + rest) == [ObjClose] + rest;
      assert acc + ns == acc;
    } else {
      var tail := ObjToks(ns[1..]) + ([ObjClose] + rest);
      var n := ns[0];
      assert n in ns;
      Regrouped([Name(n.name), Colon], Toks(n), ObjToks(ns[1..]), [ObjClose] + rest);
      ParsesNode(n, tail);
      ObjStep(n.name, Toks(n), n.(name := ""), tail, acc);
      assert n.(name := "").(name := n.name) == n;
      ParsesObj(ns[1..], acc + [n], rest);
      MoveFirst(acc, ns);
    }
  }

  lemma ArgStep(key: string, toks: seq<Token>, v: Node, tail: seq<Token>, acc: seq<Arg>)
    requires ParseValue(toks + tail) == Parsed(v, tail) && |acc| < MAX_ARGS
    ensures ParseArgs([Name(key), Colon] + (toks + tail), acc) == ParseArgs(tail, acc + [Arg(key, v)])
  {
    assert ([Name(key), Colon] + (toks + tail))[2..] == toks + tail;
  }

  /** The value of an argument is clean, whatever its name. */
  predicate CleanValue(a: Arg) {
    Clean(a.val) && a.val.name == ""
  }

  lemma ParsesArg(a: Arg, tail: seq<Token>, acc: seq<Arg>)
    requires CleanValue(a) && |acc| < MAX_ARGS
    ensures ParseArgs([Name(a.name), Colon] + (Toks(a.val) + tail), acc) == ParseArgs(tail, acc + [a])
  {
    ParsesNode(a.val, tail);
    assert a.val.(name := "") == a.val;
    ArgStep(a.name, Toks(a.val), a.val, tail, acc);
  }

  lemma {:induction false} ParsesArgs(args: seq<Arg>, acc: seq<Arg>, rest: seq<Token>)
    requires (forall a <- args :: CleanValue(a)) && |acc| + |args| < MAX_ARGS
    ensures ParseArgs(ArgsToks(args) + ([ArgsClose] + rest), acc) == Parsed(acc + args, rest)
    decreases |args|
  {
    if args == [] {
      assert ArgsToks(args) + ([ArgsClose] + rest) == [ArgsClose] + rest;
      assert acc + args == acc;
    } else {
      var tail := ArgsToks(args[1..]) + ([ArgsClose] + rest);
      var a := args[0];
      assert a in args && CleanValue(a);
      Regrouped([Name(a.name), Colon], Toks(a.val), ArgsToks(args[1..]), [ArgsClose] + rest);
      ParsesArg(a, tail, acc);
      ParsesArgs(args[1..], acc + [a], rest);
      MoveFirst(acc, args);
    }
  }

  /** What follows a printed header's name. */
  function TailToks(h: Header): seq<Token> {
    if h.args == [] then [] else [ArgsOpen] + ArgsToks(h.args) + [ArgsClose]
  }

  lemma ParsesTail(h: Header, rest: seq<Token>)
    requires CleanHeader(h) && h.directives == [] && EndsHeader(rest)
    ensures ParseTail(TailToks(h) + rest, h.alias, h.name) == Parsed(h, rest)
  {
    assert ParseDirectives(rest, []) == Parsed([], rest);
    if h.args == [] {
      assert TailToks(h) + rest == rest;
    } else {
      var inside := ArgsToks(h.args) + ([ArgsClose] + rest);
      assert TailToks(h) + rest == [ArgsOpen] + inside;
      assert forall a <- h.args :: CleanArg(a) && CleanValue(a);
      ParsesArgs(h.args, [], rest);
      assert [] + h.args == h.args;
      OpensArgs(h, inside, rest);
    }
  }

  lemma OpensArgs(h: Header, inside: seq<Token>, rest: seq<Token>)
    requires ParseArgs(inside, []) == Parsed(h.args, rest) && ParseDirectives(rest, []) == Parsed([], rest)
    requires h.directives == []
    ensures ParseTail([ArgsOpen] + inside, h.alias, h.name) == Parsed(h, rest)
  {
    assert ([ArgsOpen] + inside)[1..] == inside;
  }

  lemma NamesPlain(h: Header, tail: seq<Token>)
    requires !Peek(tail, Colon) && h.alias == ""
    ensures ParseField([Name(h.name)] + tail) == ParseTail(tail, h.alias, h.name)
  {
    assert ([Name(h.name)] + tail)[1..] == tail;
  }

  lemma NamesAliased(h: Header, tail: seq<Token>)
    ensures ParseField([Name(h.alias), Colon, Name(h.name)] + tail) == ParseTail(tail, h.alias, h.name)
  {
    var ts := [Name(h.alias), Colon, Name(h.name)] + tail;
    assert ts[3..] == tail && ts[1..][0] == Colon;
  }

  lemma HeaderSplit(h: Header, rest: seq<Token>)
    ensures HeaderToks(h) + rest ==
      (if h.alias == "" then [Name(h.name)] else [Name(h.alias), Colon, Name(h.name)]) + (TailToks(h) + rest)
  {
  }

  lemma TailFront(h: Header, rest: seq<Token>)
    requires EndsHeader(rest)
    ensures !Peek(TailToks(h) + rest, Colon)
  {
  }

  lemma ParsesHeader(h: Header, rest: seq<Token>)
    requires CleanHeader(h) && h.directives == [] && EndsHeader(rest)
    ensures ParseField(HeaderToks(h) + rest) == Parsed(h, rest)
  {
    ParsesTail(h, rest);
    HeaderSplit(h, rest);
    TailFront(h, rest);
    if h.alias == "" {
      NamesPlain(h, TailToks(h) + rest);
    } else {
      NamesAliased(h, TailToks(h) + rest);
    }
  }

  // ---- Trees ----

  predicate CleanTree(t: Tree)
    decreases t
  {
    CleanHeader(t.header) && forall k <- t.kids :: CleanTree(k)
  }

  predicate CleanTrees(ts: seq<Tree>) {
    forall t <- ts :: CleanTree(t)
  }

  /** All strings in the tree survive being printed. */
  predicate LastingTree(t: Tree)
    decreases t
  {
    LastingHeader(t.header) && forall k <- t.kids :: LastingTree(k)
  }

  predicate LastingTrees(ts: seq<Tree>) {
    forall t <- ts :: LastingTree(t)
  }

  /** No string in the tree ends in a backslash. */
  predicate ClosingTree(t: Tree)
    decreases t
  {
    ClosingHeader(t.header) && forall k <- t.kids :: ClosingTree(k)
  }

  predicate ClosingTrees(ts: seq<Tree>) {
    forall t <- ts :: ClosingTree(t)
  }

  /** The tree with its strings as they are read back. */
  function RereadTree(t: Tree): Tree
    decreases t
  {
    Tree(RereadHeader(t.header), RereadTrees(t.kids))
  }

  function RereadTrees(ts: seq<Tree>): seq<Tree>
    decreases ts
  {
    if ts == [] then [] else [RereadTree(ts[0])] + RereadTrees(ts[1..])
  }

  /** Trees whose strings all close are read back as they are exactly if all strings survive. */
  lemma {:induction false} RereadTreeSame(t: Tree)
    requires ClosingTree(t)
    ensures RereadTree(t) == t <==> LastingTree(t)
    decreases t
  {
    RereadArgsSame(t.header.args);
    RereadTreesSame(t.kids);
  }

  lemma {:induction false} RereadTreesSame(ts: seq<Tree>)
    requires ClosingTrees(ts)
    ensures RereadTrees(ts) == ts <==> LastingTrees(ts)
    decreases ts
  {
    if ts != [] {
      assert ts[0] in ts && ts == [ts[0]] + ts[1..];
      RereadTreeSame(ts[0]);
      RereadTreesSame(ts[1..]);
      assert RereadTrees(ts)[0] == RereadTree(ts[0]) && RereadTrees(ts)[1..] == RereadTrees(ts[1..]);
    }
  }

  lemma {:induction false} RereadTreeClean(t: Tree)
    requires CleanTree(t)
    ensures CleanTree(RereadTree(t)) && (BareTree(t) ==> BareTree(RereadTree(t)))
    decreases t
  {
    RereadArgsClean(t.header.args);
    RereadTreesClean(t.kids);
  }

  lemma {:induction false} RereadTreesClean(ts: seq<Tree>)
    requires CleanTrees(ts)
    ensures CleanTrees(RereadTrees(ts)) && (BareTrees(ts) ==> BareTrees(RereadTrees(ts)))
    ensures |RereadTrees(ts)| == |ts|
    decreases ts
  {
    if ts != [] {
      assert ts[0] in ts;
      RereadTreeClean(ts[0]);
      RereadTreesClean(ts[1..]);
    }
  }

  /** No field of the tree has a directive. */
  predicate BareTree(t: Tree)
    decreases t
  {
    t.header.directives == [] && forall k <- t.kids :: BareTree(k)
  }

  predicate BareTrees(ts: seq<Tree>) {
    forall t <- ts :: BareTree(t)
  }

  function TreeText(t: Tree): string
    decreases t
  {
    HeaderText(t.header) + (if t.kids == [] then "" else " { " + TreesText(t.kids) + " }")
  }

  function TreesText(ts: seq<Tree>): string
    decreases ts
  {
    if ts == [] then "" else TreeText(ts[0]) + (if |ts| == 1 then "" else " " + TreesText(ts[1..]))
  }

  function TreeToks(t: Tree): seq<Token>
    decreases t
  {
    HeaderToks(t.header) + (if t.kids == [] then [] else [ObjOpen] + TreesToks(t.kids) + [ObjClose])
  }

  function TreesToks(ts: seq<Tree>): seq<Token>
    decreases ts
  {
    if ts == [] then [] else TreeToks(ts[0]) + TreesToks(ts[1..])
  }

  lemma ReadsBlock(text: string, toks: seq<Token>, rest: string)
    requires Reads(text, toks, " }" + rest)
    ensures Reads(" { " + text + " }", [ObjOpen] + toks + [ObjClose], rest)
  {
    ReadsPunctAfter('}', rest);
    ReadsBoth(text, toks, " }", [ObjClose], rest);
    ReadsOpening(text + " }" + rest);
    ReadsBoth(" { ", [ObjOpen], text + " }", toks + [ObjClose], rest);
    assert " { " + (text + " }") == " { " + text + " }";
    assert [ObjOpen] + (toks + [ObjClose]) == [ObjOpen] + toks + [ObjClose];
  }

  lemma ReadsPunctAfter(c: char, rest: string)
    requires IsPunct(c)
    ensures Reads([' ', c], [PunctToken(c)], rest)
  {
    ReadsPunct(c, rest);
    ReadsBlank(' ', [c] + rest);
    ReadsBoth([' '], [], [c], [PunctToken(c)], rest);
    assert [' '] + [c] == [' ', c];
    assert [] + [PunctToken(c)] == [PunctToken(c)];
  }

  lemma ReadsOpening(rest: string)
    ensures Reads(" { ", [ObjOpen], rest)
  {
    ReadsPunctBlank('{', ' ', rest);
    ReadsBlank(' ', ['{', ' '] + rest);
    ReadsBoth([' '], [], ['{', ' '], [ObjOpen], rest);
    assert [' '] + ['{', ' '] == " { ";
    assert [] + [ObjOpen] == [ObjOpen];
  }

  /** The lexer finds a printed selection's tokens. */
  lemma {:induction false} ReadsTree(t: Tree, rest: string)
    requires CleanTree(t) && ClosingTree(t) && Stops(rest)
    ensures Reads(TreeText(t), TreeToks(RereadTree(t)), rest)
    decreases t
  {
    var block := if t.kids == [] then "" else " { " + TreesText(t.kids) + " }";
    var kids := RereadTrees(t.kids);
    var blockToks := if t.kids == [] then [] else [ObjOpen] + TreesToks(kids) + [ObjClose];
    if t.kids == [] {
      ReadsNothing(rest);
    } else {
      ReadsTrees(t.kids, " }" + rest);
      ReadsBlock(TreesText(t.kids), TreesToks(kids), rest);
    }
    ReadsHeader(t.header, block + rest);
    ReadsBoth(HeaderText(t.header), HeaderToks(RereadHeader(t.header)), block, blockToks, rest);
  }

  lemma {:induction false} ReadsTrees(ts: seq<Tree>, rest: string)
    requires CleanTrees(ts) && ClosingTrees(ts) && Stops(rest)
    ensures Reads(TreesText(ts), TreesToks(RereadTrees(ts)), rest)
    decreases ts
  {
    if ts == [] {
      ReadsNothing(rest);
    } else {
      var text, toks := TreesText(ts[1..]), TreesToks(RereadTrees(ts[1..]));
      assert RereadTrees(ts)[0] == RereadTree(ts[0]) && RereadTrees(ts)[1..] == RereadTrees(ts[1..]);
      var more := if |ts| == 1 then "" else " " + text;
      assert ts[0] in ts;
      ReadsTree(ts[0], more + rest);
      ReadsTrees(ts[1..], rest);
      if |ts| > 1 {
        ReadsBlank(' ', text + rest);
        ReadsBoth([' '], [], text, toks, rest);
        assert [] + toks == toks;
      }
      ReadsBoth(TreeText(ts[0]), TreeToks(RereadTree(ts[0])), more, toks, rest);
    }
  }

  // ---- Parsing trees ----

  /** Tokens that stand behind a complete field. */
  predicate AfterField(s: seq<Token>) {
    s != [] && (s[0].Name? || s[0] == ObjClose)
  }

  lemma {:induction false} HeaderFront(h: Header)
    ensures HeaderToks(h) != [] && HeaderToks(h)[0].Name?
  {
  }

  lemma TreesFront(ts: seq<Tree>, s: seq<Token>)
    requires AfterField(s)
    ensures AfterField(TreesToks(ts) + s)
  {
    if ts == [] {
      assert TreesToks(ts) + s == s;
    } else {
      HeaderFront(ts[0].header);
    }
  }

  /** One header, and the brace behind it, in one step. */
  lemma StepsHeader(h: Header, rest: seq<Token>, s: State)
    requires CleanHeader(h) && h.directives == [] && EndsHeader(rest) && InRange(s) && s.rest == HeaderToks(h) + rest
    ensures Step(false, map[], s)
      == More(Opened(rest, Splice(s.fields, Top(s.stack), Single(h)), s.stack, |s.fields|))
  {
    HeaderFront(h);
    FrontOf(HeaderToks(h), rest);
    ParsesHeader(h, rest);
  }

  /** run goes on as the parser does. */
  ghost predicate Runs(run: State -> Result<seq<Field>>) {
    forall s {:trigger RunStep(false, map[], run, s)} :: InRange(s) ==> RunStep(false, map[], run, s)
  }

  lemma RunsHeader(run: State -> Result<seq<Field>>, h: Header, rest: seq<Token>, s: State)
    requires Runs(run) && CleanHeader(h) && h.directives == [] && EndsHeader(rest)
    requires InRange(s) && s.rest == HeaderToks(h) + rest
    ensures run(s) == run(Opened(rest, Splice(s.fields, Top(s.stack), Single(h)), s.stack, |s.fields|))
  {
    StepsHeader(h, rest, s);
    assert RunStep(false, map[], run, s);
  }

  /** A printed tree is parsed to its array, spliced in below the innermost open field. */
  lemma {:induction false} ParsesTree(run: State -> Result<seq<Field>>, t: Tree, tail: seq<Token>, fields: seq<Field>, stack: seq<int>)
    requires Runs(run) && CleanTree(t) && BareTree(t) && AfterField(tail) && InRange(State(tail, fields, stack))
    ensures run(State(TreeToks(t) + tail, fields, stack)) == run(State(tail, Splice(fields, Top(stack), Flat(t)), stack))
    decreases t
  {
    var h := t.header;
    var s := State(TreeToks(t) + tail, fields, stack);
    if t.kids == [] {
      assert TreeToks(t) + tail == HeaderToks(h) + tail;
      RunsHeader(run, h, tail, s);
      SpliceNothing(Single(h), 0);
    } else {
      var id := |fields|;
      var grown := Splice(fields, Top(stack), Single(h));
      var inside := TreesToks(t.kids) + ([ObjClose] + tail);
      TreeBlock(t, tail);
      RunsHeader(run, h, [ObjOpen] + inside, s);
      Opens(inside, grown, stack, id);
      DeeperInRange(State(tail, fields, stack), [ObjClose] + tail, h);
      ParsesTrees(run, t.kids, [ObjClose] + tail, grown, stack + [id]);
      Closes(run, tail, Splice(grown, id, FlatAll(t.kids)), stack, id);
      FlatSplices(fields, Top(stack), t);
    }
  }

  lemma TreeBlock(t: Tree, tail: seq<Token>)
    requires t.kids != []
    ensures TreeToks(t) + tail == HeaderToks(t.header) + ([ObjOpen] + (TreesToks(t.kids) + ([ObjClose] + tail)))
  {
    BlockToks(HeaderToks(t.header), TreesToks(t.kids), tail);
  }

  lemma BlockToks(head: seq<Token>, kids: seq<Token>, tail: seq<Token>)
    ensures head + ([ObjOpen] + kids + [ObjClose]) + tail == head + ([ObjOpen] + (kids + ([ObjClose] + tail)))
  {
  }

  lemma FlatSplices(fields: seq<Field>, pid: int, t: Tree)
    requires -1 <= pid < |fields|
    ensures Splice(Splice(fields, pid, Single(t.header)), |fields|, FlatAll(t.kids)) == Splice(fields, pid, Flat(t))
  {
    FlatAllSound(t.kids);
    SpliceAssoc(fields, pid, Single(t.header), 0, FlatAll(t.kids));
  }

  lemma DeeperInRange(s: State, rest: seq<Token>, h: Header)
    requires InRange(s)
    ensures InRange(State(rest, Splice(s.fields, Top(s.stack), Single(h)), s.stack + [|s.fields|]))
  {
  }

  lemma Opens(inside: seq<Token>, fields: seq<Field>, stack: seq<int>, id: int)
    ensures Opened([ObjOpen] + inside, fields, stack, id) == State(inside, fields, stack + [id])
  {
    assert ([ObjOpen] + inside)[1..] == inside;
  }

  lemma Closes(run: State -> Result<seq<Field>>, tail: seq<Token>, fields: seq<Field>, stack: seq<int>, id: int)
    requires Runs(run) && InRange(State(tail, fields, stack + [id]))
    ensures run(State([ObjClose] + tail, fields, stack + [id])) == run(State(tail, fields, stack))
  {
    var s := State([ObjClose] + tail, fields, stack + [id]);
    assert ([ObjClose] + tail)[1..] == tail;
    assert (stack + [id])[..|stack|] == stack;
    assert RunStep(false, map[], run, s);
  }

  lemma {:induction false} ParsesTrees(run: State -> Result<seq<Field>>, ts: seq<Tree>, tail: seq<Token>,
                                       fields: seq<Field>, stack: seq<int>)
    requires Runs(run) && CleanTrees(ts) && BareTrees(ts) && AfterField(tail) && InRange(State(tail, fields, stack))
    ensures run(State(TreesToks(ts) + tail, fields, stack)) == run(State(tail, Splice(fields, Top(stack), FlatAll(ts)), stack))
    decreases ts
  {
    if ts == [] {
      assert TreesToks(ts) + tail == tail;
      SpliceNothing(fields, Top(stack));
    } else {
      var rest := TreesToks(ts[1..]) + tail;
      FirstTree(ts, tail);
      TreesFront(ts[1..], tail);
      ParsesTree(run, ts[0], rest, fields, stack);
      StackInRange(State(rest, fields, stack), tail, Flat(ts[0]));
      ParsesTrees(run, ts[1..], tail, Splice(fields, Top(stack), Flat(ts[0])), stack);
      SplicesAll(fields, Top(stack), ts);
    }
  }

  lemma FirstTree(ts: seq<Tree>, tail: seq<Token>)
    requires ts != [] && CleanTrees(ts) && BareTrees(ts)
    ensures TreesToks(ts) + tail == TreeToks(ts[0]) + (TreesToks(ts[1..]) + tail)
    ensures CleanTree(ts[0]) && BareTree(ts[0]) && CleanTrees(ts[1..]) && BareTrees(ts[1..])
  {
    assert ts[0] in ts;
    Associates(TreeToks(ts[0]), TreesToks(ts[1..]), tail);
  }

  lemma Associates(a: seq<Token>, b: seq<Token>, c: seq<Token>)
    ensures a + b + c == a + (b + c)
  {
  }

  lemma StackInRange(s: State, tail: seq<Token>, g: seq<Field>)
    requires InRange(s)
    ensures InRange(State(tail, Splice(s.fields, Top(s.stack), g), s.stack))
  {
  }

  lemma SplicesAll(fields: seq<Field>, pid: int, ts: seq<Tree>)
    requires -1 <= pid < |fields| && ts != []
    ensures Splice(Splice(fields, pid, Flat(ts[0])), pid, FlatAll(ts[1..])) == Splice(fields, pid, FlatAll(ts))
  {
    FlatAllSound(ts[1..]);
    SpliceAssoc(fields, pid, Flat(ts[0]), -1, FlatAll(ts[1..]));
  }
}
