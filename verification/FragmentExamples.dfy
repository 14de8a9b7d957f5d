/**
 Documents that parse although the same operation with its fragment inlined is
 refused: one whose fragment has a field named like the word that opens a
 definition, and one whose fragment is as large as a selection may be.
 */
module FragmentExamples {
  import opened Common
  import opened GraphSyntax
  import opened FieldForest
  import opened FieldParser
  import opened FragmentSpread
  import opened GraphDocument
  import opened InlinedDocument
  import opened FieldTrees
  import opened QueryText
  import opened QueryTree
  import opened QueryRoundTrip

  function Names(ns: seq<string>): seq<Token> {
    if ns == [] then [] else [Name(ns[0])] + Names(ns[1..])
  }

  /** query { a { ...A } } */
  function Use(): seq<Token> {
    [Name("query"), ObjOpen, Name("a"), ObjOpen, Spread, Name("A"), ObjClose, ObjClose, Eof]
  }

  /** fragment A on T { names } query { a { ...A } } */
  function Example(ns: seq<string>): seq<Token> {
    [Name("fragment"), Name("A"), On, Name("T"), ObjOpen] + (Names(ns) + ([ObjClose] + Use()))
  }

  function PlainHeader(n: string): Header {
    Header(n, "", [], [])
  }

  /** A name with nothing of a header behind it is a field. */
  lemma StepsName(frags: Fragments, n: string, rest: seq<Token>, s: State)
    requires InRange(s) && s.rest == [Name(n)] + rest && EndsHeader(rest) && |s.fields| < MAX_FIELDS
    ensures Step(true, frags, s)
      == More(Opened(rest, Splice(s.fields, Top(s.stack), Single(PlainHeader(n))), s.stack, |s.fields|))
  {
    assert s.rest[1..] == rest;
    assert ParseDirectives(rest, []) == Parsed([], rest);
    assert ParseField(s.rest) == Parsed(PlainHeader(n), rest);
  }

  /** The fields of the names. */
  function Leaves(ns: seq<string>): seq<Tree> {
    if ns == [] then [] else [Tree(PlainHeader(ns[0]), [])] + Leaves(ns[1..])
  }

  lemma {:induction false} LeavesFlat(ns: seq<string>)
    ensures Forest(FlatAll(Leaves(ns))) && |FlatAll(Leaves(ns))| == |ns|
    ensures ns != [] ==> FlatAll(Leaves(ns)) == Splice(Single(PlainHeader(ns[0])), -1, FlatAll(Leaves(ns[1..])))
  {
    FlatAllSound(Leaves(ns));
    if ns != [] {
      LeavesFlat(ns[1..]);
      SpliceNothing(Single(PlainHeader(ns[0])), 0);
      assert Leaves(ns)[1..] == Leaves(ns[1..]);
    }
  }

  lemma {:induction false} RunNames(ns: seq<string>, tail: seq<Token>, fields: seq<Field>)
    requires |fields| + |ns| <= MAX_FIELDS && Peek(tail, ObjClose)
    ensures Run(true, map[], State(Names(ns) + tail, fields, [])) == Parsed(Splice(fields, -1, FlatAll(Leaves(ns))), tail)
    decreases |ns|
  {
    var s := State(Names(ns) + tail, fields, []);
    if ns == [] {
      assert s.rest == tail;
      SpliceNothing(fields, -1);
    } else {
      var rest := Names(ns[1..]) + tail;
      var one := Single(PlainHeader(ns[0]));
      assert s.rest == [Name(ns[0])] + rest;
      StepsName(map[], ns[0], rest, s);
      RunNames(ns[1..], tail, Splice(fields, -1, one));
      LeavesFlat(ns);
      LeavesFlat(ns[1..]);
      SpliceAssoc(fields, -1, one, -1, FlatAll(Leaves(ns[1..])));
    }
  }

  lemma LowerWord(v: string)
    requires |v| != 8
    ensures !FragmentWord(Name(v))
  {
    assert |Lower(v)| == |v|;
  }

  lemma QueryWord()
    ensures OpWord("query") && KindOf("query") == OpQuery && !FragmentWord(Name("query"))
    ensures FragmentWord(Name("fragment"))
  {
    assert Lower("query") == "query" && Lower("fragment") == "fragment";
  }

  /** What stands between the braces of the query, and the closing one. */
  function Inside(): seq<Token> {
    [Name("a"), ObjOpen, Spread, Name("A"), ObjClose, ObjClose, Eof]
  }

  lemma UseHead()
    ensures OperationOf(map[], Use()) == Use()
    ensures ParseHead(Use()) == Parsed(Head(OpQuery, "", []), [ObjOpen] + Inside())
  {
    QueryWord();
    assert Use()[1..] == [ObjOpen] + Inside();
    assert ParseDirectives([ObjOpen] + Inside(), []) == Parsed([], [ObjOpen] + Inside());
  }

  function FieldA(): seq<Field> {
    Splice([], -1, Single(PlainHeader("a")))
  }

  lemma InsideParses(frags: Fragments)
    requires "A" in frags
    ensures ParseFields(frags, Inside()) == Parsed(Splice(FieldA(), 0, frags["A"]), [ObjClose, Eof])
  {
    var s0 := State(Inside(), [], []);
    var rest := Inside()[1..];
    assert Inside() == [Name("a")] + rest;
    StepsName(frags, "a", rest, s0);
    var s1 := State(Inside()[2..], FieldA(), [0]);
    assert rest[1..] == Inside()[2..] && [] + [0] == [0];
    assert Step(true, frags, s0) == More(s1);
    var s2 := State([ObjClose, ObjClose, Eof], Splice(FieldA(), 0, frags["A"]), [0]);
    SpreadStep(frags, s1, s2);
    CloseSteps(frags, s2);
    assert Run(true, frags, s1) == Run(true, frags, s2);
    assert Run(true, frags, s0) == Run(true, frags, s1);
  }

  lemma SpreadStep(frags: Fragments, s: State, next: State)
    requires "A" in frags && s == State(Inside()[2..], FieldA(), [0])
    requires next == State([ObjClose, ObjClose, Eof], Splice(FieldA(), 0, frags["A"]), [0])
    ensures InRange(s) && InRange(next) && Step(true, frags, s) == More(next)
  {
    assert s.rest[1..][1..] == next.rest;
    assert s.rest[1..] == [Name("A"), ObjClose, ObjClose, Eof];
  }

  lemma CloseSteps(frags: Fragments, s: State)
    requires InRange(s) && s.rest == [ObjClose, ObjClose, Eof] && s.stack == [0]
    ensures Run(true, frags, s) == Parsed(s.fields, [ObjClose, Eof])
  {
    var last := State([ObjClose, Eof], s.fields, []);
    assert s.rest[1..] == last.rest && s.stack[..0] == [];
    assert Step(true, frags, s) == More(last);
    assert Run(true, frags, last) == Parsed(s.fields, [ObjClose, Eof]);
  }

  // ---- The example taken apart ----

  /** What the definition defines. */
  function Body(ns: seq<string>): Result<seq<Field>> {
    ParseFields(map[], Names(ns) + ([ObjClose] + Use()))
  }

  lemma BodyParses(ns: seq<string>)
    requires 0 < |ns| <= MAX_FIELDS
    ensures Body(ns) == Parsed(FlatAll(Leaves(ns)), [ObjClose] + Use()) && |FlatAll(Leaves(ns))| == |ns|
    ensures Example(ns)[1..][4..] == Names(ns) + ([ObjClose] + Use())
    ensures Definition(map[], Example(ns)[1..]) == Body(ns)
  {
    RunNames(ns, [ObjClose] + Use(), []);
    LeavesFlat(ns);
    SpliceEmpty(FlatAll(Leaves(ns)));
    DefinitionTokens(Names(ns) + ([ObjClose] + Use()));
  }

  lemma DefinitionTokens(rest: seq<Token>)
    ensures var ts := [Name("fragment"), Name("A"), On, Name("T"), ObjOpen] + rest;
      FragmentHead(ts[1..]) && ts[1..][4..] == rest
  {
  }

  /** A document that starts with a definition. */
  lemma DefinitionFirst(doc: seq<Token>, g: seq<Field>, rest: seq<Token>)
    requires |doc| > 1 && FragmentWord(doc[0]) && doc[1].Name? && Definition(map[], doc[1..]) == Parsed(g, [ObjClose] + rest)
    ensures Scan(map[], doc) == Scan(map[doc[1].val := g], rest)
    ensures OperationOf(map[], doc) == OperationOf(map[doc[1].val := g], rest)
  {
    assert doc[1..][0] == doc[1] && ([ObjClose] + rest)[1..] == rest;
    assert map[][doc[1].val := g] == map[doc[1].val := g];
  }

  lemma ExampleScanned(ns: seq<string>)
    requires 0 < |ns| <= MAX_FIELDS
    ensures Body(ns).Parsed? && Scan(map[], Example(ns)).Parsed?
    ensures Scan(map[], Example(ns)).value == map["A" := Body(ns).value]
    ensures OperationOf(map[], Example(ns)) == Use()
  {
    BodyParses(ns);
    QueryWord();
    assert Example(ns)[0] == Name("fragment") && Example(ns)[1] == Name("A");
    DefinitionFirst(Example(ns), Body(ns).value, Use());
    UseIsQuiet();
    var frags := map["A" := Body(ns).value];
    BodiesStay(frags, map[], Use());
    UseStarts(frags);
  }

  lemma UseStarts(frags: Fragments)
    ensures OperationOf(frags, Use()) == Use()
  {
    QueryWord();
  }

  lemma {:induction false} ExpandNothing(ts: seq<Token>)
    ensures Expand(map[], ts) == ts
  {
    if ts != [] {
      ExpandNothing(ts[1..]);
    }
  }

  lemma {:induction false} BodiesStay(frags: Fragments, bodies: Bodies, ts: seq<Token>)
    requires Quiet(ts)
    ensures Scan(frags, ts).Parsed? && Scan(frags, ts).value == frags && ScanBodies(frags, bodies, ts) == bodies
    decreases |ts|
  {
    if ts != [] && ts[0] != Eof {
      BodiesStay(frags, bodies, ts[1..]);
    }
  }

  lemma UseIsQuiet()
    ensures Quiet(Use())
  {
    LowerWord("query");
    LowerWord("a");
    LowerWord("A");
  }

  lemma ExampleBodies(ns: seq<string>)
    requires 0 < |ns| <= MAX_FIELDS
    ensures Scan(map[], Example(ns)).Parsed?
    ensures ScanBodies(map[], map[], Example(ns)) == map["A" := Names(ns)]
  {
    ExampleScanned(ns);
    BodyParses(ns);
    QueryWord();
    var def := Example(ns)[1..];
    assert Example(ns)[0] == Name("fragment") && def[0] == Name("A");
    var rest := [ObjClose] + Use();
    assert def[4..][..|def| - 4 - |rest|] == Names(ns);
    ExpandNothing(Names(ns));
    UseIsQuiet();
    assert rest[1..] == Use();
    BodiesStay(map[]["A" := Body(ns).value], map[]["A" := Names(ns)], Use());
  }

  /** The tree the example is parsed to: the names below a field. */
  function Whole(ns: seq<string>): Tree {
    Tree(PlainHeader("a"), Leaves(ns))
  }

  lemma WholeIs(ns: seq<string>)
    ensures Splice(FieldA(), 0, FlatAll(Leaves(ns))) == Flat(Whole(ns)) && |Flat(Whole(ns))| == 1 + |ns|
  {
    SingleSound(PlainHeader("a"));
    SpliceEmpty(Single(PlainHeader("a")));
    LeavesFlat(ns);
  }

  lemma ExampleParses(ns: seq<string>)
    requires 0 < |ns| <= MAX_FIELDS
    ensures var doc := Example(ns);
      && ParseDocument(doc) == Parsed(Operation(OpQuery, "", [], MarkKeywords(Flat(Whole(ns)))), [Eof])
      && |Flat(Whole(ns))| == 1 + |ns|
      && HeadOf(doc) == [Name("query")]
      && SelectionOf(doc) == [Name("a"), ObjOpen, Spread, Name("A"), ObjClose]
  {
    ExampleScanned(ns);
    BodyParses(ns);
    UseHead();
    var frags := map["A" := Body(ns).value];
    InsideParses(frags);
    WholeIs(ns);
    PutTogether(Example(ns), frags, Head(OpQuery, "", []), Inside(), Flat(Whole(ns)), [ObjClose, Eof]);
    assert [ObjClose, Eof][1..] == [Eof];
    FrontsOfUse();
  }

  lemma FrontsOfUse()
    ensures HeadIn(Use()) == [Name("query")]
    ensures Front(Inside(), 2) == [Name("a"), ObjOpen, Spread, Name("A"), ObjClose]
  {
    UseHead();
  }

  lemma ExpandSpread(bodies: Bodies, name: string)
    requires name in bodies
    ensures Expand(bodies, [Spread, Name(name), ObjClose]) == bodies[name] + [ObjClose]
  {
    assert [Spread, Name(name), ObjClose][2..] == [ObjClose];
    assert Expand(bodies, [ObjClose]) == [ObjClose] + [];
  }

  lemma ExpandUse(bodies: Bodies)
    requires "A" in bodies
    ensures Expand(bodies, [Name("a"), ObjOpen, Spread, Name("A"), ObjClose]) == [Name("a"), ObjOpen] + (bodies["A"] + [ObjClose])
  {
    assert [Name("a"), ObjOpen, Spread, Name("A"), ObjClose] == [Name("a"), ObjOpen] + [Spread, Name("A"), ObjClose];
    ExpandBehind(bodies, [Name("a"), ObjOpen], [Spread, Name("A"), ObjClose]);
    ExpandSpread(bodies, "A");
  }

  lemma ExampleInlined(ns: seq<string>)
    requires 0 < |ns| <= MAX_FIELDS
    ensures ParseDocument(Example(ns)).Parsed?
    ensures InlinedSelection(Example(ns)) == [Name("a"), ObjOpen] + (Names(ns) + [ObjClose])
  {
    ExampleParses(ns);
    ExampleBodies(ns);
    ExpandUse(map["A" := Names(ns)]);
  }

  lemma {:induction false} NamesEndFree(ns: seq<string>)
    ensures Eof !in Names(ns)
  {
    if ns != [] {
      NamesEndFree(ns[1..]);
    }
  }

  lemma ExampleEnded(ns: seq<string>)
    ensures Ended(Example(ns))
  {
    NamesEndFree(ns);
    var a := [Name("fragment"), Name("A"), On, Name("T"), ObjOpen];
    var doc := Example(ns);
    assert doc == a + Names(ns) + [ObjClose] + Use();
    forall i {:trigger doc[i]} | 0 <= i < |doc| - 1 ensures doc[i] != Eof {
      if 5 <= i < 5 + |ns| + 1 {
        NamesLength(ns);
        assert i < 5 + |ns| ==> doc[i] in Names(ns);
      } else {
        NamesLength(ns);
      }
    }
  }

  lemma {:induction false} NamesLength(ns: seq<string>)
    ensures |Names(ns)| == |ns|
  {
    if ns != [] {
      NamesLength(ns[1..]);
    }
  }

  lemma QueryIsWordless()
    ensures Wordless([Name("query")])
  {
    QueryWord();
  }

  // ---- Where inlining fails ----

  function BadNames(): seq<string> {
    ["fragment", "x"]
  }

  /**
   fragment A on T { fragment x } query { a { ...A } } parses: the field called "fragment" is taken by the definition.
   Inlined, it opens a definition that is none, and the query is refused.
   */
  lemma FragmentFieldBreaks()
    ensures var doc := Example(BadNames());
      ParseDocument(doc).Parsed? && ParseDocument(Inlined(doc)).Failed?
  {
    var ns := BadNames();
    var doc := Example(ns);
    ExampleParses(ns);
    ExampleEnded(ns);
    ExampleInlined(ns);
    QueryIsWordless();
    QueryWord();
    LowerWord("a");
    assert Names(ns)[0] == Name("fragment");
    FifthIsWord(Names(ns));
    DocumentInlines(doc);
  }

  lemma FifthIsWord(names: seq<Token>)
    requires names != [] && FragmentWord(names[0])
    ensures !Quiet([Name("query")] + ([ObjOpen] + ([Name("a"), ObjOpen] + (names + [ObjClose]) + [ObjClose, Eof])))
  {
    NotQuietAt([Name("query")] + ([ObjOpen] + ([Name("a"), ObjOpen] + (names + [ObjClose]) + [ObjClose, Eof])), 4);
  }

  lemma {:induction false} NotQuietAt(ts: seq<Token>, k: nat)
    requires k < |ts| && FragmentWord(ts[k]) && forall i | 0 <= i < k :: ts[i] != Eof
    ensures !Quiet(ts)
    decreases k
  {
    if k > 0 {
      forall i | 0 <= i < k - 1 ensures ts[1..][i] != Eof {
        assert ts[i + 1] != Eof;
      }
      NotQuietAt(ts[1..], k - 1);
    }
  }

  /** A fragment of as many fields as allowed is spread below a field although there are then too many. */
  lemma SpreadPassesLimit(x: string)
    ensures var doc := Example(seq(MAX_FIELDS, i => x));
      && ParseDocument(doc).Parsed? && |ParseDocument(doc).value.fields| == MAX_FIELDS + 1
      && ParseDocument(Inlined(doc)).Failed?
  {
    var ns := seq(MAX_FIELDS, i => x);
    ExampleParses(ns);
    ExampleEnded(ns);
    QueryIsWordless();
    CountsAllFields(Example(ns));
    DocumentInlines(Example(ns));
  }

  // ---- Where rebuilding fails ----

  lemma {:induction false} LeavesToks(ns: seq<string>)
    ensures TreesToks(Leaves(ns)) == Names(ns)
  {
    if ns != [] {
      LeavesToks(ns[1..]);
      assert Leaves(ns)[1..] == Leaves(ns[1..]);
    }
  }

  lemma WordIsPlain(w: string)
    requires Letters(w) && |w| !in {2, 4, 5}
    ensures PlainName(w)
  {
    LowerCaseWord(w);
    assert |"on"| == 2 && |"true"| == 4 && |"false"| == 5;
  }

  lemma {:induction false} LeavesClean(ns: seq<string>)
    requires forall n <- ns :: PlainName(n)
    ensures CleanTrees(Leaves(ns)) && BareTrees(Leaves(ns))
  {
    if ns != [] {
      assert ns[0] in ns;
      LeavesClean(ns[1..]);
    }
  }

  /** The tree without directives that is printed for root a. */
  lemma ExamplePrinted(ns: seq<string>, op: Operation)
    requires op.fields == MarkKeywords(Flat(Whole(ns)))
    ensures Ordered(op.fields) && Printed(op, {"a"}) == [Whole(ns)]
  {
    var t := Whole(ns);
    var f, g := Flat(t), WithoutDirectives(op.fields);
    SpliceNothing(Flat(t), -1);
    assert FlatAll([t]) == f;
    FlatAllSound([t]);
    RootsOfFlat([t]);
    KeywordsKeepShape(f);
    SameShapeForest(f, op.fields);
    NoDirectives(ns);
    assert SameNodes(f, g) by {
      forall i {:trigger f[i]} | 0 <= i < |f| ensures f[i].parent == g[i].parent && f[i].header == g[i].header {
      }
    }
    SameRoots(f, g);
    ChosenAreRoots(g, {"a"});
    assert [t][..0] == [] && t.header.name in {"a"};
    assert Allowed([t][..0], {"a"}) == [];
  }

  lemma NoDirectives(ns: seq<string>)
    ensures forall i {:trigger Flat(Whole(ns))[i]} :: 0 <= i < |Flat(Whole(ns))| ==> Flat(Whole(ns))[i].header.directives == []
  {
    LeavesBare(ns);
    WholeIs(ns);
  }

  lemma {:induction false} LeavesBare(ns: seq<string>)
    ensures forall i {:trigger FlatAll(Leaves(ns))[i]} ::
      0 <= i < |FlatAll(Leaves(ns))| ==> FlatAll(Leaves(ns))[i].header.directives == []
  {
    if ns != [] {
      LeavesFlat(ns);
      LeavesBare(ns[1..]);
    }
  }

  lemma WholeClean(ns: seq<string>)
    requires forall n <- ns :: PlainName(n)
    ensures CleanTrees([Whole(ns)]) && BareTrees([Whole(ns)])
  {
    WordIsPlain("a");
    LeavesClean(ns);
  }

  /** Rebuilt for root a, the example is refused if its first name opens a definition. */
  lemma ExampleRebuilt(ns: seq<string>, op: Operation)
    requires op.kind == OpQuery && op.name == "" && op.vars == []
    requires ns != [] && FragmentWord(Name(ns[0])) && forall n <- ns :: PlainName(n)
    ensures ParseDocument(RebuiltToks(op, [Whole(ns)]) + [Eof]).Failed?
  {
    WholeClean(ns);
    LeavesToks(ns);
    NoVars(op, Whole(ns), Names(ns));
    ParsesRebuilt(op, [Whole(ns)]);
  }

  lemma FlatOne(t: Tree)
    ensures FlatAll([t]) == Flat(t)
  {
    SpliceNothing(Flat(t), -1);
  }

  lemma BadNamesPlain()
    ensures BadNames() != [] && |BadNames()| == 2 && FragmentWord(Name(BadNames()[0]))
    ensures forall n <- BadNames() :: PlainName(n)
  {
    WordIsPlain("fragment");
    WordIsPlain("x");
    QueryWord();
  }

  /** A document whose fragment begins with a field called "fragment", rebuilt for root a. */
  lemma RebuiltFails(ns: seq<string>)
    requires 0 < |ns| <= MAX_FIELDS && FragmentWord(Name(ns[0])) && forall n <- ns :: PlainName(n)
    ensures var r := ParseDocument(Example(ns));
      && r.Parsed? && Ordered(r.value.fields)
      && Printed(r.value, {"a"}) != [] && |FlatAll(Printed(r.value, {"a"}))| == 1 + |ns|
      && ParseDocument(RebuiltToks(r.value, Printed(r.value, {"a"})) + [Eof]).Failed?
  {
    ExampleParses(ns);
    var op := Operation(OpQuery, "", [], MarkKeywords(Flat(Whole(ns))));
    ExamplePrinted(ns, op);
    ExampleRebuilt(ns, op);
    FlatOne(Whole(ns));
  }

  /**
   The same document, rebuilt for root a: query { a { fragment x } }. The text is read as the start of a definition and
   refused, although the document parses, the root is allowed and three fields are not too many.
   */
  lemma RebuiltBreaks()
    ensures var r := ParseDocument(Example(BadNames()));
      && r.Parsed? && Ordered(r.value.fields)
      && Printed(r.value, {"a"}) != [] && |FlatAll(Printed(r.value, {"a"}))| == 3
      && ParseDocument(RebuiltToks(r.value, Printed(r.value, {"a"})) + [Eof]).Failed?
  {
    BadNamesPlain();
    RebuiltFails(BadNames());
  }

  lemma NoVars(op: Operation, t: Tree, names: seq<Token>)
    requires op.kind == OpQuery && op.name == "" && op.vars == []
    requires t.header == PlainHeader("a") && t.kids != [] && TreesToks(t.kids) == names && names != [] && FragmentWord(names[0])
    ensures !Quiet(RebuiltToks(op, [t]) + [Eof])
  {
    var block := [Name("a")] + ([ObjOpen] + names + [ObjClose]);
    assert TreesToks([t]) == TreeToks(t) + [];
    assert TreeToks(t) == block;
    var q := RebuiltToks(op, [t]) + [Eof];
    assert q == [Name("query")] + ([ObjOpen] + block + [ObjClose]) + [Eof];
    NotQuietAt(q, 4);
  }
}
