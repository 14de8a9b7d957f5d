/**
 Whole documents with and without fragments: the operation alone, with every
 spread replaced by the fragment's body, parses to the same operation, unless
 a name of it opens a definition or it has too many fields.
 */
module InlinedDocument {
  import opened Common
  import opened GraphSyntax
  import opened FieldForest
  import opened FieldParser
  import opened FragmentSpread
  import opened GraphDocument
  import opened OperationHead

  // ---- The inlined document ----

  /** The part of ts in front of its last n tokens. */
  function Front(ts: seq<Token>, n: nat): seq<Token>
    requires n <= |ts|
  {
    ts[..|ts| - n]
  }

  /** The tokens of the operation's head. */
  function HeadOf(doc: seq<Token>): seq<Token> {
    HeadIn(OperationOf(map[], doc))
  }

  function HeadIn(start: seq<Token>): seq<Token> {
    var h := ParseHead(start);
    if h.Parsed? && |h.rest| <= |start| then Front(start, |h.rest|) else []
  }

  /** The tokens between the operation's braces. */
  function SelectionOf(doc: seq<Token>): seq<Token>
    requires ParseDocument(doc).Parsed?
  {
    var inside := ParseHead(OperationOf(map[], doc)).rest[1..];
    var r := ParseFields(Scan(map[], doc).value, inside).rest;
    if |r| <= |inside| then Front(inside, |r|) else []
  }

  /** The selection with the bodies of the document's fragments in the place of their spreads. */
  function InlinedSelection(doc: seq<Token>): seq<Token>
    requires ParseDocument(doc).Parsed?
  {
    Expand(ScanBodies(map[], map[], doc), SelectionOf(doc))
  }

  /** The operation on its own, with its fragments inlined and none defined. */
  function Inlined(doc: seq<Token>): seq<Token>
    requires ParseDocument(doc).Parsed?
  {
    HeadOf(doc) + ([ObjOpen] + (InlinedSelection(doc) + [ObjClose, Eof]))
  }

  /** In front of the end no name is the word that opens a definition. */
  predicate Quiet(ts: seq<Token>) {
    ts == [] || ts[0] == Eof || (!FragmentWord(ts[0]) && Quiet(ts[1..]))
  }

  /** None of the tokens is that word. */
  ghost predicate Wordless(ts: seq<Token>) {
    forall t <- ts :: !FragmentWord(t)
  }

  // ---- Counting fields ----

  /**
   How many fields the tokens of a selection without spreads start: the names outside of arguments that are neither
   an alias nor the name of a directive.
   */
  function FieldCount(inArgs: bool, ts: seq<Token>): nat
    decreases |ts|
  {
    if ts == [] then 0
    else if inArgs then FieldCount(ts[0] != ArgsClose, ts[1..])
    else if ts[0] == ArgsOpen then FieldCount(true, ts[1..])
    else if ts[0] == Directive then FieldCount(false, if |ts| > 1 then ts[2..] else [])
    else (if ts[0].Name? && !Peek(ts[1..], Colon) then 1 else 0) + FieldCount(false, ts[1..])
  }

  lemma EndedDrop(ts: seq<Token>, k: nat)
    requires Ended(ts) && k <= |ts|
    ensures Ended(ts[k..])
  {
    forall i {:trigger ts[k..][i]} | 0 <= i < |ts[k..]| - 1 ensures ts[k..][i] != Eof {
      assert ts[k + i] != Eof;
    }
  }

  lemma EndedBack(a: seq<Token>, b: seq<Token>)
    requires Ended(a + b)
    ensures Ended(b) && (b != [] ==> Eof !in a)
  {
    EndedDrop(a + b, |a|);
    assert (a + b)[|a|..] == b;
    if b != [] {
      forall i | 0 <= i < |a| ensures a[i] != Eof {
        assert (a + b)[i] != Eof;
      }
    }
  }

  /** A value holds no fields; here and below, something is left behind it, so the end did not close it. */
  lemma {:induction false} ValueCounted(ts: seq<Token>)
    requires Ended(ts) && ParseValue(ts).Parsed? && ParseValue(ts).rest != []
    ensures Ended(ParseValue(ts).rest) && FieldCount(true, ts) == FieldCount(true, ParseValue(ts).rest)
    decreases |ts|, 0
  {
    EndedDrop(ts, 1);
    if ts[0] == ListOpen {
      ListCounted(ts[1..], []);
    } else if ts[0] == ObjOpen {
      ObjCounted(ts[1..], []);
    }
  }

  lemma {:induction false} ListCounted(ts: seq<Token>, acc: seq<Node>)
    requires Ended(ts) && ParseList(ts, acc).Parsed? && ParseList(ts, acc).rest != []
    ensures Ended(ParseList(ts, acc).rest) && FieldCount(true, ts) == FieldCount(true, ParseList(ts, acc).rest)
    decreases |ts|, 1
  {
    if Peek(ts, Eof) || Peek(ts, ListClose) {
      EndedDrop(ts, 1);
    } else {
      var v := ParseValue(ts);
      ValueCounted(ts);
      ListCounted(v.rest, acc + [v.value]);
    }
  }

  lemma KeyCounted(ts: seq<Token>)
    requires Ended(ts) && |ts| > 2 && ts[0].Name? && ts[1] == Colon
    ensures Ended(ts[2..]) && FieldCount(true, ts) == FieldCount(true, ts[2..])
  {
    EndedDrop(ts, 2);
    assert ts[1..][1..] == ts[2..];
  }

  lemma {:induction false} ObjCounted(ts: seq<Token>, acc: seq<Node>)
    requires Ended(ts) && ParseObj(ts, acc).Parsed? && ParseObj(ts, acc).rest != []
    ensures Ended(ParseObj(ts, acc).rest) && FieldCount(true, ts) == FieldCount(true, ParseObj(ts, acc).rest)
    decreases |ts|, 1
  {
    if Peek(ts, Eof) || Peek(ts, ObjClose) {
      EndedDrop(ts, 1);
    } else {
      var v := ParseValue(ts[2..]);
      KeyCounted(ts);
      ValueCounted(ts[2..]);
      ObjCounted(v.rest, acc + [v.value.(name := ts[0].val)]);
    }
  }

  lemma {:induction false} ArgsCounted(ts: seq<Token>, acc: seq<Arg>)
    requires Ended(ts) && ParseArgs(ts, acc).Parsed? && ParseArgs(ts, acc).rest != []
    ensures Ended(ParseArgs(ts, acc).rest) && FieldCount(true, ts) == FieldCount(false, ParseArgs(ts, acc).rest)
    decreases |ts|
  {
    if Peek(ts, Eof) || Peek(ts, ArgsClose) {
      EndedDrop(ts, 1);
    } else {
      var v := ParseValue(ts[2..]);
      KeyCounted(ts);
      ValueCounted(ts[2..]);
      ArgsCounted(v.rest, acc + [Arg(ts[0].val, v.value)]);
    }
  }

  lemma DirectiveCounted(ts: seq<Token>)
    requires Ended(ts) && Peek(ts, Directive) && ParseDirective(ts[1..]).Parsed? && ParseDirective(ts[1..]).rest != []
    ensures var r := ParseDirective(ts[1..]).rest;
      Ended(r) && FieldCount(false, ts) == FieldCount(false, r)
  {
    var ts' := ts[1..];
    EndedDrop(ts, 2);
    assert ts'[1..] == ts[2..];
    if Peek(ts[2..], ArgsOpen) {
      EndedDrop(ts, 3);
      assert ts'[2..] == ts[3..] && ts[2..][1..] == ts[3..];
      ArgsCounted(ts[3..], []);
    }
  }

  lemma {:induction false} DirectivesCounted(ts: seq<Token>, acc: seq<FieldDirective>)
    requires Ended(ts) && ParseDirectives(ts, acc).Parsed? && ParseDirectives(ts, acc).rest != []
    ensures Ended(ParseDirectives(ts, acc).rest) && FieldCount(false, ts) == FieldCount(false, ParseDirectives(ts, acc).rest)
    decreases |ts|
  {
    if Peek(ts, Directive) {
      var d := ParseDirective(ts[1..]);
      DirectiveCounted(ts);
      DirectivesCounted(d.rest, acc + [d.value]);
    }
  }

  lemma TailCounted(ts: seq<Token>, alias: string, name: string)
    requires Ended(ts) && ParseTail(ts, alias, name).Parsed? && ParseTail(ts, alias, name).rest != []
    ensures var r := ParseTail(ts, alias, name).rest;
      Ended(r) && FieldCount(false, ts) == FieldCount(false, r)
  {
    if Peek(ts, ArgsOpen) {
      EndedDrop(ts, 1);
      ArgsCounted(ts[1..], []);
      DirectivesCounted(ParseArgs(ts[1..], []).rest, []);
    } else {
      DirectivesCounted(ts, []);
    }
  }

  /** A field's header counts as one. */
  lemma FieldCounted(ts: seq<Token>)
    requires Ended(ts) && ParseField(ts).Parsed? && ParseField(ts).rest != [] && EndsHeader(ParseField(ts).rest)
    ensures var r := ParseField(ts).rest;
      Ended(r) && FieldCount(false, ts) == 1 + FieldCount(false, r)
  {
    if Peek(ts[1..], Colon) {
      EndedDrop(ts, 3);
      assert ts[1..][1..] == ts[2..] && ts[2..][1..] == ts[3..];
      assert !Peek(ts[3..], Colon);
      TailCounted(ts[3..], ts[0].val, ts[2].val);
      NamedOnce(ts);
    } else {
      EndedDrop(ts, 1);
      TailCounted(ts[1..], "", ts[0].val);
    }
  }

  lemma NamedOnce(ts: seq<Token>)
    requires |ts| >= 3 && ts[0].Name? && ts[1] == Colon && ts[2].Name? && !Peek(ts[3..], Colon)
    ensures FieldCount(false, ts) == 1 + FieldCount(false, ts[3..])
  {
    assert ts[1..][1..] == ts[2..] && ts[2..][1..] == ts[3..];
    assert FieldCount(false, ts[1..]) == FieldCount(false, ts[2..]);
  }

  /** The fields that are there and those still to be read. */
  function Ahead(s: State): nat {
    |s.fields| + FieldCount(false, s.rest)
  }

  lemma NormalCounted(s: State)
    requires InRange(s) && Ended(s.rest) && Normal(s).More? && Boundary(Normal(s).next.rest)
    ensures Ended(Normal(s).next.rest) && Ahead(Normal(s).next) == Ahead(s)
  {
    NormalStands(map[], s);
    FieldCounted(s.rest);
    var r := ParseField(s.rest).rest;
    if Peek(r, ObjOpen) {
      EndedDrop(r, 1);
    }
  }

  lemma InlineCounted(s: State)
    requires InRange(s) && Ended(s.rest) && Inline(s).More? && Boundary(Inline(s).next.rest)
    ensures Ended(Inline(s).next.rest) && Ahead(Inline(s).next) == Ahead(s)
  {
    NormalCounted(s.(fields := MarkUnion(s.fields, Top(s.stack))));
  }

  lemma SpreadOnCounted(ts: seq<Token>)
    requires Ended(ts) && Peek(ts, Spread) && Peek(ts[1..], On)
    ensures Ended(ts[1..][1..]) && FieldCount(false, ts) == FieldCount(false, ts[1..][1..])
  {
    EndedDrop(ts, 1);
    EndedDrop(ts[1..], 1);
    assert FieldCount(false, ts[1..]) == FieldCount(false, ts[1..][1..]);
  }

  lemma StepCounted(s: State)
    requires InRange(s) && Ended(s.rest) && Step(false, map[], s).More? && Boundary(Step(false, map[], s).next.rest)
    ensures var next := Step(false, map[], s).next;
      Ended(next.rest) && Ahead(next) == Ahead(s)
  {
    if Peek(s.rest, ObjClose) {
      EndedDrop(s.rest, 1);
    } else if Peek(s.rest, Spread) {
      SpreadOnCounted(s.rest);
      InlineCounted(s.(rest := s.rest[1..][1..]));
    } else {
      NormalCounted(s);
    }
  }

  /** A run without fragments makes exactly as many fields as its tokens start. */
  lemma {:induction false} RunCounted(s: State)
    requires InRange(s) && Ended(s.rest) && Run(false, map[], s).Parsed?
    ensures var r := Run(false, map[], s);
      |r.value| + FieldCount(false, r.rest) == Ahead(s)
    decreases |s.rest|
  {
    var r := Step(false, map[], s);
    if r.More? {
      RunStands(false, map[], r.next);
      StepCounted(s);
      RunCounted(r.next);
    }
  }

  // ---- The end in bodies ----

  ghost predicate EndFree(bodies: Bodies) {
    forall f {:trigger bodies[f]} :: f in bodies ==> Eof !in bodies[f]
  }

  lemma {:induction false} ExpandEndFree(bodies: Bodies, ts: seq<Token>)
    requires EndFree(bodies) && Eof !in ts
    ensures Eof !in Expand(bodies, ts)
    decreases |ts|
  {
    if ts != [] {
      assert ts[0] in ts;
      if ts[0] == Spread && |ts| > 1 && ts[1].Name? && ts[1].val in bodies {
        ExpandEndFree(bodies, ts[2..]);
      } else {
        ExpandEndFree(bodies, ts[1..]);
      }
    }
  }

  lemma {:induction false} BodiesEndFree(frags: Fragments, bodies: Bodies, ts: seq<Token>)
    requires Scan(frags, ts).Parsed? && Ended(ts) && EndFree(bodies)
    ensures EndFree(ScanBodies(frags, bodies, ts))
    decreases |ts|
  {
    if ts == [] || ts[0] == Eof {
    } else if FragmentWord(ts[0]) {
      var def := ts[1..];
      var r := ParseFields(frags, def[4..]);
      var p := RunTokens(true, frags, State(def[4..], [], []));
      assert def[4..][..|def| - 4 - |r.rest|] == p;
      assert def[4..] == ts[5..];
      EndedDrop(ts, 5);
      EndedBack(p, r.rest);
      EndedDrop(r.rest, 1);
      ExpandEndFree(bodies, p);
      BodiesEndFree(frags[def[0].val := r.value], bodies[def[0].val := Expand(bodies, p)], r.rest[1..]);
    } else {
      EndedDrop(ts, 1);
      BodiesEndFree(frags, bodies, ts[1..]);
    }
  }

  lemma {:induction false} OperationEnded(frags: Fragments, ts: seq<Token>)
    requires Ended(ts)
    ensures Ended(OperationOf(frags, ts))
    decreases |ts|
  {
    if ts == [] || ts[0] == Eof {
    } else if FragmentWord(ts[0]) {
      var def := ts[1..];
      var r := Definition(frags, def);
      if r.Parsed? {
        var p := RunTokens(true, frags, State(def[4..], [], []));
        assert def[4..] == ts[5..];
        EndedDrop(ts, 5);
        EndedBack(p, r.rest);
        EndedDrop(r.rest, 1);
        OperationEnded(frags[ts[1].val := r.value], r.rest[1..]);
      }
    } else if !StartsOperation(ts[0]) {
      EndedDrop(ts, 1);
      OperationEnded(frags, ts[1..]);
    }
  }

  // ---- Scanning the inlined document ----

  /** Where "on" stands only behind spreads, a word that opens a definition is refused. */
  lemma {:induction false} ScanRefuses(frags: Fragments, all: seq<Token>, k: nat)
    requires OnSpread(all) && k <= |all|
    ensures var r := Scan(frags, all[k..]);
      if Quiet(all[k..]) then r.Parsed? && r.value == frags else r.Failed?
    decreases |all| - k
  {
    var ts := all[k..];
    if ts != [] && ts[0] != Eof {
      if FragmentWord(ts[0]) {
        assert |ts| > 2 && ts[1].Name? ==> all[k + 2] != On by {
          assert |ts| > 2 ==> ts[1] == all[k + 1];
        }
        assert !FragmentHead(ts[1..]);
      } else {
        assert ts[1..] == all[k + 1..];
        ScanRefuses(frags, all, k + 1);
      }
    }
  }

  lemma {:induction false} ScanBehind(frags: Fragments, head: seq<Token>, s: seq<Token>)
    requires Wordless(head) && OnSpread(s)
    ensures var r := Scan(frags, head + s);
      if Quiet(head + s) then r.Parsed? && r.value == frags else r.Failed?
    decreases |head|
  {
    if head == [] {
      assert head + s == s && s[0..] == s;
      ScanRefuses(frags, s, 0);
    } else {
      DropFront(head, s);
      assert head[0] in head;
      if head[0] != Eof {
        ScanBehind(frags, head[1..], s);
      }
    }
  }

  // ---- Parsing the inlined document ----

  lemma HeadApart(start: seq<Token>) returns (h: Head, inside: seq<Token>)
    requires ParseHead(start).Parsed? && Peek(ParseHead(start).rest, ObjOpen)
    ensures start == HeadIn(start) + ([ObjOpen] + inside)
    ensures ParseHead(start) == Parsed(h, [ObjOpen] + inside)
  {
    h := ParseHead(start).value;
    var rest := ParseHead(start).rest;
    var p := HeadTokens(start);
    assert Front(start, |rest|) == p;
    inside := rest[1..];
    assert rest == [ObjOpen] + inside;
  }

  lemma DocumentHasHead(doc: seq<Token>)
    requires ParseDocument(doc).Parsed?
    ensures var r := ParseHead(OperationOf(map[], doc));
      r.Parsed? && Peek(r.rest, ObjOpen)
  {
  }

  lemma SelectionApart(doc: seq<Token>, h: Head, inside: seq<Token>) returns (tail: seq<Token>, g: seq<Field>)
    requires ParseDocument(doc).Parsed? && ParseHead(OperationOf(map[], doc)) == Parsed(h, [ObjOpen] + inside)
    ensures inside == SelectionOf(doc) + tail && Peek(tail, ObjClose)
    ensures ParseFields(Scan(map[], doc).value, SelectionOf(doc) + tail) == Parsed(g, tail)
    ensures ParseDocument(doc).value == Operation(h.kind, h.name, h.vars, MarkKeywords(g))
  {
    var frags := Scan(map[], doc).value;
    assert ([ObjOpen] + inside)[1..] == inside;
    g, tail := ParseFields(frags, inside).value, ParseFields(frags, inside).rest;
    var q := RunTokens(true, frags, State(inside, [], []));
    assert Front(inside, |tail|) == q;
  }

  /** The same from its parts: how a document is parsed when its fragments, head and selection are. */
  lemma PutTogether(doc: seq<Token>, frags: Fragments, h: Head, inside: seq<Token>, g: seq<Field>, tail: seq<Token>)
    requires Scan(map[], doc).Parsed? && Scan(map[], doc).value == frags
    requires ParseHead(OperationOf(map[], doc)) == Parsed(h, [ObjOpen] + inside)
    requires ParseFields(frags, inside) == Parsed(g, tail) && |tail| <= |inside|
    ensures tail != [] && ParseDocument(doc) == Parsed(Operation(h.kind, h.name, h.vars, MarkKeywords(g)), tail[1..])
    ensures SelectionOf(doc) == Front(inside, |tail|)
  {
    assert ([ObjOpen] + inside)[1..] == inside;
    assert ParseOp(frags, OperationOf(map[], doc)) == Parsed(Operation(h.kind, h.name, h.vars, g), tail[1..]);
  }

  /** The expanded tokens of a fragment's or operation's fields, in front of the end. */
  lemma BodyInlines(sel: seq<Token>, g: seq<Field>)
    requires Defines(sel, g) && Eof !in sel
    ensures OnSpread(sel) && StartsSelection(sel)
    ensures Run(false, map[], State(sel + [ObjClose, Eof], [], [])) == Parsed(g, [ObjClose, Eof])
    ensures |g| == FieldCount(false, sel + [ObjClose, Eof])
  {
    var end := [ObjClose, Eof];
    DefinedBefore(sel, [ObjClose], end, g);
    var p := RunTokens(false, map[], State(sel + end, [], []));
    SameFront(sel, p, end);
    EndedIn(sel, end);
    RunCounted(State(sel + end, [], []));
    EndCountsNothing();
  }

  lemma EndCountsNothing()
    ensures FieldCount(false, [ObjClose, Eof]) == 0
  {
    assert [ObjClose, Eof][1..] == [Eof] && [Eof][1..] == [];
  }

  /** The inlined selection in front of a closing brace gives the document's fields, as many as its tokens start. */
  lemma SelectionInlines(doc: seq<Token>, tail: seq<Token>, g: seq<Field>)
    requires ParseDocument(doc).Parsed? && Ended(doc)
    requires ParseFields(Scan(map[], doc).value, SelectionOf(doc) + tail) == Parsed(g, tail) && Peek(tail, ObjClose)
    requires Eof !in SelectionOf(doc)
    ensures Defines(InlinedSelection(doc), g) && Eof !in InlinedSelection(doc)
  {
    var frags, bodies := Scan(map[], doc).value, ScanBodies(map[], map[], doc);
    ScanMatches(map[], map[], doc);
    DefineBody(frags, bodies, g, SelectionOf(doc), tail);
    BodiesEndFree(map[], map[], doc);
    ExpandEndFree(bodies, SelectionOf(doc));
  }

  lemma SameFront(a: seq<Token>, b: seq<Token>, end: seq<Token>)
    requires a + end == b + end
    ensures a == b
  {
    assert a == (a + end)[..|a|] && b == (b + end)[..|b|];
  }

  lemma EndedIn(a: seq<Token>, end: seq<Token>)
    requires Eof !in a && end == [ObjClose, Eof]
    ensures Ended(a + end)
  {
    forall i {:trigger (a + end)[i]} | 0 <= i < |a + end| - 1 ensures (a + end)[i] != Eof {
      assert i < |a| ==> a[i] in a;
    }
  }

  /** How the inlined operation is parsed, whatever fragments its head may define. */
  lemma OperationInlines(frags: Fragments, head: seq<Token>, h: Head, s1: seq<Token>, sel: seq<Token>, g: seq<Field>)
    requires ParseHead(head + s1) == Parsed(h, s1) && Peek(s1, ObjOpen)
    requires StartsSelection(sel)
    requires Run(false, map[], State(sel + [ObjClose, Eof], [], [])) == Parsed(g, [ObjClose, Eof])
    ensures ParseOp(frags, head + ([ObjOpen] + (sel + [ObjClose, Eof]))) ==
      if |g| <= MAX_FIELDS then Parsed(Operation(h.kind, h.name, h.vars, g), [Eof]) else Failed
  {
    var inside := sel + [ObjClose, Eof];
    HeadSwap(head, s1, [ObjOpen] + inside);
    assert ([ObjOpen] + inside)[1..] == inside;
    SelectionLimited(frags, inside, g);
  }

  lemma SelectionLimited(frags: Fragments, inside: seq<Token>, g: seq<Field>)
    requires StartsSelection(inside)
    requires Run(false, map[], State(inside, [], [])) == Parsed(g, [ObjClose, Eof])
    ensures ParseFields(frags, inside) == if |g| <= MAX_FIELDS then Parsed(g, [ObjClose, Eof]) else Failed
    ensures [ObjClose, Eof][1..] == [Eof]
  {
    LimitOn(State(inside, [], []));
    FragmentsUnused(frags, State(inside, [], []));
  }

  lemma {:induction false} OperationStarts(frags: Fragments, ts: seq<Token>)
    requires OperationOf(frags, ts) != []
    ensures var o := OperationOf(frags, ts);
      !FragmentWord(o[0]) && StartsOperation(o[0]) && o[0] != Eof
    decreases |ts|
  {
    if ts == [] || ts[0] == Eof {
    } else if FragmentWord(ts[0]) {
      var r := Definition(frags, ts[1..]);
      if r.Parsed? {
        OperationStarts(frags[ts[1].val := r.value], r.rest[1..]);
      }
    } else if !StartsOperation(ts[0]) {
      OperationStarts(frags, ts[1..]);
    }
  }

  /** The inlined document is its own operation. */
  lemma InlinedAlone(head: seq<Token>, s1: seq<Token>, s2: seq<Token>)
    requires head + s1 != [] && Peek(s1, ObjOpen) && Peek(s2, ObjOpen)
    requires !FragmentWord((head + s1)[0]) && StartsOperation((head + s1)[0]) && (head + s1)[0] != Eof
    ensures OperationOf(map[], head + s2) == head + s2
  {
    assert (head + s1)[0] == (head + s2)[0];
  }

  lemma Bracketed(sel: seq<Token>)
    requires OnSpread(sel)
    ensures OnSpread([ObjOpen] + (sel + [ObjClose, Eof]))
  {
    OnSpreadBoth(sel, [ObjClose, Eof]);
    OnSpreadBoth([ObjOpen], sel + [ObjClose, Eof]);
  }

  lemma NoEndInside(doc: seq<Token>, inside: seq<Token>, tail: seq<Token>)
    requires ParseDocument(doc).Parsed? && Ended(doc) && OperationOf(map[], doc) == HeadOf(doc) + ([ObjOpen] + inside)
    requires inside == SelectionOf(doc) + tail && tail != []
    ensures Eof !in SelectionOf(doc)
  {
    OperationEnded(map[], doc);
    EndedBack(HeadOf(doc), [ObjOpen] + inside);
    EndedBack([ObjOpen], inside);
    EndedBack(SelectionOf(doc), tail);
  }

  /**
   A document that parses: the operation alone, with the bodies of the fragments in the place of their spreads, parses to
   the same operation if its own scan for definitions succeeds and it starts at most as many fields as allowed, and is
   refused otherwise. If the word "fragment" is not in its head, the scan succeeds exactly when no name at all is that word.
   */
  lemma DocumentInlines(doc: seq<Token>)
    requires ParseDocument(doc).Parsed? && Ended(doc)
    ensures Wordless(HeadOf(doc)) ==> (Scan(map[], Inlined(doc)).Parsed? <==> Quiet(Inlined(doc)))
    ensures ParseDocument(Inlined(doc)) ==
      if Scan(map[], Inlined(doc)).Parsed? && FieldCount(false, InlinedSelection(doc) + [ObjClose, Eof]) <= MAX_FIELDS
      then Parsed(ParseDocument(doc).value, [Eof])
      else Failed
  {
    DocumentHasHead(doc);
    var h, inside := HeadApart(OperationOf(map[], doc));
    var tail, g := SelectionApart(doc, h, inside);
    var head, sel := HeadOf(doc), InlinedSelection(doc);
    NoEndInside(doc, inside, tail);
    SelectionInlines(doc, tail, g);
    BodyInlines(InlinedSelection(doc), g);
    var own := Scan(map[], Inlined(doc));
    if own.Parsed? {
      OperationInlines(own.value, head, h, [ObjOpen] + inside, sel, g);
    }
    OperationStarts(map[], doc);
    InlinedAlone(head, [ObjOpen] + inside, [ObjOpen] + (sel + [ObjClose, Eof]));
    if Wordless(head) {
      Bracketed(sel);
      ScanBehind(map[], head, [ObjOpen] + (sel + [ObjClose, Eof]));
    }
  }

  /** The tokens start as many fields as the document's operation has, spreads included. */
  lemma CountsAllFields(doc: seq<Token>)
    requires ParseDocument(doc).Parsed? && Ended(doc)
    ensures FieldCount(false, InlinedSelection(doc) + [ObjClose, Eof]) == |ParseDocument(doc).value.fields|
  {
    DocumentHasHead(doc);
    var h, inside := HeadApart(OperationOf(map[], doc));
    var tail, g := SelectionApart(doc, h, inside);
    NoEndInside(doc, inside, tail);
    SelectionInlines(doc, tail, g);
    BodyInlines(InlinedSelection(doc), g);
  }
}
