/**
 From printable tokens the parser builds headers and values that can be
 printed: names are names, numbers are numbers, and arguments are few.
 */
module ParsedFields {
  import opened GraphSyntax
  import opened FieldForest
  import opened FieldParser
  import opened FragmentSpread
  import opened GraphDocument
  import opened QueryText
  import opened LexedTokens

  // ---- Values ----

  ghost predicate AllClean(ns: seq<Node>) {
    forall c <- ns :: Clean(c) && c.name == ""
  }

  ghost predicate AllMembers(ns: seq<Node>) {
    forall c <- ns :: Clean(c) && PlainName(c.name)
  }

  ghost predicate AllArgs(args: seq<Arg>) {
    forall a <- args :: CleanArg(a)
  }

  lemma Renamed(n: Node, key: string)
    requires Clean(n)
    ensures Clean(n.(name := key))
  {
  }

  lemma {:induction false} ValueClean(ts: seq<Token>)
    requires AllPrintable(ts) && ParseValue(ts).Parsed?
    ensures var r := ParseValue(ts);
      Clean(r.value) && r.value.name == "" && AllPrintable(r.rest)
    decreases |ts|, 0
  {
    assert Printable(ts[0]);
    if ts[0] == ListOpen {
      ListClean(ts[1..], []);
    } else if ts[0] == ObjOpen {
      ObjClean(ts[1..], []);
    }
  }

  lemma {:induction false} ListClean(ts: seq<Token>, acc: seq<Node>)
    requires AllPrintable(ts) && AllClean(acc) && ParseList(ts, acc).Parsed?
    ensures var r := ParseList(ts, acc);
      Clean(r.value) && r.value.name == "" && AllPrintable(r.rest)
    decreases |ts|, 1
  {
    if !Peek(ts, Eof) && !Peek(ts, ListClose) {
      var v := ParseValue(ts);
      ValueClean(ts);
      ListClean(v.rest, acc + [v.value]);
    }
  }

  lemma {:induction false} ObjClean(ts: seq<Token>, acc: seq<Node>)
    requires AllPrintable(ts) && AllMembers(acc) && ParseObj(ts, acc).Parsed?
    ensures var r := ParseObj(ts, acc);
      Clean(r.value) && r.value.name == "" && AllPrintable(r.rest)
    decreases |ts|, 1
  {
    if !Peek(ts, Eof) && !Peek(ts, ObjClose) {
      var v := ParseValue(ts[2..]);
      assert Printable(ts[0]);
      ValueClean(ts[2..]);
      Renamed(v.value, ts[0].val);
      ObjClean(v.rest, acc + [v.value.(name := ts[0].val)]);
    }
  }

  lemma {:induction false} ArgsClean(ts: seq<Token>, acc: seq<Arg>)
    requires AllPrintable(ts) && AllArgs(acc) && ParseArgs(ts, acc).Parsed?
    ensures var r := ParseArgs(ts, acc);
      AllArgs(r.value) && |r.value| < MAX_ARGS && AllPrintable(r.rest)
    decreases |ts|
  {
    if !Peek(ts, Eof) && !Peek(ts, ArgsClose) {
      var v := ParseValue(ts[2..]);
      assert Printable(ts[0]);
      ValueClean(ts[2..]);
      ArgsClean(v.rest, acc + [Arg(ts[0].val, v.value)]);
    }
  }

  // ---- Headers ----

  lemma {:induction false} DirectivesClean(ts: seq<Token>, acc: seq<FieldDirective>)
    requires AllPrintable(ts) && ParseDirectives(ts, acc).Parsed?
    ensures AllPrintable(ParseDirectives(ts, acc).rest)
    decreases |ts|
  {
    if Peek(ts, Directive) {
      var d := ParseDirective(ts[1..]);
      if Peek(ts[1..][1..], ArgsOpen) {
        ArgsClean(ts[1..][2..], []);
      }
      DirectivesClean(d.rest, acc + [d.value]);
    }
  }

  lemma TailClean(ts: seq<Token>, alias: string, name: string)
    requires AllPrintable(ts) && ParseTail(ts, alias, name).Parsed?
    requires PlainName(name) && (alias == "" || PlainName(alias))
    ensures CleanHeader(ParseTail(ts, alias, name).value) && AllPrintable(ParseTail(ts, alias, name).rest)
  {
    var a := if Peek(ts, ArgsOpen) then ParseArgs(ts[1..], []) else Parsed([], ts);
    if Peek(ts, ArgsOpen) {
      ArgsClean(ts[1..], []);
    }
    DirectivesClean(a.rest, []);
  }

  lemma FieldClean(ts: seq<Token>)
    requires AllPrintable(ts) && ParseField(ts).Parsed?
    ensures CleanHeader(ParseField(ts).value) && AllPrintable(ParseField(ts).rest)
  {
    assert Printable(ts[0]);
    if Peek(ts[1..], Colon) {
      assert Printable(ts[2]);
      TailClean(ts[3..], ts[0].val, ts[2].val);
    } else {
      TailClean(ts[1..], "", ts[0].val);
    }
  }

  // ---- Field arrays ----

  ghost predicate CleanFields(f: seq<Field>) {
    forall i {:trigger f[i]} :: 0 <= i < |f| ==> CleanHeader(f[i].header)
  }

  ghost predicate CleanFragments(frags: Fragments) {
    forall f {:trigger frags[f]} :: f in frags ==> CleanFields(frags[f])
  }

  lemma SpliceClean(f: seq<Field>, pid: int, g: seq<Field>)
    requires CleanFields(f) && CleanFields(g) && -1 <= pid < |f|
    ensures CleanFields(Splice(f, pid, g))
  {
    var all := Splice(f, pid, g);
    forall i {:trigger all[i]} | 0 <= i < |all| ensures CleanHeader(all[i].header) {
      if i < |f| {
        SpliceHead(f, pid, g, i);
      } else {
        assert all[i] == Moved(g[i - |f|], i - |f|, |f|, pid);
      }
    }
  }

  lemma MarksClean(f: seq<Field>, pid: int)
    requires CleanFields(f) && 0 <= pid < |f|
    ensures CleanFields(MarkUnion(f, pid)) && CleanFields(MarkMembers(f, pid))
  {
    assert CleanHeader(f[pid].header);
  }

  ghost predicate CleanState(s: State) {
    InRange(s) && AllPrintable(s.rest) && CleanFields(s.fields)
  }

  lemma NormalClean(s: State)
    requires CleanState(s) && Normal(s).More?
    ensures CleanState(Normal(s).next)
  {
    var h := ParseField(s.rest);
    FieldClean(s.rest);
    SpliceClean(s.fields, Top(s.stack), Single(h.value));
  }

  lemma InlineClean(s: State)
    requires CleanState(s) && Inline(s).More?
    ensures CleanState(Inline(s).next)
  {
    var pid := Top(s.stack);
    var marked := s.(fields := MarkUnion(s.fields, pid));
    MarksClean(s.fields, pid);
    NormalClean(marked);
    MarksClean(Normal(marked).next.fields, pid);
  }

  lemma StepClean(limited: bool, frags: Fragments, s: State)
    requires CleanState(s) && CleanFragments(frags) && Step(limited, frags, s).More?
    ensures CleanState(Step(limited, frags, s).next)
  {
    if Peek(s.rest, ObjClose) {
    } else if Peek(s.rest, Spread) {
      var after := s.(rest := s.rest[1..]);
      if Peek(after.rest, On) {
        InlineClean(after.(rest := after.rest[1..]));
      } else {
        SpliceClean(s.fields, Top(s.stack), frags[after.rest[0].val]);
      }
    } else {
      NormalClean(s);
    }
  }

  lemma {:induction false} RunClean(limited: bool, frags: Fragments, s: State)
    requires CleanState(s) && CleanFragments(frags) && Run(limited, frags, s).Parsed?
    ensures CleanFields(Run(limited, frags, s).value) && AllPrintable(Run(limited, frags, s).rest)
    decreases |s.rest|
  {
    var r := Step(limited, frags, s);
    if r.More? {
      StepClean(limited, frags, s);
      RunClean(limited, frags, r.next);
    }
  }

  lemma FieldsClean(frags: Fragments, ts: seq<Token>)
    requires AllPrintable(ts) && CleanFragments(frags) && ParseFields(frags, ts).Parsed?
    ensures CleanFields(ParseFields(frags, ts).value) && AllPrintable(ParseFields(frags, ts).rest)
  {
    RunClean(true, frags, State(ts, [], []));
  }

  // ---- Documents ----

  lemma {:induction false} ScanClean(frags: Fragments, ts: seq<Token>)
    requires AllPrintable(ts) && CleanFragments(frags) && Scan(frags, ts).Parsed?
    ensures CleanFragments(Scan(frags, ts).value)
    decreases |ts|
  {
    if ts == [] || ts[0] == Eof {
    } else if FragmentWord(ts[0]) {
      var def := ts[1..];
      var r := ParseFields(frags, def[4..]);
      FieldsClean(frags, def[4..]);
      ScanClean(frags[def[0].val := r.value], r.rest[1..]);
    } else {
      ScanClean(frags, ts[1..]);
    }
  }

  lemma {:induction false} OperationPrintable(frags: Fragments, ts: seq<Token>)
    requires AllPrintable(ts) && CleanFragments(frags)
    ensures AllPrintable(OperationOf(frags, ts))
    decreases |ts|
  {
    if ts == [] || ts[0] == Eof {
    } else if FragmentWord(ts[0]) {
      var r := Definition(frags, ts[1..]);
      if r.Parsed? {
        FieldsClean(frags, ts[1..][4..]);
        OperationPrintable(frags[ts[1].val := r.value], r.rest[1..]);
      }
    } else if !StartsOperation(ts[0]) {
      OperationPrintable(frags, ts[1..]);
    }
  }

  /** The name and the variables of a head can be printed. */
  predicate CleanHead(h: Head) {
    && (h.name == "" || PlainName(h.name))
    && forall v <- h.vars :: IsName(v.name)
  }

  ghost predicate CleanVars(vars: seq<VarDef>) {
    forall v <- vars :: IsName(v.name)
  }

  lemma {:induction false} TypePrintable(ts: seq<Token>)
    requires AllPrintable(ts)
    ensures AllPrintable(ParseType(ts).1)
  {
    if Peek(ts, Required) || Peek(ts, ListOpen) || Peek(ts, ListClose) || (ts != [] && ts[0].Name?) {
      TypePrintable(ts[1..]);
    }
  }

  lemma VarDefClean(name: string, ts: seq<Token>)
    requires AllPrintable(ts) && ParseVarDef(name, ts).Parsed?
    ensures AllPrintable(ParseVarDef(name, ts).rest)
    ensures forall v <- ParseVarDef(name, ts).value :: v.name == name
  {
    if Peek(ts, Colon) {
      TypePrintable(ts[1..]);
      var t := ParseType(ts[1..]).1;
      if Peek(t, Equals) {
        ValueClean(t[1..]);
      }
    } else if Peek(ts, Equals) {
      ValueClean(ts[1..]);
    }
  }

  lemma {:induction false} ParamsClean(ts: seq<Token>, vars: seq<VarDef>)
    requires AllPrintable(ts) && CleanVars(vars) && ParseParams(ts, vars).Complete?
    ensures CleanVars(ParseParams(ts, vars).vars) && AllPrintable(ParseParams(ts, vars).rest)
    decreases |ts|
  {
    if ts[0] == ArgsClose {
    } else if !ts[0].Variable? {
      ParamsClean(ts[1..], vars);
    } else {
      assert Printable(ts[0]);
      var d := ParseVarDef(ts[0].val, ts[1..]);
      VarDefClean(ts[0].val, ts[1..]);
      ParamsClean(d.rest, vars + d.value);
    }
  }

  lemma HeadClean(ts: seq<Token>)
    requires AllPrintable(ts) && ParseHead(ts).Parsed?
    ensures CleanHead(ParseHead(ts).value) && AllPrintable(ParseHead(ts).rest)
  {
    if !Peek(ts, ObjOpen) {
      var named := |ts| > 1 && ts[1].Name?;
      var tail := if named then ts[2..] else ts[1..];
      assert named ==> Printable(ts[1]);
      if Peek(tail, ArgsOpen) {
        ParamsClean(tail[1..], []);
      }
      DirectivesClean(ParseParamsIfAny(tail).rest, []);
    }
  }

  /** All headers of a parsed text, and its operation's name and variables, can be printed. */
  lemma DocumentClean(ts: seq<Token>)
    requires AllPrintable(ts) && ParseDocument(ts).Parsed?
    ensures var op := ParseDocument(ts).value;
      CleanHead(Head(op.kind, op.name, op.vars)) && CleanFields(op.fields)
  {
    var frags := Scan(map[], ts).value;
    ScanClean(map[], ts);
    OperationPrintable(map[], ts);
    var start := OperationOf(map[], ts);
    HeadClean(start);
    var h := ParseHead(start);
    FieldsClean(frags, h.rest[1..]);
    var f := ParseFields(frags, h.rest[1..]).value;
    forall i {:trigger MarkKeywords(f)[i]} | 0 <= i < |f| ensures CleanHeader(MarkKeywords(f)[i].header) {
      assert CleanHeader(f[i].header);
    }
  }
}
