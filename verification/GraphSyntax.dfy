/**
 Tokens, argument values and field headers of a query, as functions from the
 tokens that are left to what is parsed and the tokens left after it.
 */
module GraphSyntax {

  datatype Token =
    | Name(val: string) | On
    | ArgsOpen | ArgsClose | ListOpen | ListClose | ObjOpen | ObjClose
    | Colon | Equals | Required | Directive | Spread
    | Variable(val: string) | NumberVal(val: string) | StringVal(val: string) | BoolVal(val: string)
    | Eof

  datatype Kind = NodeStr | NodeNum | NodeBool | NodeObj | NodeList | NodeVar | NodeLabel

  /** An argument value. Members of an object carry their key as name. */
  datatype Node = Node(kind: Kind, name: string, val: string, children: seq<Node>)

  datatype Arg = Arg(name: string, val: Node)

  datatype FieldDirective = FieldDirective(name: string, args: seq<Arg>)

  /** What stands in front of a field's sub-selection. */
  datatype Header = Header(name: string, alias: string, args: seq<Arg>, directives: seq<FieldDirective>)

  datatype Result<T> = Failed | Parsed(value: T, rest: seq<Token>)

  const MAX_ARGS: nat := 25
  const MAX_FIELDS: nat := 1200

  /** The next token is one of the given ones. */
  predicate Peek(ts: seq<Token>, t: Token) {
    ts != [] && ts[0] == t
  }

  // ---- Values ----

  function ParseValue(ts: seq<Token>): (r: Result<Node>)
    ensures r.Parsed? ==> |r.rest| < |ts|
    decreases |ts|, 0
  {
    if ts == [] then Failed
    else
      match ts[0]
      case ListOpen => ParseList(ts[1..], [])
      case ObjOpen => ParseObj(ts[1..], [])
      case NumberVal(v) => Parsed(Node(NodeNum, "", v, []), ts[1..])
      case StringVal(v) => Parsed(Node(NodeStr, "", v, []), ts[1..])
      case BoolVal(v) => Parsed(Node(NodeBool, "", v, []), ts[1..])
      case Variable(v) => Parsed(Node(NodeVar, "", v, []), ts[1..])
      case Name(v) => Parsed(Node(NodeLabel, "", v, []), ts[1..])
      case _ => Failed
  }

  function ParseList(ts: seq<Token>, acc: seq<Node>): (r: Result<Node>)
    ensures r.Parsed? ==> |r.rest| < |ts|
    decreases |ts|, 1
  {
    if Peek(ts, Eof) || Peek(ts, ListClose) then Parsed(Node(NodeList, "", "", acc), ts[1..])
    else
      var v := ParseValue(ts);
      if v.Failed? then Failed else ParseList(v.rest, acc + [v.value])
  }

  function ParseObj(ts: seq<Token>, acc: seq<Node>): (r: Result<Node>)
    ensures r.Parsed? ==> |r.rest| < |ts|
    decreases |ts|, 1
  {
    if Peek(ts, Eof) || Peek(ts, ObjClose) then Parsed(Node(NodeObj, "", "", acc), ts[1..])
    else if |ts| < 2 || !ts[0].Name? || ts[1] != Colon then Failed
    else
      var v := ParseValue(ts[2..]);
      if v.Failed? then Failed else ParseObj(v.rest, acc + [v.value.(name := ts[0].val)])
  }

  function ParseArgs(ts: seq<Token>, acc: seq<Arg>): (r: Result<seq<Arg>>)
    ensures r.Parsed? ==> |r.rest| < |ts|
    decreases |ts|
  {
    if |acc| >= MAX_ARGS then Failed
    else if Peek(ts, Eof) || Peek(ts, ArgsClose) then Parsed(acc, ts[1..])
    else if |ts| < 2 || !ts[0].Name? || ts[1] != Colon then Failed
    else
      var v := ParseValue(ts[2..]);
      if v.Failed? then Failed else ParseArgs(v.rest, acc + [Arg(ts[0].val, v.value)])
  }

  // ---- Field headers ----

  function ParseDirective(ts: seq<Token>): (r: Result<FieldDirective>)
    ensures r.Parsed? ==> |r.rest| < |ts|
  {
    if ts == [] || !ts[0].Name? then Failed
    else if Peek(ts[1..], ArgsOpen) then
      var a := ParseArgs(ts[2..], []);
      if a.Failed? then Failed else Parsed(FieldDirective(ts[0].val, a.value), a.rest)
    else Parsed(FieldDirective(ts[0].val, []), ts[1..])
  }

  function ParseDirectives(ts: seq<Token>, acc: seq<FieldDirective>): (r: Result<seq<FieldDirective>>)
    ensures r.Parsed? ==> |r.rest| <= |ts|
    decreases |ts|
  {
    if Peek(ts, Directive) then
      var d := ParseDirective(ts[1..]);
      if d.Failed? then Failed else ParseDirectives(d.rest, acc + [d.value])
    else Parsed(acc, ts)
  }

  /** The arguments and directives behind a field's name. */
  function ParseTail(ts: seq<Token>, alias: string, name: string): (r: Result<Header>)
    ensures r.Parsed? ==> |r.rest| <= |ts|
  {
    var a := if Peek(ts, ArgsOpen) then ParseArgs(ts[1..], []) else Parsed([], ts);
    if a.Failed? then Failed
    else
      var d := ParseDirectives(a.rest, []);
      if d.Failed? then Failed else Parsed(Header(name, alias, a.value, d.value), d.rest)
  }

  function ParseField(ts: seq<Token>): (r: Result<Header>)
    ensures r.Parsed? ==> |r.rest| < |ts|
  {
    if ts == [] || !ts[0].Name? then Failed
    else if Peek(ts[1..], Colon) then
      if |ts| < 3 || !ts[2].Name? then Failed else ParseTail(ts[3..], ts[0].val, ts[2].val)
    else ParseTail(ts[1..], "", ts[0].val)
  }

  /** The end stands behind all other tokens. */
  ghost predicate Ended(ts: seq<Token>) {
    forall i {:trigger ts[i]} :: 0 <= i < |ts| - 1 ==> ts[i] != Eof
  }

  // ---- What a parse looks at ----
  //
  // Each lemma takes a parse of p + s1 that stops inside p or at its end, and
  // replaces what follows p: the parse has the same value and stops at the
  // same place.

  lemma {:induction false} ValueSwap(p: seq<Token>, s1: seq<Token>, s2: seq<Token>) returns (q: seq<Token>)
    requires ParseValue(p + s1).Parsed? && |ParseValue(p + s1).rest| >= |s1|
    ensures ParseValue(p + s1).rest == q + s1 && |q| < |p|
    ensures ParseValue(p + s2) == Parsed(ParseValue(p + s1).value, q + s2)
    decreases |p|, 0
  {
    assert p != [];
    assert (p + s1)[1..] == p[1..] + s1 && (p + s2)[1..] == p[1..] + s2;
    if p[0] == ListOpen {
      q := ListSwap(p[1..], [], s1, s2);
    } else if p[0] == ObjOpen {
      q := ObjSwap(p[1..], [], s1, s2);
    } else {
      q := p[1..];
    }
  }

  lemma {:induction false} ListSwap(p: seq<Token>, acc: seq<Node>, s1: seq<Token>, s2: seq<Token>)
    returns (q: seq<Token>)
    requires ParseList(p + s1, acc).Parsed? && |ParseList(p + s1, acc).rest| >= |s1|
    ensures ParseList(p + s1, acc).rest == q + s1 && |q| < |p|
    ensures ParseList(p + s2, acc) == Parsed(ParseList(p + s1, acc).value, q + s2)
    decreases |p|, 1
  {
    assert p != [];
    if p[0] == Eof || p[0] == ListClose {
      assert (p + s1)[1..] == p[1..] + s1 && (p + s2)[1..] == p[1..] + s2;
      q := p[1..];
    } else {
      var v := ParseValue(p + s1);
      q := ValueSwap(p, s1, s2);
      q := ListSwap(q, acc + [v.value], s1, s2);
    }
  }

  lemma {:induction false} ObjSwap(p: seq<Token>, acc: seq<Node>, s1: seq<Token>, s2: seq<Token>)
    returns (q: seq<Token>)
    requires ParseObj(p + s1, acc).Parsed? && |ParseObj(p + s1, acc).rest| >= |s1|
    ensures ParseObj(p + s1, acc).rest == q + s1 && |q| < |p|
    ensures ParseObj(p + s2, acc) == Parsed(ParseObj(p + s1, acc).value, q + s2)
    decreases |p|, 1
  {
    assert p != [];
    if p[0] == Eof || p[0] == ObjClose {
      assert (p + s1)[1..] == p[1..] + s1 && (p + s2)[1..] == p[1..] + s2;
      q := p[1..];
    } else {
      var v := ParseValue((p + s1)[2..]);
      assert |p| > 2;
      assert (p + s1)[2..] == p[2..] + s1 && (p + s2)[2..] == p[2..] + s2;
      q := ValueSwap(p[2..], s1, s2);
      q := ObjSwap(q, acc + [v.value.(name := p[0].val)], s1, s2);
    }
  }

  lemma {:induction false} ArgsSwap(p: seq<Token>, acc: seq<Arg>, s1: seq<Token>, s2: seq<Token>)
    returns (q: seq<Token>)
    requires ParseArgs(p + s1, acc).Parsed? && |ParseArgs(p + s1, acc).rest| >= |s1|
    ensures ParseArgs(p + s1, acc).rest == q + s1 && |q| < |p|
    ensures ParseArgs(p + s2, acc) == Parsed(ParseArgs(p + s1, acc).value, q + s2)
    decreases |p|
  {
    assert p != [];
    if p[0] == Eof || p[0] == ArgsClose {
      assert (p + s1)[1..] == p[1..] + s1 && (p + s2)[1..] == p[1..] + s2;
      q := p[1..];
    } else {
      var v := ParseValue((p + s1)[2..]);
      assert |p| > 2;
      assert (p + s1)[2..] == p[2..] + s1 && (p + s2)[2..] == p[2..] + s2;
      q := ValueSwap(p[2..], s1, s2);
      q := ArgsSwap(q, acc + [Arg(p[0].val, v.value)], s1, s2);
    }
  }

  /** A token that cannot continue a field header. */
  predicate EndsHeader(s: seq<Token>) {
    s != [] ==> s[0] !in {Colon, ArgsOpen, Directive}
  }

  lemma DirectiveSwap(p: seq<Token>, s1: seq<Token>, s2: seq<Token>) returns (q: seq<Token>)
    requires ParseDirective(p + s1).Parsed? && |ParseDirective(p + s1).rest| >= |s1|
    requires EndsHeader(s1) && EndsHeader(s2)
    ensures ParseDirective(p + s1).rest == q + s1 && |q| < |p|
    ensures ParseDirective(p + s2) == Parsed(ParseDirective(p + s1).value, q + s2)
  {
    assert p != [];
    assert (p + s1)[1..] == p[1..] + s1 && (p + s2)[1..] == p[1..] + s2;
    if |p| > 1 && p[1] == ArgsOpen {
      assert (p + s1)[2..] == p[2..] + s1 && (p + s2)[2..] == p[2..] + s2;
      q := ArgsSwap(p[2..], [], s1, s2);
    } else {
      q := p[1..];
    }
  }

  lemma {:induction false} DirectivesSwap(p: seq<Token>, acc: seq<FieldDirective>, s1: seq<Token>, s2: seq<Token>)
    returns (q: seq<Token>)
    requires ParseDirectives(p + s1, acc).Parsed? && |ParseDirectives(p + s1, acc).rest| >= |s1|
    requires EndsHeader(s1) && EndsHeader(s2)
    ensures ParseDirectives(p + s1, acc).rest == q + s1 && |q| <= |p|
    ensures ParseDirectives(p + s2, acc) == Parsed(ParseDirectives(p + s1, acc).value, q + s2)
    decreases |p|
  {
    if p != [] && p[0] == Directive {
      var d := ParseDirective((p + s1)[1..]);
      assert (p + s1)[1..] == p[1..] + s1 && (p + s2)[1..] == p[1..] + s2;
      q := DirectiveSwap(p[1..], s1, s2);
      q := DirectivesSwap(q, acc + [d.value], s1, s2);
    } else {
      q := p;
    }
  }

  lemma TailSwap(p: seq<Token>, alias: string, name: string, s1: seq<Token>, s2: seq<Token>)
    returns (q: seq<Token>)
    requires ParseTail(p + s1, alias, name).Parsed? && |ParseTail(p + s1, alias, name).rest| >= |s1|
    requires EndsHeader(s1) && EndsHeader(s2)
    ensures ParseTail(p + s1, alias, name).rest == q + s1 && |q| <= |p|
    ensures ParseTail(p + s2, alias, name) == Parsed(ParseTail(p + s1, alias, name).value, q + s2)
  {
    if p != [] && p[0] == ArgsOpen {
      assert (p + s1)[1..] == p[1..] + s1 && (p + s2)[1..] == p[1..] + s2;
      q := ArgsSwap(p[1..], [], s1, s2);
      q := DirectivesSwap(q, [], s1, s2);
    } else {
      q := DirectivesSwap(p, [], s1, s2);
    }
  }

  /** A field header is parsed from its own tokens and the knowledge that the next one does not continue it. */
  lemma FieldSwap(p: seq<Token>, s1: seq<Token>, s2: seq<Token>) returns (q: seq<Token>)
    requires ParseField(p + s1).Parsed? && |ParseField(p + s1).rest| >= |s1|
    requires EndsHeader(s1) && EndsHeader(s2)
    ensures ParseField(p + s1).rest == q + s1 && |q| < |p|
    ensures ParseField(p + s2) == Parsed(ParseField(p + s1).value, q + s2)
  {
    assert p != [];
    DropBoth(p, s1, s2, 1);
    if |p| > 1 && p[1] == Colon {
      assert |p| > 2;
      DropBoth(p, s1, s2, 3);
      q := TailSwap(p[3..], p[0].val, p[2].val, s1, s2);
      AliasedField(p + s1);
      AliasedField(p + s2);
    } else {
      q := TailSwap(p[1..], "", p[0].val, s1, s2);
    }
  }

  lemma DropBoth(p: seq<Token>, s1: seq<Token>, s2: seq<Token>, k: nat)
    requires k <= |p|
    ensures (p + s1)[k..] == p[k..] + s1 && (p + s2)[k..] == p[k..] + s2
    ensures forall i | 0 <= i < k :: (p + s1)[i] == p[i] && (p + s2)[i] == p[i]
  {
  }

  lemma AliasedField(ts: seq<Token>)
    requires |ts| >= 3 && ts[0].Name? && ts[1] == Colon && ts[2].Name?
    ensures ParseField(ts) == ParseTail(ts[3..], ts[0].val, ts[2].val)
  {
  }

  // ---- The tokens a parse takes ----

  /** Tokens inside a field header: no spread and no "on" is among them. */
  predicate Inner(p: seq<Token>) {
    Spread !in p && On !in p
  }

  lemma {:induction false} ValueTokens(ts: seq<Token>) returns (p: seq<Token>)
    requires ParseValue(ts).Parsed?
    ensures ts == p + ParseValue(ts).rest && Inner(p) && ArgsClose !in p
    decreases |ts|, 0
  {
    if ts[0] == ListOpen {
      p := ListTokens(ts[1..], []);
    } else if ts[0] == ObjOpen {
      p := ObjTokens(ts[1..], []);
    } else {
      p := [];
    }
    p := [ts[0]] + p;
  }

  lemma {:induction false} ListTokens(ts: seq<Token>, acc: seq<Node>) returns (p: seq<Token>)
    requires ParseList(ts, acc).Parsed?
    ensures ts == p + ParseList(ts, acc).rest && Inner(p) && ArgsClose !in p
    decreases |ts|, 1
  {
    if Peek(ts, Eof) || Peek(ts, ListClose) {
      p := [ts[0]];
    } else {
      var v := ParseValue(ts);
      p := ValueTokens(ts);
      var p' := ListTokens(v.rest, acc + [v.value]);
      p := p + p';
    }
  }

  lemma {:induction false} ObjTokens(ts: seq<Token>, acc: seq<Node>) returns (p: seq<Token>)
    requires ParseObj(ts, acc).Parsed?
    ensures ts == p + ParseObj(ts, acc).rest && Inner(p) && ArgsClose !in p
    decreases |ts|, 1
  {
    if Peek(ts, Eof) || Peek(ts, ObjClose) {
      p := [ts[0]];
    } else {
      var v := ParseValue(ts[2..]);
      p := ValueTokens(ts[2..]);
      var p' := ObjTokens(v.rest, acc + [v.value.(name := ts[0].val)]);
      p := [ts[0], ts[1]] + p + p';
    }
  }

  lemma {:induction false} ArgsTokens(ts: seq<Token>, acc: seq<Arg>) returns (p: seq<Token>)
    requires ParseArgs(ts, acc).Parsed?
    ensures ts == p + ParseArgs(ts, acc).rest && Inner(p)
    decreases |ts|
  {
    if Peek(ts, Eof) || Peek(ts, ArgsClose) {
      p := [ts[0]];
    } else {
      var v := ParseValue(ts[2..]);
      p := ValueTokens(ts[2..]);
      var p' := ArgsTokens(v.rest, acc + [Arg(ts[0].val, v.value)]);
      p := [ts[0], ts[1]] + p + p';
    }
  }

  lemma Glue(a: seq<Token>, b: seq<Token>, c: seq<Token>, r: seq<Token>)
    ensures a + (b + (c + r)) == a + b + c + r
    ensures Inner(a) && Inner(b) && Inner(c) ==> Inner(a + b + c)
  {
  }

  lemma DirectiveTokens(ts: seq<Token>) returns (p: seq<Token>)
    requires ParseDirective(ts).Parsed?
    ensures ts == p + ParseDirective(ts).rest && Inner(p)
  {
    if Peek(ts[1..], ArgsOpen) {
      var t := ArgsTokens(ts[2..], []);
      p := [ts[0], ArgsOpen] + t;
    } else {
      p := [ts[0]];
    }
  }

  lemma {:induction false} DirectivesTokens(ts: seq<Token>, acc: seq<FieldDirective>) returns (p: seq<Token>)
    requires ParseDirectives(ts, acc).Parsed?
    ensures ts == p + ParseDirectives(ts, acc).rest && Inner(p)
    decreases |ts|
  {
    if Peek(ts, Directive) {
      var d := ParseDirective(ts[1..]);
      var t := DirectiveTokens(ts[1..]);
      var t' := DirectivesTokens(d.rest, acc + [d.value]);
      p := [Directive] + t + t';
      assert ts == [Directive] + ts[1..];
      Glue([Directive], t, t', ParseDirectives(ts, acc).rest);
    } else {
      p := [];
    }
  }

  lemma TailTokens(ts: seq<Token>, alias: string, name: string) returns (p: seq<Token>)
    requires ParseTail(ts, alias, name).Parsed?
    ensures ts == p + ParseTail(ts, alias, name).rest && Inner(p)
  {
    if Peek(ts, ArgsOpen) {
      var a := ParseArgs(ts[1..], []);
      var t := ArgsTokens(ts[1..], []);
      var t' := DirectivesTokens(a.rest, []);
      p := [ArgsOpen] + t + t';
      assert ts == [ArgsOpen] + ts[1..];
      Glue([ArgsOpen], t, t', ParseTail(ts, alias, name).rest);
    } else {
      p := DirectivesTokens(ts, []);
    }
  }

  lemma FieldTokens(ts: seq<Token>) returns (p: seq<Token>)
    requires ParseField(ts).Parsed?
    ensures ts == p + ParseField(ts).rest && Inner(p) && p != []
  {
    if Peek(ts[1..], Colon) {
      var t := TailTokens(ts[3..], ts[0].val, ts[2].val);
      AliasedField(ts);
      p := AliasTokens(ts, t, ParseField(ts).rest);
    } else {
      var t := TailTokens(ts[1..], "", ts[0].val);
      p := NameTokens(ts, t, ParseField(ts).rest);
    }
  }

  lemma NameTokens(ts: seq<Token>, t: seq<Token>, rest: seq<Token>) returns (p: seq<Token>)
    requires ts != [] && ts[0].Name? && ts[1..] == t + rest && Inner(t)
    ensures ts == p + rest && Inner(p) && p != []
  {
    p := [ts[0]] + t;
    assert ts == [ts[0]] + ts[1..];
  }

  lemma AliasTokens(ts: seq<Token>, t: seq<Token>, rest: seq<Token>) returns (p: seq<Token>)
    requires |ts| >= 3 && ts[0].Name? && ts[1] == Colon && ts[2].Name? && ts[3..] == t + rest && Inner(t)
    ensures ts == p + rest && Inner(p) && p != []
  {
    p := ts[..3] + t;
    assert ts == ts[..3] + ts[3..];
    assert ts[..3] == [ts[0], ts[1], ts[2]];
  }
}
