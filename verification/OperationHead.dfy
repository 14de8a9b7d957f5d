/**
 The head of an operation is parsed from its own tokens: what stands behind the
 brace of the selection can be replaced.
 */
module OperationHead {
  import opened GraphSyntax
  import opened FragmentSpread
  import opened GraphDocument

  // ---- The tokens of a head ----

  lemma {:induction false} TypeTokens(ts: seq<Token>) returns (p: seq<Token>)
    ensures ts == p + ParseType(ts).1 && ArgsClose !in p
  {
    p := [];
    if Peek(ts, Required) || Peek(ts, ListOpen) || Peek(ts, ListClose) || (ts != [] && ts[0].Name?) {
      var q := TypeTokens(ts[1..]);
      p := [ts[0]] + q;
    }
  }

  lemma ValueBehind(t: Token, ts: seq<Token>) returns (p: seq<Token>)
    requires ParseDefault(ts).Parsed? && t != ArgsClose
    ensures [t] + ts == p + ParseDefault(ts).rest && ArgsClose !in p
  {
    p := ValueTokens(ts);
    p := [t] + p;
  }

  lemma VarDefTokens(name: string, ts: seq<Token>) returns (p: seq<Token>)
    requires ParseVarDef(name, ts).Parsed?
    ensures ts == p + ParseVarDef(name, ts).rest && ArgsClose !in p
  {
    p := [];
    if Peek(ts, Colon) {
      var t := TypeTokens(ts[1..]);
      var r := ParseType(ts[1..]).1;
      var v := [];
      if Peek(r, Equals) {
        assert r == [Equals] + r[1..];
        v := ValueBehind(Equals, r[1..]);
      }
      p := [Colon] + t + v;
      assert ts == [Colon] + ts[1..];
      Glue([Colon], t, v, ParseVarDef(name, ts).rest);
    } else if Peek(ts, Equals) {
      assert ts == [Equals] + ts[1..];
      p := ValueBehind(Equals, ts[1..]);
    }
  }

  lemma {:induction false} ParamsTokens(ts: seq<Token>, vars: seq<VarDef>) returns (p: seq<Token>)
    requires ParseParams(ts, vars).Complete?
    ensures ts == p + ParseParams(ts, vars).rest
    decreases |ts|
  {
    assert ts == [ts[0]] + ts[1..];
    if ts[0] == ArgsClose {
      p := [ArgsClose];
    } else if !ts[0].Variable? {
      var q := ParamsTokens(ts[1..], vars);
      p := [ts[0]] + q;
    } else {
      var d := ParseVarDef(ts[0].val, ts[1..]);
      var def := VarDefTokens(ts[0].val, ts[1..]);
      var q := ParamsTokens(d.rest, vars + d.value);
      p := [ts[0]] + def + q;
      Glue([ts[0]], def, q, ParseParams(ts, vars).rest);
    }
  }

  lemma ParamsIfAnyTokens(ts: seq<Token>) returns (p: seq<Token>)
    requires ParseParamsIfAny(ts).Complete?
    ensures ts == p + ParseParamsIfAny(ts).rest
  {
    p := [];
    if Peek(ts, ArgsOpen) {
      assert ts == [ArgsOpen] + ts[1..];
      var q := ParamsTokens(ts[1..], []);
      p := [ArgsOpen] + q;
    }
  }

  lemma HeadGlue(ts: seq<Token>, k: nat, params: seq<Token>, directives: seq<Token>, rest: seq<Token>) returns (p: seq<Token>)
    requires k <= |ts| && ts[k..] == params + (directives + rest)
    ensures ts == p + rest
  {
    assert ts == ts[..k] + ts[k..];
    p := ts[..k] + params + directives;
  }

  lemma HeadTokens(ts: seq<Token>) returns (p: seq<Token>)
    requires ParseHead(ts).Parsed?
    ensures ts == p + ParseHead(ts).rest
  {
    p := [];
    if !Peek(ts, ObjOpen) {
      var k := if |ts| > 1 && ts[1].Name? then 2 else 1;
      var a := ParseParamsIfAny(ts[k..]);
      var params := ParamsIfAnyTokens(ts[k..]);
      var directives := DirectivesTokens(a.rest, []);
      p := HeadGlue(ts, k, params, directives, ParseHead(ts).rest);
    }
  }

  // ---- Replacing what follows ----

  lemma {:induction false} TypeSwap(p: seq<Token>, s1: seq<Token>, s2: seq<Token>) returns (q: seq<Token>)
    requires Peek(s1, ObjOpen) && Peek(s2, ObjOpen)
    ensures |q| <= |p| && ParseType(p + s1).1 == q + s1
    ensures ParseType(p + s2) == (ParseType(p + s1).0, q + s2)
    decreases |p|
  {
    q := p;
    if p == [] {
      assert p + s1 == s1 && p + s2 == s2;
    } else {
      DropFront(p, s1);
      DropFront(p, s2);
      if p[0] == Required || p[0] == ListOpen || p[0] == ListClose || p[0].Name? {
        q := TypeSwap(p[1..], s1, s2);
      }
    }
  }

  lemma DefaultSwap(p: seq<Token>, s1: seq<Token>, s2: seq<Token>) returns (q: seq<Token>)
    requires ParseDefault(p + s1).Parsed? && |ParseDefault(p + s1).rest| >= |s1|
    ensures ParseDefault(p + s1).rest == q + s1 && |q| < |p|
    ensures ParseDefault(p + s2) == Parsed(ParseDefault(p + s1).value, q + s2)
  {
    assert p != [];
    DropFront(p, s1);
    DropFront(p, s2);
    q := ValueSwap(p, s1, s2);
  }

  /** The default behind "=", the tokens p of a definition being left. */
  lemma EqualsSwap(p: seq<Token>, s1: seq<Token>, s2: seq<Token>) returns (q: seq<Token>)
    requires p != [] && ParseDefault((p + s1)[1..]).Parsed? && |ParseDefault((p + s1)[1..]).rest| >= |s1|
    ensures ParseDefault((p + s1)[1..]).rest == q + s1 && |q| < |p|
    ensures ParseDefault((p + s2)[1..]) == Parsed(ParseDefault((p + s1)[1..]).value, q + s2)
  {
    DropFront(p, s1);
    DropFront(p, s2);
    q := DefaultSwap(p[1..], s1, s2);
  }

  lemma PeekFront(p: seq<Token>, s1: seq<Token>, s2: seq<Token>, t: Token)
    requires Peek(s1, ObjOpen) && Peek(s2, ObjOpen)
    ensures Peek(p + s1, t) == Peek(p + s2, t)
    ensures Peek(p + s1, t) && t != ObjOpen ==> p != [] && (p + s1)[1..] == p[1..] + s1 && (p + s2)[1..] == p[1..] + s2
  {
    if p != [] {
      DropFront(p, s1);
      DropFront(p, s2);
    }
  }

  /** What stands behind a variable's name, up to tokens q of the head. */
  lemma VarDefSwap(name: string, p: seq<Token>, s1: seq<Token>, s2: seq<Token>) returns (q: seq<Token>)
    requires ParseVarDef(name, p + s1).Parsed? && |ParseVarDef(name, p + s1).rest| >= |s1|
    requires Peek(s1, ObjOpen) && Peek(s2, ObjOpen)
    ensures ParseVarDef(name, p + s1).rest == q + s1 && |q| <= |p|
    ensures ParseVarDef(name, p + s2) == Parsed(ParseVarDef(name, p + s1).value, q + s2)
  {
    PeekFront(p, s1, s2, Colon);
    PeekFront(p, s1, s2, Equals);
    q := p;
    if Peek(p + s1, Colon) {
      q := TypeSwap(p[1..], s1, s2);
      PeekFront(q, s1, s2, Equals);
      if Peek(q + s1, Equals) {
        q := EqualsSwap(q, s1, s2);
      }
    } else if Peek(p + s1, Equals) {
      q := EqualsSwap(p, s1, s2);
    }
  }

  lemma {:induction false} ParamsSwap(p: seq<Token>, vars: seq<VarDef>, s1: seq<Token>, s2: seq<Token>)
    returns (q: seq<Token>)
    requires ParseParams(p + s1, vars).Complete? && |ParseParams(p + s1, vars).rest| >= |s1|
    requires Peek(s1, ObjOpen) && Peek(s2, ObjOpen)
    ensures ParseParams(p + s1, vars).rest == q + s1
    ensures ParseParams(p + s2, vars) == Complete(ParseParams(p + s1, vars).vars, q + s2)
    decreases |p|
  {
    assert p != [];
    DropFront(p, s1);
    DropFront(p, s2);
    if p[0] == ArgsClose {
      q := p[1..];
    } else if !p[0].Variable? {
      q := ParamsSwap(p[1..], vars, s1, s2);
    } else {
      var d := ParseVarDef(p[0].val, p[1..] + s1);
      q := VarDefSwap(p[0].val, p[1..], s1, s2);
      q := ParamsSwap(q, vars + d.value, s1, s2);
    }
  }

  lemma ParamsIfAnySwap(p: seq<Token>, s1: seq<Token>, s2: seq<Token>) returns (q: seq<Token>)
    requires ParseParamsIfAny(p + s1).Complete? && |ParseParamsIfAny(p + s1).rest| >= |s1|
    requires Peek(s1, ObjOpen) && Peek(s2, ObjOpen)
    ensures ParseParamsIfAny(p + s1).rest == q + s1
    ensures ParseParamsIfAny(p + s2) == Complete(ParseParamsIfAny(p + s1).vars, q + s2)
  {
    PeekFront(p, s1, s2, ArgsOpen);
    q := p;
    if Peek(p + s1, ArgsOpen) {
      q := ParamsSwap(p[1..], [], s1, s2);
    }
  }

  /** A head in front of a selection is the same head in front of any other. */
  lemma HeadSwap(p: seq<Token>, s1: seq<Token>, s2: seq<Token>)
    requires ParseHead(p + s1).Parsed? && ParseHead(p + s1).rest == s1
    requires Peek(s1, ObjOpen) && Peek(s2, ObjOpen)
    ensures ParseHead(p + s2) == Parsed(ParseHead(p + s1).value, s2)
  {
    if p == [] {
      assert p + s1 == s1 && p + s2 == s2;
    } else if p[0] == ObjOpen {
      assert false;
    } else {
      DropFront(p, s1);
      DropFront(p, s2);
      NamedSwap(p, s1, s2);
      var k := if |p| > 1 && p[1].Name? then 2 else 1;
      var q := ParamsIfAnySwap(p[k..], s1, s2);
      q := DirectivesSwap(q, [], s1, s2);
      assert q == [];
      assert q + s2 == s2;
    }
  }

  lemma NamedSwap(p: seq<Token>, s1: seq<Token>, s2: seq<Token>)
    requires p != [] && Peek(s1, ObjOpen) && Peek(s2, ObjOpen)
    ensures forall s | s == s1 || s == s2 ::
      && (|p + s| > 1 && (p + s)[1].Name?) == (|p| > 1 && p[1].Name?)
      && (|p| > 1 ==> (p + s)[1] == p[1] && (p + s)[2..] == p[2..] + s)
  {
  }
}
