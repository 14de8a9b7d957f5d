/**
 The loop that reads variable definitions, round by round. It does not stop at
 the end of the tokens: without a closing parenthesis it is refused for what it
 has read, or never ends.
 */
module HeadLoop {
  import opened GraphSyntax
  import opened FragmentSpread
  import opened GraphDocument
  import opened OperationHead
  import opened InlinedDocument

  /** The loop over the definitions: what is left and the definitions so far, or the end of the loop. */
  datatype Loop = Open(ts: seq<Token>, vars: seq<VarDef>) | Over(result: Params)

  /** One round of the loop. At the end of the tokens nothing moves. */
  function Round(l: Loop): Loop {
    if l.Over? then l
    else if |l.vars| >= MAX_ARGS then Over(Refused)
    else if l.ts == [] || l.ts[0] == Eof then l
    else if l.ts[0] == ArgsClose then Over(Complete(l.vars, l.ts[1..]))
    else if !l.ts[0].Variable? then Open(l.ts[1..], l.vars)
    else
      var d := ParseVarDef(l.ts[0].val, l.ts[1..]);
      if d.Failed? then Over(Refused) else Open(d.rest, l.vars + d.value)
  }

  function Rounds(l: Loop, k: nat): Loop
    decreases k
  {
    if k == 0 then l else Rounds(Round(l), k - 1)
  }

  lemma {:induction false} StaysOpen(ts: seq<Token>, vars: seq<VarDef>, k: nat)
    requires ParseParams(ts, vars).Endless?
    ensures Rounds(Open(ts, vars), k).Open?
    decreases k
  {
    if k > 0 {
      var next := Round(Open(ts, vars));
      assert ParseParams(next.ts, next.vars).Endless?;
      StaysOpen(next.ts, next.vars, k - 1);
    }
  }

  lemma {:induction false} ComesToEnd(ts: seq<Token>, vars: seq<VarDef>) returns (k: nat)
    requires !ParseParams(ts, vars).Endless?
    ensures Rounds(Open(ts, vars), k) == Over(ParseParams(ts, vars))
    decreases |ts|
  {
    var next := Round(Open(ts, vars));
    if next.Over? {
      assert Rounds(next, 0) == next;
      k := 1;
    } else {
      k := ComesToEnd(next.ts, next.vars);
      k := k + 1;
    }
  }

  /** The loop runs for ever exactly on the heads said to be endless, and otherwise ends with what is said. */
  lemma EndlessExactly(ts: seq<Token>, vars: seq<VarDef>)
    ensures ParseParams(ts, vars).Endless? <==> forall k: nat :: Rounds(Open(ts, vars), k).Open?
    ensures !ParseParams(ts, vars).Endless? ==> exists k: nat :: Rounds(Open(ts, vars), k) == Over(ParseParams(ts, vars))
  {
    if ParseParams(ts, vars).Endless? {
      forall k: nat ensures Rounds(Open(ts, vars), k).Open? {
        StaysOpen(ts, vars, k);
      }
    } else {
      var k := ComesToEnd(ts, vars);
    }
  }

  /** A variable with nothing behind it is such a head. */
  lemma UnclosedIsEndless(name: string)
    ensures ParseParams([Variable(name), Eof], []).Endless?
  {
    var nothing: seq<VarDef> := [];
    assert nothing + [] == nothing;
    assert [Variable(name), Eof][1..] == [Eof];
    assert ParseVarDef(name, [Eof]) == Parsed([], [Eof]);
  }

  // ---- What the tokens say ----

  /** The round is the last: too many definitions, or one that is malformed. */
  predicate Refusing(l: Loop) {
    l.Open? && (|l.vars| >= MAX_ARGS
                || (l.ts != [] && l.ts[0].Variable? && ParseVarDef(l.ts[0].val, l.ts[1..]).Failed?))
  }

  lemma {:induction false} CompleteIsClosed(ts: seq<Token>, vars: seq<VarDef>)
    requires ParseParams(ts, vars).Complete?
    ensures ArgsClose in ts
    decreases |ts|
  {
    if ts[0] == ArgsClose {
    } else if !ts[0].Variable? {
      CompleteIsClosed(ts[1..], vars);
    } else {
      var d := ParseVarDef(ts[0].val, ts[1..]);
      var p := VarDefTokens(ts[0].val, ts[1..]);
      CompleteIsClosed(d.rest, vars + d.value);
      assert ArgsClose in ts[1..];
    }
  }

  lemma {:induction false} EndlessIsUnclosed(ts: seq<Token>, vars: seq<VarDef>)
    requires ParseParams(ts, vars).Endless? && Ended(ts)
    ensures ArgsClose !in ts
    decreases |ts|
  {
    if ts == [] {
    } else if ts[0] == Eof {
      assert |ts| == 1;
    } else {
      assert ts == [ts[0]] + ts[1..];
      EndedBack([ts[0]], ts[1..]);
      if !ts[0].Variable? {
        EndlessIsUnclosed(ts[1..], vars);
      } else {
        var d := ParseVarDef(ts[0].val, ts[1..]);
        var p := VarDefTokens(ts[0].val, ts[1..]);
        EndedBack(p, d.rest);
        EndlessIsUnclosed(d.rest, vars + d.value);
      }
    }
  }

  /** A round that refuses is met exactly on the way to a refusal. */
  lemma {:induction false} RefusedMeets(ts: seq<Token>, vars: seq<VarDef>) returns (k: nat)
    requires ParseParams(ts, vars).Refused?
    ensures Refusing(Rounds(Open(ts, vars), k))
    decreases |ts|
  {
    k := 0;
    var l := Open(ts, vars);
    if !Refusing(l) {
      var next := Round(l);
      k := RefusedMeets(next.ts, next.vars);
      k := k + 1;
    }
  }

  lemma {:induction false} MeetsRefused(ts: seq<Token>, vars: seq<VarDef>, k: nat)
    requires Refusing(Rounds(Open(ts, vars), k))
    ensures ParseParams(ts, vars).Refused?
    decreases k
  {
    var l := Open(ts, vars);
    if k > 0 && !Refusing(l) {
      var next := Round(l);
      if next.Open? {
        MeetsRefused(next.ts, next.vars, k - 1);
      } else {
        OverStays(next, k - 1);
      }
    }
  }

  lemma {:induction false} OverStays(l: Loop, k: nat)
    requires l.Over?
    ensures Rounds(l, k) == l
    decreases k
  {
    if k > 0 {
      OverStays(l, k - 1);
    }
  }

  /**
   On tokens that end with the end: refused exactly when some round starts with 25 definitions or meets a malformed one;
   otherwise the head is complete if there is a closing parenthesis, and is read for ever if there is none.
   */
  lemma HeadEnds(ts: seq<Token>, vars: seq<VarDef>)
    requires Ended(ts)
    ensures ParseParams(ts, vars).Refused? == MeetsRefusal(ts, vars)
    ensures ParseParams(ts, vars).Complete? <==> ArgsClose in ts && !MeetsRefusal(ts, vars)
    ensures (forall k: nat :: Rounds(Open(ts, vars), k).Open?) <==> ArgsClose !in ts && !MeetsRefusal(ts, vars)
  {
    EndlessExactly(ts, vars);
    RefusedExactly(ts, vars);
    match ParseParams(ts, vars)
    case Refused =>
    case Endless => EndlessIsUnclosed(ts, vars);
    case Complete(_, _) => CompleteIsClosed(ts, vars);
  }

  /** Some round is refused. */
  ghost predicate MeetsRefusal(ts: seq<Token>, vars: seq<VarDef>) {
    exists k: nat {:trigger Rounds(Open(ts, vars), k)} :: Refusing(Rounds(Open(ts, vars), k))
  }

  lemma RefusedExactly(ts: seq<Token>, vars: seq<VarDef>)
    ensures ParseParams(ts, vars).Refused? == MeetsRefusal(ts, vars)
  {
    if ParseParams(ts, vars).Refused? {
      var k := RefusedMeets(ts, vars);
      assert Refusing(Rounds(Open(ts, vars), k));
    } else if MeetsRefusal(ts, vars) {
      var k: nat :| Refusing(Rounds(Open(ts, vars), k));
      MeetsRefused(ts, vars, k);
    }
  }

  /** Not every head without a closing parenthesis is read for ever: this one is refused. */
  lemma UnclosedIsRefused(name: string)
    ensures ParseParams([Variable(name), Colon, Eof], []).Refused?
  {
    assert [Variable(name), Colon, Eof][1..] == [Colon, Eof] && [Colon, Eof][1..] == [Eof];
    assert ParseType([Eof]) == ("", [Eof]);
  }
}
