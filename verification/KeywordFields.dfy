/** Which fields of a parsed document are keywords. */
module KeywordFields {
  import opened Common
  import opened GraphSyntax
  import opened FieldForest
  import opened FieldParser
  import opened FragmentSpread
  import opened GraphDocument

  // ---- No field is a keyword before the whole operation is read ----

  ghost predicate NoKeyword(f: seq<Field>) {
    forall i {:trigger f[i]} :: 0 <= i < |f| ==> f[i].ftype != Keyword
  }

  ghost predicate NoneIn(frags: Fragments) {
    forall f {:trigger frags[f]} :: f in frags ==> NoKeyword(frags[f])
  }

  lemma SpliceHasNone(f: seq<Field>, pid: int, g: seq<Field>)
    requires NoKeyword(f) && NoKeyword(g) && -1 <= pid < |f|
    ensures NoKeyword(Splice(f, pid, g))
  {
    var all := Splice(f, pid, g);
    forall i {:trigger all[i]} | 0 <= i < |all| ensures all[i].ftype != Keyword {
      if i >= |f| {
        assert all[i] == Moved(g[i - |f|], i - |f|, |f|, pid);
      } else {
        assert f[i].ftype != Keyword;
      }
    }
  }

  lemma NormalHasNone(s: State)
    requires InRange(s) && NoKeyword(s.fields) && Normal(s).More?
    ensures NoKeyword(Normal(s).next.fields)
  {
    SpliceHasNone(s.fields, Top(s.stack), Single(ParseField(s.rest).value));
  }

  lemma StepHasNone(limited: bool, frags: Fragments, s: State)
    requires InRange(s) && NoKeyword(s.fields) && NoneIn(frags) && Step(limited, frags, s).More?
    ensures NoKeyword(Step(limited, frags, s).next.fields)
  {
    if Peek(s.rest, ObjClose) {
    } else if Peek(s.rest, Spread) {
      var after := s.(rest := s.rest[1..]);
      if Peek(after.rest, On) {
        NormalHasNone(after.(rest := after.rest[1..], fields := MarkUnion(s.fields, Top(s.stack))));
      } else {
        SpliceHasNone(s.fields, Top(s.stack), frags[after.rest[0].val]);
      }
    } else {
      NormalHasNone(s);
    }
  }

  lemma {:induction false} RunHasNone(limited: bool, frags: Fragments, s: State)
    requires InRange(s) && NoKeyword(s.fields) && NoneIn(frags) && Run(limited, frags, s).Parsed?
    ensures NoKeyword(Run(limited, frags, s).value)
    decreases |s.rest|
  {
    var r := Step(limited, frags, s);
    if r.More? {
      StepHasNone(limited, frags, s);
      RunHasNone(limited, frags, r.next);
    }
  }

  lemma {:induction false} ScanHasNone(frags: Fragments, ts: seq<Token>)
    requires NoneIn(frags) && Scan(frags, ts).Parsed?
    ensures NoneIn(Scan(frags, ts).value)
    decreases |ts|
  {
    if ts == [] || ts[0] == Eof {
    } else if FragmentWord(ts[0]) {
      var def := ts[1..];
      var r := ParseFields(frags, def[4..]);
      RunHasNone(true, frags, State(def[4..], [], []));
      ScanHasNone(frags[def[0].val := r.value], r.rest[1..]);
    } else {
      ScanHasNone(frags, ts[1..]);
    }
  }

  // ---- The mark ----

  lemma {:induction false} KidsNone(f: seq<Field>, p: int)
    ensures Kids(f, p) == [] <==> forall k {:trigger f[k]} :: 0 <= k < |f| ==> f[k].parent != p
  {
    if f != [] {
      KidsNone(f[..|f| - 1], p);
    }
  }

  /** The keywords of a parsed document are the root fields without arguments that no field has as parent. */
  lemma DocumentKeywords(ts: seq<Token>, i: nat)
    requires ParseDocument(ts).Parsed? && i < |ParseDocument(ts).value.fields|
    ensures var f := ParseDocument(ts).value.fields;
      f[i].ftype == Keyword
      <==> f[i].parent == -1 && f[i].header.args == [] && forall k {:trigger f[k]} :: 0 <= k < |f| ==> f[k].parent != i
  {
    var frags := Scan(map[], ts).value;
    var h := ParseHead(OperationOf(map[], ts));
    var f := ParseFields(frags, h.rest[1..]).value;
    var marked := ParseDocument(ts).value.fields;
    assert marked == MarkKeywords(f);
    ScanHasNone(map[], ts);
    RunHasNone(true, frags, State(h.rest[1..], [], []));
    DocumentIsForest(ts);
    KidsNone(marked, i);
    assert marked[i].children == Kids(marked, i) == f[i].children;
  }
}
