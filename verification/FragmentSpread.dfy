/**
 Spreading a fragment and writing its body inline are the same to the parser:
 the same array comes out as long as it stays within the field limit.
 */
module FragmentSpread {
  import opened Common
  import opened GraphSyntax
  import opened FieldForest
  import opened FieldParser

  /** Fragment bodies with no named spread left in them. */
  type Bodies = map<string, seq<Token>>

  /** ts with every spread of a known fragment replaced by its body. */
  function Expand(bodies: Bodies, ts: seq<Token>): seq<Token> {
    if ts == [] then []
    else if ts[0] == Spread && |ts| > 1 && ts[1].Name? && ts[1].val in bodies
      then bodies[ts[1].val] + Expand(bodies, ts[2..])
    else [ts[0]] + Expand(bodies, ts[1..])
  }

  /** Tokens at which one field ends and the next thing begins. */
  predicate Boundary(ts: seq<Token>) {
    ts != [] && (ts[0].Name? || ts[0] == Spread || ts[0] == ObjClose)
  }

  /** Parsed on its own, the body gives the fields; its first token starts a field. */
  ghost predicate Defines(body: seq<Token>, fields: seq<Field>) {
    && body != [] && (body[0].Name? || body[0] == Spread)
    && Sound(fields)
    && Run(false, map[], State(body + [ObjClose], [], [])) == Parsed(fields, [ObjClose])
  }

  ghost predicate Matches(frags: Fragments, bodies: Bodies) {
    && frags.Keys == bodies.Keys
    && (forall f {:trigger frags[f]} {:trigger bodies[f]} :: f in frags ==> Defines(bodies[f], frags[f]))
  }

  // ---- A selection parsed in place of a fragment ----

  function Embed(outer: State, inner: State, rest: seq<Token>): State
    requires InRange(outer)
  {
    State(rest, Splice(outer.fields, Top(outer.stack), inner.fields), outer.stack + Add(inner.stack, |outer.fields|))
  }

  lemma TopOfEmbed(outer: State, inner: State, rest: seq<Token>)
    requires InRange(outer) && InRange(inner)
    ensures InRange(Embed(outer, inner, rest))
    ensures Top(Embed(outer, inner, rest).stack) == At(outer.fields, Top(outer.stack), Top(inner.stack))
  {
    var e := Embed(outer, inner, rest);
    forall k | 0 <= k < |e.stack| ensures 0 <= e.stack[k] < |e.fields| {
      if k >= |outer.stack| {
        assert 0 <= inner.stack[k - |outer.stack|] < |inner.fields|;
      }
    }
  }

  lemma DropFront(p: seq<Token>, s: seq<Token>)
    requires p != []
    ensures (p + s)[1..] == p[1..] + s && (p + s)[0] == p[0]
  {
  }

  /** The brace behind a field is taken alike in both places. */
  lemma OpenedEmbeds(outer: State, inner: State, id: int, e: State, id': int,
                     q: seq<Token>, s1: seq<Token>, s2: seq<Token>) returns (q': seq<Token>)
    requires InRange(outer) && inner.rest == q + s1 && Peek(s1, ObjClose) && Boundary(s2)
    requires e == Embed(outer, inner, q + s2) && id' == |outer.fields| + id
    ensures |q'| <= |q| && Opened(inner.rest, inner.fields, inner.stack, id).rest == q' + s1
    ensures Opened(e.rest, e.fields, e.stack, id')
      == Embed(outer, Opened(inner.rest, inner.fields, inner.stack, id), q' + s2)
  {
    if q != [] {
      DropFront(q, s1);
      DropFront(q, s2);
    }
    if Peek(inner.rest, ObjOpen) {
      q' := q[1..];
      var n := |outer.fields|;
      AddAppend(inner.stack, [id], n);
      assert Add([id], n) == [n + id];
      Regroup(outer.stack, Add(inner.stack, n), [n + id]);
    } else {
      q' := q;
    }
  }

  lemma NormalIs(s: State, h: Header, rest: seq<Token>, fields: seq<Field>)
    requires InRange(s) && ParseField(s.rest) == Parsed(h, rest)
    requires fields == Splice(s.fields, Top(s.stack), Single(h))
    ensures Normal(s) == More(Opened(rest, fields, s.stack, |s.fields|))
  {
  }

  /** A field read by the inner parse is read the same, moved, in place. */
  lemma NormalEmbeds(outer: State, inner: State, next: State, q: seq<Token>, s1: seq<Token>, s2: seq<Token>)
    returns (q': seq<Token>)
    requires InRange(outer) && InRange(inner) && inner.rest == q + s1
    requires Peek(s1, ObjClose) && Boundary(s2)
    requires Normal(inner) == More(next) && |next.rest| >= |s1|
    ensures next.rest == q' + s1 && |q'| < |q|
    ensures InRange(Embed(outer, inner, q + s2))
    ensures Normal(Embed(outer, inner, q + s2)) == More(Embed(outer, next, q' + s2))
  {
    var e := Embed(outer, inner, q + s2);
    TopOfEmbed(outer, inner, q + s2);
    var h := ParseField(inner.rest);
    var p := FieldSwap(q, s1, s2);
    var grown := Splice(inner.fields, Top(inner.stack), Single(h.value));
    var all := Splice(outer.fields, Top(outer.stack), grown);
    assert all == Splice(e.fields, Top(e.stack), Single(h.value)) by {
      SpliceAssoc(outer.fields, Top(outer.stack), inner.fields, Top(inner.stack), Single(h.value));
    }
    NormalIs(inner, h.value, h.rest, grown);
    NormalIs(e, h.value, p + s2, all);
    q' := OpenedEmbeds(outer, State(h.rest, grown, inner.stack), |inner.fields|,
                       State(p + s2, all, e.stack), |e.fields|, p, s1, s2);
  }

  lemma InlineIs(s: State, pid: int, marked: State, next: State)
    requires InRange(s) && Top(s.stack) == pid >= 0
    requires 0 <= pid < |s.fields| && marked == s.(fields := MarkUnion(s.fields, pid)) && Normal(marked) == More(next)
    ensures Inline(s) == More(next.(fields := MarkMembers(next.fields, pid)))
  {
  }

  lemma InlineEmbeds(outer: State, inner: State, next: State, q: seq<Token>, s1: seq<Token>, s2: seq<Token>)
    returns (q': seq<Token>)
    requires InRange(outer) && InRange(inner) && inner.rest == q + s1
    requires Peek(s1, ObjClose) && Boundary(s2)
    requires Inline(inner) == More(next) && |next.rest| >= |s1|
    ensures next.rest == q' + s1 && |q'| < |q|
    ensures InRange(Embed(outer, inner, q + s2))
    ensures Inline(Embed(outer, inner, q + s2)) == More(Embed(outer, next, q' + s2))
  {
    var pid := Top(inner.stack);
    TopOfEmbed(outer, inner, q + s2);
    var marked := inner.(fields := MarkUnion(inner.fields, pid));
    EmbedUnion(outer, inner, pid, q + s2);
    var read := Normal(marked).next;
    q' := NormalEmbeds(outer, marked, read, q, s1, s2);
    InlineIs(inner, pid, marked, read);
    InlineGlue(outer, inner, pid, marked, read, q + s2, q' + s2);
  }

  lemma InlineGlue(outer: State, inner: State, pid: int, marked: State, read: State, rest: seq<Token>, rest': seq<Token>)
    requires InRange(outer) && InRange(inner) && Top(inner.stack) == pid && 0 <= pid < |inner.fields| && pid < |read.fields|
    requires marked == inner.(fields := MarkUnion(inner.fields, pid)) && InRange(Embed(outer, marked, rest))
    requires Normal(Embed(outer, marked, rest)) == More(Embed(outer, read, rest'))
    ensures InRange(Embed(outer, inner, rest))
    ensures Inline(Embed(outer, inner, rest))
      == More(Embed(outer, read.(fields := MarkMembers(read.fields, pid)), rest'))
  {
    var e, r := Embed(outer, inner, rest), Embed(outer, read, rest');
    TopOfEmbed(outer, inner, rest);
    EmbedUnion(outer, inner, pid, rest);
    EmbedMembers(outer, read, pid, rest');
    InlineAt(e, pid + |outer.fields|, Embed(outer, marked, rest), r,
             Embed(outer, read.(fields := MarkMembers(read.fields, pid)), rest'));
  }

  lemma InlineAt(s: State, pid: int, marked: State, read: State, next: State)
    requires InRange(s) && InRange(marked) && Top(s.stack) == pid && 0 <= pid < |s.fields| && pid < |read.fields|
    requires marked == s.(fields := MarkUnion(s.fields, pid)) && Normal(marked) == More(read)
    requires next == read.(fields := MarkMembers(read.fields, pid))
    ensures Inline(s) == More(next)
  {
    InlineIs(s, pid, marked, read);
  }

  lemma EmbedMembers(outer: State, next: State, pid: int, rest: seq<Token>)
    requires InRange(outer) && 0 <= pid < |next.fields|
    ensures var e := Embed(outer, next, rest);
      Embed(outer, next.(fields := MarkMembers(next.fields, pid)), rest)
        == e.(fields := MarkMembers(e.fields, pid + |outer.fields|))
  {
    MembersSplice(outer.fields, Top(outer.stack), next.fields, pid);
  }

  lemma EmbedUnion(outer: State, inner: State, pid: int, rest: seq<Token>)
    requires InRange(outer) && 0 <= pid < |inner.fields|
    ensures var e := Embed(outer, inner, rest);
      Embed(outer, inner.(fields := MarkUnion(inner.fields, pid)), rest)
        == e.(fields := MarkUnion(e.fields, pid + |outer.fields|))
  {
    UnionSplices(outer.fields, Top(outer.stack), inner.fields, pid);
  }

  lemma PopEmbeds(outer: State, inner: State, q: seq<Token>, s2: seq<Token>)
    requires InRange(outer) && InRange(inner) && q != [] && q[0] == ObjClose && inner.stack != []
    ensures var e := Embed(outer, inner, q + s2);
      e.stack != [] && State((q + s2)[1..], e.fields, e.stack[..|e.stack| - 1])
        == Embed(outer, inner.(stack := inner.stack[..|inner.stack| - 1]), q[1..] + s2)
  {
    DropFront(q, s2);
    var st := inner.stack;
    assert Add(st, |outer.fields|)[..|st| - 1] == Add(st[..|st| - 1], |outer.fields|);
  }

  lemma StepEmbeds(outer: State, inner: State, next: State, q: seq<Token>, s1: seq<Token>, s2: seq<Token>)
    returns (q': seq<Token>)
    requires InRange(outer) && InRange(inner) && inner.rest == q + s1 && q != []
    requires Peek(s1, ObjClose) && Boundary(s2)
    requires Step(false, map[], inner) == More(next) && |next.rest| >= |s1|
    ensures next.rest == q' + s1 && |q'| < |q|
    ensures InRange(Embed(outer, inner, q + s2))
    ensures Step(false, map[], Embed(outer, inner, q + s2)) == More(Embed(outer, next, q' + s2))
  {
    var e := Embed(outer, inner, q + s2);
    TopOfEmbed(outer, inner, q + s2);
    DropFront(q, s1);
    DropFront(q, s2);
    if q[0] == ObjClose {
      q' := q[1..];
      PopEmbeds(outer, inner, q, s2);
    } else if q[0] == Spread {
      assert |q| > 1 && q[1] == On;
      DropFront(q[1..], s1);
      DropFront(q[1..], s2);
      var tail := q[1..][1..];
      q' := InlineEmbeds(outer, inner.(rest := tail + s1), next, tail, s1, s2);
    } else {
      q' := NormalEmbeds(outer, inner, next, q, s1, s2);
    }
  }

  /** The inner parse, played in place, leaves the outer state with the inner fields spliced in. */
  lemma {:induction false} RunEmbeds(outer: State, inner: State, q: seq<Token>, s1: seq<Token>, s2: seq<Token>)
    requires InRange(outer) && InRange(inner) && inner.rest == q + s1
    requires Peek(s1, ObjClose) && Boundary(s2)
    requires var r := Run(false, map[], inner);
      r.Parsed? && r.rest == s1
    ensures var h := Run(false, map[], inner).value;
      && InRange(Embed(outer, inner, q + s2))
      && Run(false, map[], Embed(outer, inner, q + s2))
        == Run(false, map[], State(s2, Splice(outer.fields, Top(outer.stack), h), outer.stack))
    decreases |q|
  {
    TopOfEmbed(outer, inner, q + s2);
    var r := Step(false, map[], inner);
    if q == [] {
      assert q + s1 == s1 && q + s2 == s2;
      assert inner.stack == [];
      assert outer.stack + Add([], |outer.fields|) == outer.stack;
    } else {
      var q' := StepEmbeds(outer, inner, r.next, q, s1, s2);
      RunEmbeds(outer, r.next, q', s1, s2);
    }
  }

  // ---- Expansion ----

  lemma {:induction false} ExpandBehind(bodies: Bodies, p: seq<Token>, ts: seq<Token>)
    requires Inner(p)
    ensures Expand(bodies, p + ts) == p + Expand(bodies, ts)
  {
    if p == [] {
      assert p + ts == ts;
    } else {
      DropFront(p, ts);
      assert p[0] != Spread;
      ExpandBehind(bodies, p[1..], ts);
      assert p + Expand(bodies, ts) == [p[0]] + (p[1..] + Expand(bodies, ts));
    }
  }

  lemma {:induction false} ExpandAppend(bodies: Bodies, p: seq<Token>, ts: seq<Token>)
    requires ts != [] && !ts[0].Name?
    ensures Expand(bodies, p + ts) == Expand(bodies, p) + Expand(bodies, ts)
    decreases |p|
  {
    if p == [] {
      assert p + ts == ts;
    } else {
      DropFront(p, ts);
      assert |p| == 1 ==> (p + ts)[1] == ts[0];
      if p[0] == Spread && |p| > 1 && p[1].Name? && p[1].val in bodies {
        assert (p + ts)[2..] == p[2..] + ts && (p + ts)[1] == p[1];
        ExpandAppend(bodies, p[2..], ts);
      } else {
        assert |p| > 1 ==> (p + ts)[1] == p[1];
        ExpandAppend(bodies, p[1..], ts);
      }
    }
  }

  /** The first token is kept, or replaced by one that starts a field. */
  lemma ExpandFront(frags: Fragments, bodies: Bodies, ts: seq<Token>)
    requires Matches(frags, bodies) && ts != []
    ensures Expand(bodies, ts) != []
    ensures Expand(bodies, ts)[0] == ts[0] || (ts[0] == Spread && Expand(bodies, ts)[0].Name?)
    ensures ts[0] != Spread ==> Expand(bodies, ts)[1..] == Expand(bodies, ts[1..])
  {
    if ts[0] == Spread && |ts| > 1 && ts[1].Name? && ts[1].val in bodies {
      assert Defines(bodies[ts[1].val], frags[ts[1].val]);
      DropFront(bodies[ts[1].val], Expand(bodies, ts[2..]));
    } else {
      assert Expand(bodies, ts) == [ts[0]] + Expand(bodies, ts[1..]);
    }
  }

  /** A field header is read alike from the expanded tokens. */
  lemma NormalExpands(frags: Fragments, bodies: Bodies, s: State)
    requires Matches(frags, bodies) && InRange(s)
    requires Normal(s).More?
    requires var h := ParseField(s.rest);
      h.rest != [] && EndsHeader(h.rest)
    ensures var next := Normal(s).next;
      Normal(s.(rest := Expand(bodies, s.rest))) == More(next.(rest := Expand(bodies, next.rest)))
  {
    var h := ParseField(s.rest);
    var rest' := Expand(bodies, h.rest);
    HeaderExpands(frags, bodies, s.rest);
    ExpandFront(frags, bodies, h.rest);
    var grown := Splice(s.fields, Top(s.stack), Single(h.value));
    NormalIs(s, h.value, h.rest, grown);
    NormalIs(s.(rest := Expand(bodies, s.rest)), h.value, rest', grown);
  }

  lemma HeaderExpands(frags: Fragments, bodies: Bodies, ts: seq<Token>)
    requires Matches(frags, bodies)
    requires var h := ParseField(ts);
      h.Parsed? && h.rest != [] && EndsHeader(h.rest)
    ensures var h := ParseField(ts);
      ParseField(Expand(bodies, ts)) == Parsed(h.value, Expand(bodies, h.rest))
  {
    var h := ParseField(ts);
    var rest' := Expand(bodies, h.rest);
    ExpandFront(frags, bodies, h.rest);
    var p := FieldTokens(ts);
    ExpandBehind(bodies, p, h.rest);
    var q := FieldSwap(p, h.rest, rest');
    assert q == [];
    assert q + rest' == rest';
  }

  // ---- The inline form parses to the same array ----

  /** Where a run that ends well can stand: in front of a field, a spread or a closing brace. */
  lemma RunStands(limited: bool, frags: Fragments, s: State)
    requires InRange(s) && Run(limited, frags, s).Parsed?
    ensures Boundary(s.rest)
  {
  }

  lemma NormalStands(frags: Fragments, s: State)
    requires InRange(s) && Normal(s).More? && Boundary(Normal(s).next.rest)
    ensures ParseField(s.rest).rest != [] && EndsHeader(ParseField(s.rest).rest)
  {
  }

  lemma InlineExpands(frags: Fragments, bodies: Bodies, s: State)
    requires Matches(frags, bodies) && InRange(s)
    requires Inline(s).More? && Boundary(Inline(s).next.rest)
    ensures var next := Inline(s).next;
      Inline(s.(rest := Expand(bodies, s.rest))) == More(next.(rest := Expand(bodies, next.rest)))
  {
    var pid := Top(s.stack);
    var marked := s.(fields := MarkUnion(s.fields, pid));
    NormalStands(frags, marked);
    NormalExpands(frags, bodies, marked);
    var next := Normal(marked).next;
    InlineIs(s, pid, marked, next);
    InlineIs(s.(rest := Expand(bodies, s.rest)), pid, marked.(rest := Expand(bodies, s.rest)),
             next.(rest := Expand(bodies, next.rest)));
  }

  /** A spread and its inlined body lead to the same state. */
  lemma NamedExpands(frags: Fragments, bodies: Bodies, s: State)
    requires Matches(frags, bodies) && InRange(s) && Peek(s.rest, Spread)
    requires var after := s.(rest := s.rest[1..]);
      Named(frags, after).More? && Boundary(Named(frags, after).next.rest)
    ensures var next := Named(frags, s.(rest := s.rest[1..])).next;
      Run(false, map[], s.(rest := Expand(bodies, s.rest)))
        == Run(false, map[], next.(rest := Expand(bodies, next.rest)))
  {
    var f := s.rest[1].val;
    var next := Named(frags, s.(rest := s.rest[1..])).next;
    assert next.rest == s.rest[2..];
    ExpandFront(frags, bodies, next.rest);
    assert Defines(bodies[f], frags[f]);
    var inner := State(bodies[f] + [ObjClose], [], []);
    var rest' := Expand(bodies, next.rest);
    RunEmbeds(s, inner, bodies[f], [ObjClose], rest');
    SpliceNothing(s.fields, Top(s.stack));
    assert s.stack + Add([], |s.fields|) == s.stack;
    assert Embed(s, inner, bodies[f] + rest') == s.(rest := Expand(bodies, s.rest));
  }

  lemma StepExpands(frags: Fragments, bodies: Bodies, s: State, next: State)
    requires Matches(frags, bodies) && InRange(s)
    requires Step(false, frags, s) == More(next) && Boundary(next.rest)
    ensures Run(false, map[], s.(rest := Expand(bodies, s.rest)))
      == Run(false, map[], next.(rest := Expand(bodies, next.rest)))
  {
    ExpandFront(frags, bodies, s.rest);
    if Peek(s.rest, Spread) {
      if Peek(s.rest[1..], On) {
        SpreadOnExpands(frags, bodies, s, next);
      } else {
        NamedExpands(frags, bodies, s);
      }
    } else if !Peek(s.rest, ObjClose) {
      NormalStands(frags, s);
      NormalExpands(frags, bodies, s);
    }
  }

  lemma SpreadOnExpands(frags: Fragments, bodies: Bodies, s: State, next: State)
    requires Matches(frags, bodies) && InRange(s) && Peek(s.rest, Spread) && Peek(s.rest[1..], On)
    requires Step(false, frags, s) == More(next) && Boundary(next.rest)
    ensures Step(false, map[], s.(rest := Expand(bodies, s.rest))) == More(next.(rest := Expand(bodies, next.rest)))
  {
    var inside := s.rest[1..][1..];
    InlineExpands(frags, bodies, s.(rest := inside));
    ExpandOn(bodies, s.rest);
    assert Peek(Expand(bodies, s.rest), Spread) && Peek(Expand(bodies, s.rest)[1..], On);
  }

  lemma ExpandOn(bodies: Bodies, ts: seq<Token>)
    requires Peek(ts, Spread) && Peek(ts[1..], On)
    ensures var e := Expand(bodies, ts);
      Peek(e, Spread) && Peek(e[1..], On) && e[1..][1..] == Expand(bodies, ts[1..][1..])
  {
    assert Expand(bodies, ts) == [Spread] + Expand(bodies, ts[1..]);
    assert Expand(bodies, ts[1..]) == [On] + Expand(bodies, ts[1..][1..]);
  }

  lemma {:induction false} RunExpands(frags: Fragments, bodies: Bodies, s: State)
    requires Matches(frags, bodies) && InRange(s) && Run(false, frags, s).Parsed?
    ensures var r := Run(false, frags, s);
      Run(false, map[], s.(rest := Expand(bodies, s.rest))) == Parsed(r.value, Expand(bodies, r.rest))
    decreases |s.rest|
  {
    var r := Step(false, frags, s);
    if r.More? {
      RunStands(false, frags, r.next);
      StepExpands(frags, bodies, s, r.next);
      RunExpands(frags, bodies, r.next);
    } else {
      ExpandFront(frags, bodies, s.rest);
    }
  }

  // ---- The field limit ----

  lemma {:induction false} LimitOff(frags: Fragments, s: State)
    requires InRange(s) && Run(true, frags, s).Parsed?
    ensures Run(false, frags, s) == Run(true, frags, s)
    decreases |s.rest|
  {
    if Step(true, frags, s).More? {
      LimitOff(frags, Step(true, frags, s).next);
    }
  }

  lemma {:induction false} RunGrows(s: State)
    requires InRange(s) && Run(false, map[], s).Parsed?
    ensures |Run(false, map[], s).value| >= |s.fields|
    decreases |s.rest|
  {
    if Step(false, map[], s).More? {
      RunGrows(Step(false, map[], s).next);
    }
  }

  /** Without fragments the limit stops exactly the runs that would pass it. */
  lemma {:induction false} LimitOn(s: State)
    requires InRange(s) && |s.fields| <= MAX_FIELDS && Run(false, map[], s).Parsed?
    ensures var r := Run(false, map[], s);
      Run(true, map[], s) == if |r.value| <= MAX_FIELDS then r else Failed
    decreases |s.rest|
  {
    var r := Step(false, map[], s);
    if r.More? {
      RunGrows(r.next);
      if Step(true, map[], s).More? {
        LimitOn(r.next);
      }
    }
  }

  /** A run that needs no fragment goes the same way whatever fragments there are. */
  lemma {:induction false} FragmentsUnused(frags: Fragments, s: State)
    requires InRange(s) && Run(false, map[], s).Parsed?
    ensures Run(true, frags, s) == Run(true, map[], s)
    decreases |s.rest|
  {
    var r := Step(false, map[], s);
    if r.More? && Step(true, map[], s).More? {
      FragmentsUnused(frags, r.next);
    }
  }

  // ---- Documents ----

  /** A fragment parsed with the earlier ones at hand is defined by its expanded body. */
  lemma DefineFragment(frags: Fragments, bodies: Bodies, name: string, body: seq<Token>, tail: seq<Token>)
    requires Matches(frags, bodies) && ParseFields(frags, body + tail).Parsed?
    requires ParseFields(frags, body + tail).rest == tail
    ensures Matches(frags[name := ParseFields(frags, body + tail).value], bodies[name := Expand(bodies, body)])
  {
    var g := ParseFields(frags, body + tail).value;
    DefineBody(frags, bodies, g, body, tail);
    MatchesWith(frags, bodies, name, Expand(bodies, body), g);
  }

  lemma MatchesWith(frags: Fragments, bodies: Bodies, name: string, body: seq<Token>, g: seq<Field>)
    requires Matches(frags, bodies) && Defines(body, g)
    ensures Matches(frags[name := g], bodies[name := body])
  {
    var frags', bodies' := frags[name := g], bodies[name := body];
    forall f {:trigger frags'[f]} {:trigger bodies'[f]} | f in frags' ensures Defines(bodies'[f], frags'[f]) {
      if f != name {
        assert frags'[f] == frags[f] && bodies'[f] == bodies[f];
      }
    }
  }

  lemma DefineBody(frags: Fragments, bodies: Bodies, g: seq<Field>, body: seq<Token>, tail: seq<Token>)
    requires Matches(frags, bodies) && ParseFields(frags, body + tail) == Parsed(g, tail)
    ensures Defines(Expand(bodies, body), g)
  {
    var start := State(body + tail, [], []);
    assert SoundFragments(frags) by {
      forall f | f in frags ensures Sound(frags[f]) {
        assert Defines(bodies[f], frags[f]);
      }
    }
    ParsedIsForest(frags, body + tail);
    LimitOff(frags, start);
    RunExpands(frags, bodies, start);
    ExpandAppend(bodies, body, tail);
    ExpandFront(frags, bodies, tail);
    assert body == [] ==> body + tail == tail;
    DropFront(body, tail);
    ExpandFront(frags, bodies, body);
    DefinedBefore(Expand(bodies, body), Expand(bodies, tail), [ObjClose], g);
  }

  /** What follows the closing brace does not matter. */
  lemma DefinedBefore(body: seq<Token>, s1: seq<Token>, s2: seq<Token>, g: seq<Field>)
    requires Sound(g) && Run(false, map[], State(body + s1, [], [])) == Parsed(g, s1) && Peek(s2, ObjClose)
    ensures Run(false, map[], State(body + s2, [], [])) == Parsed(g, s2)
  {
    var nil := State([], [], []);
    var inner := State(body + s1, [], []);
    RunEmbeds(nil, inner, body, s1, s2);
    SpliceNothing([], -1);
    SpliceEmpty(g);
    assert Embed(nil, inner, body + s2) == State(body + s2, [], []);
  }

  /** The word that opens a definition, in any case. */
  predicate FragmentWord(t: Token) {
    t.Name? && Lower(t.val) == "fragment"
  }

  /** A fragment definition behind its keyword: name, "on", type, and a selection in braces. */
  predicate FragmentHead(ts: seq<Token>) {
    |ts| >= 4 && ts[0].Name? && ts[1] == On && ts[2].Name? && ts[3] == ObjOpen
  }

  function Definition(frags: Fragments, ts: seq<Token>): Result<seq<Field>> {
    if FragmentHead(ts) then ParseFields(frags, ts[4..]) else Failed
  }

  predicate DefinitionParses(frags: Fragments, ts: seq<Token>) {
    Definition(frags, ts).Parsed?
  }

  /** Collects the fragments of a document, skipping everything else token by token. */
  function Scan(frags: Fragments, ts: seq<Token>): Result<Fragments>
    decreases |ts|
  {
    if ts == [] || ts[0] == Eof then Parsed(frags, ts)
    else if FragmentWord(ts[0]) then
      var def := ts[1..];
      var r := Definition(frags, def);
      if r.Failed? then Failed else Scan(frags[def[0].val := r.value], r.rest[1..])
    else Scan(frags, ts[1..])
  }

  /** The expanded bodies of the same fragments. */
  function ScanBodies(frags: Fragments, bodies: Bodies, ts: seq<Token>): Bodies
    requires Scan(frags, ts).Parsed?
    decreases |ts|
  {
    if ts == [] || ts[0] == Eof then bodies
    else if FragmentWord(ts[0]) then
      var def := ts[1..];
      var r := ParseFields(frags, def[4..]);
      var body := def[4..][..|def| - 4 - |r.rest|];
      ScanBodies(frags[def[0].val := r.value], bodies[def[0].val := Expand(bodies, body)], r.rest[1..])
    else ScanBodies(frags, bodies, ts[1..])
  }

  /** In these tokens "on" stands only behind a spread. */
  ghost predicate OnSpread(p: seq<Token>) {
    forall i {:trigger p[i]} :: 0 <= i < |p| && p[i] == On ==> i > 0 && p[i - 1] == Spread
  }

  lemma OnSpreadBoth(a: seq<Token>, b: seq<Token>)
    requires OnSpread(a) && OnSpread(b)
    ensures OnSpread(a + b)
  {
    forall i {:trigger (a + b)[i]} | 0 <= i < |a + b| && (a + b)[i] == On ensures i > 0 && (a + b)[i - 1] == Spread {
      assert i < |a| ==> a[i] == On;
      assert i >= |a| ==> b[i - |a|] == On;
    }
  }

  lemma InnerOnSpread(p: seq<Token>)
    requires Inner(p)
    ensures OnSpread(p)
  {
    forall i {:trigger p[i]} | 0 <= i < |p| ensures p[i] != On {
      assert p[i] in p;
    }
  }

  /** A field, with the brace that may follow it, takes tokens of a header and the brace. */
  lemma NormalTokens(s: State) returns (p: seq<Token>)
    requires InRange(s) && Normal(s).More?
    ensures s.rest == p + Normal(s).next.rest && Inner(p)
  {
    var r := ParseField(s.rest).rest;
    p := FieldTokens(s.rest);
    if Peek(r, ObjOpen) {
      p := WithBrace(s.rest, p, r);
    }
  }

  lemma WithBrace(ts: seq<Token>, p: seq<Token>, r: seq<Token>) returns (q: seq<Token>)
    requires ts == p + r && Peek(r, ObjOpen) && Inner(p)
    ensures ts == q + r[1..] && Inner(q)
  {
    q := p + [ObjOpen];
    assert r == [ObjOpen] + r[1..];
  }

  lemma SpreadTokens(frags: Fragments, s: State) returns (p: seq<Token>)
    requires InRange(s) && s.rest != []
    requires if s.rest[0] == On then Inline(s.(rest := s.rest[1..])).More? else Named(frags, s).More?
    ensures var next := if s.rest[0] == On then Inline(s.(rest := s.rest[1..])).next else Named(frags, s).next;
      s.rest == [s.rest[0]] + p + next.rest && Inner(p)
  {
    var tail := s.rest[1..];
    p := [];
    if s.rest[0] == On {
      p := NormalTokens(s.(rest := tail, fields := MarkUnion(s.fields, Top(s.stack))));
    }
    Consed(s.rest, p, if s.rest[0] == On then Inline(s.(rest := tail)).next.rest else Named(frags, s).next.rest);
  }

  lemma Consed(ts: seq<Token>, p: seq<Token>, rest: seq<Token>)
    requires ts != [] && ts[1..] == p + rest
    ensures ts == [ts[0]] + p + rest
  {
  }

  lemma BehindSpread(t: Token, inner: seq<Token>, rest: seq<Token>) returns (p: seq<Token>)
    requires Inner(inner)
    ensures [Spread] + ([t] + inner + rest) == p + rest && OnSpread(p)
  {
    p := [Spread, t] + inner;
    InnerOnSpread(inner);
    OnSpreadBoth([Spread, t], inner);
  }

  lemma Chained(a: seq<Token>, b: seq<Token>, rest: seq<Token>) returns (p: seq<Token>)
    requires OnSpread(a) && OnSpread(b)
    ensures a + (b + rest) == p + rest && OnSpread(p)
  {
    p := a + b;
    OnSpreadBoth(a, b);
  }

  lemma StepTokens(limited: bool, frags: Fragments, s: State) returns (p: seq<Token>)
    requires InRange(s) && Step(limited, frags, s).More?
    ensures s.rest == p + Step(limited, frags, s).next.rest && OnSpread(p)
  {
    if Peek(s.rest, ObjClose) {
      p := [ObjClose];
    } else if Peek(s.rest, Spread) {
      var tail := s.rest[1..];
      var inner := SpreadTokens(frags, s.(rest := tail));
      assert s.rest == [Spread] + tail;
      var next := Step(limited, frags, s).next;
      p := BehindSpread(tail[0], inner, next.rest);
    } else {
      p := NormalTokens(s);
      InnerOnSpread(p);
    }
  }

  lemma {:induction false} RunTokens(limited: bool, frags: Fragments, s: State) returns (p: seq<Token>)
    requires InRange(s) && Run(limited, frags, s).Parsed?
    ensures s.rest == p + Run(limited, frags, s).rest && OnSpread(p)
    decreases |s.rest|
  {
    p := [];
    if Step(limited, frags, s).More? {
      var next := Step(limited, frags, s).next;
      var head := StepTokens(limited, frags, s);
      var tail := RunTokens(limited, frags, next);
      p := Chained(head, tail, Run(limited, frags, next).rest);
    }
  }

  /** The fragments a document leaves behind are those its expanded bodies define. */
  lemma {:induction false} ScanMatches(frags: Fragments, bodies: Bodies, ts: seq<Token>)
    requires Matches(frags, bodies) && Scan(frags, ts).Parsed?
    ensures Matches(Scan(frags, ts).value, ScanBodies(frags, bodies, ts))
    decreases |ts|
  {
    if ts == [] || ts[0] == Eof {
    } else if FragmentWord(ts[0]) {
      var def := ts[1..];
      var r := ParseFields(frags, def[4..]);
      var p := RunTokens(true, frags, State(def[4..], [], []));
      assert def[4..][..|def| - 4 - |r.rest|] == p;
      DefineFragment(frags, bodies, def[0].val, p, r.rest);
      ScanMatches(frags[def[0].val := r.value], bodies[def[0].val := Expand(bodies, p)], r.rest[1..]);
    } else {
      ScanMatches(frags, bodies, ts[1..]);
    }
  }
}
