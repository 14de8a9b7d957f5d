/**
 The field parser as a machine: one step reads a closing brace, a spread or a
 field, and keeps the field array a forest whose open path is the stack.
 */
module FieldParser {
  import opened GraphSyntax
  import opened FieldForest

  type Fragments = map<string, seq<Field>>

  /** The tokens left, the fields so far and the ids of the fields whose braces are open. */
  datatype State = State(rest: seq<Token>, fields: seq<Field>, stack: seq<int>)

  datatype Outcome = Stopped | Done(fields: seq<Field>, rest: seq<Token>) | More(next: State)

  /** The stack holds positions of fields. */
  predicate InRange(s: State) {
    forall k {:trigger s.stack[k]} :: 0 <= k < |s.stack| ==> 0 <= s.stack[k] < |s.fields|
  }

  /** Takes the opening brace that may follow field id. */
  function Opened(rest: seq<Token>, fields: seq<Field>, stack: seq<int>, id: int): State {
    if Peek(rest, ObjOpen) then State(rest[1..], fields, stack + [id]) else State(rest, fields, stack)
  }

  /** Reads one field, with its opening brace if it has a selection of its own. */
  function Normal(s: State): (r: Outcome)
    requires InRange(s)
    ensures !r.Done?
    ensures r.More? ==> InRange(r.next) && |r.next.rest| < |s.rest| && |r.next.fields| == |s.fields| + 1
  {
    var h := ParseField(s.rest);
    if h.Failed? then Stopped
    else More(Opened(h.rest, Splice(s.fields, Top(s.stack), Single(h.value)), s.stack, |s.fields|))
  }

  /** Reads what follows "... on": the member becomes a child of the innermost open field. */
  function Inline(s: State): (r: Outcome)
    requires InRange(s)
    ensures !r.Done?
    ensures r.More? ==> InRange(r.next) && |r.next.rest| < |s.rest|
  {
    var pid := Top(s.stack);
    if pid == -1 then Stopped
    else
      var r := Normal(s.(fields := MarkUnion(s.fields, pid)));
      if r.Stopped? then Stopped else More(r.next.(fields := MarkMembers(r.next.fields, pid)))
  }

  /** Copies a named fragment's fields in below the innermost open field. */
  function Named(frags: Fragments, s: State): (r: Outcome)
    requires InRange(s)
    ensures !r.Done?
    ensures r.More? ==> InRange(r.next) && |r.next.rest| < |s.rest|
  {
    if s.rest == [] || !s.rest[0].Name? || s.rest[0].val !in frags then Stopped
    else More(State(s.rest[1..], Splice(s.fields, Top(s.stack), frags[s.rest[0].val]), s.stack))
  }

  /** One round of the loop. With limited, no field is started once MAX_FIELDS are there. */
  function Step(limited: bool, frags: Fragments, s: State): (r: Outcome)
    requires InRange(s)
    ensures r.More? ==> InRange(r.next) && |r.next.rest| < |s.rest|
  {
    if Peek(s.rest, Eof) then Stopped
    else if Peek(s.rest, ObjClose) then
      if s.stack != [] then More(State(s.rest[1..], s.fields, s.stack[..|s.stack| - 1]))
      else Done(s.fields, s.rest)
    else if limited && |s.fields| >= MAX_FIELDS then Stopped
    else if Peek(s.rest, Spread) then
      var after := s.(rest := s.rest[1..]);
      if Peek(after.rest, On) then Inline(after.(rest := after.rest[1..])) else Named(frags, after)
    else Normal(s)
  }

  function Run(limited: bool, frags: Fragments, s: State): (r: Result<seq<Field>>)
    requires InRange(s)
    ensures r.Parsed? ==> Peek(r.rest, ObjClose) && |r.rest| <= |s.rest|
    decreases |s.rest|
  {
    match Step(limited, frags, s)
    case Stopped => Failed
    case Done(fields, rest) => Parsed(fields, rest)
    case More(next) => Run(limited, frags, next)
  }

  /** run(s) is one step and then the run of what follows. */
  ghost predicate RunStep(limited: bool, frags: Fragments, run: State -> Result<seq<Field>>, s: State)
    requires InRange(s)
  {
    match Step(limited, frags, s)
    case Stopped => run(s) == Failed
    case Done(fields, rest) => run(s) == Parsed(fields, rest)
    case More(next) => run(s) == run(next)
  }

  lemma TheRun(limited: bool, frags: Fragments) returns (run: State -> Result<seq<Field>>)
    ensures forall s {:trigger run(s)} :: InRange(s) ==> run(s) == Run(limited, frags, s)
    ensures forall s {:trigger RunStep(limited, frags, run, s)} :: InRange(s) ==> RunStep(limited, frags, run, s)
  {
    run := s => if InRange(s) then Run(limited, frags, s) else Failed;
  }

  /** A selection starts with a field or a spread, so it is never empty. */
  predicate StartsSelection(ts: seq<Token>) {
    ts != [] && (ts[0].Name? || ts[0] == Spread)
  }

  function ParseFields(frags: Fragments, ts: seq<Token>): Result<seq<Field>> {
    if StartsSelection(ts) then Run(true, frags, State(ts, [], [])) else Failed
  }

  // ---- Every reachable state is a pre-order forest ----

  ghost predicate Sound(fields: seq<Field>) {
    Forest(fields) && PreOrder(fields)
  }

  ghost predicate SoundFragments(frags: Fragments) {
    forall f {:trigger frags[f]} :: f in frags ==> Sound(frags[f])
  }

  /** The array is a pre-order forest and the stack the path of open fields down to its edge. */
  ghost predicate Inv(s: State) {
    InRange(s) && Sound(s.fields) && OpenPath(s.fields, s.stack)
  }

  lemma SpliceKeepsInv(s: State, g: seq<Field>)
    requires Inv(s) && Sound(g)
    ensures Inv(s.(fields := Splice(s.fields, Top(s.stack), g)))
  {
    StackTop(s.fields, s.stack);
    SpliceForest(s.fields, Top(s.stack), g);
    SplicePreOrder(s.fields, s.stack, g);
  }

  lemma SingleSound(h: Header)
    ensures Sound(Single(h))
  {
    assert Kids(Single(h), 0) == [];
  }

  /** The field just added can be opened. */
  lemma PushKeepsPath(s: State, h: Header)
    requires Inv(s)
    ensures var all := Splice(s.fields, Top(s.stack), Single(h));
      Ordered(all) && OpenPath(all, s.stack + [|s.fields|])
  {
    var f, pid := s.fields, Top(s.stack);
    StackTop(f, s.stack);
    SpliceGrafts(f, pid, Single(h));
    LastOpens(Splice(f, pid, Single(h)), f, pid, Single(h), s.stack);
  }

  lemma LastOpens(all: seq<Field>, f: seq<Field>, pid: int, g: seq<Field>, stack: seq<int>)
    requires Ordered(f) && Ordered(g) && Ordered(all) && Grafted(all, f, pid, g) && |g| == 1 && g[0].parent == -1
    requires -1 <= pid < |f| && stack == Chain(f, pid)
    ensures OpenPath(all, stack + [|f|])
  {
    ChainAbove(all, f, pid, g, 0);
    assert Chain(g, 0) == [0];
    assert Add([0], |f|) == [|f|];
  }

  lemma NormalKeepsInv(s: State)
    requires Inv(s) && Normal(s).More?
    ensures Inv(Normal(s).next)
  {
    var h := ParseField(s.rest);
    SingleSound(h.value);
    SpliceKeepsInv(s, Single(h.value));
    if Peek(h.rest, ObjOpen) {
      PushKeepsPath(s, h.value);
    }
  }

  lemma ShapeKeepsInv(s: State, fields: seq<Field>)
    requires Inv(s) && SameShape(s.fields, fields)
    ensures Inv(s.(fields := fields))
  {
    SameShapeForest(s.fields, fields);
    SameShapePreOrder(s.fields, fields, s.stack);
  }

  lemma PopKeepsInv(s: State)
    requires Inv(s) && s.stack != []
    ensures Inv(s.(stack := s.stack[..|s.stack| - 1]))
  {
  }

  lemma InlineKeepsInv(s: State)
    requires Inv(s) && Inline(s).More?
    ensures Inv(Inline(s).next)
  {
    var pid := Top(s.stack);
    var marked := s.(fields := MarkUnion(s.fields, pid));
    MarksKeepShape(s.fields, pid);
    ShapeKeepsInv(s, marked.fields);
    NormalKeepsInv(marked);
    var next := Normal(marked).next;
    MarksKeepShape(next.fields, pid);
    ShapeKeepsInv(next, MarkMembers(next.fields, pid));
  }

  /** Every step keeps the forest and the stack in line. */
  lemma StepKeepsInv(limited: bool, frags: Fragments, s: State)
    requires Inv(s) && SoundFragments(frags) && Step(limited, frags, s).More?
    ensures Inv(Step(limited, frags, s).next)
  {
    if Peek(s.rest, ObjClose) {
      PopKeepsInv(s);
    } else if Peek(s.rest, Spread) {
      var after := s.(rest := s.rest[1..]);
      if Peek(after.rest, On) {
        InlineKeepsInv(after.(rest := after.rest[1..]));
      } else {
        SpliceKeepsInv(s, frags[after.rest[0].val]);
      }
    } else {
      NormalKeepsInv(s);
    }
  }

  lemma {:induction false} RunKeepsInv(limited: bool, frags: Fragments, s: State)
    requires Inv(s) && SoundFragments(frags) && Run(limited, frags, s).Parsed?
    ensures Sound(Run(limited, frags, s).value)
    decreases |s.rest|
  {
    var r := Step(limited, frags, s);
    if r.More? {
      StepKeepsInv(limited, frags, s);
      RunKeepsInv(limited, frags, r.next);
    }
  }

  /** What the field parser returns is a pre-order forest, whatever the tokens. */
  lemma ParsedIsForest(frags: Fragments, ts: seq<Token>)
    requires SoundFragments(frags) && ParseFields(frags, ts).Parsed?
    ensures Sound(ParseFields(frags, ts).value)
  {
    RunKeepsInv(true, frags, State(ts, [], []));
  }

  /** The outcome after k rounds. */
  function After(limited: bool, frags: Fragments, s: State, k: nat): (r: Outcome)
    requires InRange(s)
    ensures r.More? ==> InRange(r.next)
  {
    if k == 0 then More(s)
    else
      match After(limited, frags, s, k - 1)
      case More(next) => Step(limited, frags, next)
      case stopped => stopped
  }

  /** Every state on the way is a pre-order forest with the stack on its edge. */
  lemma {:induction false} ReachedIsForest(frags: Fragments, ts: seq<Token>, k: nat)
    requires SoundFragments(frags)
    ensures Sane(After(true, frags, State(ts, [], []), k))
    decreases k
  {
    if k > 0 {
      ReachedIsForest(frags, ts, k - 1);
      var before := After(true, frags, State(ts, [], []), k - 1);
      if before.More? {
        StepIsSane(true, frags, before.next);
      }
    }
  }

  ghost predicate Sane(r: Outcome) {
    match r
    case More(s) => Inv(s)
    case Done(fields, _) => Sound(fields)
    case Stopped => true
  }

  lemma StepIsSane(limited: bool, frags: Fragments, s: State)
    requires Inv(s) && SoundFragments(frags)
    ensures Sane(Step(limited, frags, s))
  {
    if Step(limited, frags, s).More? {
      StepKeepsInv(limited, frags, s);
    }
  }
}
