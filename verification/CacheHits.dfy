/**
 What the cache is for: a finished statement and a fresh error are served
 without compiling again, and only stale errors and statements that belong to
 one request leave the map.
 */
module CacheHits {
  import opened Common
  import opened CompileCache

  // ---- Served from the cell ----

  /** On its way from a servable cell to its return, without compiling. */
  predicate Serving(pc: Pc, c: CellId) {
    match pc
    case Loaded(d, loaded, _) => d == c && loaded
    case AtOnce(d, _) => d == c
    case AfterOnce(d, _) => d == c
    case Returned(err, held, _, _) => err.None? && held == Shared(c)
    case _ => false
  }

  lemma ServingStays(qs: seq<Request>, s: State, e: Event, r: nat, c: CellId)
    requires Inv(qs, s) && r < |qs| && c < |s.cells| && Servable(s.cells[c]) && Serving(s.pcs[r], c)
    ensures var s' := Apply(qs, s, e);
      c < |s'.cells| && s'.cells[c] == s.cells[c] && Serving(s'.pcs[r], c)
  {
    if e.Act? && e.r < |qs| {
      ActIsSharedStep(qs, s, e.r, e.outcome);
      ActMovesOne(qs, s, e.r, e.outcome);
    }
  }

  /**
   A request that loads a finished statement which is not one request's own is served that very cell: it never compiles,
   whatever the others do, and when it returns it holds the cell without an error.
   */
  lemma {:induction false} HitIsServed(qs: seq<Request>, s: State, es: seq<Event>, r: nat, c: CellId)
    requires Inv(qs, s) && r < |qs| && c < |s.cells| && Servable(s.cells[c]) && Serving(s.pcs[r], c)
    ensures var s' := Run(qs, s, es);
      && c < |s'.cells| && s'.cells[c] == s.cells[c]
      && !s'.pcs[r].Compiling? && !s'.pcs[r].Recompiling?
      && (s'.pcs[r].Returned? ==> s'.pcs[r].err.None? && s'.pcs[r].held == Shared(c))
    decreases |es|
  {
    if es != [] {
      ServingStays(qs, s, es[0], r, c);
      HitIsServed(qs, Apply(qs, s, es[0]), es[1..], r, c);
    }
  }

  /** A request that starts while the slot holds such a cell loads it. */
  lemma StartHits(qs: seq<Request>, s: State, r: nat, outcome: Outcome, c: CellId)
    requires Inv(qs, s) && r < |qs| && s.pcs[r].Start? && s.slot == Some(c)
    ensures var s' := Apply(qs, s, Event.Act(r, outcome));
      Serving(s'.pcs[r], c) && s'.slot == Some(c) && s'.cells == s.cells
  {
  }

  // ---- A fresh error ----

  /** On its way to return the cell's error, without compiling. */
  predicate Failing(pc: Pc, c: CellId, error: Error) {
    match pc
    case Fresh(d, _) => d == c
    case Returned(err, held, _, _) => err == Some(error) && held == Shared(c)
    case _ => false
  }

  /** A request that loads a cell with an error looks at it. */
  lemma ErrorIsSeen(qs: seq<Request>, s: State, r: nat, outcome: Outcome, c: CellId, since: nat)
    requires Inv(qs, s) && r < |qs| && s.pcs[r] == Loaded(c, true, since) && c < |s.cells| && s.cells[c].err.Some?
    ensures Apply(qs, s, Event.Act(r, outcome)).pcs[r] == SawError(c)
  {
  }

  /** A request that meets an error checks how long ago it was recorded. */
  lemma ErrorIsChecked(qs: seq<Request>, s: State, r: nat, outcome: Outcome, c: CellId)
    requires Inv(qs, s) && r < |qs| && s.pcs[r] == SawError(c)
    ensures PcCell(s.pcs[r]) <= |s.cells| && s.cells[c].err.Some?
    ensures var s' := Apply(qs, s, Event.Act(r, outcome));
      if s.cells[c].failedAt.Some? && s.now < s.cells[c].failedAt.value + 30 then s'.pcs[r] == Fresh(c, s.now)
      else s'.pcs[r] == Stale(s.now)
  {
    assert PcOk(qs[r], s, r, s.pcs[r]);
    assert PcCell(s.pcs[r]) <= |s.cells|;
  }

  lemma FailingStays(qs: seq<Request>, s: State, e: Event, r: nat, c: CellId, error: Error)
    requires Inv(qs, s) && r < |qs| && c < |s.cells| && s.cells[c].err == Some(error) && Failing(s.pcs[r], c, error)
    ensures var s' := Apply(qs, s, e);
      c < |s'.cells| && s'.cells[c].err == Some(error) && Failing(s'.pcs[r], c, error)
  {
    if e.Act? && e.r < |qs| {
      ActIsSharedStep(qs, s, e.r, e.outcome);
      ActMovesOne(qs, s, e.r, e.outcome);
    }
  }

  /** A request that has found an error fresh never compiles, and returns that error. */
  lemma {:induction false} FreshErrorIsServed(qs: seq<Request>, s: State, es: seq<Event>, r: nat, c: CellId, error: Error)
    requires Inv(qs, s) && r < |qs| && c < |s.cells| && s.cells[c].err == Some(error) && Failing(s.pcs[r], c, error)
    ensures var s' := Run(qs, s, es);
      && !s'.pcs[r].Compiling? && !s'.pcs[r].Recompiling?
      && (s'.pcs[r].Returned? ==> s'.pcs[r].err == Some(error) && s'.pcs[r].held == Shared(c))
    decreases |es|
  {
    if es != [] {
      FailingStays(qs, s, es[0], r, c, error);
      FreshErrorIsServed(qs, Apply(qs, s, es[0]), es[1..], r, c, error);
    }
  }

  // ---- What leaves the map ----

  /** At the given time the cell's error counted as stale: its time to live was over, or its time not recorded yet. */
  predicate StaleAt(cell: Cell, time: nat) {
    cell.err.Some? && (cell.failedAt.Some? ==> time <= cell.failedAt.value || cell.failedAt.value + 30 <= time)
  }

  ghost predicate StaleKnown(s: State) {
    forall r {:trigger s.pcs[r]} :: 0 <= r < |s.pcs| && s.pcs[r].Stale? ==>
      exists d {:trigger s.cells[d]} :: 0 <= d < |s.cells| && StaleAt(s.cells[d], s.pcs[r].since)
  }

  lemma StepKeepsStale(qs: seq<Request>, s: State, e: Event)
    requires Inv(qs, s) && StaleKnown(s)
    ensures StaleKnown(Apply(qs, s, e))
  {
    var s' := Apply(qs, s, e);
    if e.Act? && e.r < |qs| {
      ActIsSharedStep(qs, s, e.r, e.outcome);
      ActMovesOne(qs, s, e.r, e.outcome);
    }
    forall r {:trigger s'.pcs[r]} | 0 <= r < |s'.pcs| && s'.pcs[r].Stale?
      ensures exists d {:trigger s'.cells[d]} :: 0 <= d < |s'.cells| && StaleAt(s'.cells[d], s'.pcs[r].since)
    {
      assert PcOk(qs[r], s, r, s.pcs[r]);
      if s.pcs[r].Stale? {
        assert s'.pcs[r] == s.pcs[r];
        var d :| 0 <= d < |s.cells| && StaleAt(s.cells[d], s.pcs[r].since);
        if e.Act? && e.r < |qs| {
          assert CellStep(s.cells[d], s'.cells[d], e.r, s.now);
        }
        assert StaleAt(s'.cells[d], s'.pcs[r].since);
      } else {
        var c := s.pcs[r].cell;
        assert PcCell(s.pcs[r]) <= |s.cells|;
        assert StaleAt(s'.cells[c], s'.pcs[r].since);
      }
    }
  }

  lemma {:induction false} RunKeepsStale(qs: seq<Request>, s: State, es: seq<Event>)
    requires Inv(qs, s) && StaleKnown(s)
    ensures StaleKnown(Run(qs, s, es))
    decreases |es|
  {
    if es != [] {
      StepKeepsStale(qs, s, es[0]);
      RunKeepsStale(qs, Apply(qs, s, es[0]), es[1..]);
    }
  }

  /**
   In every run, the slot leaves a cell at exactly two steps: when a request gives up that very cell, which is finished
   and holds a per-request statement, or when a request deletes the key because it found some error stale.
   */
  lemma SlotLeaves(qs: seq<Request>, es: seq<Event>, e: Event)
    ensures var s := AllRequests(qs, es);
      var s' := Apply(qs, s, e);
      (s.slot.Some? && s'.slot != s.slot) <==>
        e.Act? && e.r < |qs| && s.slot.Some? && (s.pcs[e.r].Stale? || s.pcs[e.r] == Evicting(s.slot.value))
    ensures var s := AllRequests(qs, es);
      forall r {:trigger s.pcs[r]} :: 0 <= r < |qs| ==>
        match s.pcs[r]
        case Evicting(c) =>
          c < |s.cells| && s.cells[c].once.Done? && s.cells[c].err.None? && s.cells[c].st.Stmt? && s.cells[c].st.perRequest
        case Stale(since) => exists d {:trigger s.cells[d]} :: 0 <= d < |s.cells| && StaleAt(s.cells[d], since)
        case _ => true
  {
    var s := AllRequests(qs, es);
    InitInv(qs);
    RunKeepsStale(qs, Init(qs), es);
    forall r {:trigger s.pcs[r]} | 0 <= r < |qs| && s.pcs[r].Evicting? ensures PcCell(s.pcs[r]) <= |s.cells| && PcOk(qs[r], s, r, s.pcs[r]) {
    }
    if e.Act? && e.r < |qs| {
      ActIsSharedStep(qs, s, e.r, e.outcome);
      assert PcCell(s.pcs[e.r]) <= |s.cells|;
    }
  }

  /** The request may still delete the key: it loaded another cell than c, or has found an error stale. */
  predicate MayDelete(pc: Pc, c: CellId) {
    (pc.Loaded? && pc.loaded && pc.cell != c) || pc.SawError? || pc.Stale?
  }

  /** The slot holds a servable cell that no request is about to delete. */
  ghost predicate Settled(qs: seq<Request>, s: State, c: CellId) {
    && Inv(qs, s) && s.slot == Some(c) && c < |s.cells| && Servable(s.cells[c])
    && forall r {:trigger s.pcs[r]} :: 0 <= r < |qs| ==> !MayDelete(s.pcs[r], c)
  }

  lemma SettledStays(qs: seq<Request>, s: State, e: Event, c: CellId)
    requires Settled(qs, s, c)
    ensures var s' := Apply(qs, s, e);
      Settled(qs, s', c) && |s'.cells| == |s.cells| && s'.cells[c] == s.cells[c]
  {
    var s' := Apply(qs, s, e);
    if e.Act? && e.r < |qs| {
      ActIsSharedStep(qs, s, e.r, e.outcome);
      ActMovesOne(qs, s, e.r, e.outcome);
      SettledMover(qs, s, e.r, e.outcome, c);
      forall r {:trigger s'.pcs[r]} | 0 <= r < |qs| ensures !MayDelete(s'.pcs[r], c) {
        assert !MayDelete(s.pcs[r], c);
      }
    }
  }

  lemma SettledMover(qs: seq<Request>, s: State, r: nat, outcome: Outcome, c: CellId)
    requires Settled(qs, s, c) && r < |qs|
    ensures var s' := Apply(qs, s, Event.Act(r, outcome));
      !MayDelete(s'.pcs[r], c) && s'.slot == Some(c) && |s'.cells| == |s.cells|
  {
    assert !MayDelete(s.pcs[r], c);
    assert PcOk(qs[r], s, r, s.pcs[r]) && PcCell(s.pcs[r]) <= |s.cells|;
  }

  /** Then it stays for good, no cell is ever created again, and every request that starts ends with it. */
  lemma {:induction false} SettledForGood(qs: seq<Request>, s: State, es: seq<Event>, c: CellId, r: nat)
    requires Settled(qs, s, c) && r < |qs|
    ensures var s' := Run(qs, s, es);
      && s'.slot == Some(c) && |s'.cells| == |s.cells| && s'.cells[c] == s.cells[c]
      && (s.pcs[r].Start? || Serving(s.pcs[r], c) ==>
            && !s'.pcs[r].Compiling? && !s'.pcs[r].Recompiling?
            && (s'.pcs[r].Returned? ==> s'.pcs[r].err.None? && s'.pcs[r].held == Shared(c)))
    decreases |es|
  {
    if es != [] {
      var s1 := Apply(qs, s, es[0]);
      SettledStays(qs, s, es[0], c);
      if s.pcs[r].Start? || Serving(s.pcs[r], c) {
        ServedNext(qs, s, es[0], c, r);
      }
      SettledForGood(qs, s1, es[1..], c, r);
    }
  }

  lemma ServedNext(qs: seq<Request>, s: State, e: Event, c: CellId, r: nat)
    requires Settled(qs, s, c) && r < |qs| && (s.pcs[r].Start? || Serving(s.pcs[r], c))
    ensures Apply(qs, s, e).pcs[r].Start? || Serving(Apply(qs, s, e).pcs[r], c)
  {
    if Serving(s.pcs[r], c) {
      ServingStays(qs, s, e, r, c);
    } else if e.Act? && e.r < |qs| {
      ActMovesOne(qs, s, e.r, e.outcome);
      if e.r == r {
        StartHits(qs, s, r, e.outcome, c);
      }
    }
  }

  // ---- Runs in which every compilation succeeds ----

  /** The compiler answers with a statement that any request may use, or with nothing to compile. */
  predicate Static(o: Outcome) {
    o.Deferred? || (o.Produced? && !o.perRequest)
  }

  predicate AllStatic(es: seq<Event>) {
    forall e <- es :: e.Act? ==> Static(e.outcome)
  }

  /** One cell, without an error, and every request on its straight way through it. */
  predicate OnTheWay(pc: Pc) {
    match pc
    case Start => true
    case Loaded(c, _, _) => c == 0
    case AtOnce(c, _) => c == 0
    case Compiling(c, _) => c == 0
    case Writing(c, _, result) => c == 0 && result.None?
    case Leaving(c, _) => c == 0
    case AfterOnce(c, _) => c == 0
    case Returned(err, held, _, _) => err.None? && held == Shared(0)
    case _ => false
  }

  ghost predicate OneCell(s: State) {
    && |s.cells| <= 1 && s.slot == (if |s.cells| == 0 then None else Some(0))
    && (forall c {:trigger s.cells[c]} :: 0 <= c < |s.cells| ==> s.cells[c].err.None? && (s.cells[c].st.Stmt? ==> !s.cells[c].st.perRequest))
    && (forall r {:trigger s.pcs[r]} :: 0 <= r < |s.pcs| ==> OnTheWay(s.pcs[r]))
  }

  lemma StaticStep(qs: seq<Request>, s: State, e: Event)
    requires Inv(qs, s) && OneCell(s) && (e.Act? ==> Static(e.outcome))
    ensures OneCell(Apply(qs, s, e))
  {
    if e.Act? && e.r < |qs| {
      ActMovesOne(qs, s, e.r, e.outcome);
      assert OnTheWay(s.pcs[e.r]);
      assert PcCell(s.pcs[e.r]) <= |s.cells|;
      var s' := Apply(qs, s, e);
      forall r {:trigger s'.pcs[r]} | 0 <= r < |qs| ensures OnTheWay(s'.pcs[r]) {
        assert OnTheWay(s.pcs[r]);
      }
    }
  }

  lemma {:induction false} StaticRun(qs: seq<Request>, s: State, es: seq<Event>)
    requires Inv(qs, s) && OneCell(s) && AllStatic(es)
    ensures OneCell(Run(qs, s, es))
    decreases |es|
  {
    if es != [] {
      assert es[0] in es && forall e <- es[1..] :: e in es;
      StaticStep(qs, s, es[0]);
      StaticRun(qs, Apply(qs, s, es[0]), es[1..]);
    }
  }

  /**
   However many requests there are and however they interleave: if no compilation fails and none is one request's own,
   one cell is created at most, it is compiled once at most, it is never dropped, and every request returns it.
   */
  lemma OneCompilationServesAll(qs: seq<Request>, es: seq<Event>, r: nat)
    requires AllStatic(es) && r < |qs|
    ensures var s := AllRequests(qs, es);
      && |s.cells| <= 1 && (|s.cells| == 1 ==> s.slot == Some(0) && s.cells[0].compiles <= 1)
      && (s.pcs[r].Returned? ==> s.pcs[r].err.None? && s.pcs[r].held == Shared(0))
  {
    InitInv(qs);
    StaticRun(qs, Init(qs), es);
    var s := AllRequests(qs, es);
    assert OnTheWay(s.pcs[r]);
    if |s.cells| == 1 {
      EachCellCompiledOnce(qs, es, 0);
    }
  }

  // ---- What a cell holds ----

  /** What a compilation for the request's shared statement leaves in its cell. */
  predicate Result(q: Request, cell: Cell, o: Outcome) {
    match o
    case Failed(error) => cell.err == Some(error) && cell.st == Empty
    case Deferred => cell.err.None? && cell.st == Empty
    case Produced(per, sql) => cell.err.None? && cell.st == Stmt(if |q.aschema| != 0 then q.aschema else q.vmap, per, sql)
  }

  /** The cell holds the outcome, or its owner r is about to record it. */
  predicate Recording(q: Request, s: State, r: nat, c: CellId, o: Outcome)
    requires r < |s.pcs| && c < |s.cells|
  {
    var cell := s.cells[c];
    if cell.once.Done? then Result(q, cell, o)
    else
      && cell.once == Running(r)
      && match s.pcs[r]
         case Writing(d, _, result) =>
           d == c && cell.err.None? && Result(q, cell.(err := result), o)
         case Stamping(d, _) => d == c && Result(q, cell, o)
         case Leaving(d, _) => d == c && Result(q, cell, o)
         case _ => false
  }

  lemma RecordingStays(qs: seq<Request>, s: State, e: Event, r: nat, c: CellId, o: Outcome)
    requires Inv(qs, s) && r < |qs| && c < |s.cells| && Recording(qs[r], s, r, c, o)
    ensures c < |Apply(qs, s, e).cells| && Recording(qs[r], Apply(qs, s, e), r, c, o)
  {
    if e.Act? && e.r < |qs| {
      ActIsSharedStep(qs, s, e.r, e.outcome);
      ActMovesOne(qs, s, e.r, e.outcome);
      assert CellStep(s.cells[c], Apply(qs, s, e).cells[c], e.r, s.now);
    }
  }

  /** What the compiler answers when the cell is compiled is what the cell holds once it is finished, whatever else runs. */
  lemma {:induction false} OutcomeIsKept(qs: seq<Request>, s: State, es: seq<Event>, r: nat, c: CellId, o: Outcome)
    requires Inv(qs, s) && r < |qs| && c < |s.cells| && Recording(qs[r], s, r, c, o)
    ensures var s' := Run(qs, s, es);
      c < |s'.cells| && (s'.cells[c].once.Done? ==> Result(qs[r], s'.cells[c], o))
    decreases |es|
  {
    if es != [] {
      RecordingStays(qs, s, es[0], r, c, o);
      OutcomeIsKept(qs, Apply(qs, s, es[0]), es[1..], r, c, o);
    }
  }

  /** The step that asks the compiler starts to record its answer. */
  lemma CompilingRecords(qs: seq<Request>, s: State, r: nat, c: CellId, since: nat, o: Outcome)
    requires Inv(qs, s) && r < |qs| && s.pcs[r] == Compiling(c, since)
    ensures var s' := Apply(qs, s, Event.Act(r, o));
      c < |s'.cells| && Recording(qs[r], s', r, c, o)
  {
    assert PcOk(qs[r], s, r, s.pcs[r]) && PcCell(s.pcs[r]) <= |s.cells|;
  }

  /** A request that compiles for itself ends with the compiler's answer for its own variables. */
  lemma RecompilingReturns(qs: seq<Request>, s: State, r: nat, c: CellId, o: Outcome)
    requires Inv(qs, s) && r < |qs| && s.pcs[r] == Recompiling(c)
    ensures var pc := Apply(qs, s, Event.Act(r, o)).pcs[r];
      && pc.Returned?
      && match o
         case Failed(error) => pc.err == Some(error) && pc.held == Nothing
         case Deferred => pc.err.None? && pc.held == Private(Empty)
         case Produced(per, sql) => pc.err.None? && pc.held == Private(Stmt(qs[r].vmap, per, sql))
  {
    assert PcCell(s.pcs[r]) <= |s.cells|;
  }

  // ---- A servable cell that is dropped ----

  lemma {:induction false} RunOn(qs: seq<Request>, s: State, es: seq<Event>, more: seq<Event>)
    requires Inv(qs, s)
    ensures Run(qs, s, es + more) == Run(qs, Run(qs, s, es), more)
    decreases |es|
  {
    if es == [] {
      assert es + more == more;
    } else {
      assert (es + more)[1..] == es[1..] + more;
      RunOn(qs, Apply(qs, s, es[0]), es[1..], more);
    }
  }

  /** Request r takes n steps, the compiler answering o. */
  function Steps(r: nat, n: nat, o: Outcome): seq<Event> {
    seq(n, i => Event.Act(r, o))
  }

  lemma StepsOf(qs: seq<Request>, s: State, r: nat, n: nat, o: Outcome)
    requires Inv(qs, s) && r < |qs| && n > 0
    ensures Run(qs, s, Steps(r, n, o)) == Run(qs, Apply(qs, s, Event.Act(r, o)), Steps(r, n - 1, o))
    ensures Run(qs, s, Steps(r, 0, o)) == s
  {
    assert Steps(r, n, o)[0] == Event.Act(r, o) && Steps(r, n, o)[1..] == Steps(r, n - 1, o);
  }

  /** A request that starts with an empty map begins to compile a new cell. */
  lemma BeginsToCompile(qs: seq<Request>, s0: State, r: nat, n: nat, o: Outcome) returns (s: State)
    requires Inv(qs, s0) && r < |qs| && s0.pcs[r].Start? && s0.slot.None? && s0.cells == [] && n >= 3
    ensures Inv(qs, s) && Run(qs, s0, Steps(r, n, o)) == Run(qs, s, Steps(r, n - 3, o))
    ensures s == State(s0.now, Some(0), [NewCell(s0.now).(once := Running(r))], s0.pcs[r := Compiling(0, s0.now)])
  {
    s := s0;
    StepsOf(qs, s, r, n, o);
    s := Apply(qs, s, Event.Act(r, o));
    StepsOf(qs, s, r, n - 1, o);
    s := Apply(qs, s, Event.Act(r, o));
    StepsOf(qs, s, r, n - 2, o);
    s := Apply(qs, s, Event.Act(r, o));
    assert s.pcs == s0.pcs[r := Compiling(0, s0.now)] && s.cells == [NewCell(s0.now).(once := Running(r))];
  }

  /** The first request fails to compile and has not recorded when. */
  lemma FirstFails(qs: seq<Request>) returns (s: State)
    requires |qs| == 3
    ensures Inv(qs, Init(qs)) && s == Run(qs, Init(qs), Steps(0, 5, Failed(7)))
    ensures s.now == 0 && s.slot == Some(0) && s.pcs[1].Start? && s.pcs[2].Start?
    ensures |s.cells| == 1 && s.cells[0].err == Some(7) && s.cells[0].failedAt.None?
  {
    InitInv(qs);
    s := BeginsToCompile(qs, Init(qs), 0, 5, Failed(7));
    s := Fails(qs, s);
  }

  lemma Fails(qs: seq<Request>, s0: State) returns (s: State)
    requires Inv(qs, s0) && |qs| > 0 && s0.pcs[0] == Compiling(0, s0.now) && s0.cells == [NewCell(s0.now).(once := Running(0))]
    ensures s == Run(qs, s0, Steps(0, 2, Failed(7)))
    ensures s == s0.(cells := [s0.cells[0].(compiles := 1, err := Some(7))], pcs := s0.pcs[0 := Stamping(0, s0.now)])
  {
    var o := Failed(7);
    var cell := s0.cells[0].(compiles := 1);
    StepsOf(qs, s0, 0, 2, o);
    s := Apply(qs, s0, Event.Act(0, o));
    assert s == s0.(cells := [cell], pcs := s0.pcs[0 := Writing(0, s0.now, Some(7))]);
    StepsOf(qs, s, 0, 1, o);
    s := Apply(qs, s, Event.Act(0, o));
    assert s.pcs == s0.pcs[0 := Stamping(0, s0.now)] && s.cells == [cell.(err := Some(7))];
    StepsOf(qs, s, 0, 1, o);
  }

  /** Another request finds the error and counts it as stale. */
  lemma FindsStale(qs: seq<Request>, s0: State, r: nat, o: Outcome) returns (s: State)
    requires Inv(qs, s0) && r < |qs| && s0.pcs[r].Start? && s0.slot == Some(0) && |s0.cells| == 1
    requires s0.cells[0].err.Some? && s0.cells[0].failedAt.None?
    ensures s == Run(qs, s0, Steps(r, 3, o)) && s == s0.(pcs := s0.pcs[r := Stale(s0.now)])
  {
    s := s0;
    StepsOf(qs, s, r, 3, o);
    s := Apply(qs, s, Event.Act(r, o));
    StepsOf(qs, s, r, 2, o);
    s := Apply(qs, s, Event.Act(r, o));
    StepsOf(qs, s, r, 1, o);
    s := Apply(qs, s, Event.Act(r, o));
    StepsOf(qs, s, r, 1, o);
    assert s.cells == s0.cells;
  }

  /** It deletes the key and begins to compile a new cell. */
  lemma DeletesAndBegins(qs: seq<Request>, s0: State, r: nat, since: nat, n: nat, o: Outcome) returns (s: State)
    requires Inv(qs, s0) && r < |qs| && s0.pcs[r] == Stale(since) && |s0.cells| == 1 && n >= 3
    ensures Inv(qs, s) && Run(qs, s0, Steps(r, n, o)) == Run(qs, s, Steps(r, n - 3, o))
    ensures s == State(s0.now, Some(1), s0.cells + [NewCell(s0.now).(once := Running(r))], s0.pcs[r := Compiling(1, since)])
  {
    s := s0;
    StepsOf(qs, s, r, n, o);
    s := Apply(qs, s, Event.Act(r, o));
    StepsOf(qs, s, r, n - 1, o);
    s := Apply(qs, s, Event.Act(r, o));
    StepsOf(qs, s, r, n - 2, o);
    s := Apply(qs, s, Event.Act(r, o));
    assert s.pcs == s0.pcs[r := Compiling(1, since)] && s.cells == s0.cells + [NewCell(s0.now).(once := Running(r))];
  }

  /** A compilation for everyone ends in a servable cell. */
  lemma Compiles(qs: seq<Request>, s0: State, r: nat, since: nat) returns (s: State)
    requires Inv(qs, s0) && r < |qs| && s0.pcs[r] == Compiling(1, since) && |s0.cells| == 2
    ensures s == Run(qs, s0, Steps(r, 4, Produced(false, "")))
    ensures s.slot == s0.slot && |s.cells| == 2 && Servable(s.cells[1]) && |s.pcs| == |s0.pcs|
    ensures forall i {:trigger s.pcs[i]} :: 0 <= i < |qs| && i != r ==> s.pcs[i] == s0.pcs[i]
  {
    var o := Produced(false, "");
    assert PcOk(qs[r], s0, r, s0.pcs[r]);
    StepsOf(qs, s0, r, 4, o);
    s := Apply(qs, s0, Event.Act(r, o));
    var cell := s0.cells[1].(compiles := 1, st := Stmt(CompileVars(qs[r], false), false, ""));
    assert s == s0.(cells := s0.cells[1 := cell], pcs := s0.pcs[r := Writing(1, since, None)]);
    StepsOf(qs, s, r, 3, o);
    s := Apply(qs, s, Event.Act(r, o));
    assert s == s0.(cells := s0.cells[1 := cell], pcs := s0.pcs[r := Leaving(1, since)]) by {
      assert s.pcs == s0.pcs[r := Leaving(1, since)] && s.cells == s0.cells[1 := cell];
    }
    s := Finishes(qs, s, r, since);
  }

  lemma Finishes(qs: seq<Request>, s0: State, r: nat, since: nat) returns (s: State)
    requires Inv(qs, s0) && r < |qs| && s0.pcs[r] == Leaving(1, since) && |s0.cells| == 2
    requires Servable(s0.cells[1].(once := Done))
    ensures s == Run(qs, s0, Steps(r, 2, Produced(false, "")))
    ensures s.slot == s0.slot && |s.cells| == 2 && Servable(s.cells[1]) && |s.pcs| == |s0.pcs|
    ensures forall i {:trigger s.pcs[i]} :: 0 <= i < |qs| && i != r ==> s.pcs[i] == s0.pcs[i]
  {
    var o := Produced(false, "");
    StepsOf(qs, s0, r, 2, o);
    s := Apply(qs, s0, Event.Act(r, o));
    assert s == s0.(cells := s0.cells[1 := s0.cells[1].(once := Done)], pcs := s0.pcs[r := AfterOnce(1, since)]);
    StepsOf(qs, s, r, 1, o);
    s := Apply(qs, s, Event.Act(r, o));
    StepsOf(qs, s, r, 1, o);
  }

  /**
   A good cell can be dropped: two requests find the same error stale; the first deletes it and compiles anew, and the
   second then deletes the new cell, because it deletes by key.
   */
  lemma LateDeleteDropsGoodCell(qs: seq<Request>) returns (es: seq<Event>, e: Event)
    requires |qs| == 3
    ensures var s := AllRequests(qs, es);
      && s.slot == Some(1) && |s.cells| == 2 && Servable(s.cells[1])
      && Apply(qs, s, e).slot.None?
  {
    var o := Produced(false, "");
    var a := FirstFails(qs);
    var b := FindsStale(qs, a, 1, o);
    var c := FindsStale(qs, b, 2, o);
    var begun := DeletesAndBegins(qs, c, 1, 0, 7, o);
    var d := Compiles(qs, begun, 1, 0);
    es := Steps(0, 5, Failed(7)) + Steps(1, 3, o) + Steps(2, 3, o) + Steps(1, 7, o);
    e := Event.Act(2, o);
    RunOn(qs, Init(qs), Steps(0, 5, Failed(7)), Steps(1, 3, o));
    RunOn(qs, Init(qs), Steps(0, 5, Failed(7)) + Steps(1, 3, o), Steps(2, 3, o));
    RunOn(qs, Init(qs), Steps(0, 5, Failed(7)) + Steps(1, 3, o) + Steps(2, 3, o), Steps(1, 7, o));
    assert d.pcs[2] == Stale(0);
  }
}
