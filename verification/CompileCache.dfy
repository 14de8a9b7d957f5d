/**
 The single-flight compile cache with negative entries, for the requests of
 one cache key. Every access to shared state is one step, and a run is any
 interleaving of the steps of all requests and of the clock.
 */
module CompileCache {
  import opened Common

  /** How long a failed compilation is served, in ticks of the clock. */
  const NEG_CACHE_TTL: nat := 30

  type Vars = map<string, string>
  type Error = nat
  type CellId = nat

  datatype Request = Request(aschema: Vars, vmap: Vars)

  /** The compiled statement, with the variables it was compiled from. `Empty` has no query code. */
  datatype Stmt = Empty | Stmt(vars: Vars, perRequest: bool, sql: string)

  /** What the compiler answers: a statement, an error, or nothing to compile for a multi-database query. */
  datatype Outcome = Produced(perRequest: bool, sql: string) | Deferred | Failed(error: Error)

  datatype Once = Idle | Running(owner: nat) | Done

  /** A cache cell. `createdAt` and `compiles` are history: when it was stored and how often it was compiled. */
  datatype Cell = Cell(once: Once, st: Stmt, err: Option<Error>, failedAt: Option<nat>, createdAt: nat, compiles: nat)

  /** What a finished request holds. */
  datatype Held = Nothing | Shared(cell: CellId) | Private(st: Stmt)

  /** Where a request is. `since` is the time of its freshness check, or of its store when it created the cell. */
  datatype Pc =
    | Start
    | Loaded(cell: CellId, loaded: bool, since: nat)
    | SawError(cell: CellId)
    | Fresh(cell: CellId, since: nat)
    | Stale(since: nat)
    | Deleted(since: nat)
    | AtOnce(cell: CellId, since: nat)
    | Compiling(cell: CellId, since: nat)
    | Writing(cell: CellId, since: nat, result: Option<Error>)
    | Stamping(cell: CellId, since: nat)
    | Leaving(cell: CellId, since: nat)
    | AfterOnce(cell: CellId, since: nat)
    | Evicting(cell: CellId)
    | Recompiling(cell: CellId)
    | Returned(err: Option<Error>, held: Held, since: nat, evicted: Option<CellId>)

  /** The shared map has one slot for the key. */
  datatype State = State(now: nat, slot: Option<CellId>, cells: seq<Cell>, pcs: seq<Pc>)

  /** Time passes, or request r takes its next step; `outcome` is what the compiler answers if it is asked. */
  datatype Event = Tick | Act(r: nat, outcome: Outcome)

  function NewCell(now: nat): Cell {
    Cell(Idle, Empty, None, None, now, 0)
  }

  /** The variables a request compiles with: the schema's once, its own for a per-request statement. */
  function CompileVars(q: Request, perRequest: bool): Vars {
    if |q.aschema| != 0 && !perRequest then q.aschema else q.vmap
  }

  function Compiled(q: Request, perRequest: bool, outcome: Outcome): Stmt {
    match outcome
    case Produced(per, sql) => Stmt(CompileVars(q, perRequest), per, sql)
    case _ => Empty
  }

  /** Load the cell of the key, or store a new one. */
  function LoadOrStore(s: State): (State, CellId, bool) {
    if s.slot.Some? then (s, s.slot.value, true)
    else (s.(slot := Some(|s.cells|), cells := s.cells + [NewCell(s.now)]), |s.cells|, false)
  }

  function Goto(s: State, r: nat, pc: Pc): State
    requires r < |s.pcs|
  {
    s.(pcs := s.pcs[r := pc])
  }

  predicate CellsExist(s: State) {
    && (s.slot.Some? ==> s.slot.value < |s.cells|)
    && forall r | 0 <= r < |s.pcs| :: PcCell(s.pcs[r]) <= |s.cells|
  }

  /** One more than the cell a request refers to; zero when it refers to none. */
  function PcCell(pc: Pc): nat {
    match pc
    case Start => 0
    case Loaded(c, _, _) => c + 1
    case SawError(c) => c + 1
    case Fresh(c, _) => c + 1
    case Stale(_) => 0
    case Deleted(_) => 0
    case AtOnce(c, _) => c + 1
    case Compiling(c, _) => c + 1
    case Writing(c, _, _) => c + 1
    case Stamping(c, _) => c + 1
    case Leaving(c, _) => c + 1
    case AfterOnce(c, _) => c + 1
    case Evicting(c) => c + 1
    case Recompiling(c) => c + 1
    case Returned(_, held, _, _) => if held.Shared? then held.cell + 1 else 0
  }

  /** A step that touches the shared map. */
  predicate TouchesMap(pc: Pc) {
    pc.Start? || pc.Stale? || pc.Deleted? || pc.Evicting?
  }

  /** The next step of request r at a cell: the cell afterwards, and where the request is then. */
  function LocalStep(q: Request, cell: Cell, pc: Pc, r: nat, now: nat, outcome: Outcome): (Cell, Pc)
    requires !TouchesMap(pc)
  {
    match pc
    case Loaded(c, loaded, since) =>
      if !loaded then (cell, AtOnce(c, since))
      else if cell.err.Some? then (cell, SawError(c))
      else (cell, AtOnce(c, now))
    case SawError(c) =>
      if cell.failedAt.Some? && now - cell.failedAt.value < NEG_CACHE_TTL then (cell, Fresh(c, now))
      else (cell, Stale(now))
    case Fresh(c, since) => (cell, Returned(cell.err, Shared(c), since, None))
    case AtOnce(c, since) =>
      (match cell.once
       case Idle => (cell.(once := Running(r)), Compiling(c, since))
       case Running(_) => (cell, pc)
       case Done => (cell, AfterOnce(c, since)))
    case Compiling(c, since) =>
      var counted := cell.(compiles := cell.compiles + 1);
      if outcome.Failed? then (counted, Writing(c, since, Some(outcome.error)))
      else (counted.(st := Compiled(q, false, outcome)), Writing(c, since, None))
    case Writing(c, since, result) =>
      (cell.(err := result), if result.Some? then Stamping(c, since) else Leaving(c, since))
    case Stamping(c, since) => (cell.(failedAt := Some(now)), Leaving(c, since))
    case Leaving(c, since) => (cell.(once := Done), AfterOnce(c, since))
    case AfterOnce(c, since) =>
      if PerRequestDone(cell) then (cell, Evicting(c)) else (cell, Returned(cell.err, Shared(c), since, None))
    case Recompiling(c) =>
      if outcome.Failed? then (cell, Returned(Some(outcome.error), Nothing, now, Some(c)))
      else (cell, Returned(None, Private(Compiled(q, true, outcome)), now, Some(c)))
    case Returned(_, _, _, _) => (cell, pc)
  }

  /** The statement's shape came from the variables of the request that compiled it. */
  predicate PerRequestDone(cell: Cell) {
    cell.err.None? && cell.st.Stmt? && cell.st.perRequest
  }

  /** The next step of request r. A request waiting for another one's compilation does not move. */
  function Act(qs: seq<Request>, s: State, r: nat, outcome: Outcome): State
    requires |s.pcs| == |qs| && r < |qs| && CellsExist(s)
  {
    match s.pcs[r]
    case Start =>
      var (s', c, loaded) := LoadOrStore(s);
      Goto(s', r, Loaded(c, loaded, s.now))
    case Stale(since) => Goto(s.(slot := None), r, Deleted(since))
    case Deleted(since) =>
      var (s', c, _) := LoadOrStore(s);
      Goto(s', r, AtOnce(c, since))
    case Evicting(c) => Goto(if s.slot == Some(c) then s.(slot := None) else s, r, Recompiling(c))
    case pc =>
      var k := PcCell(pc);
      if k == 0 then s
      else
        var (cell, pc') := LocalStep(qs[r], s.cells[k - 1], pc, r, s.now, outcome);
        Goto(s.(cells := s.cells[k - 1 := cell]), r, pc')
  }

  function Init(qs: seq<Request>): State {
    State(0, None, [], seq(|qs|, i => Start))
  }

  function Apply(qs: seq<Request>, s: State, e: Event): (s': State)
    requires Inv(qs, s)
    ensures Inv(qs, s')
  {
    match e
    case Tick =>
      TickKeepsInv(qs, s);
      s.(now := s.now + 1)
    case Act(r, outcome) =>
      if r < |qs| then
        ActKeepsInv(qs, s, r, outcome);
        Act(qs, s, r, outcome)
      else s
  }

  /** The state after a whole run. */
  function Run(qs: seq<Request>, s: State, es: seq<Event>): (s': State)
    requires Inv(qs, s)
    ensures Inv(qs, s')
    decreases |es|
  {
    if es == [] then s else Run(qs, Apply(qs, s, es[0]), es[1..])
  }

  // ---- Invariant ----

  /** The request is inside the once of the cell. */
  predicate Inside(pc: Pc, c: CellId) {
    (pc.Compiling? || pc.Writing? || pc.Stamping? || pc.Leaving?) && pc.cell == c
  }

  predicate CellOk(now: nat, cell: Cell) {
    && cell.createdAt <= now
    && (cell.failedAt.Some? ==> cell.err.Some? && cell.createdAt <= cell.failedAt.value <= now)
    && (cell.err.Some? ==> cell.once != Idle)
    && (cell.once.Done? ==> cell.compiles == 1)
    && (cell.once.Done? && cell.err.Some? ==> cell.failedAt.Some?)
    && (cell.once.Idle? ==> cell.compiles == 0 && cell.st == Empty)
    && cell.compiles <= 1
  }

  /** An error of the cell was recorded at or after the given time, if it was recorded at all. */
  predicate RecordedAfter(cell: Cell, since: nat) {
    cell.failedAt.Some? ==> since <= cell.failedAt.value
  }

  /** The cell is finished and holds a per-request statement. */
  predicate Rejected(cell: Cell) {
    cell.once.Done? && cell.err.None? && cell.st.Stmt? && cell.st.perRequest
  }

  /** The cell is finished, without an error, and any request may use what it holds. */
  predicate Servable(cell: Cell) {
    cell.once.Done? && cell.err.None? && (cell.st.Stmt? ==> !cell.st.perRequest)
  }

  /** What a request knows about its cell. */
  predicate CellKnown(q: Request, cell: Cell, r: nat, now: nat, pc: Pc)
    requires PcCell(pc) > 0
  {
    match pc
    case Loaded(c, loaded, since) => since <= now && (!loaded ==> RecordedAfter(cell, since))
    case SawError(c) => cell.err.Some?
    case Fresh(c, since) =>
      since <= now && cell.err.Some? && cell.failedAt.Some? && since < cell.failedAt.value + NEG_CACHE_TTL
    case AtOnce(c, since) => since <= now && RecordedAfter(cell, since)
    case Compiling(c, since) =>
      since <= now && cell.once == Running(r) && cell.compiles == 0 && cell.err.None? && cell.st == Empty
    case Writing(c, since, result) =>
      since <= now && cell.once == Running(r) && cell.compiles == 1 && cell.err.None?
    case Stamping(c, since) =>
      since <= now && cell.once == Running(r) && cell.compiles == 1 && cell.err.Some? && cell.failedAt.None?
    case Leaving(c, since) =>
      since <= now && cell.once == Running(r) && cell.compiles == 1
      && (cell.err.Some? ==> cell.failedAt.Some?) && RecordedAfter(cell, since)
    case AfterOnce(c, since) => since <= now && cell.once.Done? && RecordedAfter(cell, since)
    case Evicting(c) => Rejected(cell)
    case Recompiling(c) => Rejected(cell)
    case Returned(err, held, since, evicted) =>
      && since <= now
      && cell.err == err
      && evicted.None?
      && (err.None? ==> Servable(cell))
      && (err.Some? ==> cell.failedAt.Some? && since < cell.failedAt.value + NEG_CACHE_TTL)
  }

  /** The cell left the map for good. */
  predicate Evicted(s: State, c: CellId) {
    c < |s.cells| && Rejected(s.cells[c]) && s.slot != Some(c)
  }

  predicate PcOk(q: Request, s: State, r: nat, pc: Pc)
    requires PcCell(pc) <= |s.cells|
  {
    && (PcCell(pc) > 0 ==> CellKnown(q, s.cells[PcCell(pc) - 1], r, s.now, pc))
    && match pc
       case Stale(since) => since <= s.now
       case Deleted(since) =>
         since <= s.now && (s.slot.Some? && s.slot.value < |s.cells| ==> since <= s.cells[s.slot.value].createdAt)
       case Recompiling(c) => Evicted(s, c)
       case Returned(err, held, since, evicted) =>
         && since <= s.now
         && (held.Private? ==> err.None? && (held.st.Stmt? ==> held.st.vars == q.vmap))
         && (held.Nothing? ==> err.Some?)
         && (!held.Shared? ==> evicted.Some? && Evicted(s, evicted.value))
       case _ => true
  }

  /** A cell being compiled has its owner inside. */
  predicate OwnerInside(s: State, c: CellId)
    requires c < |s.cells|
  {
    s.cells[c].once.Running? ==> s.cells[c].once.owner < |s.pcs| && Inside(s.pcs[s.cells[c].once.owner], c)
  }

  predicate Inv(qs: seq<Request>, s: State) {
    && |s.pcs| == |qs|
    && CellsExist(s)
    && (forall c | 0 <= c < |s.cells| :: CellOk(s.now, s.cells[c]))
    && (forall c | 0 <= c < |s.cells| :: OwnerInside(s, c))
    && (forall r | 0 <= r < |qs| :: PcOk(qs[r], s, r, s.pcs[r]))
  }

  /** What a step of request r may do to a cell. */
  predicate CellStep(old_: Cell, new_: Cell, r: nat, now: nat) {
    && new_.createdAt == old_.createdAt
    && (old_.once.Done? ==> new_ == old_)
    && (old_.once.Running? && old_.once.owner != r ==> new_ == old_)
    && (old_.err.Some? ==> new_.err == old_.err)
    && (new_.failedAt == old_.failedAt || (old_.failedAt.None? && new_.failedAt == Some(now)))
  }

  /** What a step of request r may do to the shared state. */
  predicate SharedStep(s: State, s': State, r: nat) {
    && s'.now == s.now
    && |s.cells| <= |s'.cells| <= |s.cells| + 1
    && (forall c | 0 <= c < |s.cells| :: CellStep(s.cells[c], s'.cells[c], r, s.now))
    && (|s'.cells| > |s.cells| ==> s'.cells[|s.cells|] == NewCell(s.now))
    && (s'.slot == s.slot || s'.slot.None? || s'.slot == Some(|s.cells|))
    && (s'.slot == Some(|s.cells|) ==> |s'.cells| > |s.cells|)
  }

  lemma LocalStepOk(q: Request, cell: Cell, pc: Pc, r: nat, now: nat, outcome: Outcome)
    requires !TouchesMap(pc) && PcCell(pc) > 0
    requires CellOk(now, cell) && CellKnown(q, cell, r, now, pc)
    requires cell.once == Running(r) ==> Inside(pc, PcCell(pc) - 1)
    ensures var (cell', pc') := LocalStep(q, cell, pc, r, now, outcome);
      && CellOk(now, cell')
      && CellStep(cell, cell', r, now)
      && PcCell(pc') in {0, PcCell(pc)}
      && (PcCell(pc') > 0 ==> CellKnown(q, cell', r, now, pc'))
      && (cell'.once == Running(r) ==> Inside(pc', PcCell(pc) - 1))
      && (cell'.once.Running? && cell'.once.owner != r ==> cell.once == cell'.once)
      && !pc'.Deleted? && !pc'.Recompiling? && (pc'.Stale? ==> pc'.since <= now)
      && (pc'.Returned? && !pc.Returned? ==>
            && pc'.since <= now
            && (pc'.held.Private? ==> pc'.err.None? && (pc'.held.st.Stmt? ==> pc'.held.st.vars == q.vmap))
            && (pc'.held.Nothing? ==> pc'.err.Some?)
            && (!pc'.held.Shared? ==> pc.Recompiling? && pc'.evicted == Some(pc.cell)))
  {
  }

  /** Writing one cell back is a shared step. */
  lemma CellWriteIsSharedStep(qs: seq<Request>, s: State, s': State, r: nat, c: CellId, cell: Cell, pc: Pc)
    requires Inv(qs, s) && r < |qs| && c < |s.cells|
    requires CellStep(s.cells[c], cell, r, s.now) && CellOk(s.now, cell) && PcCell(pc) <= c + 1
    requires s' == Goto(s.(cells := s.cells[c := cell]), r, pc)
    ensures SharedStep(s, s', r) && CellsExist(s')
    ensures forall d | 0 <= d < |s'.cells| :: CellOk(s'.now, s'.cells[d])
  {
  }

  lemma MapStepIsSharedStep(qs: seq<Request>, s: State, r: nat, outcome: Outcome)
    requires Inv(qs, s) && r < |qs| && TouchesMap(s.pcs[r])
    ensures var s' := Act(qs, s, r, outcome);
      && SharedStep(s, s', r) && CellsExist(s')
      && (forall c | 0 <= c < |s'.cells| :: CellOk(s'.now, s'.cells[c]))
  {
    assert PcCell(s.pcs[r]) <= |s.cells|;
  }

  lemma ActIsSharedStep(qs: seq<Request>, s: State, r: nat, outcome: Outcome)
    requires Inv(qs, s) && r < |qs|
    ensures var s' := Act(qs, s, r, outcome);
      && SharedStep(s, s', r) && CellsExist(s')
      && (forall c | 0 <= c < |s'.cells| :: CellOk(s'.now, s'.cells[c]))
  {
    var pc, s' := s.pcs[r], Act(qs, s, r, outcome);
    var k := PcCell(pc);
    assert k <= |s.cells|;
    if TouchesMap(pc) {
      MapStepIsSharedStep(qs, s, r, outcome);
    } else if k > 0 {
      assert PcOk(qs[r], s, r, pc) && CellOk(s.now, s.cells[k - 1]) && OwnerInside(s, k - 1);
      LocalStepOk(qs[r], s.cells[k - 1], pc, r, s.now, outcome);
      var (cell, pc') := LocalStep(qs[r], s.cells[k - 1], pc, r, s.now, outcome);
      CellWriteIsSharedStep(qs, s, s', r, k - 1, cell, pc');
    }
  }

  /** A step changes where request r is, and where no other request is. */
  lemma ActMovesOne(qs: seq<Request>, s: State, r: nat, outcome: Outcome)
    requires Inv(qs, s) && r < |qs|
    ensures |Act(qs, s, r, outcome).pcs| == |s.pcs|
    ensures forall i | 0 <= i < |qs| && i != r :: Act(qs, s, r, outcome).pcs[i] == s.pcs[i]
  {
  }

  lemma OwnStepKeepsOwner(qs: seq<Request>, s: State, r: nat, outcome: Outcome, c: CellId)
    requires Inv(qs, s) && r < |qs| && c < |s.cells| && !TouchesMap(s.pcs[r]) && PcCell(s.pcs[r]) == c + 1
    requires var s' := Act(qs, s, r, outcome);
      |s'.pcs| == |s.pcs| && forall i | 0 <= i < |qs| && i != r :: s'.pcs[i] == s.pcs[i]
    ensures c < |Act(qs, s, r, outcome).cells| && OwnerInside(Act(qs, s, r, outcome), c)
  {
    var pc := s.pcs[r];
    assert OwnerInside(s, c) && PcOk(qs[r], s, r, pc) && CellOk(s.now, s.cells[c]);
    LocalStepOk(qs[r], s.cells[c], pc, r, s.now, outcome);
  }

  lemma ActKeepsOwners(qs: seq<Request>, s: State, r: nat, outcome: Outcome, c: CellId)
    requires Inv(qs, s) && r < |qs| && c < |Act(qs, s, r, outcome).cells|
    ensures |Act(qs, s, r, outcome).pcs| == |qs| && OwnerInside(Act(qs, s, r, outcome), c)
  {
    var pc, s' := s.pcs[r], Act(qs, s, r, outcome);
    var k := PcCell(pc);
    assert k <= |s.cells|;
    ActMovesOne(qs, s, r, outcome);
    if c < |s.cells| {
      assert OwnerInside(s, c);
      if !TouchesMap(pc) && k == c + 1 {
        OwnStepKeepsOwner(qs, s, r, outcome, c);
      } else {
        assert s'.cells[c] == s.cells[c];
        assert !Inside(pc, c);
      }
    }
  }

  /** A request that does not move keeps what it relies on. */
  lemma OthersUndisturbed(q: Request, s: State, s': State, r: nat, i: nat, pc: Pc)
    requires CellsExist(s) && (forall c | 0 <= c < |s.cells| :: CellOk(s.now, s.cells[c]))
    requires SharedStep(s, s', r) && i != r
    requires PcCell(pc) <= |s.cells| && PcOk(q, s, i, pc)
    ensures PcOk(q, s', i, pc)
  {
    var k := PcCell(pc);
    if k > 0 {
      assert CellStep(s.cells[k - 1], s'.cells[k - 1], r, s.now);
    }
  }

  lemma MoverKeepsPcAtMap(qs: seq<Request>, s: State, r: nat, outcome: Outcome)
    requires Inv(qs, s) && r < |qs| && TouchesMap(s.pcs[r])
    ensures var s' := Act(qs, s, r, outcome);
      && |s'.pcs| == |qs|
      && PcCell(s'.pcs[r]) <= |s'.cells|
      && PcOk(qs[r], s', r, s'.pcs[r])
  {
    var pc := s.pcs[r];
    assert PcOk(qs[r], s, r, pc);
    assert PcCell(pc) <= |s.cells|;
    if s.slot.Some? {
      assert CellOk(s.now, s.cells[s.slot.value]);
    }
  }

  lemma MoverKeepsPcAtCell(qs: seq<Request>, s: State, r: nat, outcome: Outcome)
    requires Inv(qs, s) && r < |qs| && !TouchesMap(s.pcs[r])
    ensures var s' := Act(qs, s, r, outcome);
      && |s'.pcs| == |qs|
      && PcCell(s'.pcs[r]) <= |s'.cells|
      && PcOk(qs[r], s', r, s'.pcs[r])
  {
    var pc := s.pcs[r];
    assert PcOk(qs[r], s, r, pc);
    var k := PcCell(pc);
    assert k <= |s.cells|;
    if k > 0 {
      assert CellOk(s.now, s.cells[k - 1]);
      assert OwnerInside(s, k - 1);
      LocalStepOk(qs[r], s.cells[k - 1], pc, r, s.now, outcome);
      var (cell', pc') := LocalStep(qs[r], s.cells[k - 1], pc, r, s.now, outcome);
      var s' := Act(qs, s, r, outcome);
      assert s'.pcs[r] == pc' && s'.cells[k - 1] == cell' && s'.slot == s.slot && s'.now == s.now;
    }
  }

  lemma ActKeepsInv(qs: seq<Request>, s: State, r: nat, outcome: Outcome)
    requires Inv(qs, s) && r < |qs|
    ensures Inv(qs, Act(qs, s, r, outcome))
  {
    var s' := Act(qs, s, r, outcome);
    ActIsSharedStep(qs, s, r, outcome);
    ActMovesOne(qs, s, r, outcome);
    forall c | 0 <= c < |s'.cells| ensures OwnerInside(s', c) {
      ActKeepsOwners(qs, s, r, outcome, c);
    }
    forall i | 0 <= i < |qs| ensures PcOk(qs[i], s', i, s'.pcs[i]) {
      if i == r {
        if TouchesMap(s.pcs[r]) { MoverKeepsPcAtMap(qs, s, r, outcome); } else { MoverKeepsPcAtCell(qs, s, r, outcome); }
      } else {
        OthersUndisturbed(qs[i], s, s', r, i, s.pcs[i]);
      }
    }
  }

  lemma TickKeepsInv(qs: seq<Request>, s: State)
    requires Inv(qs, s)
    ensures Inv(qs, s.(now := s.now + 1))
  {
    var s' := s.(now := s.now + 1);
    forall c | 0 <= c < |s'.cells| ensures CellOk(s'.now, s'.cells[c]) && OwnerInside(s', c) {
      assert CellOk(s.now, s.cells[c]) && OwnerInside(s, c);
    }
    forall i | 0 <= i < |qs| ensures PcOk(qs[i], s', i, s'.pcs[i]) {
      assert PcOk(qs[i], s, i, s.pcs[i]);
    }
  }

  // ---- What holds in every interleaving ----

  lemma InitInv(qs: seq<Request>)
    ensures Inv(qs, Init(qs))
  {
  }

  /** The state after any run of all requests, from an empty map. */
  function AllRequests(qs: seq<Request>, es: seq<Event>): (s: State)
    ensures Inv(qs, s)
  {
    InitInv(qs);
    Run(qs, Init(qs), es)
  }

  /** Every cell a run creates is compiled at most once, and exactly once when it is finished. */
  lemma EachCellCompiledOnce(qs: seq<Request>, es: seq<Event>, c: CellId)
    requires c < |AllRequests(qs, es).cells|
    ensures var cell := AllRequests(qs, es).cells[c];
      cell.compiles <= 1 && (cell.once.Done? ==> cell.compiles == 1)
  {
    var s := AllRequests(qs, es);
    assert CellOk(s.now, s.cells[c]);
  }

  /** A finished cell never changes again, whatever is run after it. */
  lemma {:induction false} FinishedCellIsFrozen(qs: seq<Request>, s: State, es: seq<Event>, c: CellId)
    requires Inv(qs, s) && c < |s.cells| && s.cells[c].once.Done?
    ensures c < |Run(qs, s, es).cells| && Run(qs, s, es).cells[c] == s.cells[c]
    decreases |es|
  {
    if es != [] {
      if es[0].Act? && es[0].r < |qs| {
        ActIsSharedStep(qs, s, es[0].r, es[0].outcome);
      }
      FinishedCellIsFrozen(qs, Apply(qs, s, es[0]), es[1..], c);
    }
  }

  /**
   An error that a request returns is the one error of a cell, recorded less
   than the time to live before the request's own freshness check, or after it;
   or the request compiled for itself and recorded the error at its end.
   */
  lemma ReturnedErrorsAreFresh(qs: seq<Request>, es: seq<Event>, r: nat)
    requires r < |qs|
    requires AllRequests(qs, es).pcs[r].Returned? && AllRequests(qs, es).pcs[r].err.Some?
    ensures var s := AllRequests(qs, es);
      var pc := s.pcs[r];
      && !pc.held.Private?
      && (pc.held.Shared? ==>
            && pc.held.cell < |s.cells|
            && s.cells[pc.held.cell].err == pc.err
            && s.cells[pc.held.cell].failedAt.Some?
            && pc.since < s.cells[pc.held.cell].failedAt.value + NEG_CACHE_TTL)
      && (pc.held.Nothing? ==> pc.evicted.Some? && pc.since <= s.now)
  {
    var s := AllRequests(qs, es);
    assert PcOk(qs[r], s, r, s.pcs[r]);
    assert PcCell(s.pcs[r]) <= |s.cells|;
  }

  /**
   A request that succeeds holds a finished shared statement that does not
   depend on variables, or a private one compiled from its own variables; in
   the second case the shared one is out of the map for good.
   */
  lemma SuccessHoldsOwnShape(qs: seq<Request>, es: seq<Event>, r: nat)
    requires r < |qs|
    requires AllRequests(qs, es).pcs[r].Returned? && AllRequests(qs, es).pcs[r].err.None?
    ensures var s := AllRequests(qs, es);
      match s.pcs[r].held
      case Shared(c) => c < |s.cells| && s.cells[c].once.Done? && s.cells[c].err.None? && (s.cells[c].st.Stmt? ==> !s.cells[c].st.perRequest)
      case Private(st) =>
        (st.Stmt? ==> st.vars == qs[r].vmap) && s.pcs[r].evicted.Some? && s.slot != s.pcs[r].evicted
      case Nothing => false
  {
    var s := AllRequests(qs, es);
    assert PcOk(qs[r], s, r, s.pcs[r]);
    assert PcCell(s.pcs[r]) <= |s.cells|;
  }

  /** The request has met a finished per-request statement. */
  predicate MetPerRequest(s: State, pc: Pc) {
    match pc
    case AfterOnce(c, _) => c < |s.cells| && Rejected(s.cells[c])
    case Evicting(_) => true
    case Recompiling(_) => true
    case Returned(_, held, _, _) => !held.Shared?
    case _ => false
  }

  lemma StepKeepsMet(qs: seq<Request>, s: State, e: Event, r: nat)
    requires Inv(qs, s) && r < |qs| && MetPerRequest(s, s.pcs[r])
    ensures MetPerRequest(Apply(qs, s, e), Apply(qs, s, e).pcs[r])
  {
    if e.Act? && e.r < |qs| {
      ActIsSharedStep(qs, s, e.r, e.outcome);
      ActMovesOne(qs, s, e.r, e.outcome);
    }
  }

  /** A request that met a per-request statement never ends with the shared cell. */
  lemma {:induction false} MetPerRequestEndsPrivate(qs: seq<Request>, s: State, es: seq<Event>, r: nat)
    requires Inv(qs, s) && r < |qs| && MetPerRequest(s, s.pcs[r])
    ensures Run(qs, s, es).pcs[r].Returned? ==> !Run(qs, s, es).pcs[r].held.Shared?
    decreases |es|
  {
    if es != [] {
      StepKeepsMet(qs, s, es[0], r);
      MetPerRequestEndsPrivate(qs, Apply(qs, s, es[0]), es[1..], r);
    }
  }

  // ---- Progress ----

  /** How many steps a request can still take. */
  function Rank(pc: Pc): nat {
    match pc
    case Start => 13
    case Loaded(_, _, _) => 12
    case SawError(_) => 11
    case Fresh(_, _) => 1
    case Stale(_) => 10
    case Deleted(_) => 9
    case AtOnce(_, _) => 8
    case Compiling(_, _) => 7
    case Writing(_, _, _) => 6
    case Stamping(_, _) => 5
    case Leaving(_, _) => 4
    case AfterOnce(_, _) => 3
    case Evicting(_) => 2
    case Recompiling(_) => 1
    case Returned(_, _, _, _) => 0
  }

  /** A request waits only for a compilation that another request is carrying out. */
  predicate Waiting(s: State, r: nat)
    requires r < |s.pcs| && CellsExist(s)
  {
    s.pcs[r].AtOnce? && PcCell(s.pcs[r]) <= |s.cells| && s.cells[s.pcs[r].cell].once.Running?
  }

  lemma StepLowersRank(qs: seq<Request>, s: State, r: nat, outcome: Outcome)
    requires Inv(qs, s) && r < |qs|
    ensures var s' := Act(qs, s, r, outcome);
      |s'.pcs| == |qs| && if s.pcs[r].Returned? || Waiting(s, r) then s' == s else Rank(s'.pcs[r]) < Rank(s.pcs[r])
  {
    assert PcCell(s.pcs[r]) <= |s.cells|;
  }

  /** While some request has not returned, some request can move: the protocol cannot deadlock. */
  lemma SomeoneCanMove(qs: seq<Request>, s: State, r: nat) returns (mover: nat)
    requires Inv(qs, s) && r < |qs| && !s.pcs[r].Returned?
    ensures mover < |qs| && !s.pcs[mover].Returned? && !Waiting(s, mover)
  {
    if Waiting(s, r) {
      var c := s.pcs[r].cell;
      assert PcCell(s.pcs[r]) <= |s.cells|;
      assert OwnerInside(s, c);
      mover := s.cells[c].once.owner;
    } else {
      mover := r;
    }
  }

  function TotalRank(pcs: seq<Pc>): nat {
    if pcs == [] then 0 else Rank(pcs[0]) + TotalRank(pcs[1..])
  }

  lemma {:induction false} TotalRankOfUpdate(pcs: seq<Pc>, r: nat, pc: Pc)
    requires r < |pcs|
    ensures TotalRank(pcs[r := pc]) == TotalRank(pcs) - Rank(pcs[r]) + Rank(pc)
  {
    if r == 0 {
      assert pcs[r := pc][1..] == pcs[1..];
    } else {
      assert pcs[r := pc][1..] == pcs[1..][r - 1 := pc];
      TotalRankOfUpdate(pcs[1..], r - 1, pc);
    }
  }

  lemma {:induction false} TotalRankOfStart(n: nat)
    ensures TotalRank(seq(n, i => Start)) == 13 * n
  {
    if n > 0 {
      assert seq(n, i => Start)[1..] == seq(n - 1, i => Start);
      TotalRankOfStart(n - 1);
    }
  }

  /** The number of events of a run that move a request. */
  function Moves(qs: seq<Request>, s: State, es: seq<Event>): nat
    requires Inv(qs, s)
    decreases |es|
  {
    if es == [] then 0
    else
      var s' := Apply(qs, s, es[0]);
      (if s'.pcs != s.pcs then 1 else 0) + Moves(qs, s', es[1..])
  }

  lemma {:induction false} MovesBounded(qs: seq<Request>, s: State, es: seq<Event>)
    requires Inv(qs, s)
    ensures Moves(qs, s, es) + TotalRank(Run(qs, s, es).pcs) <= TotalRank(s.pcs)
    decreases |es|
  {
    if es != [] {
      var s' := Apply(qs, s, es[0]);
      if es[0].Act? && es[0].r < |qs| {
        var r := es[0].r;
        StepLowersRank(qs, s, r, es[0].outcome);
        ActMovesOne(qs, s, r, es[0].outcome);
        assert s'.pcs == s.pcs[r := s'.pcs[r]];
        TotalRankOfUpdate(s.pcs, r, s'.pcs[r]);
      }
      MovesBounded(qs, s', es[1..]);
    }
  }

  /** No interleaving moves the requests more than thirteen times each, so every fair run ends. */
  lemma EveryRunEnds(qs: seq<Request>, es: seq<Event>)
    ensures Inv(qs, Init(qs)) && Moves(qs, Init(qs), es) <= 13 * |qs|
  {
    InitInv(qs);
    MovesBounded(qs, Init(qs), es);
    TotalRankOfStart(|qs|);
    assert Init(qs).pcs == seq(|qs|, i => Start);
  }
}
