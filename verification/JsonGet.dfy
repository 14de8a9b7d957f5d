/**
 `Get`: one pass over the bytes that reports the requested key/value pairs,
 jumping back into every object and list of objects it has reported.
 */
module JsonGet {
  import opened Common
  import opened Json
  import opened JsonBytes

  /** A reported pair: raw key bytes and exact value bytes. */
  datatype Field = Field(key: string, value: string)

  /** The state of a scan. `floor` is the last position the index jumped back to. */
  datatype Scan = Scan(i: nat, m: Control, s: nat, k: string, res: seq<Field>, floor: int)

  const START := Scan(0, IDLE, 0, "", [], -1)

  predicate ScanOk(b: string, x: Scan) {
    && x.i <= |b|
    && -1 <= x.floor < x.i
    && (match x.m.phase
        case Key => true
        case KeyClose => x.floor < x.s < x.i
        case Colon => 1 <= x.i
        case Value => 1 <= x.i
        case _ => x.floor < x.s < x.i && 1 <= x.s)
  }

  predicate Space(c: char) {
    c == ' ' || c == '\t' || c == '\n'
  }

  /** The first byte from j on that is no space opens an object, or there is none. */
  predicate Enters(b: string, j: nat)
    decreases |b| - j
  {
    if j >= |b| then true else if Space(b[j]) then Enters(b, j + 1) else b[j] == '{'
  }

  function Report(b: string, keys: seq<string>, x: Scan, e: nat): seq<Field>
    requires x.s <= e + 1 <= |b|
  {
    if x.k in keys then x.res + [Field(x.k, b[x.s..e + 1])] else x.res
  }

  /** The value that just ended is scanned again from inside. */
  predicate JumpsBack(b: string, x: Scan) {
    x.m.phase == ObjClose || (x.m.phase == ListClose && Enters(b, x.s + 1))
  }

  /** One iteration of the scan. */
  function Step(b: string, keys: seq<string>, x: Scan): (y: Scan)
    requires ScanOk(b, x) && x.i < |b|
    ensures ScanOk(b, y)
    ensures y.floor > x.floor || (y.floor == x.floor && y.i > x.i)
  {
    var (m, a) := Next(x.m, b[x.i], Before(b, x.i));
    match a
    case Quiet => x.(i := x.i + 1, m := m)
    case BeginKey => x.(i := x.i + 1, m := m, s := x.i)
    case EndKey => x.(i := x.i + 1, m := m, k := b[x.s + 1..x.i])
    case BeginValue => x.(i := x.i + 1, m := m, s := x.i)
    case EndBefore => x.(i := x.i + 1, m := m, res := Report(b, keys, x, x.i - 1))
    case EndValue =>
      var y := x.(m := m, res := Report(b, keys, x, x.i));
      if JumpsBack(b, x) then y.(i := x.s + 1, floor := x.s) else y.(i := x.i + 1)
  }

  /** The whole scan. Each jump back is to a strictly later place than the one before, so it ends. */
  function Run(b: string, keys: seq<string>, x: Scan): seq<Field>
    requires ScanOk(b, x)
    decreases |b| - x.floor, |b| - x.i
  {
    if x.i >= |b| then x.res else Run(b, keys, Step(b, keys, x))
  }

  /**
   Where the index is after a value: back at its first byte when it is an object
   or a list that opens with one, at its last byte otherwise.
   */
  method Resume(b: string, x: Phase, s: nat, e: nat) returns (i: nat)
    ensures i == if x == ObjClose || (x == ListClose && Enters(b, s + 1)) then s else e
  {
    if !Nesting(x) { return e; }
    i := s;
    if x == ListClose {
      var j := i + 1;
      while j < |b|
        invariant Enters(b, s + 1) == Enters(b, j)
      {
        if Space(b[j]) {
          j := j + 1;
          continue;
        }
        if b[j] != '{' {
          i := e;
        }
        return;
      }
    }
  }

  /** `run` gives the result of the scan from every state. */
  ghost predicate IsRun(b: string, keys: seq<string>, run: Scan -> seq<Field>) {
    forall x {:trigger Step(b, keys, x)} | ScanOk(b, x) && x.i < |b| :: run(x) == run(Step(b, keys, x))
  }

  lemma TheRun(b: string, keys: seq<string>) returns (run: Scan -> seq<Field>)
    ensures IsRun(b, keys, run) && run(START) == Run(b, keys, START)
    ensures forall x {:trigger run(x)} | ScanOk(b, x) && x.i >= |b| :: run(x) == x.res
  {
    run := x => if ScanOk(b, x) then Run(b, keys, x) else [];
  }

  /** A step whose meaning is known. */
  lemma RunStep(b: string, keys: seq<string>, run: Scan -> seq<Field>, x: Scan, m: Control, a: Action) returns (y: Scan)
    requires IsRun(b, keys, run) && ScanOk(b, x) && x.i < |b|
    requires Next(x.m, b[x.i], Before(b, x.i)) == (m, a)
    ensures ScanOk(b, y) && run(x) == run(y)
    ensures match a
      case Quiet => y == x.(i := x.i + 1, m := m)
      case BeginKey => y == x.(i := x.i + 1, m := m, s := x.i)
      case EndKey => x.s < x.i && y == x.(i := x.i + 1, m := m, k := b[x.s + 1..x.i])
      case BeginValue => y == x.(i := x.i + 1, m := m, s := x.i)
      case EndBefore => x.s < x.i && y == x.(i := x.i + 1, m := m, res := Report(b, keys, x, x.i - 1))
      case EndValue =>
        var z := x.(m := m, res := Report(b, keys, x, x.i));
        x.floor < x.s < x.i && y == if JumpsBack(b, x) then z.(i := x.s + 1, floor := x.s) else z.(i := x.i + 1)
  {
    y := Step(b, keys, x);
  }

  method Get(b: string, keys: seq<string>) returns (res: seq<Field>)
    ensures res == Run(b, keys, START)
  {
    res := [];
    var s: nat := 0;
    var k := "";
    var m := IDLE;
    ghost var floor: int := -1;
    var i: nat := 0;
    ghost var run := TheRun(b, keys);
    while i < |b|
      invariant ScanOk(b, Scan(i, m, s, k, res, floor))
      invariant run(Scan(i, m, s, k, res, floor)) == run(START)
      decreases |b| - floor, |b| - i
    {
      ghost var x := Scan(i, m, s, k, res, floor);
      var (m', a) := Next(m, b[i], Before(b, i));
      ghost var y := RunStep(b, keys, run, x, m', a);
      assert run(y) == run(START);
      if a.BeginKey? || a.BeginValue? {
        s := i;
      } else if a.EndKey? {
        k := b[s + 1..i];
      } else if a.EndBefore? || a.EndValue? {
        var e := if a.EndValue? then i else i - 1;
        if k in keys {
          res := res + [Field(k, b[s..e + 1])];
        }
        assert res == Report(b, keys, x, e);
        if a.EndValue? {
          i := Resume(b, m.phase, s, e);
          if i == s {
            floor := s;
          }
        }
      }
      m := m';
      i := i + 1;
      assert Scan(i, m, s, k, res, floor) == y;
    }
  }
}
