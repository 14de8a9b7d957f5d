/**
 The worklist that makes one select per composite field. A field id and the id
 of its parent's select travel together in one 32-bit stack entry.
 */
module SelectWorklist {
  import opened Common
  import opened GraphSyntax
  import opened FieldForest

  // ---- Packing ----

  const HALF: int := 0x1_0000
  const MAX_SELECTORS: nat := 100

  /** The bitwise or of two numbers of k bits. */
  function Or(a: nat, b: nat, k: nat): nat {
    if k == 0 then 0 else (if a % 2 == 1 || b % 2 == 1 then 1 else 0) + 2 * Or(a / 2, b / 2, k - 1)
  }

  function Pow2(k: nat): nat {
    if k == 0 then 1 else 2 * Pow2(k - 1)
  }

  lemma {:induction false} OrZero(b: nat, k: nat)
    requires b < Pow2(k)
    ensures Or(0, b, k) == b
  {
    if k > 0 {
      OrZero(b / 2, k - 1);
    }
  }

  lemma {:induction false} OrBounded(a: nat, b: nat, k: nat)
    ensures Or(a, b, k) < Pow2(k)
  {
    if k > 0 {
      OrBounded(a / 2, b / 2, k - 1);
    }
  }

  lemma HalfIsPow()
    ensures Pow2(16) == HALF
  {
    assert Pow2(4) == 16;
    assert Pow2(8) == 256;
    assert Pow2(12) == 4096;
  }

  /** The upper half of a select id, all ones for -1. */
  function Upper(select: int): nat {
    select % HALF
  }

  /** The field id or-ed with the select id in the upper half; the field id's own upper half is in the way. */
  function Pack(field: nat, select: int): nat {
    field % HALF + HALF * Or(field / HALF % HALF, Upper(select), 16)
  }

  function FieldOf(val: nat): nat {
    val % HALF
  }

  function SelectOf(val: nat): nat {
    val / HALF % HALF
  }

  /** Decoding is exact for field ids of 16 bits. */
  lemma PackDecodes(field: nat, select: int)
    requires field < HALF && -1 <= select < HALF
    ensures FieldOf(Pack(field, select)) == field
    ensures select >= 0 ==> SelectOf(Pack(field, select)) == select
  {
    SmallPack(field, select);
    var high := Upper(select);
    Halves(field, high);
    SmallField(high);
  }

  lemma SmallPack(field: nat, select: int)
    requires field < HALF
    ensures Pack(field, select) == field + HALF * Upper(select) && Upper(select) < HALF
  {
    HalfIsPow();
    OrZero(Upper(select), 16);
    SmallField(field);
  }

  lemma SmallField(field: nat)
    requires field < HALF
    ensures field % HALF == field && field / HALF % HALF == 0
  {
  }

  lemma Halves(low: nat, high: nat)
    requires low < HALF
    ensures (low + HALF * high) % HALF == low && (low + HALF * high) / HALF == high
  {
  }

  /** And only for those: a larger field id comes back as another field's. */
  lemma PackDecodesOnlySmall(field: nat, select: int)
    ensures FieldOf(Pack(field, select)) == field <==> field < HALF
  {
    var high := Or(field / HALF % HALF, Upper(select), 16);
    assert (field % HALF + HALF * high) % HALF == field % HALF;
  }

  // ---- Which fields get a select ----

  /** What compiling a field's select comes to, for a schema that is not part of the model. */
  datatype Verdict = Rejected | Remote | Table | Passthrough

  predicate IsKeyword(f: Field) {
    f.ftype == Keyword
  }

  /** A select with verdict v puts its child c on the stack. */
  predicate Pushes(v: Verdict, c: Field) {
    c.children != [] && (v == Table || (v == Passthrough && !IsKeyword(c)))
  }

  /** Composite fields that are reached from the roots. */
  ghost predicate Reached(f: seq<Field>, verdict: int -> Verdict, i: int)
    requires Ordered(f) && 0 <= i < |f|
    decreases i
  {
    && !IsKeyword(f[i])
    && (f[i].parent == -1 ||
        (Reached(f, verdict, f[i].parent) && Pushes(verdict(f[i].parent), f[i])))
  }

  ghost function ReachedSet(f: seq<Field>, verdict: int -> Verdict): set<int>
    requires Ordered(f)
  {
    set i | 0 <= i < |f| && Reached(f, verdict, i)
  }

  // ---- Selects ----

  /** One select: its id, its parent's id, the field it was made for and its children's ids. */
  datatype Select = Select(id: int, parent: int, field: int, children: seq<int>)

  /** The selects with the given parent, in ascending order. */
  function SelectKids(s: seq<Select>, p: int): seq<int> {
    if s == [] then []
    else
      var last := |s| - 1;
      SelectKids(s[..last], p) + if s[last].parent == p then [last] else []
  }

  ghost predicate SelectTree(f: seq<Field>, s: seq<Select>) {
    forall k {:trigger s[k]} :: 0 <= k < |s| ==>
      && s[k].id == k && -1 <= s[k].parent < k
      && s[k].children == SelectKids(s, k)
      && 0 <= s[k].field < |f|
      && (s[k].parent == -1 <==> f[s[k].field].parent == -1)
      && (s[k].parent >= 0 ==> s[s[k].parent].field == f[s[k].field].parent)
  }

  ghost predicate OnePerField(s: seq<Select>) {
    forall j, k {:trigger s[j], s[k]} :: 0 <= j < k < |s| ==> s[j].field != s[k].field
  }

  ghost function Done(s: seq<Select>): set<int> {
    set k | 0 <= k < |s| :: s[k].field
  }

  /** s with a select for the field appended and, unless it is a root, noted by its parent. */
  function AddSelect(s: seq<Select>, parent: int, field: int): (r: seq<Select>)
    requires -1 <= parent < |s|
    ensures |r| == |s| + 1
  {
    var id := |s|;
    (if parent == -1 then s else s[parent := s[parent].(children := s[parent].children + [id])])
      + [Select(id, parent, field, [])]
  }

  lemma {:induction false} SelectKidsSame(s: seq<Select>, t: seq<Select>, p: int)
    requires |s| == |t| && forall k {:trigger s[k]} :: 0 <= k < |s| ==> s[k].parent == t[k].parent
    ensures SelectKids(s, p) == SelectKids(t, p)
  {
    if s != [] {
      SelectKidsSame(s[..|s| - 1], t[..|t| - 1], p);
    }
  }

  lemma AddSelectKids(s: seq<Select>, parent: int, field: int, p: int)
    requires -1 <= parent < |s|
    ensures SelectKids(AddSelect(s, parent, field), p) == SelectKids(s, p) + if parent == p then [|s|] else []
  {
    var r := AddSelect(s, parent, field);
    SelectKidsSame(r[..|s|], s, p);
  }

  lemma {:induction false} NoSelectKids(s: seq<Select>, p: int)
    requires forall k {:trigger s[k]} :: 0 <= k < |s| ==> s[k].parent < p
    ensures SelectKids(s, p) == []
  {
    if s != [] {
      NoSelectKids(s[..|s| - 1], p);
    }
  }

  /** Adding a select for a new field keeps the selects a tree. */
  lemma AddKeepsTree(f: seq<Field>, s: seq<Select>, parent: int, field: int)
    requires SelectTree(f, s) && OnePerField(s) && field !in Done(s) && 0 <= field < |f|
    requires -1 <= parent < |s| && (parent == -1 <==> f[field].parent == -1)
    requires parent >= 0 ==> s[parent].field == f[field].parent
    ensures var r := AddSelect(s, parent, field);
      SelectTree(f, r) && OnePerField(r) && Done(r) == Done(s) + {field}
  {
    DoneAfter(s, parent, field);
    AddKeepsKids(f, s, parent, field);
    AddStaysDistinct(s, parent, field);
  }

  lemma AddKeepsKids(f: seq<Field>, s: seq<Select>, parent: int, field: int)
    requires SelectTree(f, s) && 0 <= field < |f|
    requires -1 <= parent < |s| && (parent == -1 <==> f[field].parent == -1)
    requires parent >= 0 ==> s[parent].field == f[field].parent
    ensures SelectTree(f, AddSelect(s, parent, field))
  {
    var r := AddSelect(s, parent, field);
    forall k {:trigger r[k]} | 0 <= k < |r|
      ensures r[k].children == SelectKids(r, k) && Placed(f, r, k)
    {
      AddSelectKids(s, parent, field, k);
      if k == |s| {
        NoSelectKids(s, k);
      } else {
        assert s[k].children == SelectKids(s, k) && Placed(f, s, k);
      }
    }
  }

  /** Select k stands at its position, below the select of its field's parent. */
  ghost predicate Placed(f: seq<Field>, s: seq<Select>, k: int)
    requires 0 <= k < |s|
  {
    && s[k].id == k && -1 <= s[k].parent < k
    && 0 <= s[k].field < |f|
    && (s[k].parent == -1 <==> f[s[k].field].parent == -1)
    && (s[k].parent >= 0 ==> s[s[k].parent].field == f[s[k].field].parent)
  }

  lemma AddStaysDistinct(s: seq<Select>, parent: int, field: int)
    requires OnePerField(s) && field !in Done(s) && -1 <= parent < |s|
    ensures OnePerField(AddSelect(s, parent, field))
  {
    var r := AddSelect(s, parent, field);
    forall k | 0 <= k < |s| ensures r[k].field == s[k].field {
    }
    forall j, k | 0 <= j < k < |r| ensures r[j].field != r[k].field {
      assert s[j].field in Done(s);
    }
  }

  lemma DoneAfter(s: seq<Select>, parent: int, field: int)
    requires -1 <= parent < |s|
    ensures Done(AddSelect(s, parent, field)) == Done(s) + {field}
  {
    var r := AddSelect(s, parent, field);
    assert r[|s|].field == field;
    forall x | x in Done(r) ensures x in Done(s) + {field} {
      var k :| 0 <= k < |r| && r[k].field == x;
      assert k < |s| ==> s[k].field == x;
    }
    forall x | x in Done(s) ensures x in Done(r) {
      var k :| 0 <= k < |s| && s[k].field == x;
      assert r[k].field == x;
    }
  }

  // ---- The worklist ----

  /** A field waiting for its select, with the id of its parent's select or -1. */
  type Entry = (int, int)

  ghost function Queued(todo: seq<Entry>): set<int> {
    set k | 0 <= k < |todo| :: todo[k].0
  }

  /** Field i belongs on the stack as soon as the fields in done have their selects. */
  ghost predicate Called(f: seq<Field>, verdict: int -> Verdict, done: set<int>, i: int)
    requires Ordered(f) && 0 <= i < |f|
  {
    f[i].parent == -1 || (f[i].parent in done && Pushes(verdict(f[i].parent), f[i]))
  }

  ghost predicate EntryOk(f: seq<Field>, s: seq<Select>, seen: set<int>, e: Entry) {
    && 0 <= e.0 < |f| && e.0 !in seen && -1 <= e.1 < |s|
    && (e.1 == -1 <==> f[e.0].parent == -1)
    && (e.1 >= 0 ==> s[e.1].field == f[e.0].parent)
  }

  ghost predicate Distinct(todo: seq<Entry>) {
    forall j, k {:trigger todo[j], todo[k]} :: 0 <= j < k < |todo| ==> todo[j].0 != todo[k].0
  }

  /** seen are the fields that came off the stack, todo those still on it. */
  ghost predicate Work(f: seq<Field>, verdict: int -> Verdict, s: seq<Select>, todo: seq<Entry>, seen: set<int>)
    requires Ordered(f)
  {
    && SelectTree(f, s) && OnePerField(s) && Distinct(todo)
    && (forall k {:trigger todo[k]} :: 0 <= k < |todo| ==> EntryOk(f, s, seen, todo[k]))
    && (forall i {:trigger i in seen} :: i in seen ==> 0 <= i < |f|)
    && (forall i {:trigger Called(f, verdict, Done(s), i)} :: 0 <= i < |f| ==>
          (i in seen || i in Queued(todo) <==> Called(f, verdict, Done(s), i)))
    && (forall i {:trigger i in Done(s)} {:trigger i in seen} :: i in Done(s) <==> i in seen && !IsKeyword(f[i]))
  }

  lemma QueuedSplit(todo: seq<Entry>)
    requires todo != [] && Distinct(todo)
    ensures var rest := todo[..|todo| - 1];
      Queued(todo) == Queued(rest) + {todo[|todo| - 1].0} && todo[|todo| - 1].0 !in Queued(rest) && Distinct(rest)
  {
    var n := |todo| - 1;
    var rest := todo[..n];
    forall x | x in Queued(todo) ensures x in Queued(rest) + {todo[n].0} {
      var k :| 0 <= k < |todo| && todo[k].0 == x;
      assert k < n ==> rest[k].0 == x;
    }
    forall x | x in Queued(rest) ensures x in Queued(todo) && x != todo[n].0 {
      var k :| 0 <= k < n && rest[k].0 == x;
      assert todo[k].0 == x;
    }
  }

  lemma QueuedAppend(a: seq<Entry>, b: seq<Entry>)
    ensures Queued(a + b) == Queued(a) + Queued(b)
  {
    forall x | x in Queued(a) + Queued(b) ensures x in Queued(a + b) {
      if x in Queued(a) {
        var k :| 0 <= k < |a| && a[k].0 == x;
        assert (a + b)[k].0 == x;
      } else {
        var k :| 0 <= k < |b| && b[k].0 == x;
        assert (a + b)[|a| + k].0 == x;
      }
    }
  }

  /** The entries for those of the fields ids that a select with id sel and verdict v pushes. */
  function Pushed(f: seq<Field>, v: Verdict, ids: seq<int>, sel: int): seq<Entry>
    requires forall k {:trigger ids[k]} :: 0 <= k < |ids| ==> 0 <= ids[k] < |f|
  {
    if ids == [] then []
    else
      var last := |ids| - 1;
      Pushed(f, v, ids[..last], sel) + if Pushes(v, f[ids[last]]) then [(ids[last], sel)] else []
  }

  predicate Ascending(ids: seq<int>) {
    forall j, k {:trigger ids[j], ids[k]} :: 0 <= j < k < |ids| ==> ids[j] < ids[k]
  }

  lemma {:induction false} KidsAscending(f: seq<Field>, p: int)
    ensures Ascending(Kids(f, p))
    ensures forall k {:trigger Kids(f, p)[k]} :: 0 <= k < |Kids(f, p)| ==> 0 <= Kids(f, p)[k] < |f|
    ensures forall i {:trigger i in Kids(f, p)} :: i in Kids(f, p) <==> 0 <= i < |f| && f[i].parent == p
  {
    if f != [] {
      KidsAscending(f[..|f| - 1], p);
    }
  }

  /** Exactly the pushed children are on the stack, once each and with the select's id. */
  lemma {:induction false} PushedExactly(f: seq<Field>, v: Verdict, ids: seq<int>, sel: int)
    requires forall k {:trigger ids[k]} :: 0 <= k < |ids| ==> 0 <= ids[k] < |f|
    requires Ascending(ids)
    ensures Distinct(Pushed(f, v, ids, sel)) && AllFrom(Pushed(f, v, ids, sel), ids, sel)
    ensures forall i {:trigger i in Queued(Pushed(f, v, ids, sel))} ::
      i in Queued(Pushed(f, v, ids, sel)) <==> i in ids && Pushes(v, f[i])
  {
    if ids != [] {
      var last := |ids| - 1;
      var front, x := ids[..last], ids[last];
      PushedExactly(f, v, front, sel);
      var p := Pushed(f, v, front, sel);
      assert ids == front + [x];
      assert forall i :: i in ids <==> i in front || i == x;
      if Pushes(v, f[x]) {
        PushOne(p, front, x, sel);
      } else {
        assert Pushed(f, v, ids, sel) == p;
      }
    }
  }

  ghost predicate AllFrom(p: seq<Entry>, ids: seq<int>, sel: int) {
    forall k {:trigger p[k]} :: 0 <= k < |p| ==> p[k].1 == sel && p[k].0 in ids
  }

  lemma PushOne(p: seq<Entry>, front: seq<int>, x: int, sel: int)
    requires Distinct(p) && AllFrom(p, front, sel) && Ascending(front + [x])
    ensures Distinct(p + [(x, sel)]) && AllFrom(p + [(x, sel)], front + [x], sel)
    ensures Queued(p + [(x, sel)]) == Queued(p) + {x}
  {
    forall k | 0 <= k < |p| ensures p[k].0 != x {
      var j :| 0 <= j < |front| && front[j] == p[k].0;
      assert (front + [x])[j] < (front + [x])[|front|];
    }
    QueuedAppend(p, [(x, sel)]);
    assert Queued([(x, sel)]) == {x} by {
      assert [(x, sel)][0].0 == x;
    }
  }

  /** A keyword comes off the stack without a trace. */
  lemma SkipKeeps(f: seq<Field>, verdict: int -> Verdict, s: seq<Select>, todo: seq<Entry>, seen: set<int>)
    requires Ordered(f) && Work(f, verdict, s, todo, seen) && todo != []
    requires IsKeyword(f[todo[|todo| - 1].0])
    ensures Work(f, verdict, s, todo[..|todo| - 1], seen + {todo[|todo| - 1].0})
  {
    QueuedSplit(todo);
    var rest := todo[..|todo| - 1];
    forall k | 0 <= k < |rest| ensures EntryOk(f, s, seen + {todo[|todo| - 1].0}, rest[k]) {
      assert rest[k] == todo[k];
    }
  }

  /** kids are exactly the entries for the children of field i that a select with id sel and verdict v pushes. */
  ghost predicate KidsOk(f: seq<Field>, v: Verdict, kids: seq<Entry>, i: int, sel: int) {
    && Distinct(kids)
    && (forall k {:trigger kids[k]} :: 0 <= k < |kids| ==> kids[k].1 == sel && 0 <= kids[k].0 < |f| && f[kids[k].0].parent == i)
    && (forall j {:trigger j in Queued(kids)} :: 0 <= j < |f| ==>
          (j in Queued(kids) <==> f[j].parent == i && Pushes(v, f[j])))
  }

  /** The children a select pushes, as a set and one by one. */
  lemma KidsPushed(f: seq<Field>, v: Verdict, i: int, sel: int)
    requires Forest(f) && 0 <= i < |f|
    ensures f[i].children == Kids(f, i)
    ensures forall k {:trigger Kids(f, i)[k]} :: 0 <= k < |Kids(f, i)| ==> 0 <= Kids(f, i)[k] < |f|
    ensures KidsOk(f, v, Pushed(f, v, Kids(f, i), sel), i, sel)
  {
    KidsAscending(f, i);
    PushedExactly(f, v, Kids(f, i), sel);
  }

  /** The entry on top becomes a select and its children that are selections of their own go on the stack. */
  lemma SelectKeeps(f: seq<Field>, verdict: int -> Verdict, s: seq<Select>, todo: seq<Entry>, seen: set<int>, kids: seq<Entry>)
    requires Forest(f) && Ordered(f) && Work(f, verdict, s, todo, seen) && todo != []
    requires var i := todo[|todo| - 1].0;
      !IsKeyword(f[i]) && KidsOk(f, verdict(i), kids, i, |s|)
    ensures var e := todo[|todo| - 1];
      && -1 <= e.1 < |s|
      && Work(f, verdict, AddSelect(s, e.1, e.0), todo[..|todo| - 1] + kids, seen + {e.0})
  {
    var n := |todo| - 1;
    var i, p := todo[n].0, todo[n].1;
    var rest := todo[..n];
    var r := TopSelect(f, verdict, s, todo, seen);
    KeptEntries(f, verdict, s, todo, seen);
    NewEntries(f, verdict, s, rest, kids, seen, i, p);
    QueuedAppend(rest, kids);
    ListedAfter(f, verdict, s, todo, seen, kids);
    Assembled(f, verdict, s, seen, r, rest, kids, i);
  }

  /** The select for the top of the stack. */
  lemma TopSelect(f: seq<Field>, verdict: int -> Verdict, s: seq<Select>, todo: seq<Entry>, seen: set<int>) returns (r: seq<Select>)
    requires Ordered(f) && Work(f, verdict, s, todo, seen) && todo != []
    requires !IsKeyword(f[todo[|todo| - 1].0])
    ensures var e := todo[|todo| - 1];
      && -1 <= e.1 < |s| && r == AddSelect(s, e.1, e.0)
      && SelectTree(f, r) && OnePerField(r) && Done(r) == Done(s) + {e.0} && e.0 !in seen && e.0 !in Done(s)
  {
    var e := todo[|todo| - 1];
    assert EntryOk(f, s, seen, e);
    assert e.0 !in Done(s);
    AddKeepsTree(f, s, e.1, e.0);
    r := AddSelect(s, e.1, e.0);
  }

  lemma KeptEntries(f: seq<Field>, verdict: int -> Verdict, s: seq<Select>, todo: seq<Entry>, seen: set<int>)
    requires Ordered(f) && Work(f, verdict, s, todo, seen) && todo != []
    ensures var rest := todo[..|todo| - 1];
      && Distinct(rest) && todo[|todo| - 1].0 !in Queued(rest)
      && (forall k {:trigger rest[k]} :: 0 <= k < |rest| ==> EntryOk(f, s, seen, rest[k]))
      && (forall j {:trigger Called(f, verdict, Done(s), j)} :: 0 <= j < |f| && (j in seen || j in Queued(rest)) ==>
            Called(f, verdict, Done(s), j))
  {
    QueuedSplit(todo);
    var rest := todo[..|todo| - 1];
    forall k | 0 <= k < |rest| ensures EntryOk(f, s, seen, rest[k]) {
      assert rest[k] == todo[k];
    }
  }

  lemma Assembled(f: seq<Field>, verdict: int -> Verdict, s: seq<Select>, seen: set<int>,
                  r: seq<Select>, rest: seq<Entry>, kids: seq<Entry>, i: int)
    requires Ordered(f) && SelectTree(f, r) && OnePerField(r) && Distinct(rest + kids) && 0 <= i < |f| && !IsKeyword(f[i])
    requires Done(r) == Done(s) + {i} && Queued(rest + kids) == Queued(rest) + Queued(kids)
    requires forall k {:trigger (rest + kids)[k]} :: 0 <= k < |rest + kids| ==> EntryOk(f, r, seen + {i}, (rest + kids)[k])
    requires forall j {:trigger j in seen} :: j in seen ==> 0 <= j < |f|
    requires forall j {:trigger j in Done(s)} {:trigger j in seen} :: j in Done(s) <==> j in seen && !IsKeyword(f[j])
    requires forall j {:trigger Called(f, verdict, Done(s) + {i}, j)} :: 0 <= j < |f| ==>
      (j in seen + {i} || j in Queued(rest) + Queued(kids) <==> Called(f, verdict, Done(s) + {i}, j))
    ensures Work(f, verdict, r, rest + kids, seen + {i})
  {
  }

  lemma NewEntries(f: seq<Field>, verdict: int -> Verdict, s: seq<Select>, rest: seq<Entry>, kids: seq<Entry>,
                   seen: set<int>, i: int, p: int)
    requires Forest(f) && Ordered(f) && 0 <= i < |f| && -1 <= p < |s| && Distinct(rest) && Distinct(kids)
    requires i !in seen && i !in Queued(rest) && i !in Done(s)
    requires forall k {:trigger rest[k]} :: 0 <= k < |rest| ==> EntryOk(f, s, seen, rest[k])
    requires forall k {:trigger kids[k]} :: 0 <= k < |kids| ==> kids[k].1 == |s| && 0 <= kids[k].0 < |f| && f[kids[k].0].parent == i
    requires forall j {:trigger Called(f, verdict, Done(s), j)} :: 0 <= j < |f| && (j in seen || j in Queued(rest)) ==>
      Called(f, verdict, Done(s), j)
    ensures Distinct(rest + kids)
    ensures forall k {:trigger (rest + kids)[k]} :: 0 <= k < |rest + kids| ==>
      EntryOk(f, AddSelect(s, p, i), seen + {i}, (rest + kids)[k])
  {
    var r := AddSelect(s, p, i);
    forall j {:trigger Called(f, verdict, Done(s), j)} | 0 <= j < |f| && f[j].parent == i ensures !Called(f, verdict, Done(s), j) {
    }
    forall k | 0 <= k < |rest| ensures EntryOk(f, r, seen + {i}, rest[k]) && f[rest[k].0].parent != i {
      assert EntryOk(f, s, seen, rest[k]);
      assert rest[k].0 in Queued(rest);
      assert Called(f, verdict, Done(s), rest[k].0);
      assert rest[k].1 >= 0 ==> r[rest[k].1].field == s[rest[k].1].field;
    }
    forall k | 0 <= k < |kids| ensures EntryOk(f, r, seen + {i}, kids[k]) {
      var c := kids[k].0;
      assert !Called(f, verdict, Done(s), c);
      assert r[|s|].field == i;
    }
  }

  /** The stack and the fields seen are again those that are called for. */
  lemma ListedAfter(f: seq<Field>, verdict: int -> Verdict, s: seq<Select>, todo: seq<Entry>, seen: set<int>, kids: seq<Entry>)
    requires Ordered(f) && Work(f, verdict, s, todo, seen) && todo != []
    requires var e := todo[|todo| - 1];
      && !IsKeyword(f[e.0])
      && forall j {:trigger j in Queued(kids)} :: 0 <= j < |f| ==>
           (j in Queued(kids) <==> f[j].parent == e.0 && Pushes(verdict(e.0), f[j]))
    ensures var e := todo[|todo| - 1];
      forall j {:trigger Called(f, verdict, Done(s) + {e.0}, j)} :: 0 <= j < |f| ==>
        (j in seen + {e.0} || j in Queued(todo[..|todo| - 1]) + Queued(kids) <==> Called(f, verdict, Done(s) + {e.0}, j))
  {
    var e := todo[|todo| - 1];
    QueuedSplit(todo);
    forall j {:trigger Called(f, verdict, Done(s) + {e.0}, j)} | 0 <= j < |f|
      ensures j in seen + {e.0} || j in Queued(todo[..|todo| - 1]) + Queued(kids) <==> Called(f, verdict, Done(s) + {e.0}, j)
    {
      assert Called(f, verdict, Done(s), j) <==> j in seen || j in Queued(todo);
    }
  }

  /** With nothing left on the stack the selects are those of the reached fields. */
  lemma {:induction false} EmptyStackMeansAll(f: seq<Field>, verdict: int -> Verdict, s: seq<Select>, seen: set<int>, i: int)
    requires Ordered(f) && Work(f, verdict, s, [], seen) && 0 <= i < |f|
    ensures i in Done(s) <==> Reached(f, verdict, i)
    decreases i
  {
    assert i in seen || i in Queued([]) <==> Called(f, verdict, Done(s), i);
    assert i !in Queued([]);
    if f[i].parent != -1 {
      EmptyStackMeansAll(f, verdict, s, seen, f[i].parent);
    }
  }

  /** What is on the stack and no keyword is reached, and whatever has a select is. */
  lemma {:induction false} OnlyReached(f: seq<Field>, verdict: int -> Verdict, s: seq<Select>, todo: seq<Entry>, seen: set<int>, i: int)
    requires Ordered(f) && Work(f, verdict, s, todo, seen) && 0 <= i < |f|
    requires i in seen || i in Queued(todo)
    ensures !IsKeyword(f[i]) ==> Reached(f, verdict, i)
    decreases i
  {
    assert Called(f, verdict, Done(s), i);
    if f[i].parent != -1 {
      OnlyReached(f, verdict, s, todo, seen, f[i].parent);
    }
  }

  /** As many selects as fields that have one. */
  lemma {:induction false} OneEach(s: seq<Select>)
    requires OnePerField(s)
    ensures |Done(s)| == |s|
  {
    if s == [] {
      assert Done(s) == {};
    } else {
      var front := s[..|s| - 1];
      var last := s[|s| - 1].field;
      OneEach(front);
      forall x | x in Done(front) ensures x != last {
        var k :| 0 <= k < |front| && front[k].field == x;
        assert s[k].field == x;
      }
      assert Done(s) == Done(front) + {last} by {
        assert s[|s| - 1].field == last;
        forall x | x in Done(s) ensures x in Done(front) + {last} {
          var k :| 0 <= k < |s| && s[k].field == x;
          assert k < |front| ==> front[k].field == x;
        }
        forall x | x in Done(front) ensures x in Done(s) {
          var k :| 0 <= k < |front| && front[k].field == x;
          assert s[k].field == x;
        }
      }
    }
  }

  /** Keywords are roots, as the parser marks them. */
  predicate KeywordsAreRoots(f: seq<Field>) {
    forall i {:trigger f[i]} :: 0 <= i < |f| && IsKeyword(f[i]) ==> f[i].parent == -1
  }

  /**
   The selects fit: at most MAX_SELECTORS, and when that many are used the first root is not a keyword that would
   still be waiting on the stack.
   */
  ghost predicate Fits(f: seq<Field>, verdict: int -> Verdict)
    requires Ordered(f) && f != []
  {
    var n := |ReachedSet(f, verdict)|;
    0 < n && (n < MAX_SELECTORS || (n == MAX_SELECTORS && !IsKeyword(f[0])))
  }

  /** One root more than there may be selects, the k-th of them a keyword. */
  function FullHouse(k: nat): seq<Field> {
    seq(MAX_SELECTORS + 1, i requires 0 <= i < MAX_SELECTORS + 1 =>
      Field(i, -1, if i == k then Keyword else Plain, Header("x", "", [], []), []))
  }

  lemma {:induction false} RangeIs(a: set<int>, lo: int, hi: int)
    requires lo <= hi && forall x :: x in a <==> lo <= x < hi
    ensures |a| == hi - lo
    decreases hi - lo
  {
    if lo == hi {
      assert forall x :: x !in a;
      assert a == {};
    } else {
      assert hi - 1 in a;
      RangeIs(a - {hi - 1}, lo, hi - 1);
    }
  }

  /** A query of a keyword and 100 fields: it is refused with the keyword in front, and accepted with it at the end. */
  lemma KeywordInFront(verdict: int -> Verdict)
    requires forall i {:trigger verdict(i)} :: verdict(i) == Table
    ensures var first, last := FullHouse(0), FullHouse(MAX_SELECTORS);
      && Ordered(first) && Ordered(last)
      && |ReachedSet(first, verdict)| == |ReachedSet(last, verdict)| == MAX_SELECTORS
      && !Fits(first, verdict) && Fits(last, verdict)
  {
    var first, last := FullHouse(0), FullHouse(MAX_SELECTORS);
    forall i ensures i in ReachedSet(first, verdict) <==> 1 <= i < MAX_SELECTORS + 1 {
    }
    forall i ensures i in ReachedSet(last, verdict) <==> 0 <= i < MAX_SELECTORS {
    }
    RangeIs(ReachedSet(first, verdict), 1, MAX_SELECTORS + 1);
    RangeIs(ReachedSet(last, verdict), 0, MAX_SELECTORS);
  }

  ghost predicate NoneRejected(f: seq<Field>, verdict: int -> Verdict)
    requires Ordered(f)
  {
    forall i {:trigger verdict(i)} :: 0 <= i < |f| && Reached(f, verdict, i) ==> verdict(i) != Rejected
  }

  /** The stack holds the entries, packed. */
  ghost predicate Packed(st: seq<nat>, todo: seq<Entry>) {
    |st| == |todo| && forall k {:trigger st[k]} :: 0 <= k < |st| ==>
      todo[k].0 >= 0 && todo[k].1 >= -1 && st[k] == Pack(todo[k].0, todo[k].1)
  }

  lemma DoneInReached(f: seq<Field>, verdict: int -> Verdict, s: seq<Select>, todo: seq<Entry>, seen: set<int>)
    requires Ordered(f) && Work(f, verdict, s, todo, seen)
    ensures Done(s) <= ReachedSet(f, verdict) && |s| == |Done(s)| <= |ReachedSet(f, verdict)|
  {
    forall i | i in Done(s) ensures i in ReachedSet(f, verdict) {
      assert i in seen;
      OnlyReached(f, verdict, s, todo, seen, i);
    }
    OneEach(s);
    SubsetSize(Done(s), ReachedSet(f, verdict));
  }

  /** At the bottom of the stack waits the first root, unless it has its select already. */
  ghost predicate Bottom(f: seq<Field>, todo: seq<Entry>)
    requires f != []
  {
    todo == [] || todo[0].0 == 0 || (0 < todo[0].0 < |f| && !IsKeyword(f[0]) && !IsKeyword(f[todo[0].0]))
  }

  /** A full house with someone waiting does not fit. */
  lemma TooMany(f: seq<Field>, verdict: int -> Verdict, s: seq<Select>, todo: seq<Entry>, seen: set<int>)
    requires f != [] && Ordered(f) && Work(f, verdict, s, todo, seen)
    requires todo != [] && Bottom(f, todo) && |s| >= MAX_SELECTORS
    ensures !Fits(f, verdict)
  {
    DoneInReached(f, verdict, s, todo, seen);
    var i := todo[0].0;
    if !IsKeyword(f[i]) {
      assert EntryOk(f, s, seen, todo[0]);
      assert i in Queued(todo);
      OnlyReached(f, verdict, s, todo, seen, i);
      assert i !in Done(s);
      SubsetSize(Done(s), ReachedSet(f, verdict));
    }
  }

  lemma BottomStays(f: seq<Field>, verdict: int -> Verdict, s: seq<Select>, t: seq<Select>,
                    todo: seq<Entry>, rest: seq<Entry>, seen: set<int>)
    requires f != [] && Ordered(f) && KeywordsAreRoots(f) && todo != [] && Bottom(f, todo)
    requires Work(f, verdict, s, todo, seen) && Work(f, verdict, t, rest, seen + {todo[|todo| - 1].0})
    requires todo[..|todo| - 1] <= rest && (IsKeyword(f[todo[|todo| - 1].0]) ==> rest == todo[..|todo| - 1])
    ensures Bottom(f, rest)
  {
    if |todo| > 1 {
      assert rest[0] == todo[0];
    } else if rest != [] {
      var i := rest[0].0;
      assert EntryOk(f, t, seen + {todo[0].0}, rest[0]);
      QueuedSplit(todo);
      assert Queued(todo[..0]) == {};
      assert Called(f, verdict, Done(s), i) <==> i in seen || i in Queued(todo);
    }
  }

  ghost function UpTo(n: nat): set<int> {
    if n == 0 then {} else UpTo(n - 1) + {n - 1}
  }

  lemma {:induction false} UpToSize(n: nat)
    ensures |UpTo(n)| == n && forall x {:trigger x in UpTo(n)} :: x in UpTo(n) <==> 0 <= x < n
  {
    if n > 0 {
      UpToSize(n - 1);
    }
  }

  lemma RangeSize(a: set<int>, n: nat)
    requires forall x <- a :: 0 <= x < n
    ensures |a| <= n
  {
    UpToSize(n);
    forall x | x in a ensures x in UpTo(n) {
    }
    SubsetSize(a, UpTo(n));
  }

  /** A field still on the stack has not been seen, so not all have. */
  lemma SeenBounded(f: seq<Field>, verdict: int -> Verdict, s: seq<Select>, todo: seq<Entry>, seen: set<int>)
    requires Ordered(f) && Work(f, verdict, s, todo, seen) && todo != []
    ensures |seen| < |f|
  {
    var i := todo[|todo| - 1].0;
    assert EntryOk(f, s, seen, todo[|todo| - 1]);
    var all := seen + {i};
    forall x | x in all ensures 0 <= x < |f| {
      if x != i {
        assert x in seen;
      }
    }
    RangeSize(all, |f|);
  }

  lemma Finished(f: seq<Field>, verdict: int -> Verdict, s: seq<Select>, seen: set<int>)
    requires Ordered(f) && Work(f, verdict, s, [], seen)
    ensures Done(s) == ReachedSet(f, verdict) && |s| == |ReachedSet(f, verdict)|
  {
    forall i | 0 <= i < |f| ensures i in Done(s) <==> Reached(f, verdict, i) {
      EmptyStackMeansAll(f, verdict, s, seen, i);
    }
    assert forall i :: i in Done(s) ==> i in seen;
    OneEach(s);
  }

  /** The roots among the first k fields are on the stack, each once. */
  ghost predicate RootsQueued(f: seq<Field>, todo: seq<Entry>, k: nat) {
    && Distinct(todo)
    && (forall j {:trigger todo[j]} :: 0 <= j < |todo| ==> todo[j].1 == -1 && 0 <= todo[j].0 < k)
    && forall i {:trigger i in Queued(todo)} :: 0 <= i < |f| ==> (i in Queued(todo) <==> i < k && f[i].parent == -1)
  }

  lemma RootQueued(f: seq<Field>, todo: seq<Entry>, k: nat)
    requires k < |f| && RootsQueued(f, todo, k)
    ensures RootsQueued(f, if f[k].parent == -1 then todo + [(k, -1)] else todo, k + 1)
  {
    QueuedAppend(todo, [(k, -1)]);
    assert Queued([(k, -1)]) == {k} by {
      assert [(k, -1)][0].0 == k;
    }
  }

  lemma StartWork(f: seq<Field>, verdict: int -> Verdict, todo: seq<Entry>)
    requires Ordered(f) && RootsQueued(f, todo, |f|)
    ensures Work(f, verdict, [], todo, {}) && Done([]) == {}
  {
    assert Done([]) == {};
    forall k | 0 <= k < |todo| ensures EntryOk(f, [], {}, todo[k]) {
      assert todo[k].0 in Queued(todo);
    }
    forall i | 0 <= i < |f| ensures i in Queued(todo) <==> Called(f, verdict, Done([]), i) {
      assert i in Queued(todo) <==> f[i].parent == -1;
    }
  }

  ghost predicate Accepted(verdict: int -> Verdict, done: set<int>) {
    forall i {:trigger verdict(i)} :: i in done ==> verdict(i) != Rejected
  }

  lemma TopReached(f: seq<Field>, verdict: int -> Verdict, s: seq<Select>, todo: seq<Entry>, seen: set<int>)
    requires Ordered(f) && Work(f, verdict, s, todo, seen) && todo != []
    ensures var i := todo[|todo| - 1].0;
      0 <= i < |f| && i !in seen && (!IsKeyword(f[i]) ==> Reached(f, verdict, i))
  {
    var i := todo[|todo| - 1].0;
    assert EntryOk(f, s, seen, todo[|todo| - 1]);
    assert i in Queued(todo);
    OnlyReached(f, verdict, s, todo, seen, i);
  }

  lemma TopDecodes(f: seq<Field>, st: seq<nat>, todo: seq<Entry>, s: seq<Select>, seen: set<int>)
    requires |f| <= HALF && Packed(st, todo) && todo != [] && EntryOk(f, s, seen, todo[|todo| - 1]) && |s| < MAX_SELECTORS
    ensures var e, val := todo[|todo| - 1], st[|st| - 1];
      FieldOf(val) == e.0 && (e.1 >= 0 ==> SelectOf(val) == e.1)
  {
    var e := todo[|todo| - 1];
    PackDecodes(e.0, e.1);
  }

  /** What holds before every turn of the loop. */
  ghost predicate Going(f: seq<Field>, verdict: int -> Verdict, s: seq<Select>, todo: seq<Entry>, seen: set<int>)
    requires Forest(f) && Ordered(f) && 0 < |f|
  {
    && Work(f, verdict, s, todo, seen) && Bottom(f, todo) && Accepted(verdict, Done(s))
    && |s| <= MAX_SELECTORS && (todo == [] && IsKeyword(f[0]) ==> |s| < MAX_SELECTORS)
  }

  /** A round took the top entry and left the rest. */
  ghost predicate Turned(f: seq<Field>, verdict: int -> Verdict, s: seq<Select>, t: seq<Select>,
                         todo: seq<Entry>, rest: seq<Entry>, seen: set<int>)
    requires Forest(f) && Ordered(f) && todo != []
  {
    var e := todo[|todo| - 1];
    && EntryOk(f, s, seen, e) && (IsKeyword(f[e.0]) || verdict(e.0) != Rejected)
    && t == (if IsKeyword(f[e.0]) then s else AddSelect(s, e.1, e.0))
    && Work(f, verdict, t, rest, seen + {e.0}) && todo[..|todo| - 1] <= rest
    && (IsKeyword(f[e.0]) ==> rest == todo[..|todo| - 1])
  }

  lemma GoesOn(f: seq<Field>, verdict: int -> Verdict, s: seq<Select>, t: seq<Select>,
               todo: seq<Entry>, rest: seq<Entry>, seen: set<int>)
    requires Forest(f) && Ordered(f) && KeywordsAreRoots(f) && 0 < |f| && Going(f, verdict, s, todo, seen)
    requires todo != [] && |s| < MAX_SELECTORS && Turned(f, verdict, s, t, todo, rest, seen)
    ensures Going(f, verdict, t, rest, seen + {todo[|todo| - 1].0})
  {
    var e := todo[|todo| - 1];
    BottomStays(f, verdict, s, t, todo, rest, seen);
    if !IsKeyword(f[e.0]) {
      AcceptedStays(verdict, s, e.1, e.0);
    }
    LastIsBottom(f, todo, rest);
  }

  lemma MoreSeen(f: seq<Field>, verdict: int -> Verdict, s: seq<Select>, todo: seq<Entry>, seen: set<int>)
    requires Ordered(f) && Work(f, verdict, s, todo, seen) && todo != []
    ensures |seen| < |seen + {todo[|todo| - 1].0}| <= |f|
  {
    SeenBounded(f, verdict, s, todo, seen);
    assert EntryOk(f, s, seen, todo[|todo| - 1]);
  }

  lemma AcceptedStays(verdict: int -> Verdict, s: seq<Select>, parent: int, field: int)
    requires -1 <= parent < |s| && Accepted(verdict, Done(s)) && verdict(field) != Rejected
    ensures Accepted(verdict, Done(AddSelect(s, parent, field)))
  {
    DoneAfter(s, parent, field);
  }

  lemma LastIsBottom(f: seq<Field>, todo: seq<Entry>, rest: seq<Entry>)
    requires f != [] && todo != [] && Bottom(f, todo) && todo[..|todo| - 1] <= rest && 0 <= todo[|todo| - 1].0 < |f|
    ensures rest == [] && IsKeyword(f[0]) ==> IsKeyword(f[todo[|todo| - 1].0])
  {
    if rest == [] {
      assert |todo| == 1;
    }
  }

  lemma Concluded(f: seq<Field>, verdict: int -> Verdict, s: seq<Select>, seen: set<int>)
    requires f != [] && Ordered(f) && Work(f, verdict, s, [], seen) && Accepted(verdict, Done(s))
    requires |s| <= MAX_SELECTORS && (IsKeyword(f[0]) ==> |s| < MAX_SELECTORS)
    ensures NoneRejected(f, verdict) && (Fits(f, verdict) <==> s != [])
  {
    Finished(f, verdict, s, seen);
    forall i {:trigger verdict(i)} | 0 <= i < |f| && Reached(f, verdict, i) ensures verdict(i) != Rejected {
      assert i in ReachedSet(f, verdict);
    }
  }

  lemma PushedNext(f: seq<Field>, v: Verdict, ids: seq<int>, k: nat, sel: int, todo: seq<Entry>)
    requires forall k {:trigger ids[k]} :: 0 <= k < |ids| ==> 0 <= ids[k] < |f|
    requires k < |ids|
    ensures var was, now := todo + Pushed(f, v, ids[..k], sel), todo + Pushed(f, v, ids[..k + 1], sel);
      now == if Pushes(v, f[ids[k]]) then was + [(ids[k], sel)] else was
  {
    assert ids[..k + 1][..k] == ids[..k];
    var p := Pushed(f, v, ids[..k], sel);
    if Pushes(v, f[ids[k]]) {
      assert todo + (p + [(ids[k], sel)]) == todo + p + [(ids[k], sel)];
    } else {
      assert p + [] == p;
    }
  }

  lemma PackedPush(st: seq<nat>, todo: seq<Entry>, field: nat, sel: nat)
    requires Packed(st, todo)
    ensures Packed(st + [Pack(field, sel)], todo + [(field, sel)])
  {
    var st', todo' := st + [Pack(field, sel)], todo + [(field, sel)];
    forall k {:trigger todo'[k]} | 0 <= k < |st'|
      ensures todo'[k].0 >= 0 && todo'[k].1 >= -1 && st'[k] == Pack(todo'[k].0, todo'[k].1)
    {
      if k < |st| {
        assert st'[k] == st[k] && todo'[k] == todo[k];
      }
    }
  }

  class QCode {
    var selects: seq<Select>
    var roots: seq<int>

    constructor ()
      ensures selects == [] && roots == []
    {
      selects, roots := [], [];
    }

    /** Appends a select and notes it with its parent, or with the query's roots. */
    method AddRelInfo(parent: int, field: int)
      requires -1 <= parent < |selects| && roots == SelectKids(selects, -1)
      modifies this
      ensures selects == AddSelect(old(selects), parent, field) && roots == SelectKids(selects, -1)
    {
      var id := |selects|;
      AddSelectKids(selects, parent, field, -1);
      if parent == -1 {
        roots := roots + [id];
      } else {
        var p := selects[parent];
        selects := selects[parent := p.(children := p.children + [id])];
      }
      selects := selects + [Select(id, parent, field, [])];
    }

    /** Puts the children that are selections of their own on the stack. */
    method CompileFields(f: seq<Field>, v: Verdict, ids: seq<int>, sel: nat, st: seq<nat>, ghost todo: seq<Entry>)
      returns (pushed: seq<nat>)
      requires forall k {:trigger ids[k]} :: 0 <= k < |ids| ==> 0 <= ids[k] < |f|
      requires Packed(st, todo)
      ensures Packed(pushed, todo + Pushed(f, v, ids, sel))
    {
      pushed := st;
      var k := 0;
      assert todo + Pushed(f, v, ids[..0], sel) == todo;
      while k < |ids|
        invariant 0 <= k <= |ids|
        invariant Packed(pushed, todo + Pushed(f, v, ids[..k], sel))
      {
        var c := f[ids[k]];
        PushedNext(f, v, ids, k, sel, todo);
        if v != Remote && v != Rejected && !(v == Passthrough && c.ftype == Keyword) && |c.children| != 0 {
          PackedPush(pushed, todo + Pushed(f, v, ids[..k], sel), ids[k], sel);
          pushed := pushed + [Pack(ids[k], sel)];
        }
        k := k + 1;
      }
      assert ids[..k] == ids;
    }

    /** All roots, in order. */
    method PushRoots(f: seq<Field>) returns (st: seq<nat>, ghost todo: seq<Entry>)
      requires Forest(f) && f != []
      ensures Packed(st, todo) && todo != [] && todo[0] == (0, -1)
      ensures RootsQueued(f, todo, |f|)
    {
      st, todo := [], [];
      var k := 0;
      assert f[0].parent == -1;
      while k < |f|
        invariant 0 <= k <= |f| && Packed(st, todo) && (k > 0 ==> todo != [] && todo[0] == (0, -1))
        invariant RootsQueued(f, todo, k)
      {
        RootQueued(f, todo, k);
        if f[k].parent == -1 {
          st := st + [Pack(k, -1)];
          todo := todo + [(k, -1)];
        }
        k := k + 1;
      }
    }

    /** Makes the select of a field that came off the stack, whose rest is left. */
    method NewSelect(f: seq<Field>, verdict: int -> Verdict, fid: int, parent: int, left: seq<nat>,
                     ghost todo: seq<Entry>, ghost seen: set<int>) returns (st: seq<nat>, ghost rest: seq<Entry>)
      requires Forest(f) && Ordered(f) && todo != [] && Packed(left, todo[..|todo| - 1])
      requires Work(f, verdict, selects, todo, seen) && roots == SelectKids(selects, -1)
      requires todo[|todo| - 1] == (fid, parent) && EntryOk(f, selects, seen, (fid, parent)) && !IsKeyword(f[fid])
      modifies this
      ensures roots == SelectKids(selects, -1) && selects == AddSelect(old(selects), parent, fid)
      ensures Packed(st, rest) && Work(f, verdict, selects, rest, seen + {fid}) && todo[..|todo| - 1] <= rest
    {
      var id := |selects|;
      KidsPushed(f, verdict(fid), fid, id);
      ghost var kids := Pushed(f, verdict(fid), f[fid].children, id);
      SelectKeeps(f, verdict, selects, todo, seen, kids);
      AddRelInfo(parent, fid);
      st := CompileFields(f, verdict(fid), f[fid].children, id, left, todo[..|todo| - 1]);
      rest := todo[..|todo| - 1] + kids;
    }

    /** One round: takes an entry off the stack, and makes its select unless it is a keyword. */
    method Round(f: seq<Field>, verdict: int -> Verdict, st: seq<nat>, ghost todo: seq<Entry>, ghost seen: set<int>)
      returns (ok: bool, left: seq<nat>, ghost rest: seq<Entry>)
      requires Forest(f) && Ordered(f) && |f| <= HALF && Packed(st, todo) && todo != []
      requires Work(f, verdict, selects, todo, seen) && roots == SelectKids(selects, -1) && |selects| < MAX_SELECTORS
      modifies this
      ensures EntryOk(f, old(selects), seen, todo[|todo| - 1])
      ensures roots == SelectKids(selects, -1)
      ensures var e := todo[|todo| - 1];
        && ok == (IsKeyword(f[e.0]) || verdict(e.0) != Rejected)
        && selects == (if IsKeyword(f[e.0]) || !ok then old(selects) else AddSelect(old(selects), e.1, e.0))
        && (ok ==> Packed(left, rest) && Work(f, verdict, selects, rest, seen + {e.0}) && todo[..|todo| - 1] <= rest)
        && (ok && IsKeyword(f[e.0]) ==> rest == todo[..|todo| - 1])
    {
      var val := st[|st| - 1];
      var fid, parent: int := FieldOf(val), SelectOf(val);
      TopDecodes(f, st, todo, selects, seen);
      rest := todo[..|todo| - 1];
      left := st[..|st| - 1];
      ok := true;
      if f[fid].ftype == Keyword {
        SkipKeeps(f, verdict, selects, todo, seen);
        return;
      }
      if f[fid].parent == -1 {
        parent := -1;
      }
      if verdict(fid) == Rejected {
        ok := false;
        return;
      }
      left, rest := NewSelect(f, verdict, fid, parent, left, todo, seen);
    }

    /**
     Makes the selects of a query. It succeeds exactly when no reached field is rejected and the selects fit; then
     there is one select for every reached field and no other, ids are positions, parents stand in front of their
     children, and children lists and roots invert the parents.
     */
    method CompileQuery(f: seq<Field>, verdict: int -> Verdict) returns (ok: bool)
      requires Forest(f) && Ordered(f) && 0 < |f| <= HALF && KeywordsAreRoots(f)
      requires selects == [] && roots == []
      modifies this
      ensures ok <==> NoneRejected(f, verdict) && Fits(f, verdict)
      ensures ok ==> SelectTree(f, selects) && OnePerField(selects) && roots == SelectKids(selects, -1)
      ensures ok ==> Done(selects) == ReachedSet(f, verdict)
    {
      var st;
      ghost var todo;
      st, todo := PushRoots(f);
      ghost var seen: set<int> := {};
      StartWork(f, verdict, todo);
      while st != []
        invariant Packed(st, todo) && roots == SelectKids(selects, -1)
        invariant Going(f, verdict, selects, todo, seen)
        decreases |f| - |seen|
      {
        if |selects| >= MAX_SELECTORS {
          TooMany(f, verdict, selects, todo, seen);
          return false;
        }
        ghost var e, before, had := todo[|todo| - 1], todo, selects;
        TopReached(f, verdict, selects, todo, seen);
        MoreSeen(f, verdict, selects, todo, seen);
        ok, st, todo := Round(f, verdict, st, todo, seen);
        if !ok {
          assert Reached(f, verdict, e.0) && verdict(e.0) == Rejected;
          return;
        }
        GoesOn(f, verdict, had, selects, before, todo, seen);
        seen := seen + {e.0};
      }
      Finished(f, verdict, selects, seen);
      Concluded(f, verdict, selects, seen);
      ok := |selects| != 0;
    }
  }
}
