/**
 Whole runs of the planner: what is on the stack or emitted after any number of
 rounds is emitted in the end, exactly once.
 */
module MutationRun {
  import opened Common
  import opened MutationItems
  import opened MutationPlan

  /** What is emitted, the stack, and the next free id. */
  datatype Plan = Plan(out: seq<Item>, st: seq<Item>, next: int)

  /** One round; an empty stack stays, and a round that fails leaves no plan. */
  ghost function Next(sch: Schema, mt: MType, p: Plan): Option<Plan> {
    if p.st == [] then Some(p)
    else
      match Step(sch, mt, p.out, p.st, p.next)
      case Failed => None
      case Went(out, st, next) => Some(Plan(out, st, next))
  }

  /** The plan after k rounds. */
  ghost function After(sch: Schema, mt: MType, p: Plan, k: nat): Option<Plan> {
    Iterated(Rounds(sch, mt), p, k)
  }

  ghost function Rounds(sch: Schema, mt: MType): Plan -> Option<Plan> {
    p => Next(sch, mt, p)
  }

  /** Some number of steps, each of which may fail. */
  ghost function Iterated<T>(step: T -> Option<T>, x: T, k: nat): Option<T> {
    if k == 0 then Some(x)
    else
      var y := Iterated(step, x, k - 1);
      if y.None? then None else step(y.value)
  }

  ghost function Ids(items: seq<Item>): set<int> {
    set k | 0 <= k < |items| :: items[k].id
  }

  lemma IdsAppend(a: seq<Item>, b: seq<Item>)
    ensures Ids(a + b) == Ids(a) + Ids(b)
  {
    forall x | x in Ids(a) + Ids(b) ensures x in Ids(a + b) {
      if x in Ids(a) {
        var k :| 0 <= k < |a| && a[k].id == x;
        assert (a + b)[k].id == x;
      } else {
        var k :| 0 <= k < |b| && b[k].id == x;
        assert (a + b)[|a| + k].id == x;
      }
    }
  }

  lemma IdsRev(s: seq<Item>)
    ensures Ids(Rev(s)) == Ids(s)
  {
    forall x | x in Ids(s) ensures x in Ids(Rev(s)) {
      var k :| 0 <= k < |s| && s[k].id == x;
      assert Rev(s)[|s| - 1 - k] == s[k];
    }
  }

  /** A round keeps all ids in the line and adds those of the items it pushes. */
  lemma StepPlans(sch: Schema, mt: MType, out: seq<Item>, st: seq<Item>, next: int)
    requires st != [] && PlanInv(out, st, next, mt) && mt !in {MTConnect, MTDisconnect}
    requires Step(sch, mt, out, st, next).Went?
    ensures var r := Step(sch, mt, out, st, next);
      var top := st[|st| - 1];
      Ids(Line(r.out, r.st)) == Ids(Line(out, st)) + Ids(if top.render then [] else Expand(sch, mt, top, next).items)
  {
    var top, below := st[|st| - 1], st[..|st| - 1];
    TopInLine(out, st);
    var line := Line(out, st);
    assert line[|out|] == top && ItemOk(line, |out|, mt);
    if top.render {
      assert Line(out + [top], below) == line;
    } else {
      var r := Expand(sch, mt, top, next);
      var c := ExpandBlock(sch, mt, top, next);
      RevAppend(below, r.items);
      var blk := Rev(r.items);
      IdsRev(r.items);
      assert blk[c].id == top.id;
      assert Ids([top]) == {top.id} by {
        assert [top][0].id == top.id;
      }
      IdsAppend(out + [top], Rev(below));
      IdsAppend(out, [top]);
      IdsAppend(out + blk, Rev(below));
      IdsAppend(out, blk);
      assert Line(out, below + r.items) == out + blk + Rev(below);
    }
  }

  lemma {:induction false} OneIdEach(out: seq<Item>)
    requires DistinctIds(out)
    ensures |Ids(out)| == |out|
  {
    if out == [] {
      assert Ids(out) == {};
    } else {
      var n := |out| - 1;
      OneIdEach(out[..n]);
      assert out == out[..n] + [out[n]];
      IdsAppend(out[..n], [out[n]]);
      assert Ids([out[n]]) == {out[n].id} by {
        assert [out[n]][0].id == out[n].id;
      }
      forall x | x in Ids(out[..n]) ensures x != out[n].id {
        var k :| 0 <= k < n && out[..n][k].id == x;
        assert out[k].id != out[n].id;
      }
    }
  }

  // ---- After any number of rounds ----

  ghost predicate Sound(p: Plan, mt: MType) {
    PlanInv(p.out, p.st, p.next, mt)
  }

  /** Everything that is known: emitted, or on the stack from the top down. */
  ghost function Known(p: Plan): seq<Item> {
    Line(p.out, p.st)
  }

  /** The invariant holds after any number of rounds, nothing known is forgotten, and what is emitted stays. */
  lemma {:induction false} AfterKeeps(sch: Schema, mt: MType, p: Plan, k: nat, q: Plan)
    requires mt !in {MTConnect, MTDisconnect} && Sound(p, mt) && After(sch, mt, p, k) == Some(q)
    ensures Sound(q, mt) && Ids(Known(p)) <= Ids(Known(q)) && p.out <= q.out && p.next <= q.next
    decreases k
  {
    if k > 0 {
      var r := After(sch, mt, p, k - 1).value;
      AfterKeeps(sch, mt, p, k - 1, r);
      if r.st != [] {
        StepKeepsInv(sch, mt, r.out, r.st, r.next);
        StepPlans(sch, mt, r.out, r.st, r.next);
      }
    }
  }

  /** A run goes on from any of its plans. */
  lemma {:induction false} AfterRest(sch: Schema, mt: MType, p: Plan, k: nat, n: nat, r: Plan)
    requires After(sch, mt, p, k) == Some(r)
    ensures After(sch, mt, p, k + n) == After(sch, mt, r, n)
  {
    IteratedRest(Rounds(sch, mt), p, k, n, r);
  }

  lemma {:induction false} IteratedRest<T>(step: T -> Option<T>, p: T, k: nat, n: nat, r: T)
    requires Iterated(step, p, k) == Some(r)
    ensures Iterated(step, p, k + n) == Iterated(step, r, n)
    decreases n
  {
    if n > 0 {
      IteratedRest(step, p, k, n - 1, r);
    }
  }

  lemma {:induction false} EmptyStays(sch: Schema, mt: MType, p: Plan, k: nat)
    requires p.st == []
    ensures After(sch, mt, p, k) == Some(p)
    decreases k
  {
    if k > 0 {
      EmptyStays(sch, mt, p, k - 1);
    }
  }

  /** The id stands at one position of the list and at no other. */
  ghost predicate Once(out: seq<Item>, id: int) {
    exists i {:trigger out[i]} :: 0 <= i < |out| && out[i].id == id
      && forall j {:trigger out[j]} :: 0 <= j < |out| && out[j].id == id ==> j == i
  }

  /** A later plan knows what an earlier one knows. */
  lemma KnownLater(sch: Schema, mt: MType, p: Plan, k: nat, r: Plan, n: nat, q: Plan)
    requires mt !in {MTConnect, MTDisconnect} && Sound(p, mt) && k <= n
    requires After(sch, mt, p, k) == Some(r) && After(sch, mt, p, n) == Some(q)
    ensures Ids(Known(r)) <= Ids(Known(q)) && r.out <= q.out
  {
    AfterKeeps(sch, mt, p, k, r);
    assert After(sch, mt, r, n - k) == Some(q) by {
      AfterRest(sch, mt, p, k, n - k, r);
    }
    AfterKeeps(sch, mt, r, n - k, q);
  }

  lemma AfterEmpty(sch: Schema, mt: MType, p: Plan, n: nat, q: Plan, k: nat)
    requires After(sch, mt, p, n) == Some(q) && q.st == [] && n <= k
    ensures After(sch, mt, p, k) == Some(q)
  {
    AfterRest(sch, mt, p, n, k - n, q);
    EmptyStays(sch, mt, q, k - n);
  }

  lemma FinallyKnown(sch: Schema, mt: MType, p: Plan, n: nat, q: Plan, k: nat, r: Plan)
    requires mt !in {MTConnect, MTDisconnect} && Sound(p, mt)
    requires After(sch, mt, p, n) == Some(q) && q.st == [] && After(sch, mt, p, k) == Some(r)
    ensures Ids(Known(r)) <= Ids(Known(q)) && r.out <= q.out
  {
    if k <= n {
      KnownLater(sch, mt, p, k, r, n, q);
    } else {
      AfterEmpty(sch, mt, p, n, q, k);
    }
  }

  /**
   In a run that empties the stack, every item that is on the stack or emitted after any number of rounds is emitted in
   the end exactly once, and what was emitted by then is the beginning of what is emitted in the end.
   */
  lemma EmittedOnce(sch: Schema, mt: MType, p: Plan, n: nat, q: Plan, k: nat, r: Plan, j: int)
    requires mt !in {MTConnect, MTDisconnect} && Sound(p, mt)
    requires After(sch, mt, p, n) == Some(q) && q.st == []
    requires After(sch, mt, p, k) == Some(r) && 0 <= j < |Known(r)|
    ensures Once(q.out, Known(r)[j].id) && r.out <= q.out
  {
    AfterKeeps(sch, mt, p, n, q);
    FinallyKnown(sch, mt, p, n, q, k, r);
    assert Known(r)[j].id in Ids(Known(r));
    assert Known(q) == q.out;
    DistinctOnce(q.out, Known(r)[j].id);
  }

  lemma DistinctOnce(out: seq<Item>, id: int)
    requires DistinctIds(out) && id in Ids(out)
    ensures Once(out, id)
  {
    var i :| 0 <= i < |out| && out[i].id == id;
    forall j {:trigger out[j]} | 0 <= j < |out| && out[j].id == id ensures j == i {
    }
  }

  /** No more than that is emitted: the items of the plan are as many as their ids. */
  lemma EmittedDistinct(sch: Schema, mt: MType, p: Plan, n: nat, q: Plan)
    requires mt !in {MTConnect, MTDisconnect} && Sound(p, mt) && After(sch, mt, p, n) == Some(q) && q.st == []
    ensures |Ids(q.out)| == |q.out|
  {
    AfterKeeps(sch, mt, p, n, q);
    assert Known(q) == q.out;
    OneIdEach(q.out);
  }
}
