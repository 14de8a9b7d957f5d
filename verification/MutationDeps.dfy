/**
 Which dependencies a plan records. Nothing here asks how they are recorded: a
 nested item and its parent, or a lookup and its reader, are linked by their
 places in the plan and by their relation alone.
 */
module MutationDeps {
  import opened Common
  import opened MutationItems
  import opened MutationPlan
  import opened MutationOrder
  import opened MutationRun

  // ---- Which items are linked ----

  /** The item is written after its parent and reads its parent's key. */
  predicate ReadsParent(c: Item) {
    c.rel.kind == OneToOne || (c.rel.kind == OneToMany && c.rel.left != c.table)
  }

  /** The nested item stands on the parent's side of its relation: the parent p reads its key. */
  predicate ReadByParent(c: Item, p: Item) {
    c.parent == p.id && c.rel.kind == OneToMany && c.rel.right == p.table
  }

  /** The item at j is the first write behind the lookup at i. */
  ghost predicate NextWrite(line: seq<Item>, i: int, j: int)
    requires 0 <= i < |line| && 0 <= j < |line|
  {
    i < j && !Conn(line[j]) && forall k {:trigger line[k]} :: i <= k < j ==> Conn(line[k])
  }

  /** Under an insert, the write at j has to know the item at i. */
  ghost predicate Linked(line: seq<Item>, i: int, j: int)
    requires 0 <= i < |line| && 0 <= j < |line|
  {
    if Conn(line[i]) then NextWrite(line, i, j)
    else (line[j].parent == line[i].id && ReadsParent(line[j])) || ReadByParent(line[i], line[j])
  }

  /** The lookup was nested in the write's payload: as the row of a relation, or as a connect by itself. */
  predicate LookedUpFor(v: Item, w: Item) {
    v.parent == w.id || (v.rel.kind == NoRel && v.parent == w.parent)
  }

  ghost predicate LinkedId(line: seq<Item>, j: int, d: int)
    requires 0 <= j < |line|
  {
    exists i {:trigger line[i]} :: 0 <= i < |line| && line[i].id == d && Linked(line, i, j)
  }

  /** The dependencies of the item at j are as they should be. */
  ghost predicate RecordedAt(line: seq<Item>, mt: MType, j: int)
    requires 0 <= j < |line|
  {
    var y := line[j];
    if Conn(y) then y.deps == {}
    else
      match mt
      case MTInsert => forall d {:trigger d in y.deps} {:trigger LinkedId(line, j, d)} :: d in y.deps <==> LinkedId(line, j, d)
      case MTUpdate => y.deps == if y.parent == -1 then {} else {y.parent}
      case _ => y.deps == {}
  }

  /** Every write of the plan depends on exactly the items it is linked to, and lookups depend on nothing. */
  ghost predicate Recorded(out: seq<Item>, mt: MType) {
    forall j {:trigger RecordedAt(out, mt, j)} :: 0 <= j < |out| ==> RecordedAt(out, mt, j)
  }

  // ---- Before the plan is finished ----

  /** What is known of every item of an insert's line. */
  ghost predicate InsertItemOk(line: seq<Item>, j: int)
    requires 0 <= j < |line|
  {
    var y := line[j];
    && (Conn(y) ==> j + 1 < |line| && (Conn(line[j + 1]) || line[j + 1].render))
    && (Conn(y) ==> forall k {:trigger NextWrite(line, j, k)} :: 0 <= k < |line| && NextWrite(line, j, k) ==> LookedUpFor(y, line[k]))
    && (!Conn(y) ==> y.rel.kind in (if y.parent == -1 then {NoRel} else {OneToOne, OneToMany}))
    && (!Conn(y) && y.render ==> RecordedAt(line, MTInsert, j))
    && (!Conn(y) ==> forall i {:trigger line[i]} :: 0 <= i < |line| && !Conn(line[i]) && line[i].id == y.parent ==>
          y.table == ChildTable(y.rel, line[i].table))
  }

  ghost predicate LinkInv(line: seq<Item>, mt: MType) {
    match mt
    case MTInsert => forall j {:trigger InsertItemOk(line, j)} :: 0 <= j < |line| ==> InsertItemOk(line, j)
    case MTUpdate => forall j {:trigger line[j]} :: 0 <= j < |line| && line[j].render ==> RecordedAt(line, mt, j)
    case _ => forall j {:trigger line[j]} :: 0 <= j < |line| ==> line[j].rel.kind == NoRel && line[j].deps == {}
  }

  /** A line whose items are all ready is recorded. */
  lemma ReadyIsRecorded(out: seq<Item>, next: int, mt: MType)
    requires LinkInv(out, mt) && Inv(out, |out|, next, mt)
    ensures Recorded(out, mt)
  {
    forall j {:trigger RecordedAt(out, mt, j)} | 0 <= j < |out| ensures RecordedAt(out, mt, j) {
      assert ItemOk(out, j, mt) && out[j].render;
      if mt == MTInsert {
        assert InsertItemOk(out, j);
      }
    }
  }

  // ---- One expansion of an insert ----

  /** What takes an insert's place: its lookups, itself with its dependencies, and its nested writes. */
  ghost predicate TakesPlace(blk: seq<Item>, c: int, x: Item, next: int) {
    && 0 <= c < |blk| && !Conn(x) && !Conn(blk[c]) && blk[c].render
    && blk[c].id == x.id && blk[c].parent == x.parent && blk[c].rel == x.rel && blk[c].table == x.table
    && (forall k {:trigger blk[k]} :: 0 <= k < |blk| && k != c ==> blk[k].id >= next && !blk[k].render && (Conn(blk[k]) <==> k < c))
    && (forall k {:trigger blk[k]} :: 0 <= k < c ==> LookedUpFor(blk[k], x))
    && (forall k {:trigger blk[k]} :: c < k < |blk| ==>
          blk[k].parent == x.id && blk[k].rel.kind in {OneToOne, OneToMany} && blk[k].table == ChildTable(blk[k].rel, x.table))
    && (forall d {:trigger d in blk[c].deps} {:trigger BlockLink(blk, c, d)} ::
          d in blk[c].deps <==> (ReadsParent(x) && d == x.parent) || BlockLink(blk, c, d))
  }

  ghost predicate BlockLink(blk: seq<Item>, c: int, d: int)
    requires 0 <= c < |blk|
  {
    exists k {:trigger blk[k]} :: 0 <= k < |blk| && blk[k].id == d && (k < c || (k > c && ReadByParent(blk[k], blk[c])))
  }

  /** Items keep their places on either side of the block, and nothing that matters to a link changes. */
  lemma LinkMoves(a: seq<Item>, x: Item, b: seq<Item>, blk: seq<Item>, c: int, next: int, i: int, j: int)
    requires TakesPlace(blk, c, x, next) && 0 <= i < |a + [x] + b| && 0 <= j < |a + [x] + b| && j != |a|
    ensures var n := |blk|;
      && 0 <= Shifted(i, |a|, c, n) < |a + blk + b| && 0 <= Shifted(j, |a|, c, n) < |a + blk + b|
      && (Linked(a + blk + b, Shifted(i, |a|, c, n), Shifted(j, |a|, c, n)) <==> Linked(a + [x] + b, i, j))
  {
    var line, l, n := a + [x] + b, a + blk + b, |blk|;
    ShiftedAt(a, x, b, blk, c, i);
    ShiftedAt(a, x, b, blk, c, j);
    assert line[|a|] == x && l[|a| + c] == blk[c];
    if Conn(line[i]) {
      NextWriteMoves(a, x, b, blk, c, next, i, j);
    }
  }

  lemma NextWriteMoves(a: seq<Item>, x: Item, b: seq<Item>, blk: seq<Item>, c: int, next: int, i: int, j: int)
    requires TakesPlace(blk, c, x, next) && 0 <= i < |a + [x] + b| && 0 <= j < |a + [x] + b| && j != |a| && i != |a|
    ensures var n := |blk|;
      && 0 <= Shifted(i, |a|, c, n) < |a + blk + b| && 0 <= Shifted(j, |a|, c, n) < |a + blk + b|
      && (NextWrite(a + blk + b, Shifted(i, |a|, c, n), Shifted(j, |a|, c, n)) <==> NextWrite(a + [x] + b, i, j))
  {
    var line, l, n := a + [x] + b, a + blk + b, |blk|;
    ShiftedAt(a, x, b, blk, c, i);
    ShiftedAt(a, x, b, blk, c, j);
    assert line[|a|] == x && l[|a| + c] == blk[c];
    var i', j' := Shifted(i, |a|, c, n), Shifted(j, |a|, c, n);
    if i < j && (j < |a| || i > |a|) {
      forall k | i <= k < j ensures l[Shifted(k, |a|, c, n)] == line[k] {
        ShiftedAt(a, x, b, blk, c, k);
      }
      if NextWrite(l, i', j') {
        forall k {:trigger line[k]} | i <= k < j ensures Conn(line[k]) {
          assert Conn(l[Shifted(k, |a|, c, n)]);
        }
      }
      if NextWrite(line, i, j) {
        forall k {:trigger l[k]} | i' <= k < j' ensures Conn(l[k]) {
          var o := if j < |a| then k else k - n + 1;
          assert Shifted(o, |a|, c, n) == k && Conn(line[o]);
        }
      }
    }
  }

  /** A write other than x keeps its dependencies, and they are still those it is linked to. */
  lemma OldRecorded(a: seq<Item>, x: Item, b: seq<Item>, blk: seq<Item>, c: int, next: int, j: int)
    requires TakesPlace(blk, c, x, next) && Inv(a + [x] + b, |a|, next, MTInsert)
    requires 0 <= j < |a + [x] + b| && j != |a| && !Conn((a + [x] + b)[j]) && RecordedAt(a + [x] + b, MTInsert, j)
    ensures 0 <= Shifted(j, |a|, c, |blk|) < |a + blk + b|
    ensures RecordedAt(a + blk + b, MTInsert, Shifted(j, |a|, c, |blk|))
  {
    var line, l, n := a + [x] + b, a + blk + b, |blk|;
    var j' := Shifted(j, |a|, c, n);
    ShiftedAt(a, x, b, blk, c, j);
    forall d ensures LinkedId(l, j', d) <==> LinkedId(line, j, d) {
      OldLinks(a, x, b, blk, c, next, j, d);
    }
  }

  lemma OldLinks(a: seq<Item>, x: Item, b: seq<Item>, blk: seq<Item>, c: int, next: int, j: int, d: int)
    requires TakesPlace(blk, c, x, next) && Inv(a + [x] + b, |a|, next, MTInsert)
    requires 0 <= j < |a + [x] + b| && j != |a| && !Conn((a + [x] + b)[j])
    ensures 0 <= Shifted(j, |a|, c, |blk|) < |a + blk + b|
    ensures LinkedId(a + blk + b, Shifted(j, |a|, c, |blk|), d) <==> LinkedId(a + [x] + b, j, d)
  {
    var line, l, n := a + [x] + b, a + blk + b, |blk|;
    var j' := Shifted(j, |a|, c, n);
    ShiftedAt(a, x, b, blk, c, j);
    if i :| 0 <= i < |line| && line[i].id == d && Linked(line, i, j) {
      LinkMoves(a, x, b, blk, c, next, i, j);
      ShiftedAt(a, x, b, blk, c, i);
      assert l[Shifted(i, |a|, c, n)].id == d;
    }
    if i' :| 0 <= i' < |l| && l[i'].id == d && Linked(l, i', j') {
      if |a| <= i' < |a| + n && i' != |a| + c {
        NewNotLinked(a, x, b, blk, c, next, i' - |a|, j);
        assert false;
      } else {
        var i := if i' < |a| then i' else if i' == |a| + c then |a| else i' - n + 1;
        assert Shifted(i, |a|, c, n) == i';
        ShiftedAt(a, x, b, blk, c, i);
        LinkMoves(a, x, b, blk, c, next, i, j);
        assert line[|a|] == x;
        assert line[i].id == d;
      }
    }
  }

  /** New items are linked to x only. */
  lemma NewNotLinked(a: seq<Item>, x: Item, b: seq<Item>, blk: seq<Item>, c: int, next: int, k: int, j: int)
    requires TakesPlace(blk, c, x, next) && Inv(a + [x] + b, |a|, next, MTInsert) && 0 <= k < |blk| && k != c
    requires 0 <= j < |a + [x] + b| && j != |a| && !Conn((a + [x] + b)[j])
    ensures 0 <= Shifted(j, |a|, c, |blk|) < |a + blk + b|
    ensures !Linked(a + blk + b, |a| + k, Shifted(j, |a|, c, |blk|))
  {
    var line, l, n := a + [x] + b, a + blk + b, |blk|;
    var j' := Shifted(j, |a|, c, n);
    ShiftedAt(a, x, b, blk, c, j);
    assert l[|a| + k] == blk[k] && l[|a| + c] == blk[c] && line[|a|] == x;
    if k < c {
      assert !Conn(l[|a| + c]);
    } else {
      assert ItemOk(line, j, MTInsert) && line[j].id != x.id;
      assert line[j].parent < next;
    }
  }

  /** x itself depends on exactly what it is linked to. */
  lemma NewRecorded(a: seq<Item>, x: Item, b: seq<Item>, blk: seq<Item>, c: int, next: int)
    requires TakesPlace(blk, c, x, next) && Inv(a + [x] + b, |a|, next, MTInsert) && LinkInv(a + [x] + b, MTInsert) && !x.render
    requires 0 <= |a| + c < |a + blk + b|
    ensures RecordedAt(a + blk + b, MTInsert, |a| + c)
  {
    var l, j := a + blk + b, |a| + c;
    assert l[j] == blk[c];
    forall d ensures d in blk[c].deps <==> LinkedId(l, j, d) {
      if d in blk[c].deps {
        NewIsLinked(a, x, b, blk, c, next, d);
      }
      if i :| 0 <= i < |l| && l[i].id == d && Linked(l, i, j) {
        LinkIsNew(a, x, b, blk, c, next, i);
      }
    }
  }

  lemma NewIsLinked(a: seq<Item>, x: Item, b: seq<Item>, blk: seq<Item>, c: int, next: int, d: int)
    requires TakesPlace(blk, c, x, next) && Inv(a + [x] + b, |a|, next, MTInsert) && LinkInv(a + [x] + b, MTInsert) && !x.render
    requires 0 <= |a| + c < |a + blk + b| && d in blk[c].deps
    ensures LinkedId(a + blk + b, |a| + c, d)
  {
    var line, l, j := a + [x] + b, a + blk + b, |a| + c;
    assert line[|a|] == x && l[j] == blk[c];
    if ReadsParent(x) && d == x.parent {
      assert InsertItemOk(line, |a|) && ItemOk(line, |a|, MTInsert);
      var i :| 0 <= i < |line| && line[i].id == x.parent && line[i].render && !Conn(line[i]) && i < |a|;
      assert l[i] == line[i];
      assert Linked(l, i, j);
    } else {
      assert BlockLink(blk, c, d);
      var k :| 0 <= k < |blk| && blk[k].id == d && (k < c || (k > c && ReadByParent(blk[k], blk[c])));
      assert l[|a| + k] == blk[k];
      if k < c {
        forall m {:trigger l[m]} | |a| + k <= m < j ensures Conn(l[m]) {
          assert l[m] == blk[m - |a|];
        }
        assert NextWrite(l, |a| + k, j);
      }
      assert Linked(l, |a| + k, j);
    }
  }

  lemma LinkIsNew(a: seq<Item>, x: Item, b: seq<Item>, blk: seq<Item>, c: int, next: int, i: int)
    requires TakesPlace(blk, c, x, next) && Inv(a + [x] + b, |a|, next, MTInsert) && LinkInv(a + [x] + b, MTInsert) && !x.render
    requires 0 <= |a| + c < |a + blk + b| && 0 <= i < |a + blk + b| && Linked(a + blk + b, i, |a| + c)
    ensures (a + blk + b)[i].id in blk[c].deps
  {
    var line, l, j := a + [x] + b, a + blk + b, |a| + c;
    assert line[|a|] == x && l[j] == blk[c];
    if |a| <= i < |a| + |blk| && i != j {
      assert l[i] == blk[i - |a|];
      if i < j {
        assert BlockLink(blk, c, blk[i - |a|].id);
      } else {
        NewChild(a, x, b, blk, c, next, i - |a|);
      }
    } else {
      OldLinksToX(a, x, b, blk, c, next, i);
    }
  }

  lemma NewChild(a: seq<Item>, x: Item, b: seq<Item>, blk: seq<Item>, c: int, next: int, k: int)
    requires TakesPlace(blk, c, x, next) && Inv(a + [x] + b, |a|, next, MTInsert)
    requires c < k < |blk| && Linked(a + blk + b, |a| + k, |a| + c)
    ensures blk[k].id in blk[c].deps
  {
    var line, l := a + [x] + b, a + blk + b;
    assert line[|a|] == x && l[|a| + c] == blk[c] && l[|a| + k] == blk[k];
    assert ItemOk(line, |a|, MTInsert);
    assert blk[k].id != x.parent;
    assert BlockLink(blk, c, blk[k].id);
  }

  /** Among the items that were there, only x's parent is linked to x. */
  lemma OldLinksToX(a: seq<Item>, x: Item, b: seq<Item>, blk: seq<Item>, c: int, next: int, i: int)
    requires TakesPlace(blk, c, x, next) && Inv(a + [x] + b, |a|, next, MTInsert) && LinkInv(a + [x] + b, MTInsert) && !x.render
    requires 0 <= i < |a + blk + b| && (i < |a| || i >= |a| + |blk| || i == |a| + c) && Linked(a + blk + b, i, |a| + c)
    ensures (a + blk + b)[i].id in blk[c].deps
  {
    var line, l, n := a + [x] + b, a + blk + b, |blk|;
    var o := if i < |a| then i else if i == |a| + c then |a| else i - n + 1;
    assert Shifted(o, |a|, c, n) == i;
    ShiftedAt(a, x, b, blk, c, o);
    assert line[|a|] == x && l[|a| + c] == blk[c];
    assert |a| > 0 ==> l[|a| - 1] == a[|a| - 1];
    FrontIsWrite(a, x, b);
    NoChildYet(a, x, b, next, o);
  }

  lemma FrontIsWrite(a: seq<Item>, x: Item, b: seq<Item>)
    requires LinkInv(a + [x] + b, MTInsert) && !Conn(x) && !x.render
    ensures a != [] ==> !Conn(a[|a| - 1])
  {
    var line := a + [x] + b;
    if a != [] {
      assert line[|a| - 1] == a[|a| - 1] && line[|a|] == x;
      assert InsertItemOk(line, |a| - 1);
    }
  }

  lemma NoChildYet(a: seq<Item>, x: Item, b: seq<Item>, next: int, o: int)
    requires Inv(a + [x] + b, |a|, next, MTInsert) && !x.render && 0 <= o < |a + [x] + b|
    ensures (a + [x] + b)[o].parent != x.id
  {
    var line := a + [x] + b;
    assert ItemOk(line, o, MTInsert) && line[|a|] == x;
    assert line[|a|].id >= 0;
    if line[o].parent != -1 {
      var p :| 0 <= p < |line| && line[p].id == line[o].parent && line[p].render;
      assert p != |a|;
    }
  }

  /** Replacing an insert by its block keeps what is known of all items. */
  lemma ReplaceKeepsLinks(a: seq<Item>, x: Item, b: seq<Item>, blk: seq<Item>, c: int, next: int)
    requires TakesPlace(blk, c, x, next) && Inv(a + [x] + b, |a|, next, MTInsert) && LinkInv(a + [x] + b, MTInsert) && !x.render
    ensures LinkInv(a + blk + b, MTInsert)
  {
    var line, l, n := a + [x] + b, a + blk + b, |blk|;
    forall j {:trigger InsertItemOk(l, j)} | 0 <= j < |l| ensures InsertItemOk(l, j) {
      if |a| <= j < |a| + n {
        NewItemOk(a, x, b, blk, c, next, j - |a|);
      } else {
        OldItemOk(a, x, b, blk, c, next, if j < |a| then j else j - n + 1);
      }
    }
  }

  lemma NewItemOk(a: seq<Item>, x: Item, b: seq<Item>, blk: seq<Item>, c: int, next: int, k: int)
    requires TakesPlace(blk, c, x, next) && Inv(a + [x] + b, |a|, next, MTInsert) && LinkInv(a + [x] + b, MTInsert) && !x.render
    requires 0 <= k < |blk|
    ensures InsertItemOk(a + blk + b, |a| + k)
  {
    var line, l, n := a + [x] + b, a + blk + b, |blk|;
    assert line[|a|] == x && l[|a| + c] == blk[c] && l[|a| + k] == blk[k];
    assert InsertItemOk(line, |a|) && ItemOk(line, |a|, MTInsert);
    if k < c {
      assert l[|a| + k + 1] == blk[k + 1];
      forall m {:trigger l[m]} | |a| <= m < |a| + c ensures Conn(l[m]) {
        assert l[m] == blk[m - |a|];
      }
      forall j {:trigger NextWrite(l, |a| + k, j)} | 0 <= j < |l| && NextWrite(l, |a| + k, j) ensures j == |a| + c {
        assert !Conn(l[|a| + c]);
      }
    } else {
      if k == c {
        NewRecorded(a, x, b, blk, c, next);
      }
      forall i {:trigger l[i]} | 0 <= i < |l| && !Conn(l[i]) && l[i].id == blk[k].parent
        ensures blk[k].table == ChildTable(blk[k].rel, l[i].table)
      {
        if |a| <= i < |a| + n {
          assert l[i] == blk[i - |a|];
        } else {
          ShiftedAt(a, x, b, blk, c, if i < |a| then i else i - n + 1);
          assert line[if i < |a| then i else i - n + 1] == l[i];
        }
      }
    }
  }

  lemma OldReader(a: seq<Item>, x: Item, b: seq<Item>, blk: seq<Item>, c: int, next: int, j: int, k': int)
    requires TakesPlace(blk, c, x, next) && LinkInv(a + [x] + b, MTInsert) && !x.render
    requires 0 <= j < |a + [x] + b| && j != |a| && Conn((a + [x] + b)[j])
    requires 0 <= k' < |a + blk + b| && 0 <= Shifted(j, |a|, c, |blk|) < |a + blk + b|
    requires NextWrite(a + blk + b, Shifted(j, |a|, c, |blk|), k')
    ensures LookedUpFor((a + [x] + b)[j], (a + blk + b)[k'])
  {
    var line, l, n := a + [x] + b, a + blk + b, |blk|;
    var j' := Shifted(j, |a|, c, n);
    assert InsertItemOk(line, j);
    FrontIsWrite(a, x, b);
    assert a != [] ==> l[|a| - 1] == a[|a| - 1];
    if k' < |a| || k' >= |a| + n {
      var k := if k' < |a| then k' else k' - n + 1;
      assert Shifted(k, |a|, c, n) == k';
      ShiftedAt(a, x, b, blk, c, k);
      NextWriteMoves(a, x, b, blk, c, next, j, k);
    }
  }

  lemma OldItemOk(a: seq<Item>, x: Item, b: seq<Item>, blk: seq<Item>, c: int, next: int, j: int)
    requires TakesPlace(blk, c, x, next) && Inv(a + [x] + b, |a|, next, MTInsert) && LinkInv(a + [x] + b, MTInsert) && !x.render
    requires 0 <= j < |a + [x] + b| && j != |a|
    ensures 0 <= Shifted(j, |a|, c, |blk|) < |a + blk + b|
    ensures InsertItemOk(a + blk + b, Shifted(j, |a|, c, |blk|))
  {
    var line, l, n := a + [x] + b, a + blk + b, |blk|;
    var j' := Shifted(j, |a|, c, n);
    ShiftedAt(a, x, b, blk, c, j);
    assert line[|a|] == x && l[|a| + c] == blk[c];
    assert InsertItemOk(line, j) && ItemOk(line, j, MTInsert);
    if Conn(line[j]) {
      assert j + 1 != |a|;
      ShiftedAt(a, x, b, blk, c, j + 1);
      assert l[j' + 1] == line[j + 1];
      forall k' {:trigger NextWrite(l, j', k')} | 0 <= k' < |l| && NextWrite(l, j', k') ensures LookedUpFor(line[j], l[k']) {
        OldReader(a, x, b, blk, c, next, j, k');
      }
    } else {
      if line[j].render {
        OldRecorded(a, x, b, blk, c, next, j);
      }
      forall i {:trigger l[i]} | 0 <= i < |l| && !Conn(l[i]) && l[i].id == line[j].parent
        ensures line[j].table == ChildTable(line[j].rel, l[i].table)
      {
        if |a| <= i < |a| + n {
          assert l[i] == blk[i - |a|];
        } else {
          ShiftedAt(a, x, b, blk, c, if i < |a| then i else i - n + 1);
          assert line[if i < |a| then i else i - n + 1] == l[i];
        }
      }
    }
  }

  // ---- What an expansion of an insert is ----

  /** The nested items of an insert are looked up, or written along a relation. */
  lemma ExpansionIsBlock(x: Item, rel: Rel, items: seq<Item>, next: int, next': int)
    requires x.mtype == MTInsert && x.id < next && x.rel.kind != Recursive && rel == x.rel && (x.parent == -1 ==> x.rel.kind == NoRel)
    requires Numbered(items, next, next') && AllNested(items, x, MTInsert)
    ensures TakesPlace(Rev(PushOrder(Ready(x, rel, items), items)), |Connects(items)|, x, next)
  {
    var m := Ready(x, rel, items);
    var a, b, d := Writes(items, OneToMany), Writes(items, OneToOne), Connects(items);
    var blk, c := Rev(PushOrder(m, items)), |d|;
    assert PushOrder(m, items) == a + b + [m] + d;
    forall k | 0 <= k < |blk| && k != c
      ensures blk[k].id >= next && !blk[k].render && (Conn(blk[k]) <==> k < c)
      ensures k < c ==> LookedUpFor(blk[k], x)
      ensures k > c ==> blk[k].parent == x.id && blk[k].rel.kind in {OneToOne, OneToMany} && blk[k].table == ChildTable(blk[k].rel, x.table)
    {
      BlockItem(x, m, items, next, next', k);
    }
    forall v ensures v in m.deps <==> (ReadsParent(x) && v == x.parent) || BlockLink(blk, c, v) {
      BlockDeps(x, m, items, next, next', v);
    }
  }

  lemma BlockItem(x: Item, m: Item, items: seq<Item>, next: int, next': int, k: int)
    requires Numbered(items, next, next') && AllNested(items, x, MTInsert)
    requires var blk := Rev(Writes(items, OneToMany) + Writes(items, OneToOne) + [m] + Connects(items));
      0 <= k < |blk| && k != |Connects(items)|
    ensures var blk := Rev(Writes(items, OneToMany) + Writes(items, OneToOne) + [m] + Connects(items));
      var v := blk[k];
      && v in items && v.id >= next && !v.render && (Conn(v) <==> k < |Connects(items)|)
      && (k < |Connects(items)| ==> LookedUpFor(v, x))
      && (k > |Connects(items)| ==> v.parent == x.id && v.rel.kind in {OneToOne, OneToMany} && v.table == ChildTable(v.rel, x.table))
  {
    var a, b, d := Writes(items, OneToMany), Writes(items, OneToOne), Connects(items);
    var blk := Rev(a + b + [m] + d);
    PushedAt(a, b, m, d, |blk| - 1 - k);
    WritesOf(items, OneToMany);
    WritesOf(items, OneToOne);
    ConnectsIn(items, next, next');
    assert k < |d| ==> blk[k] in d;
    assert |d| < k <= |d| + |b| ==> blk[k] in b;
    assert k > |d| + |b| ==> blk[k] in a;
    var i :| 0 <= i < |items| && items[i] == blk[k];
  }

  lemma BlockDeps(x: Item, m: Item, items: seq<Item>, next: int, next': int, d: int)
    requires x.mtype == MTInsert && x.rel.kind != Recursive && m == Ready(x, x.rel, items)
    requires Numbered(items, next, next') && AllNested(items, x, MTInsert) && (x.parent == -1 ==> x.rel.kind == NoRel)
    ensures var blk := Rev(Writes(items, OneToMany) + Writes(items, OneToOne) + [m] + Connects(items));
      var c := |Connects(items)|;
      c < |blk| && (d in m.deps <==> (ReadsParent(x) && d == x.parent) || BlockLink(blk, c, d))
  {
    var blk := Rev(Writes(items, OneToMany) + Writes(items, OneToOne) + [m] + Connects(items));
    var c := |Connects(items)|;
    if k :| 0 <= k < |items| && ReadBy(items[k], m.table) && items[k].id == d {
      ReadStands(x, m, items, next, next', k, blk, c);
    }
    if k :| 0 <= k < |blk| && blk[k].id == d && (k < c || (k > c && ReadByParent(blk[k], m))) {
      BlockIsRead(x, m, items, next, next', blk, c, k);
    }
    assert blk[c] == m;
  }

  lemma BlockIsRead(x: Item, m: Item, items: seq<Item>, next: int, next': int, blk: seq<Item>, c: int, k: int)
    requires Numbered(items, next, next') && AllNested(items, x, MTInsert) && m.table == x.table
    requires blk == Rev(Writes(items, OneToMany) + Writes(items, OneToOne) + [m] + Connects(items)) && c == |Connects(items)|
    requires 0 <= k < |blk| && k != c && (k > c ==> ReadByParent(blk[k], m))
    ensures blk[k].id in ReadIds(m.table, items)
  {
    BlockItem(x, m, items, next, next', k);
    var i :| 0 <= i < |items| && items[i] == blk[k];
    assert Nested(items[i], x, MTInsert);
    assert ReadBy(items[i], m.table);
  }

  lemma ReadStands(x: Item, m: Item, items: seq<Item>, next: int, next': int, i: int, blk: seq<Item>, c: int)
    requires Numbered(items, next, next') && AllNested(items, x, MTInsert) && m.table == x.table && m.id == x.id
    requires blk == Rev(Writes(items, OneToMany) + Writes(items, OneToOne) + [m] + Connects(items)) && c == |Connects(items)|
    requires 0 <= i < |items| && ReadBy(items[i], m.table)
    ensures 0 <= c < |blk| && BlockLink(blk, c, items[i].id)
  {
    var a, b, d := Writes(items, OneToMany), Writes(items, OneToOne), Connects(items);
    var v := items[i];
    assert Nested(v, x, MTInsert) && v in items;
    var p: int;
    if v.mtype == MTConnect {
      ConnectsIn(items, next, next');
      assert v in d;
      p :| 0 <= p < |d| && d[p] == v;
      p := |a| + |b| + 1 + p;
    } else {
      WritesOf(items, OneToMany);
      assert Chosen(v, OneToMany) && v in a;
      p :| 0 <= p < |a| && a[p] == v;
    }
    StandsAt(a, b, m, d, v, p, blk);
  }

  lemma StandsAt(a: seq<Item>, b: seq<Item>, m: Item, d: seq<Item>, v: Item, p: int, blk: seq<Item>)
    requires blk == Rev(a + b + [m] + d)
    requires (0 <= p < |a| && v == a[p] && ReadByParent(v, m)) || (|a| + |b| < p <= |a| + |b| + |d| && v == d[p - |a| - |b| - 1])
    ensures |d| < |blk| && BlockLink(blk, |d|, v.id)
  {
    PushedAt(a, b, m, d, p);
    assert blk[|blk| - 1 - p] == v && blk[|d|] == m;
  }

  // ---- Every round ----

  /** A lookup that comes off the stack is only marked ready. */
  lemma ReadyKeepsLinks(a: seq<Item>, x: Item, b: seq<Item>)
    requires LinkInv(a + [x] + b, MTInsert) && Conn(x) && !x.render
    ensures LinkInv(a + [x.(render := true)] + b, MTInsert)
  {
    var line, l := a + [x] + b, a + [x.(render := true)] + b;
    forall j {:trigger InsertItemOk(l, j)} | 0 <= j < |l| ensures InsertItemOk(l, j) {
      assert InsertItemOk(line, j);
      assert l[j] == if j == |a| then x.(render := true) else line[j];
      if !Conn(line[j]) && line[j].render {
        forall d ensures LinkedId(l, j, d) <==> LinkedId(line, j, d) {
          SameLinks(a, x, b, j, d);
        }
      }
      forall i {:trigger l[i]} | 0 <= i < |l| && !Conn(l[i]) && l[i].id == l[j].parent ensures line[i] == l[i] {
      }
      forall k {:trigger NextWrite(l, j, k)} | 0 <= k < |l| && NextWrite(l, j, k) ensures NextWrite(line, j, k) && line[k] == l[k] {
        SameWrites(a, x, b);
      }
    }
  }

  lemma SameWrites(a: seq<Item>, x: Item, b: seq<Item>)
    requires Conn(x)
    ensures forall i, j {:trigger NextWrite(a + [x] + b, i, j)} {:trigger NextWrite(a + [x.(render := true)] + b, i, j)} ::
      0 <= i < |a + [x] + b| && 0 <= j < |a + [x] + b| ==>
        (NextWrite(a + [x.(render := true)] + b, i, j) <==> NextWrite(a + [x] + b, i, j))
  {
    var line, l := a + [x] + b, a + [x.(render := true)] + b;
    forall i {:trigger line[i]} {:trigger l[i]} | 0 <= i < |line| ensures l[i] == if i == |a| then x.(render := true) else line[i] {
    }
  }

  lemma SameLinks(a: seq<Item>, x: Item, b: seq<Item>, j: int, d: int)
    requires Conn(x) && 0 <= j < |a + [x] + b|
    ensures LinkedId(a + [x.(render := true)] + b, j, d) <==> LinkedId(a + [x] + b, j, d)
  {
    var line, l := a + [x] + b, a + [x.(render := true)] + b;
    forall i {:trigger line[i]} {:trigger l[i]} | 0 <= i < |line| ensures l[i] == if i == |a| then x.(render := true) else line[i] {
    }
    SameWrites(a, x, b);
    forall i | 0 <= i < |line| ensures Linked(l, i, j) <==> Linked(line, i, j) {
    }
    if i :| 0 <= i < |line| && line[i].id == d && Linked(line, i, j) {
      assert l[i].id == d;
    }
    if i :| 0 <= i < |l| && l[i].id == d && Linked(l, i, j) {
      assert line[i].id == d;
    }
  }

  lemma InsertStepLinks(sch: Schema, a: seq<Item>, x: Item, b: seq<Item>, next: int)
    requires Inv(a + [x] + b, |a|, next, MTInsert) && LinkInv(a + [x] + b, MTInsert) && !x.render
    requires Expand(sch, MTInsert, x, next).Planned?
    ensures LinkInv(a + Rev(Expand(sch, MTInsert, x, next).items) + b, MTInsert)
  {
    var line := a + [x] + b;
    assert line[|a|] == x && ItemOk(line, |a|, MTInsert) && InsertItemOk(line, |a|);
    if Conn(x) {
      ReadyKeepsLinks(a, x, b);
      assert Rev([x.(render := true)]) == [x.(render := true)];
    } else {
      var rel, items, next' := NestedOf(sch, MTInsert, x, next);
      ExpansionIsBlock(x, rel, items, next, next');
      ReplaceKeepsLinks(a, x, b, Rev(PushOrder(Ready(x, rel, items), items)), |Connects(items)|, next);
    }
  }

  /** An update's item depends on its parent, and its nested items are not ready yet. */
  lemma UpdateStepLinks(sch: Schema, a: seq<Item>, x: Item, b: seq<Item>, next: int)
    requires Inv(a + [x] + b, |a|, next, MTUpdate) && LinkInv(a + [x] + b, MTUpdate) && !x.render
    requires Expand(sch, MTUpdate, x, next).Planned?
    ensures LinkInv(a + Rev(Expand(sch, MTUpdate, x, next).items) + b, MTUpdate)
  {
    var line := a + [x] + b;
    assert line[|a|] == x && ItemOk(line, |a|, MTUpdate);
    var blk := Rev(Expand(sch, MTUpdate, x, next).items);
    forall k {:trigger blk[k]} | 0 <= k < |blk| ensures blk[k].render ==> RecordedAt(blk, MTUpdate, k) {
      if !Conn(x) {
        var rel, items, next' := NestedOf(sch, MTUpdate, x, next);
        assert k > 0 ==> blk[k] == items[|items| - k];
      }
    }
    var l := a + blk + b;
    forall j {:trigger l[j]} | 0 <= j < |l| && l[j].render ensures RecordedAt(l, MTUpdate, j) {
      if j < |a| {
        assert line[j] == l[j];
      } else if j < |a| + |blk| {
        assert l[j] == blk[j - |a|];
      } else {
        assert line[j - |blk| + 1] == l[j];
      }
    }
  }

  /** Every round keeps the links. */
  lemma StepKeepsLinks(sch: Schema, mt: MType, out: seq<Item>, st: seq<Item>, next: int)
    requires mt !in {MTConnect, MTDisconnect} && PlanInv(out, st, next, mt) && LinkInv(Line(out, st), mt) && st != []
    requires Step(sch, mt, out, st, next).Went?
    ensures var r := Step(sch, mt, out, st, next);
      LinkInv(Line(r.out, r.st), mt)
  {
    var n := |st| - 1;
    var top, below := st[n], st[..n];
    TopInLine(out, st);
    if top.render {
      LineMoved(out, st);
    } else {
      var r := Expand(sch, mt, top, next);
      LineReplaced(out, below, r.items);
      match mt
      case MTInsert => InsertStepLinks(sch, out, top, Rev(below), next);
      case MTUpdate => UpdateStepLinks(sch, out, top, Rev(below), next);
      case _ => OtherStepLinks(sch, mt, out, top, Rev(below), next);
    }
  }

  lemma OtherStepLinks(sch: Schema, mt: MType, a: seq<Item>, x: Item, b: seq<Item>, next: int)
    requires mt in {MTUpsert, MTDelete} && Inv(a + [x] + b, |a|, next, mt) && LinkInv(a + [x] + b, mt) && !x.render
    requires Expand(sch, mt, x, next).Planned?
    ensures LinkInv(a + Rev(Expand(sch, mt, x, next).items) + b, mt)
  {
    var line := a + [x] + b;
    assert line[|a|] == x && ItemOk(line, |a|, mt);
    var blk := Rev(Expand(sch, mt, x, next).items);
    assert |blk| == 1 && blk[0].rel.kind == NoRel && blk[0].deps == {};
    var l := a + blk + b;
    forall j {:trigger l[j]} | 0 <= j < |l| ensures l[j].rel.kind == NoRel && l[j].deps == {} {
      if j < |a| {
        assert line[j] == l[j];
      } else if j > |a| {
        assert line[j] == l[j];
      }
    }
  }

  /** Roots alone are linked to nothing. */
  lemma RootsLinked(line: seq<Item>, next: int, mt: MType)
    requires Inv(line, 0, next, mt)
    requires forall j {:trigger line[j]} :: 0 <= j < |line| ==>
      line[j].parent == -1 && line[j].mtype == mt && line[j].rel.kind == NoRel && line[j].deps == {}
    requires mt !in {MTConnect, MTDisconnect}
    ensures LinkInv(line, mt)
  {
    if mt == MTInsert {
      forall j {:trigger InsertItemOk(line, j)} | 0 <= j < |line| ensures InsertItemOk(line, j) {
        assert line[j].parent == -1;
      }
    }
  }

  /** So they are linked after any number of rounds. */
  lemma {:induction false} AfterKeepsLinks(sch: Schema, mt: MType, p: Plan, k: nat, q: Plan)
    requires mt !in {MTConnect, MTDisconnect} && Sound(p, mt) && LinkInv(Known(p), mt) && After(sch, mt, p, k) == Some(q)
    ensures LinkInv(Known(q), mt)
    decreases k
  {
    if k > 0 {
      var r := After(sch, mt, p, k - 1).value;
      AfterKeeps(sch, mt, p, k - 1, r);
      AfterKeepsLinks(sch, mt, p, k - 1, r);
      if r.st != [] {
        StepKeepsLinks(sch, mt, r.out, r.st, r.next);
      }
    }
  }

  // ---- What a finished plan records ----

  /**
   Under an insert the edge between a nested write and its parent is recorded in one direction at most: the write depends
   on its parent along a one-to-one relation, and along a one-to-many relation that leads away from the parent's table;
   the parent depends on the write along a one-to-many relation that leads to the parent's table.
   */
  lemma EdgeRecordedOnce(out: seq<Item>, next: int, i: int, j: int)
    requires Finished(out, next, MTInsert) && LinkInv(out, MTInsert)
    requires 0 <= i < |out| && 0 <= j < |out| && !Conn(out[i]) && !Conn(out[j]) && out[j].parent == out[i].id
    ensures var c, p := out[j], out[i];
      && (p.id in c.deps <==> c.rel.kind == OneToOne || (c.rel.right != p.table && c.rel.left != c.rel.right))
      && (c.id in p.deps <==> c.rel.kind == OneToMany && c.rel.right == p.table)
      && c.rel.kind in {OneToOne, OneToMany}
  {
    ReadyIsRecorded(out, next, MTInsert);
    assert InsertItemOk(out, j) && InsertItemOk(out, i) && ItemOk(out, j, MTInsert) && ItemOk(out, i, MTInsert);
    assert RecordedAt(out, MTInsert, j) && RecordedAt(out, MTInsert, i);
    assert out[i].id in out[j].deps <==> LinkedId(out, j, out[i].id);
    assert out[j].id in out[i].deps <==> LinkedId(out, i, out[j].id);
    assert Linked(out, i, j) <==> ReadsParent(out[j]);
    assert Linked(out, j, i) <==> ReadByParent(out[j], out[i]);
  }

  /** Under an insert every lookup is read by exactly one write, in whose payload it was nested: the next one. */
  lemma {:induction false} LookupReadOnce(out: seq<Item>, next: int, i: int) returns (j: int)
    requires Finished(out, next, MTInsert) && LinkInv(out, MTInsert) && 0 <= i < |out| && Conn(out[i])
    ensures i < j < |out| && NextWrite(out, i, j) && LookedUpFor(out[i], out[j])
    ensures forall k {:trigger out[k]} :: 0 <= k < |out| ==> (out[i].id in out[k].deps <==> k == j)
  {
    j := FirstWrite(out, i);
    assert InsertItemOk(out, i);
    ReadyIsRecorded(out, next, MTInsert);
    forall k {:trigger out[k]} | 0 <= k < |out| ensures out[i].id in out[k].deps <==> k == j {
      assert RecordedAt(out, MTInsert, k);
      assert Linked(out, i, j);
      if !Conn(out[k]) {
        assert out[i].id in out[k].deps <==> LinkedId(out, k, out[i].id);
      }
    }
  }

  lemma {:induction false} FirstWrite(out: seq<Item>, i: int) returns (j: int)
    requires LinkInv(out, MTInsert) && 0 <= i < |out| && Conn(out[i])
    ensures i < j < |out| && NextWrite(out, i, j)
    decreases |out| - i
  {
    assert InsertItemOk(out, i);
    j := i + 1;
    if Conn(out[j]) {
      j := FirstWrite(out, i + 1);
    }
  }

  /** Under an insert a write depends on nothing but its parent, nested writes and lookups. */
  lemma NothingElseRecorded(out: seq<Item>, next: int, i: int, j: int)
    requires Finished(out, next, MTInsert) && LinkInv(out, MTInsert) && 0 <= i < |out| && 0 <= j < |out| && out[i].id in out[j].deps
    ensures !Conn(out[j])
    ensures out[j].parent == out[i].id || out[i].parent == out[j].id || (Conn(out[i]) && LookedUpFor(out[i], out[j]))
  {
    ReadyIsRecorded(out, next, MTInsert);
    assert RecordedAt(out, MTInsert, j) && InsertItemOk(out, i);
    var k :| 0 <= k < |out| && out[k].id == out[i].id && Linked(out, k, j);
    assert k == i;
  }
}
