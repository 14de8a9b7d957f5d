/**
 What the plan of a mutation promises once it is complete: dependencies never
 form a cycle, reads follow writes, and re-indexing gives valid positions.
 */
module MutationOrder {
  import opened MutationItems
  import opened MutationPlan

  /** A finished plan: everything is emitted. */
  ghost predicate Finished(out: seq<Item>, next: int, mt: MType) {
    Inv(out, |out|, next, mt)
  }

  // ---- No cycles ----

  /** The position of the item with the given id. */
  function IndexOf(out: seq<Item>, id: int): (r: int)
    ensures -1 <= r < |out|
    ensures r >= 0 ==> out[r].id == id
  {
    if out == [] then -1
    else if out[|out| - 1].id == id then |out| - 1
    else IndexOf(out[..|out| - 1], id)
  }

  lemma {:induction false} IndexOfAt(out: seq<Item>, i: int)
    requires DistinctIds(out) && 0 <= i < |out|
    ensures IndexOf(out, out[i].id) == i
    decreases |out|
  {
    if i < |out| - 1 {
      assert out[i].id != out[|out| - 1].id;
      IndexOfAt(out[..|out| - 1], i);
    }
  }

  /**
   How far down the reads an item stands: one more than its parent if it reads the parent, one less if the parent
   reads it. Lookups read nothing and stand below everything.
   */
  ghost function Rank(out: seq<Item>, next: int, mt: MType, j: int): int
    requires Finished(out, next, mt) && 0 <= j < |out|
    decreases out[j].id
  {
    var y := out[j];
    if Conn(y) then -next - 1
    else if y.parent == -1 then 0
    else
      assert ItemOk(out, j, mt);
      var i := ParentIndex(out, next, mt, j);
      Rank(out, next, mt, i) + if y.parent in y.deps then 1 else if y.id in out[i].deps then -1 else 0
  }

  ghost function ParentIndex(out: seq<Item>, next: int, mt: MType, j: int): (i: int)
    requires Finished(out, next, mt) && 0 <= j < |out| && out[j].parent != -1
    ensures 0 <= i < |out| && out[i].id == out[j].parent && out[i].render && !Conn(out[i]) && (Conn(out[j]) || i < j)
    ensures 0 <= out[i].id < out[j].id
  {
    assert ItemOk(out, j, mt);
    var i :| 0 <= i < |out| && out[i].id == out[j].parent && out[i].render && !Conn(out[i]) && (Conn(out[j]) || i < j);
    i
  }

  lemma {:induction false} RankAbove(out: seq<Item>, next: int, mt: MType, j: int)
    requires Finished(out, next, mt) && 0 <= j < |out| && !Conn(out[j])
    ensures Rank(out, next, mt, j) >= -out[j].id
    decreases out[j].id
  {
    if out[j].parent != -1 {
      RankAbove(out, next, mt, ParentIndex(out, next, mt, j));
    }
  }

  lemma SameIndex(out: seq<Item>, i: int, k: int)
    requires DistinctIds(out) && 0 <= i < |out| && 0 <= k < |out| && out[i].id == out[k].id
    ensures i == k
  {
  }

  /** What an item depends on has a lower rank. */
  lemma DependencyRanksLower(out: seq<Item>, next: int, mt: MType, j: int, d: int)
    requires Finished(out, next, mt) && 0 <= j < |out| && d in out[j].deps
    ensures var i := IndexOf(out, d);
      0 <= i < |out| && Rank(out, next, mt, i) < Rank(out, next, mt, j)
  {
    assert ItemOk(out, j, mt);
    assert DepOk(out, j, d);
    var i :| 0 <= i < |out| && out[i].id == d && Edge(out, i, j);
    IndexOfAt(out, i);
    RankAbove(out, next, mt, j);
    if Conn(out[i]) {
    } else if i < j {
      SameIndex(out, i, ParentIndex(out, next, mt, j));
    } else {
      SameIndex(out, j, ParentIndex(out, next, mt, i));
      assert ItemOk(out, i, mt);
    }
  }

  /** Each step of path leads from an item to one it depends on. */
  ghost predicate DependencyPath(out: seq<Item>, path: seq<int>) {
    && |path| >= 1
    && (forall k {:trigger path[k]} :: 0 <= k < |path| ==> 0 <= path[k] < |out|)
    && (forall k {:trigger path[k]} :: 0 <= k < |path| - 1 ==> out[path[k + 1]].id in out[path[k]].deps)
  }

  lemma {:induction false} RanksFall(out: seq<Item>, next: int, mt: MType, path: seq<int>)
    requires Finished(out, next, mt) && DependencyPath(out, path) && |path| >= 2
    ensures Rank(out, next, mt, path[|path| - 1]) < Rank(out, next, mt, path[0])
    decreases |path|
  {
    var n := |path| - 1;
    var from, to := path[n - 1], path[n];
    assert out[path[n - 1 + 1]].id in out[path[n - 1]].deps;
    DependencyRanksLower(out, next, mt, from, out[to].id);
    IndexOfAt(out, to);
    if n > 1 {
      var front := path[..n];
      forall k | 0 <= k < |front| - 1 ensures out[front[k + 1]].id in out[front[k]].deps {
        assert front[k] == path[k] && front[k + 1] == path[k + 1];
      }
      RanksFall(out, next, mt, front);
    }
  }

  /** Following dependencies never leads back to where one started. */
  lemma NoCycles(out: seq<Item>, next: int, mt: MType, path: seq<int>)
    requires Finished(out, next, mt) && DependencyPath(out, path) && |path| >= 2
    ensures path[0] != path[|path| - 1]
  {
    RanksFall(out, next, mt, path);
  }

  /** Every dependency is on an item of the plan. */
  lemma DependenciesPlanned(out: seq<Item>, next: int, mt: MType, j: int, d: int)
    requires Finished(out, next, mt) && 0 <= j < |out| && d in out[j].deps
    ensures 0 <= IndexOf(out, d) < |out| && out[IndexOf(out, d)].id == d
  {
    assert ItemOk(out, j, mt) && DepOk(out, j, d);
    var i :| 0 <= i < |out| && out[i].id == d && Edge(out, i, j);
    IndexOfAt(out, i);
  }

  // ---- The order of writes ----

  /**
   What an item reads is emitted before it, except for items on the parent's side of a one-to-many relation, which
   come later although the insert reads them.
   */
  lemma ReadsComeFirst(out: seq<Item>, next: int, mt: MType, j: int, d: int)
    requires Finished(out, next, mt) && 0 <= j < |out| && d in out[j].deps
    ensures var i := IndexOf(out, d);
      0 <= i < |out| && out[i].id == d && (i < j <==> !Upward(out[i], out[j])) && i != j
  {
    assert ItemOk(out, j, mt) && DepOk(out, j, d);
    var i :| 0 <= i < |out| && out[i].id == d && Edge(out, i, j);
    IndexOfAt(out, i);
    if i < j {
      ParentFirst(out, next, mt, i);
      if Upward(out[i], out[j]) {
        var p := ParentIndex(out, next, mt, i);
        SameIndex(out, p, j);
      }
    }
  }

  /** A written item comes after its parent. */
  lemma ParentFirst(out: seq<Item>, next: int, mt: MType, j: int)
    requires Finished(out, next, mt) && 0 <= j < |out|
    ensures out[j].parent != -1 && !Conn(out[j]) ==> 0 <= IndexOf(out, out[j].parent) < j
  {
    if out[j].parent != -1 {
      IndexOfAt(out, ParentIndex(out, next, mt, j));
    }
  }

  // ---- Re-indexing ----

  /** The item with its position as id and its parent's position as parent. */
  function Reindexed(out: seq<Item>): (r: seq<Item>)
    ensures |r| == |out|
  {
    seq(|out|, i requires 0 <= i < |out| => out[i].(id := i, parent := IndexOf(out, out[i].parent)))
  }

  /** Ids are positions; parents are positions of written items, in front of every item that is written. */
  lemma ReindexedValid(out: seq<Item>, next: int, mt: MType, j: int)
    requires Finished(out, next, mt) && 0 <= j < |out|
    ensures var r := Reindexed(out);
      && r[j].id == j && -1 <= r[j].parent < |out|
      && (r[j].parent == -1 <==> out[j].parent == -1)
      && (r[j].parent >= 0 ==> out[r[j].parent].id == out[j].parent && !Conn(out[r[j].parent]))
      && (r[j].parent >= 0 && !Conn(out[j]) ==> r[j].parent < j)
  {
    if out[j].parent != -1 {
      IndexOfAt(out, ParentIndex(out, next, mt, j));
    } else {
      NoSuchId(out, -1);
    }
  }

  lemma {:induction false} NoSuchId(out: seq<Item>, id: int)
    requires forall i {:trigger out[i]} :: 0 <= i < |out| ==> out[i].id != id
    ensures IndexOf(out, id) == -1
  {
    if out != [] {
      NoSuchId(out[..|out| - 1], id);
    }
  }

  // ---- Nothing is lost ----

  /** Under an insert, lookups and items along one-to-one and one-to-many relations are all planned, once. */
  lemma {:induction false} InsertPlansAll(items: seq<Item>)
    requires forall v <- items :: v.mtype == MTConnect || v.rel.kind in {OneToOne, OneToMany}
    ensures multiset(Writes(items, OneToMany)) + multiset(Writes(items, OneToOne)) + multiset(Connects(items)) == multiset(items)
    decreases |items|
  {
    if items != [] {
      var n := |items| - 1;
      assert items == items[..n] + [items[n]];
      InsertPlansAll(items[..n]);
    }
  }

  /** A nested self-reference is not among them: its item gets an id, but is not planned. */
  lemma {:induction false} RecursiveNotPlanned(m: Item, items: seq<Item>, v: Item)
    requires m.mtype == MTInsert && v.mtype != MTConnect && v.rel.kind == Recursive && v != m
    ensures v !in PushOrder(m, items)
  {
    NotWritten(items, v);
  }

  lemma {:induction false} NotWritten(items: seq<Item>, v: Item)
    requires v.mtype != MTConnect && v.rel.kind == Recursive
    ensures v !in Writes(items, OneToMany) && v !in Writes(items, OneToOne) && v !in Connects(items)
    decreases |items|
  {
    if items != [] {
      NotWritten(items[..|items| - 1], v);
    }
  }
}
