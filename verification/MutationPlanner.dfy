/**
 The planner as the program runs it: a stack of items, the emitted items, the
 next free id and a map from ids to positions, all updated in place.
 */
module MutationPlanner {
  import opened Common
  import opened MutationItems
  import opened MutationPlan
  import opened MutationOrder
  import opened MutationRun
  import opened MutationDeps

  /** A root of the mutation: its select, its table, its payload, and whether it has a filter. */
  datatype RootSpec = RootSpec(selID: nat, table: Table, data: Payload, isJSON: bool, filtered: bool)

  function RootItem(mt: MType, r: RootSpec, id: int): Item {
    Item(id, -1, mt, r.table.name, Rel(NoRel, NoTable(), NoTable()), r.table, r.selID, r.data, r.isJSON, mt == MTDelete, {})
  }

  function RootItems(sch: Schema, mt: MType, r: RootSpec, id: int): seq<Item> {
    var it := RootItem(mt, r, id);
    if mt != MTDelete && r.data.List? then ListItems(sch, it) else [it]
  }

  // ---- Lists ----

  /** Every key of every element, once, in order. */
  method UnionOf(es: seq<Payload>) returns (p: Payload)
    ensures p == UnionOfElements(es)
  {
    var ms: seq<Member> := [];
    var seen: set<string> := {};
    var i := 0;
    while i < |es|
      invariant 0 <= i <= |es|
      invariant UnionMembers(ms, es[i..]) == UnionMembers([], es)
      invariant SeenNames(seen, ms)
    {
      ms, seen := AddElement(ms, seen, Members(es[i]));
      assert es[i..][1..] == es[i + 1..];
      i := i + 1;
    }
    assert es[i..] == [];
    p := Obj(ms);
  }

  ghost predicate SeenNames(seen: set<string>, ms: seq<Member>) {
    forall name :: name in seen <==> Knows(ms, name)
  }

  method AddElement(ms: seq<Member>, seen: set<string>, more: seq<Member>) returns (all: seq<Member>, known: set<string>)
    requires SeenNames(seen, ms)
    ensures all == AddNew(ms, more) && SeenNames(known, all)
  {
    all, known := ms, seen;
    var j := 0;
    while j < |more|
      invariant 0 <= j <= |more|
      invariant AddNew(all, more[j..]) == AddNew(ms, more)
      invariant SeenNames(known, all)
    {
      var c := more[j];
      assert more[j..][1..] == more[j + 1..];
      if c.name !in known {
        forall name ensures name in known + {c.name} <==> Knows(all + [c], name) {
          KnowsAppend(all, c, name);
        }
        all, known := all + [c], known + {c.name};
      }
      j := j + 1;
    }
    assert more[j..] == [];
  }

  /** One item for a list that comes as JSON, one per element for an inline list. */
  method ProcessList(sch: Schema, it: Item) returns (items: seq<Item>)
    requires it.data.List?
    ensures items == ListItems(sch, it)
  {
    var es := it.data.elems;
    if !sch.mongo && it.isJSON {
      if |es| == 0 {
        return [it.(data := EmptyPayload(sch, it.table))];
      }
      var u := UnionOf(es);
      return [it.(data := u)];
    }
    items := [];
    var i := 0;
    while i < |es|
      invariant 0 <= i <= |es|
      invariant items == PerElement(it, es)[..i]
    {
      items := items + [it.(id := it.id + i, data := es[i])];
      i := i + 1;
    }
  }

  // ---- The planner ----

  class Planner {
    const sch: Schema
    const mt: MType
    var st: seq<Item>
    var mutates: seq<Item>
    var mmap: map<int, int>
    var id: int

    constructor (sch: Schema, mt: MType)
      ensures this.sch == sch && this.mt == mt && st == [] && mutates == [] && mmap == map[-1 := -1] && id == 0
    {
      this.sch, this.mt, st, mutates, mmap, id := sch, mt, [], [], map[-1 := -1], 0;
    }

    /** The items of a key without a relation. */
    method ProcessKey(m: Item, name: string, data: Payload, isJSON: bool) returns (ok: bool, items: seq<Item>)
      modifies this`id
      ensures Did(ok, items, KeyItems(sch, mt, m, name, data, isJSON, old(id)))
    {
      items, ok := [], true;
      var col := sch.column(m.table, name);
      if col != NoColumn {
        ok := col == JsonColumn || (col == ArrayColumn && data.List?);
        return;
      }
      match KeywordOf(mt, name)
      case NotKeyword => ok := false;
      case Ignored =>
      case Acts(ty) =>
        items := [NewItem(id, m.parent, ty, name, Rel(NoRel, NoTable(), NoTable()), m.table, data, isJSON)];
        id := id + 1;
    }

    /** The call planned what r says. */
    ghost predicate Did(ok: bool, items: seq<Item>, r: Planned)
      reads this`id
    {
      ok == r.Planned? && (ok ==> items == r.items && id == r.next)
    }

    /** The items of a key that names a relation. */
    method ProcessRelation(m: Item, mem: Member, found: Rel, data: Payload, isJSON: bool)
      returns (ok: bool, items: seq<Item>)
      modifies this`id
      ensures Did(ok, items, RelationItems(sch, mt, m, mem, found, data, isJSON, old(id)))
    {
      items, ok := [], true;
      var filter := ConnectFilter(mem.value);
      if filter.Some? && mt == MTInsert {
        items := [NewItem(id, m.id, MTConnect, mem.name, found, ConnectTable(found, m.table), filter.value, false)];
        id := id + 1;
        ok := sch.filterOk(filter.value);
        return;
      }
      var rel := found;
      if data.List? && mt == MTInsert {
        if rel.kind == OneToOne {
          rel := ReverseRel(rel);
        }
      }
      if data.List? && rel.kind != OneToMany {
        return false, items;
      }
      var ty := mt;
      if rel.kind == OneToMany && mt == MTUpdate {
        ty := MTConnect;
      }
      var ti := rel.left;
      if rel.kind == OneToMany && rel.right != m.table {
        ti := rel.right;
      }
      var mi := NewItem(id, m.id, ty, mem.name, rel, ti, data, isJSON);
      id := id + 1;
      if data.List? {
        items := ProcessList(sch, mi);
        if |items| > 1 {
          id := id + |items| - 1;
        }
      } else {
        items := [mi];
      }
    }

    /** All nested items of m, and m's own relation settled. */
    method ProcessNestedMutations(m: Item) returns (ok: bool, items: seq<Item>, rel: Rel)
      modifies this`id
      ensures var r := NestedItems(sch, mt, m, Members(m.data), [], old(id));
        && ok == (r.Planned? && WhereOk(sch, m.data) && OwnRel(mt, m).Some?)
        && (ok ==> items == r.items && id == r.next && rel == OwnRel(mt, m).value)
    {
      var ms := Members(m.data);
      items, rel, ok := [], m.rel, true;
      var i := 0;
      while i < |ms|
        invariant 0 <= i <= |ms|
        invariant NestedItems(sch, mt, m, ms[i..], items, id) == NestedItems(sch, mt, m, ms, [], old(id))
      {
        ghost var rest, had, from := ms[i..], items, id;
        assert rest[1..] == ms[i + 1..];
        var resolved := Resolve(ms[i].value);
        if resolved.Some? {
          var more;
          var isJSON := m.isJSON || ms[i].value.Bound?;
          var path := sch.findPath(ms[i].name, m.key);
          if path.None? {
            ok, more := ProcessKey(m, ms[i].name, resolved.value, isJSON);
          } else {
            ok, more := ProcessRelation(m, ms[i], path.value, resolved.value, isJSON);
          }
          if !ok {
            return;
          }
          items := items + more;
        } else {
          assert had + [] == had;
        }
        i := i + 1;
      }
      assert ms[i..] == [];
      if !WhereOk(sch, m.data) {
        return false, items, rel;
      }
      var own := OwnRel(mt, m);
      if own.None? {
        return false, items, rel;
      }
      rel := own.value;
    }

    /** The dependencies of m, and whether its columns are accepted. */
    method AddTablesAndColumns(m: Item, items: seq<Item>) returns (ok: bool, ready: Item)
      requires m.deps == {}
      ensures ready == m.(deps := DepsOf(m, items)) && ok == sch.columnsOk(ready, items)
    {
      var deps: set<int> := {};
      if m.mtype == MTInsert {
        if m.rel.kind == OneToOne {
          deps := deps + {m.parent};
        }
        if m.rel.kind == OneToMany && m.parent != -1 && m.rel.left != m.table {
          deps := deps + {m.parent};
        }
        var k := 0;
        ghost var own := deps;
        while k < |items|
          invariant 0 <= k <= |items|
          invariant deps == own + (set j | 0 <= j < k && items[j].mtype == MTConnect :: items[j].id)
        {
          if items[k].mtype == MTConnect {
            deps := deps + {items[k].id};
          }
          k := k + 1;
        }
        k := 0;
        ghost var found := deps;
        while k < |items|
          invariant 0 <= k <= |items|
          invariant deps == found + (set j | 0 <= j < k && items[j].mtype != MTConnect && ReadBy(items[j], m.table) :: items[j].id)
        {
          var v := items[k];
          if v.mtype != MTConnect && v.rel.kind == OneToMany && v.rel.right == m.table {
            deps := deps + {v.id};
          }
          k := k + 1;
        }
        ReadSplit(m.table, items);
      } else if m.mtype == MTUpdate {
        if m.parent != -1 {
          deps := deps + {m.parent};
        }
      } else if m.rel.kind == OneToOne {
        deps := deps + {m.parent};
      }
      ready := m.(deps := deps);
      ok := sch.columnsOk(ready, items);
    }

    /** Expands an item: its nested items and itself go on the stack in the order in which they must come off. */
    method NewMutate(m: Item) returns (ok: bool)
      requires m.deps == {} && !m.render
      modifies this`st, this`id
      ensures var r := Expand(sch, mt, m, old(id));
        ok == r.Planned? && (ok ==> st == old(st) + r.items && id == r.next)
    {
      if m.mtype == MTConnect || m.mtype == MTDisconnect {
        st := st + [m.(render := true)];
        return true;
      }
      var items, rel, ready;
      ok, items, rel := ProcessNestedMutations(m);
      if !ok {
        return;
      }
      ok, ready := AddTablesAndColumns(m.(rel := rel), items);
      if !ok {
        return;
      }
      ready := ready.(render := true);
      PushAll(ready, items);
    }

    method PushAll(m: Item, items: seq<Item>)
      modifies this`st
      ensures st == old(st) + PushOrder(m, items)
    {
      if m.mtype == MTInsert {
        PushWrites(items, OneToMany);
        PushWrites(items, OneToOne);
        st := st + [m];
        PushConnects(items);
        Associate(old(st), Writes(items, OneToMany), Writes(items, OneToOne), [m], Connects(items));
      } else if m.mtype == MTUpdate {
        st := st + items;
        st := st + [m];
      } else if m.mtype == MTUpsert {
        st := st + [m];
      }
    }

    method PushWrites(items: seq<Item>, kind: RelKind)
      modifies this`st
      ensures st == old(st) + Writes(items, kind)
    {
      var k := 0;
      while k < |items|
        invariant 0 <= k <= |items|
        invariant st == old(st) + Writes(items[..k], kind)
      {
        assert items[..k + 1][..k] == items[..k];
        if items[k].mtype != MTConnect && items[k].rel.kind == kind {
          st := st + [items[k]];
        }
        k := k + 1;
      }
      assert items[..k] == items;
    }

    method PushConnects(items: seq<Item>)
      modifies this`st
      ensures st == old(st) + Connects(items)
    {
      var k := 0;
      while k < |items|
        invariant 0 <= k <= |items|
        invariant st == old(st) + Connects(items[..k])
      {
        assert items[..k + 1][..k] == items[..k];
        if items[k].mtype == MTConnect {
          st := st + [items[k]];
        }
        k := k + 1;
      }
      assert items[..k] == items;
    }

    /** One item per root, or one per element of its list, each with an id of its own. */
    method PushRoots(roots: seq<RootSpec>) returns (ok: bool)
      requires st == [] && id == 0 && mt !in {MTConnect, MTDisconnect}
      modifies this`st, this`id
      ensures ok == (mt == MTInsert || forall k {:trigger roots[k]} :: 0 <= k < |roots| ==> roots[k].filtered)
      ensures ok ==> RootLine(st, id, mt) && st == AllRoots(sch, mt, roots, 0)
    {
      var i := 0;
      ok := true;
      NothingPushed(sch, mt, roots);
      while i < |roots|
        invariant 0 <= i <= |roots|
        invariant RootLine(st, id, mt)
        invariant mt == MTInsert || forall k {:trigger roots[k]} :: 0 <= k < i ==> roots[k].filtered
        invariant Pushed(sch, mt, roots, i, id, st)
      {
        var r := roots[i];
        if mt != MTInsert && !r.filtered {
          return false;
        }
        NextRoot(sch, mt, roots, i, id, st);
        PushRoot(r);
        i := i + 1;
      }
      AllPushed(sch, mt, roots, id, st);
    }

    method PushRoot(r: RootSpec)
      requires mt !in {MTConnect, MTDisconnect}
      modifies this`st, this`id
      ensures st == old(st) + RootItems(sch, mt, r, old(id)) && id == old(id) + |RootItems(sch, mt, r, old(id))|
      ensures old(RootLine(st, id, mt)) ==> RootLine(st, id, mt)
    {
      if RootLine(st, id, mt) {
        RootsGrow(sch, st, id, mt, r);
      }
      var it := RootItem(mt, r, id);
      if mt == MTDelete {
        st := st + [it];
        id := id + 1;
        return;
      }
      if r.data.List? {
        var items := ProcessList(sch, it);
        st := st + items;
        id := id + |items|;
      } else {
        st := st + [it];
        id := id + 1;
      }
    }

    /** Emits the top of the stack, or expands it. */
    method Round() returns (ok: bool)
      requires st != [] && PlanInv(mutates, st, id, mt) && mt !in {MTConnect, MTDisconnect}
      requires MapsEmitted(mmap, mutates)
      modifies this
      ensures var r := Step(sch, mt, old(mutates), old(st), old(id));
        ok == r.Went? && (ok ==> mutates == r.out && st == r.st && id == r.next && MapsEmitted(mmap, mutates))
    {
      var item := st[|st| - 1];
      ghost var line := Line(mutates, st);
      TopInLine(mutates, st);
      assert line[|mutates|] == item && ItemOk(line, |mutates|, mt);
      st := st[..|st| - 1];
      if item.render {
        forall i | 0 <= i < |mutates| ensures mutates[i].id != item.id {
          assert line[i] == mutates[i];
        }
        mmap := mmap[item.id := |mutates|];
        mutates := mutates + [item];
        ok := true;
      } else {
        ok := NewMutate(item);
      }
    }

    /** Replaces ids by positions. An id that the map does not know would become 0. */
    method Reindex()
      requires MapsEmitted(mmap, mutates) && Finished(mutates, id, mt)
      modifies this`mutates
      ensures mutates == Reindexed(old(mutates))
    {
      ghost var out := mutates;
      var i := 0;
      while i < |mutates|
        invariant 0 <= i <= |mutates| == |out|
        invariant forall k {:trigger mutates[k]} :: 0 <= k < i ==> mutates[k] == Reindexed(out)[k]
        invariant forall k {:trigger mutates[k]} :: i <= k < |mutates| ==> mutates[k] == out[k]
      {
        var m := mutates[i];
        ReindexedValid(out, id, mt, i);
        MapFinds(mmap, out, id, mt, i);
        var pid := if m.parent in mmap then mmap[m.parent] else 0;
        mutates := mutates[i := m.(id := mmap[m.id], parent := pid)];
        i := i + 1;
      }
    }

    /** Puts the roots on the stack and starts the ids behind them. */
    method Start(roots: seq<RootSpec>) returns (ok: bool)
      requires st == [] && mutates == [] && id == 0 && mmap == map[-1 := -1] && mt !in {MTConnect, MTDisconnect}
      modifies this`st, this`id
      ensures ok ==> PlanInv([], st, id, mt) && MapsEmitted(mmap, []) && st == AllRoots(sch, mt, roots, 0)
      ensures ok ==> LinkInv(Line([], st), mt)
    {
      ok := PushRoots(roots);
      if !ok {
        return;
      }
      ghost var low := id;
      if |st| + 1 > id {
        id := |st| + 1;
      }
      StartInv(st, low, id, mt);
      StartLinks(st, low, id, mt);
    }

    /** Takes items off the stack until it is empty: the state after some number of rounds, or a round that fails. */
    method Drain() returns (ok: bool, ghost rounds: nat)
      requires PlanInv(mutates, st, id, mt) && MapsEmitted(mmap, mutates) && mt !in {MTConnect, MTDisconnect}
      modifies this
      ensures ok ==> st == [] && Finished(mutates, id, mt) && MapsEmitted(mmap, mutates)
      ensures After(sch, mt, old(Plan(mutates, st, id)), rounds) == if ok then Some(Plan(mutates, [], id)) else None
    {
      ghost var p := Plan(mutates, st, id);
      rounds := 0;
      while st != []
        invariant PlanInv(mutates, st, id, mt) && MapsEmitted(mmap, mutates)
        invariant After(sch, mt, p, rounds) == Some(Plan(mutates, st, id))
        decreases Weight(st)
      {
        ghost var r := Step(sch, mt, mutates, st, id);
        if r.Went? {
          StepKeepsInv(sch, mt, mutates, st, id);
        }
        rounds := rounds + 1;
        ok := Round();
        if !ok {
          return;
        }
      }
      assert Line(mutates, []) == mutates;
      ok := true;
    }

    /**
     Plans a mutation. When it succeeds the roots have been run to an empty stack, dependencies and parents are as the
     finished plan says, and ids are positions.
     */
    method CompileMutation(roots: seq<RootSpec>) returns (ok: bool, ghost start: Plan, ghost rounds: nat, ghost out: seq<Item>)
      requires st == [] && mutates == [] && id == 0 && mmap == map[-1 := -1] && mt !in {MTConnect, MTDisconnect}
      modifies this
      ensures ok ==> start.out == [] && start.st == AllRoots(sch, mt, roots, 0) && PlanInv([], start.st, start.next, mt)
      ensures ok ==> After(sch, mt, start, rounds) == Some(Plan(out, [], id))
      ensures ok ==> Finished(out, id, mt) && mutates == Reindexed(out) && st == []
      ensures ok ==> Recorded(out, mt) && LinkInv(out, mt)
    {
      start, rounds, out := Plan([], [], 0), 0, [];
      ok := Start(roots);
      if !ok {
        return;
      }
      start := Plan(mutates, st, id);
      ok, rounds := Drain();
      if !ok {
        return;
      }
      out := mutates;
      AfterKeepsLinks(sch, mt, start, rounds, Plan(out, [], id));
      assert Line(out, []) == out;
      ReadyIsRecorded(out, id, mt);
      Reindex();
    }
  }

  /** The items of all roots, with ids from id on. */
  function AllRoots(sch: Schema, mt: MType, roots: seq<RootSpec>, id: int): seq<Item>
    decreases |roots|
  {
    if roots == [] then []
    else
      var items := RootItems(sch, mt, roots[0], id);
      items + AllRoots(sch, mt, roots[1..], id + |items|)
  }

  /** The items of the first i roots are on the stack, and those of the others get the ids from id on. */
  ghost predicate Pushed(sch: Schema, mt: MType, roots: seq<RootSpec>, i: nat, id: int, st: seq<Item>)
    requires i <= |roots|
  {
    st + AllRoots(sch, mt, roots[i..], id) == AllRoots(sch, mt, roots, 0)
  }

  lemma NothingPushed(sch: Schema, mt: MType, roots: seq<RootSpec>)
    ensures Pushed(sch, mt, roots, 0, 0, [])
  {
    assert roots[0..] == roots;
  }

  lemma AllPushed(sch: Schema, mt: MType, roots: seq<RootSpec>, id: int, st: seq<Item>)
    requires Pushed(sch, mt, roots, |roots|, id, st)
    ensures st == AllRoots(sch, mt, roots, 0)
  {
    assert st + [] == st;
  }

  lemma NextRoot(sch: Schema, mt: MType, roots: seq<RootSpec>, i: nat, id: int, st: seq<Item>)
    requires i < |roots| && Pushed(sch, mt, roots, i, id, st)
    ensures var items := RootItems(sch, mt, roots[i], id);
      Pushed(sch, mt, roots, i + 1, id + |items|, st + items)
  {
    assert roots[i..][1..] == roots[i + 1..];
  }

  /** Items of roots: nothing above them, ids ascending below next. */
  ghost predicate RootLine(st: seq<Item>, next: int, mt: MType) {
    && Numbered(st, 0, next) && |st| <= next
    && forall k {:trigger st[k]} :: 0 <= k < |st| ==>
         st[k].parent == -1 && st[k].mtype == mt && st[k].rel.kind == NoRel && st[k].deps == {} && (mt == MTDelete ==> st[k].render)
  }

  lemma RootsGrow(sch: Schema, st: seq<Item>, id: int, mt: MType, r: RootSpec)
    requires RootLine(st, id, mt)
    ensures RootLine(st + RootItems(sch, mt, r, id), id + |RootItems(sch, mt, r, id)|, mt)
  {
    var items := RootItems(sch, mt, r, id);
    assert Numbered(items, id, id + |items|);
  }

  lemma StartLinks(st: seq<Item>, low: int, next: int, mt: MType)
    requires RootLine(st, low, mt) && PlanInv([], st, next, mt) && mt !in {MTConnect, MTDisconnect}
    ensures LinkInv(Line([], st), mt)
  {
    var line := Line([], st);
    assert line == Rev(st);
    assert forall j {:trigger line[j]} :: 0 <= j < |line| ==> line[j] == st[|st| - 1 - j];
    RootsLinked(line, next, mt);
  }

  /** Roots alone satisfy the invariant. */
  lemma StartInv(st: seq<Item>, low: int, next: int, mt: MType)
    requires RootLine(st, low, mt) && low <= next
    ensures PlanInv([], st, next, mt)
  {
    var line := Line([], st);
    assert line == Rev(st);
    forall j, k | 0 <= j < k < |line| ensures line[j].id != line[k].id {
      assert st[|st| - 1 - k].id < st[|st| - 1 - j].id;
    }
    forall j {:trigger ItemOk(line, j, mt)} | 0 <= j < |line| ensures ItemOk(line, j, mt) {
      RootOk(st, low, mt, line, j);
    }
  }

  lemma RootOk(st: seq<Item>, low: int, mt: MType, line: seq<Item>, j: int)
    requires RootLine(st, low, mt) && line == Rev(st) && 0 <= j < |line|
    ensures ItemOk(line, j, mt) && 0 <= line[j].id < low
  {
    assert line[j] == st[|st| - 1 - j];
  }

  /** The map knows every emitted item's position, and that -1 is -1. */
  ghost predicate MapsEmitted(mmap: map<int, int>, out: seq<Item>) {
    && (forall i {:trigger out[i]} :: 0 <= i < |out| ==> out[i].id in mmap && mmap[out[i].id] == i && out[i].id >= 0)
    && -1 in mmap && mmap[-1] == -1
  }

  /** So it gives ids and parents their positions. */
  lemma MapFinds(mmap: map<int, int>, out: seq<Item>, next: int, mt: MType, i: int)
    requires MapsEmitted(mmap, out) && Finished(out, next, mt) && 0 <= i < |out|
    ensures out[i].id in mmap && mmap[out[i].id] == i
    ensures out[i].parent in mmap && mmap[out[i].parent] == IndexOf(out, out[i].parent)
  {
    ReindexedValid(out, next, mt, i);
    if out[i].parent != -1 {
      assert out[IndexOf(out, out[i].parent)].id == out[i].parent;
    }
  }

  lemma Associate(s: seq<Item>, a: seq<Item>, b: seq<Item>, c: seq<Item>, d: seq<Item>)
    ensures s + a + b + c + d == s + (a + b + c + d)
  {
  }

  lemma ReadSplit(table: Table, items: seq<Item>)
    ensures (set j | 0 <= j < |items| && items[j].mtype == MTConnect :: items[j].id)
      + (set j | 0 <= j < |items| && items[j].mtype != MTConnect && ReadBy(items[j], table) :: items[j].id)
      == ReadIds(table, items)
  {
  }
}
