/**
 The planner's stack machine. Items come off a stack, are expanded into
 themselves and their nested items, and come off again to be emitted.
 */
module MutationPlan {
  import opened Common
  import opened MutationItems

  // ---- What one item's nested items look like ----

  /** A nested item of m, not expanded yet. */
  ghost predicate Nested(v: Item, m: Item, mt: MType) {
    && !v.render && v.deps == {}
    && v.mtype in {mt, MTConnect, MTDisconnect}
    && (v.mtype == MTDisconnect ==> mt != MTInsert)
    && (v.parent == m.id || (Conn(v) && v.parent == m.parent && v.rel.kind == NoRel))
    && (!Conn(v) ==> v.parent == m.id && v.table == ChildTable(v.rel, m.table))
  }

  /** Ids from lo up to hi, ascending. */
  ghost predicate Numbered(items: seq<Item>, lo: int, hi: int) {
    && lo <= hi
    && (forall k {:trigger items[k]} :: 0 <= k < |items| ==> lo <= items[k].id < hi)
    && (forall j, k {:trigger items[j], items[k]} :: 0 <= j < k < |items| ==> items[j].id < items[k].id)
  }

  ghost predicate AllNested(items: seq<Item>, m: Item, mt: MType) {
    forall k {:trigger items[k]} :: 0 <= k < |items| ==> Nested(items[k], m, mt)
  }

  /** How many rounds the items may still cause, at most. */
  function Weight(items: seq<Item>): nat {
    if items == [] then 0
    else Weight(items[..|items| - 1]) + ItemWeight(items[|items| - 1])
  }

  function ItemWeight(it: Item): nat {
    if it.render then 1 else 2 * Size(it.data) + 2
  }

  lemma {:induction false} WeightAppend(a: seq<Item>, b: seq<Item>)
    ensures Weight(a + b) == Weight(a) + Weight(b)
    decreases |b|
  {
    if b == [] {
      assert a + b == a;
    } else {
      var n := |b| - 1;
      assert (a + b)[..|a| + n] == a + b[..n];
      WeightAppend(a, b[..n]);
    }
  }

  lemma WeightOne(it: Item)
    ensures Weight([it]) == ItemWeight(it)
  {
    assert [it][..0] == [];
  }

  lemma {:induction false} PerElementWeight(it: Item, es: seq<Payload>)
    requires !it.render
    ensures Weight(PerElement(it, es)) <= 2 * ElemsSize(es)
    decreases |es|
  {
    if es != [] {
      var rest := PerElement(it.(id := it.id + 1), es[1..]);
      PerElementWeight(it.(id := it.id + 1), es[1..]);
      assert PerElement(it, es) == [it.(data := es[0])] + rest;
      WeightAppend([it.(data := es[0])], rest);
      WeightOne(it.(data := es[0]));
    }
  }

  lemma UnionItemWeight(sch: Schema, it: Item)
    requires it.data.List? && !it.render
    ensures var data := if it.data.elems == [] then EmptyPayload(sch, it.table) else UnionOfElements(it.data.elems);
      ItemWeight(it.(data := data)) <= ItemWeight(it)
  {
    UnionSize([], it.data.elems);
    PlainSize(EmptyPayload(sch, it.table).members);
  }

  /** A list's items weigh no more than the list as one item. */
  lemma ListItemsFit(sch: Schema, it: Item, m: Item, mt: MType)
    requires it.data.List? && Nested(it, m, mt)
    ensures var ml := ListItems(sch, it);
      && AllNested(ml, m, mt) && Weight(ml) <= ItemWeight(it)
      && Numbered(ml, it.id, it.id + 1 + if |ml| > 1 then |ml| - 1 else 0)
  {
    var ml := ListItems(sch, it);
    if sch.mongo || !it.isJSON {
      PerElementWeight(it, it.data.elems);
    } else {
      UnionItemWeight(sch, it);
      WeightOne(ml[0]);
      assert ml == [ml[0]];
    }
  }

  lemma ConnectFilterFits(v: Payload)
    ensures ConnectFilter(v).Some? ==> Size(ConnectFilter(v).value) < Size(v)
  {
    if v.Obj? {
      LookupFits(v.members, "connect");
    }
  }

  ghost predicate Fits(r: Planned, m: Item, mt: MType, next: int, room: int)
    requires r.Planned?
  {
    AllNested(r.items, m, mt) && Numbered(r.items, next, r.next) && Weight(r.items) <= room
  }

  lemma OneFits(it: Item, m: Item, mt: MType, next: int, room: int)
    requires Nested(it, m, mt) && it.id == next && 2 * Size(it.data) + 2 <= room
    ensures Fits(Planned([it], next + 1), m, mt, next, room)
  {
    WeightOne(it);
  }

  lemma KeyItemsFit(sch: Schema, mt: MType, m: Item, name: string, data: Payload, isJSON: bool, next: int)
    requires KeyItems(sch, mt, m, name, data, isJSON, next).Planned?
    ensures Fits(KeyItems(sch, mt, m, name, data, isJSON, next), m, mt, next, 2 * Size(data) + 2)
  {
    var r := KeyItems(sch, mt, m, name, data, isJSON, next);
    if r.items != [] {
      assert r.items == [r.items[0]];
      OneFits(r.items[0], m, mt, next, 2 * Size(data) + 2);
    }
  }

  lemma RelationItemsFit(sch: Schema, mt: MType, m: Item, mem: Member, rel: Rel, data: Payload, isJSON: bool, next: int)
    requires RelationItems(sch, mt, m, mem, rel, data, isJSON, next).Planned? && !(mt in {MTConnect, MTDisconnect})
    requires Size(data) <= Size(mem.value)
    ensures Fits(RelationItems(sch, mt, m, mem, rel, data, isJSON, next), m, mt, next, 2 * Size(mem.value) + 2)
  {
    var room := 2 * Size(mem.value) + 2;
    var r := RelationItems(sch, mt, m, mem, rel, data, isJSON, next);
    ConnectFilterFits(mem.value);
    if mt == MTInsert && ConnectFilter(mem.value).Some? {
      assert r.items == [r.items[0]];
      OneFits(r.items[0], m, mt, next, room);
    } else {
      var it := RelationItem(mt, m, mem.name, NestedRel(mt, rel, data), data, isJSON, next);
      assert Nested(it, m, mt);
      if data.List? {
        ListItemsFit(sch, it, m, mt);
      } else {
        OneFits(it, m, mt, next, room);
      }
    }
  }

  /** The items of one key are nested items with fresh ids and a smaller payload. */
  lemma MemberItemsFit(sch: Schema, mt: MType, m: Item, mem: Member, next: int)
    requires MemberItems(sch, mt, m, mem, next).Planned? && mt !in {MTConnect, MTDisconnect}
    ensures Fits(MemberItems(sch, mt, m, mem, next), m, mt, next, 2 * MemberSize(mem))
  {
    if Resolve(mem.value).Some? {
      var data := Resolve(mem.value).value;
      var isJSON := m.isJSON || mem.value.Bound?;
      match sch.findPath(mem.name, m.key)
      case None => KeyItemsFit(sch, mt, m, mem.name, data, isJSON, next);
      case Some(rel) => RelationItemsFit(sch, mt, m, mem, rel, data, isJSON, next);
    }
  }

  lemma {:induction false} NestedItemsFit(sch: Schema, mt: MType, m: Item, ms: seq<Member>, acc: seq<Item>, lo: int, next: int)
    requires mt !in {MTConnect, MTDisconnect} && NestedItems(sch, mt, m, ms, acc, next).Planned?
    requires AllNested(acc, m, mt) && Numbered(acc, lo, next)
    ensures var r := NestedItems(sch, mt, m, ms, acc, next);
      && AllNested(r.items, m, mt) && Numbered(r.items, lo, r.next)
      && Weight(r.items) <= Weight(acc) + 2 * MembersSize(ms)
    decreases |ms|
  {
    if ms != [] {
      var one := MemberItems(sch, mt, m, ms[0], next);
      MemberItemsFit(sch, mt, m, ms[0], next);
      WeightAppend(acc, one.items);
      NestedItemsFit(sch, mt, m, ms[1..], acc + one.items, lo, one.next);
    }
  }

  // ---- Expanding one item ----

  function Connects(items: seq<Item>): seq<Item> {
    if items == [] then []
    else Connects(items[..|items| - 1]) + if items[|items| - 1].mtype == MTConnect then [items[|items| - 1]] else []
  }

  /** The items of a kind of relation that are written, not looked up. */
  function Writes(items: seq<Item>, kind: RelKind): seq<Item> {
    if items == [] then []
    else
      var v := items[|items| - 1];
      Writes(items[..|items| - 1], kind) + if v.mtype != MTConnect && v.rel.kind == kind then [v] else []
  }

  /** What goes on the stack for m once its nested items are known, m itself now ready to be emitted. */
  function PushOrder(m: Item, items: seq<Item>): seq<Item> {
    match m.mtype
    case MTInsert => Writes(items, OneToMany) + Writes(items, OneToOne) + [m] + Connects(items)
    case MTUpdate => items + [m]
    case MTUpsert => [m]
    case _ => []
  }

  /** m with its dependencies, ready. */
  ghost function Ready(m: Item, rel: Rel, items: seq<Item>): Item {
    m.(rel := rel, render := true, deps := DepsOf(m.(rel := rel), items))
  }

  /** The pushes of one expansion and the next free id. */
  ghost function Expand(sch: Schema, mt: MType, m: Item, next: int): Planned {
    if Conn(m) then Planned([m.(render := true)], next)
    else
      var r := NestedItems(sch, mt, m, Members(m.data), [], next);
      if r.Refused? || !WhereOk(sch, m.data) || OwnRel(mt, m).None? then Refused
      else
        var ready := Ready(m, OwnRel(mt, m).value, r.items);
        if sch.columnsOk(ready.(render := false), r.items) then Planned(PushOrder(ready, r.items), r.next) else Refused
  }

  // ---- The line ----

  function Rev(s: seq<Item>): (r: seq<Item>)
    ensures |r| == |s|
  {
    seq(|s|, i requires 0 <= i < |s| => s[|s| - 1 - i])
  }

  /** The emitted items, then those on the stack from the top down: the order in which everything known comes out. */
  function Line(out: seq<Item>, st: seq<Item>): seq<Item> {
    out + Rev(st)
  }

  /** One round: emits the top of the stack or replaces it by its expansion. */
  datatype Round = Failed | Went(out: seq<Item>, st: seq<Item>, next: int)

  ghost function Step(sch: Schema, mt: MType, out: seq<Item>, st: seq<Item>, next: int): Round
    requires st != []
  {
    var top, below := st[|st| - 1], st[..|st| - 1];
    if top.render then Went(out + [top], below, next)
    else
      var r := Expand(sch, mt, top, next);
      if r.Refused? then Failed else Went(out, below + r.items, r.next)
  }

  // ---- The invariant ----

  /** y reads c, which stands on the parent's side: c is written later and never reads y. */
  ghost predicate Upward(c: Item, y: Item) {
    c.mtype == MTInsert && c.parent == y.id && c.rel.kind == OneToMany && c.rel.right == y.table && c.table == c.rel.left
  }

  /** The dependency of y, at j, on the item at i is one of the three allowed ones. */
  ghost predicate Edge(line: seq<Item>, i: int, j: int)
    requires 0 <= i < |line| && 0 <= j < |line|
  {
    || (i < j && line[i].id == line[j].parent && !Conn(line[i]))
    || (i < j && Conn(line[i]))
    || (i > j && Upward(line[i], line[j]))
  }

  ghost predicate DepOk(line: seq<Item>, j: int, d: int)
    requires 0 <= j < |line|
  {
    exists i {:trigger line[i]} :: 0 <= i < |line| && line[i].id == d && Edge(line, i, j)
  }

  /** The parent is in the line, expanded, and in front unless the item is a lookup. */
  ghost predicate ParentOk(line: seq<Item>, j: int)
    requires 0 <= j < |line|
  {
    line[j].parent == -1 ||
    (0 <= line[j].parent < line[j].id &&
      exists i {:trigger line[i]} :: 0 <= i < |line| && line[i].id == line[j].parent && line[i].render && !Conn(line[i])
        && (Conn(line[j]) || i < j))
  }

  /** An item on the parent's side does not depend on its parent. */
  ghost predicate NoReturn(c: Item) {
    !Conn(c) && c.rel.kind == OneToMany && c.table == c.rel.left && c.mtype == MTInsert ==> c.parent !in c.deps
  }

  ghost predicate ItemOk(line: seq<Item>, j: int, mt: MType)
    requires 0 <= j < |line|
  {
    var y := line[j];
    && ParentOk(line, j)
    && y.mtype in {mt, MTConnect, MTDisconnect}
    && (Conn(y) || !y.render ==> y.deps == {})
    && (y.parent == -1 ==> y.rel.kind == NoRel)
    && NoReturn(y)
    && forall d {:trigger DepOk(line, j, d)} :: d in y.deps ==> DepOk(line, j, d)
  }

  ghost predicate DistinctIds(line: seq<Item>) {
    forall j, k {:trigger line[j], line[k]} :: 0 <= j < k < |line| ==> line[j].id != line[k].id
  }

  ghost predicate Inv(line: seq<Item>, done: int, next: int, mt: MType) {
    && 0 <= done <= |line| && DistinctIds(line)
    && (forall j {:trigger line[j]} :: 0 <= j < |line| ==> 0 <= line[j].id < next)
    && (forall j {:trigger line[j]} :: 0 <= j < |line| && (j < done || mt == MTDelete) ==> line[j].render)
    && (forall j {:trigger ItemOk(line, j, mt)} :: 0 <= j < |line| ==> ItemOk(line, j, mt))
  }

  // ---- One expansion keeps the invariant ----

  /** blk, with x made ready at c, can take x's place: lookups in front, fresh ids, dependencies inside or on the parent. */
  ghost predicate Block(blk: seq<Item>, c: int, x: Item, next: int, next': int, mt: MType) {
    && 0 <= c < |blk| && DistinctIds(blk) && next <= next'
    && blk[c].id == x.id && blk[c].parent == x.parent && blk[c].mtype == x.mtype && blk[c].table == x.table
    && blk[c].render && (x.rel.kind != Recursive ==> blk[c].rel == x.rel) && (x.rel.kind == NoRel <==> blk[c].rel.kind == NoRel)
    && NoReturn(blk[c]) && (Conn(x) ==> blk[c].deps == {})
    && (forall k {:trigger blk[k]} :: 0 <= k < |blk| && k != c ==>
          next <= blk[k].id < next' && Nested(blk[k], x, mt) && !Conn(x) && (k < c ==> Conn(blk[k])))
    && (forall d {:trigger InnerDep(blk, c, d)} :: d in blk[c].deps ==>
          (d == x.parent && d != -1) || InnerDep(blk, c, d))
  }

  ghost predicate InnerDep(blk: seq<Item>, c: int, d: int)
    requires 0 <= c < |blk|
  {
    exists k {:trigger blk[k]} :: 0 <= k < |blk| && blk[k].id == d &&
      ((k < c && Conn(blk[k])) || (k > c && Upward(blk[k], blk[c])))
  }

  /** Where the item at i of a line goes when the one at a makes room for n. */
  function Shifted(i: int, a: int, c: int, n: int): int {
    if i < a then i else if i == a then a + c else i + n - 1
  }

  lemma ShiftedAt(a: seq<Item>, x: Item, b: seq<Item>, blk: seq<Item>, c: int, i: int)
    requires 0 <= c < |blk| && 0 <= i < |a + [x] + b|
    ensures 0 <= Shifted(i, |a|, c, |blk|) < |a + blk + b|
    ensures (a + blk + b)[Shifted(i, |a|, c, |blk|)] == if i == |a| then blk[c] else (a + [x] + b)[i]
  {
  }

  lemma ReplaceIds(a: seq<Item>, x: Item, b: seq<Item>, blk: seq<Item>, c: int, next: int, next': int, mt: MType)
    requires Block(blk, c, x, next, next', mt) && Inv(a + [x] + b, |a|, next, mt)
    ensures DistinctIds(a + blk + b)
    ensures forall j {:trigger (a + blk + b)[j]} :: 0 <= j < |a + blk + b| ==> 0 <= (a + blk + b)[j].id < next'
  {
    var line, l := a + [x] + b, a + blk + b;
    forall i | 0 <= i < |a| ensures a[i].id != x.id && 0 <= a[i].id < next {
      assert line[i] == a[i] && line[|a|] == x;
    }
    forall i | 0 <= i < |b| ensures b[i].id != x.id && 0 <= b[i].id < next {
      assert line[|a| + 1 + i] == b[i] && line[|a|] == x;
    }
    assert line[|a|] == x;
    forall i, j | 0 <= i < |a| && 0 <= j < |b| ensures a[i].id != b[j].id {
      assert line[i] == a[i] && line[|a| + 1 + j] == b[j];
    }
    forall i, j | 0 <= i < j < |a| ensures a[i].id != a[j].id {
      assert line[i] == a[i] && line[j] == a[j];
    }
    forall i, j | 0 <= i < j < |b| ensures b[i].id != b[j].id {
      assert line[|a| + 1 + i] == b[i] && line[|a| + 1 + j] == b[j];
    }
  }

  lemma ReplaceOld(a: seq<Item>, x: Item, b: seq<Item>, blk: seq<Item>, c: int, next: int, next': int, mt: MType, j: int)
    requires Block(blk, c, x, next, next', mt) && Inv(a + [x] + b, |a|, next, mt) && !x.render
    requires 0 <= j < |a + [x] + b| && j != |a|
    ensures ItemOk(a + blk + b, Shifted(j, |a|, c, |blk|), mt)
  {
    var line, l := a + [x] + b, a + blk + b;
    var j' := Shifted(j, |a|, c, |blk|);
    ShiftedAt(a, x, b, blk, c, j);
    assert ItemOk(line, j, mt);
    if line[j].parent != -1 {
      var i :| 0 <= i < |line| && line[i].id == line[j].parent && line[i].render && !Conn(line[i]) && (Conn(line[j]) || i < j);
      assert i != |a|;
      ShiftedAt(a, x, b, blk, c, i);
      assert l[Shifted(i, |a|, c, |blk|)] == line[i];
    }
    forall d {:trigger DepOk(l, j', d)} | d in line[j].deps ensures DepOk(l, j', d) {
      assert DepOk(line, j, d);
      var i :| 0 <= i < |line| && line[i].id == d && Edge(line, i, j);
      ShiftedAt(a, x, b, blk, c, i);
      var i' := Shifted(i, |a|, c, |blk|);
      assert l[i'].id == d;
      assert Edge(l, i', j');
    }
  }

  lemma ReplaceNew(a: seq<Item>, x: Item, b: seq<Item>, blk: seq<Item>, c: int, next: int, next': int, mt: MType, k: int)
    requires Block(blk, c, x, next, next', mt) && Inv(a + [x] + b, |a|, next, mt) && !x.render
    requires 0 <= k < |blk| && mt !in {MTConnect, MTDisconnect}
    ensures ItemOk(a + blk + b, |a| + k, mt)
  {
    var line, l := a + [x] + b, a + blk + b;
    var j' := |a| + k;
    assert line[|a|] == x && l[j'] == blk[k] && l[|a| + c] == blk[c];
    assert ItemOk(line, |a|, mt);
    ReplaceParent(a, x, b, blk, c, next, next', mt);
    if k == c {
      forall d {:trigger DepOk(l, j', d)} | d in blk[c].deps ensures DepOk(l, j', d) {
        if d == x.parent && d != -1 {
          assert !Conn(x);
          var i :| 0 <= i < |line| && line[i].id == x.parent && line[i].render && !Conn(line[i]) && i < |a|;
          assert l[i] == line[i];
          assert Edge(l, i, j');
        } else {
          assert InnerDep(blk, c, d);
          var i :| 0 <= i < |blk| && blk[i].id == d && ((i < c && Conn(blk[i])) || (i > c && Upward(blk[i], blk[c])));
          assert l[|a| + i] == blk[i];
          assert Edge(l, |a| + i, j');
        }
      }
    } else {
      assert Nested(blk[k], x, mt);
      assert 0 <= line[|a|].id < next;
      if blk[k].parent == x.id {
        assert l[|a| + c].id == x.id && l[|a| + c].render && !Conn(l[|a| + c]);
      }
    }
  }

  /** x's own parent is in front of the block, and where it was. */
  lemma ReplaceParent(a: seq<Item>, x: Item, b: seq<Item>, blk: seq<Item>, c: int, next: int, next': int, mt: MType)
    requires Block(blk, c, x, next, next', mt) && Inv(a + [x] + b, |a|, next, mt) && !x.render
    ensures ParentOk(a + blk + b, |a| + c)
    ensures x.parent != -1 ==> exists i {:trigger (a + blk + b)[i]} ::
      0 <= i < |a + blk + b| && (a + blk + b)[i].id == x.parent && (a + blk + b)[i].render && !Conn((a + blk + b)[i])
  {
    var line, l := a + [x] + b, a + blk + b;
    assert line[|a|] == x && l[|a| + c] == blk[c];
    assert ItemOk(line, |a|, mt);
    if x.parent != -1 {
      var i :| 0 <= i < |line| && line[i].id == x.parent && line[i].render && !Conn(line[i]) && (Conn(x) || i < |a|);
      assert i != |a|;
      ShiftedAt(a, x, b, blk, c, i);
      assert l[Shifted(i, |a|, c, |blk|)] == line[i];
    }
  }

  /** Replacing the item in line by its block keeps the invariant. */
  lemma ReplaceKeepsInv(a: seq<Item>, x: Item, b: seq<Item>, blk: seq<Item>, c: int, next: int, next': int, mt: MType)
    requires Block(blk, c, x, next, next', mt) && Inv(a + [x] + b, |a|, next, mt) && !x.render
    requires mt !in {MTConnect, MTDisconnect}
    ensures Inv(a + blk + b, |a|, next', mt)
  {
    var line, l := a + [x] + b, a + blk + b;
    ReplaceIds(a, x, b, blk, c, next, next', mt);
    forall j {:trigger ItemOk(l, j, mt)} | 0 <= j < |l| ensures ItemOk(l, j, mt) {
      if j < |a| {
        ReplaceOld(a, x, b, blk, c, next, next', mt, j);
      } else if j < |a| + |blk| {
        ReplaceNew(a, x, b, blk, c, next, next', mt, j - |a|);
      } else {
        ReplaceOld(a, x, b, blk, c, next, next', mt, j - |blk| + 1);
      }
    }
    assert line[|a|] == x;
    assert mt != MTDelete;
    forall j | 0 <= j < |a| ensures l[j].render {
      assert line[j] == l[j];
    }
  }

  // ---- An expansion is such a block ----

  predicate Chosen(v: Item, kind: RelKind) {
    v.mtype != MTConnect && v.rel.kind == kind
  }

  lemma {:induction false} WritesIn(items: seq<Item>, kind: RelKind, lo: int, hi: int)
    requires Numbered(items, lo, hi)
    ensures Numbered(Writes(items, kind), lo, hi)
    ensures forall v {:trigger v in Writes(items, kind)} :: v in Writes(items, kind) <==> v in items && Chosen(v, kind)
    decreases |items|
  {
    WritesOf(items, kind);
    if items != [] {
      var n := |items| - 1;
      WritesIn(items[..n], kind, lo, hi);
      LastIsLargest(items, Writes(items[..n], kind));
    }
  }

  lemma {:induction false} WritesOf(items: seq<Item>, kind: RelKind)
    ensures forall v {:trigger v in Writes(items, kind)} :: v in Writes(items, kind) <==> v in items && Chosen(v, kind)
    decreases |items|
  {
    if items != [] {
      WritesOf(items[..|items| - 1], kind);
      SplitLast(items);
    }
  }

  lemma SplitLast(items: seq<Item>)
    requires items != []
    ensures items == items[..|items| - 1] + [items[|items| - 1]]
    ensures forall v {:trigger v in items} :: v in items <==> v in items[..|items| - 1] || v == items[|items| - 1]
  {
    assert items == items[..|items| - 1] + [items[|items| - 1]];
  }

  lemma {:induction false} ConnectsIn(items: seq<Item>, lo: int, hi: int)
    requires Numbered(items, lo, hi)
    ensures Numbered(Connects(items), lo, hi)
    ensures forall v {:trigger v in Connects(items)} :: v in Connects(items) <==> v in items && v.mtype == MTConnect
    decreases |items|
  {
    if items != [] {
      var n := |items| - 1;
      ConnectsIn(items[..n], lo, hi);
      LastIsLargest(items, Connects(items[..n]));
      SplitLast(items);
    }
  }

  lemma LastIsLargest(items: seq<Item>, w: seq<Item>)
    requires items != [] && forall v {:trigger v in w} :: v in w ==> v in items[..|items| - 1]
    requires forall j, k {:trigger items[j], items[k]} :: 0 <= j < k < |items| ==> items[j].id < items[k].id
    ensures forall k {:trigger w[k]} :: 0 <= k < |w| ==> w[k].id < items[|items| - 1].id
  {
    forall k | 0 <= k < |w| ensures w[k].id < items[|items| - 1].id {
      assert w[k] in w && w[k] in items[..|items| - 1];
      var j :| 0 <= j < |items| - 1 && items[j] == w[k];
    }
  }

  lemma SameId(items: seq<Item>, lo: int, hi: int, u: Item, v: Item)
    requires Numbered(items, lo, hi) && u in items && v in items && u.id == v.id
    ensures u == v
  {
    var j :| 0 <= j < |items| && items[j] == u;
    var k :| 0 <= k < |items| && items[k] == v;
  }

  /** The pushes of an insert have ids of their own, and fit the nested items. */
  lemma PushesDistinct(m: Item, items: seq<Item>, lo: int, hi: int)
    requires Numbered(items, lo, hi) && m.id < lo
    ensures DistinctIds(Writes(items, OneToMany) + Writes(items, OneToOne) + [m] + Connects(items))
  {
    var a, b, d := Writes(items, OneToMany), Writes(items, OneToOne), Connects(items);
    WritesIn(items, OneToMany, lo, hi);
    WritesIn(items, OneToOne, lo, hi);
    ConnectsIn(items, lo, hi);
    forall i, j | 0 <= i < |a| && 0 <= j < |b| ensures a[i].id != b[j].id {
      assert a[i] in a && b[j] in b;
      if a[i].id == b[j].id {
        SameId(items, lo, hi, a[i], b[j]);
      }
    }
    forall i, j | 0 <= i < |a| && 0 <= j < |d| ensures a[i].id != d[j].id {
      assert a[i] in a && d[j] in d;
      if a[i].id == d[j].id {
        SameId(items, lo, hi, a[i], d[j]);
      }
    }
    forall i, j | 0 <= i < |b| && 0 <= j < |d| ensures b[i].id != d[j].id {
      assert b[i] in b && d[j] in d;
      if b[i].id == d[j].id {
        SameId(items, lo, hi, b[i], d[j]);
      }
    }
  }

  lemma RevDistinct(s: seq<Item>)
    requires DistinctIds(s)
    ensures DistinctIds(Rev(s))
  {
    forall j, k | 0 <= j < k < |s| ensures Rev(s)[j].id != Rev(s)[k].id {
      assert s[|s| - 1 - k].id != s[|s| - 1 - j].id;
    }
  }

  /** Where the pushes of an insert stand: items of the payload around the insert itself. */
  lemma PushesPlaces(m: Item, items: seq<Item>, lo: int, hi: int, p: int)
    requires Numbered(items, lo, hi)
    requires var a, b, d := Writes(items, OneToMany), Writes(items, OneToOne), Connects(items);
      0 <= p < |a| + |b| + 1 + |d| && p != |a| + |b|
    ensures var a, b, d := Writes(items, OneToMany), Writes(items, OneToOne), Connects(items);
      var v := (a + b + [m] + d)[p];
      v in items && (p > |a| + |b| ==> v.mtype == MTConnect)
  {
    var a, b, d := Writes(items, OneToMany), Writes(items, OneToOne), Connects(items);
    var all := a + b + [m] + d;
    WritesIn(items, OneToMany, lo, hi);
    WritesIn(items, OneToOne, lo, hi);
    ConnectsIn(items, lo, hi);
    if p < |a| {
      assert all[p] == a[p] && a[p] in a;
    } else if p < |a| + |b| {
      assert all[p] == b[p - |a|] && b[p - |a|] in b;
    } else {
      assert all[p] == d[p - |a| - |b| - 1] && d[p - |a| - |b| - 1] in d;
    }
  }

  /** An item whose id is read by the insert is pushed on the side where the invariant wants it. */
  lemma ReadPlaces(m: Item, x: Item, items: seq<Item>, lo: int, hi: int, blk: seq<Item>, c: int, k: int)
    requires Numbered(items, lo, hi) && AllNested(items, x, MTInsert) && m.table == x.table && m.id == x.id
    requires blk == Rev(Writes(items, OneToMany) + Writes(items, OneToOne) + [m] + Connects(items)) && c == |Connects(items)|
    requires 0 <= k < |items| && ReadBy(items[k], m.table)
    ensures 0 <= c < |blk| && blk[c] == m && InnerDep(blk, c, items[k].id)
  {
    var a, b, d := Writes(items, OneToMany), Writes(items, OneToOne), Connects(items);
    var v := items[k];
    assert Nested(v, x, MTInsert);
    assert v in items;
    if v.mtype == MTConnect {
      ConnectsIn(items, lo, hi);
      assert v in d;
      var p :| 0 <= p < |d| && d[p] == v;
      PushedAt(a, b, m, d, |a| + |b| + 1 + p);
    } else {
      WritesIn(items, OneToMany, lo, hi);
      assert Chosen(v, OneToMany);
      assert v in a;
      var p :| 0 <= p < |a| && a[p] == v;
      PushedAt(a, b, m, d, p);
      assert Upward(v, m);
    }
  }

  /** Where a pushed item stands when the pushes have come off. */
  lemma PushedAt(a: seq<Item>, b: seq<Item>, m: Item, d: seq<Item>, i: int)
    requires 0 <= i < |a| + |b| + 1 + |d|
    ensures var blk := Rev(a + b + [m] + d);
      && |blk| == |a| + |b| + 1 + |d| && blk[|d|] == m
      && blk[|blk| - 1 - i] == if i < |a| then a[i] else if i < |a| + |b| then b[i - |a|] else if i == |a| + |b| then m else d[i - |a| - |b| - 1]
  {
  }

  lemma InsertItems(x: Item, m: Item, items: seq<Item>, next: int, next': int, blk: seq<Item>, c: int, k: int)
    requires Numbered(items, next, next') && AllNested(items, x, MTInsert)
    requires blk == Rev(Writes(items, OneToMany) + Writes(items, OneToOne) + [m] + Connects(items)) && c == |Connects(items)|
    requires 0 <= k < |blk| && k != c
    ensures next <= blk[k].id < next' && Nested(blk[k], x, MTInsert) && (k < c ==> Conn(blk[k]))
  {
    PushesPlaces(m, items, next, next', |blk| - 1 - k);
    var j :| 0 <= j < |items| && items[j] == blk[k];
  }

  lemma InsertDeps(x: Item, m: Item, items: seq<Item>, next: int, next': int, blk: seq<Item>, c: int, d: int)
    requires m.mtype == MTInsert && m.deps == DepsOf(m, items) && m.parent == x.parent && m.table == x.table && m.id == x.id
    requires Numbered(items, next, next') && AllNested(items, x, MTInsert) && (x.parent == -1 ==> m.rel.kind == NoRel)
    requires blk == Rev(Writes(items, OneToMany) + Writes(items, OneToOne) + [m] + Connects(items)) && c == |Connects(items)|
    requires 0 <= c < |blk| && blk[c] == m && d in m.deps
    ensures (d == x.parent && d != -1) || InnerDep(blk, c, d)
  {
    if d in ReadIds(m.table, items) {
      var k :| 0 <= k < |items| && ReadBy(items[k], m.table) && items[k].id == d;
      ReadPlaces(m, x, items, next, next', blk, c, k);
    }
  }

  /** What an insert puts on the stack is a block. */
  lemma InsertBlock(x: Item, rel: Rel, items: seq<Item>, next: int, next': int)
    requires x.mtype == MTInsert && !x.render && x.id < next && x.parent < x.id
    requires Numbered(items, next, next') && AllNested(items, x, MTInsert)
    requires (x.rel.kind != Recursive ==> rel == x.rel) && (x.rel.kind == Recursive ==> rel.kind in {OneToOne, Recursive})
    requires x.parent == -1 ==> x.rel.kind == NoRel
    ensures Block(Rev(PushOrder(Ready(x, rel, items), items)), |Connects(items)|, x, next, next', MTInsert)
  {
    var m := Ready(x, rel, items);
    var pushes := PushOrder(m, items);
    var blk, c := Rev(pushes), |Connects(items)|;
    PushesDistinct(m, items, next, next');
    RevDistinct(pushes);
    assert blk[c] == m;
    forall k | 0 <= k < |blk| && k != c
      ensures next <= blk[k].id < next' && Nested(blk[k], x, MTInsert) && (k < c ==> Conn(blk[k]))
    {
      InsertItems(x, m, items, next, next', blk, c, k);
    }
    forall d {:trigger InnerDep(blk, c, d)} | d in m.deps ensures (d == x.parent && d != -1) || InnerDep(blk, c, d) {
      assert m.deps == DepsOf(m, items);
      InsertDeps(x, m, items, next, next', blk, c, d);
    }
    assert x.parent !in ReadIds(m.table, items);
    assert NoReturn(m);
  }

  /** What an update, an upsert or a lookup puts on the stack is a block, with the item itself in front. */
  lemma OtherBlock(x: Item, m: Item, items: seq<Item>, next: int, next': int, mt: MType)
    requires x.id < next && mt in {MTUpdate, MTUpsert, MTInsert} && (mt == MTInsert ==> Conn(x) && items == [])
    requires m.id == x.id && m.parent == x.parent && m.mtype == x.mtype && m.table == x.table && m.render
    requires (x.rel.kind != Recursive ==> m.rel == x.rel) && (x.rel.kind == NoRel <==> m.rel.kind == NoRel)
    requires m.mtype != MTInsert && (Conn(x) ==> m.deps == {} && items == [])
    requires forall d {:trigger d in m.deps} :: d in m.deps ==> d == x.parent && d != -1
    requires Numbered(items, next, next') && AllNested(items, x, mt)
    ensures Block(Rev(items + [m]), 0, x, next, next', mt)
  {
    var pushes := items + [m];
    assert DistinctIds(pushes);
    RevDistinct(pushes);
    var blk := Rev(pushes);
    forall k | 0 < k < |blk| ensures next <= blk[k].id < next' && Nested(blk[k], x, mt) {
      assert blk[k] == items[|items| - k];
    }
  }

  /** The pushes of an item that is not a lookup, from its nested items. */
  ghost predicate ExpandsTo(sch: Schema, mt: MType, x: Item, next: int, rel: Rel, items: seq<Item>, next': int) {
    && !Conn(x) && OwnRel(mt, x) == Some(rel)
    && NestedItems(sch, mt, x, Members(x.data), [], next) == Planned(items, next')
    && Expand(sch, mt, x, next) == Planned(PushOrder(Ready(x, rel, items), items), next')
  }

  lemma NestedOf(sch: Schema, mt: MType, x: Item, next: int) returns (rel: Rel, items: seq<Item>, next': int)
    requires Expand(sch, mt, x, next).Planned? && mt in {MTInsert, MTUpdate, MTUpsert} && !Conn(x)
    ensures ExpandsTo(sch, mt, x, next, rel, items, next')
    ensures AllNested(items, x, mt) && Numbered(items, next, next') && Weight(items) <= 2 * MembersSize(Members(x.data))
  {
    var nested := NestedItems(sch, mt, x, Members(x.data), [], next);
    NestedItemsFit(sch, mt, x, Members(x.data), [], next, next);
    rel, items, next' := OwnRel(mt, x).value, nested.items, nested.next;
  }

  lemma PushesWeigh(x: Item, rel: Rel, items: seq<Item>)
    requires !x.render && x.mtype in {MTInsert, MTUpdate, MTUpsert} && Weight(items) <= 2 * MembersSize(Members(x.data))
    ensures Weight(PushOrder(Ready(x, rel, items), items)) < ItemWeight(x)
  {
    MembersFit(x.data);
    PushWeight(Ready(x, rel, items), items);
  }

  lemma InsertExpands(sch: Schema, x: Item, next: int, rel: Rel, items: seq<Item>, next': int)
    requires ExpandsTo(sch, MTInsert, x, next, rel, items, next') && AllNested(items, x, MTInsert) && Numbered(items, next, next')
    requires !x.render && x.id < next && x.parent < x.id && x.mtype == MTInsert && (x.parent == -1 ==> x.rel.kind == NoRel)
    ensures Block(Rev(PushOrder(Ready(x, rel, items), items)), |Connects(items)|, x, next, next', MTInsert)
  {
    InsertBlock(x, rel, items, next, next');
  }

  lemma OtherExpands(sch: Schema, mt: MType, x: Item, next: int, rel: Rel, items: seq<Item>, next': int)
    requires ExpandsTo(sch, mt, x, next, rel, items, next') && AllNested(items, x, mt) && Numbered(items, next, next')
    requires mt in {MTUpdate, MTUpsert} && x.mtype == mt && x.id < next && (x.parent == -1 ==> x.rel.kind == NoRel)
    ensures Block(Rev(PushOrder(Ready(x, rel, items), items)), 0, x, next, next', mt)
  {
    var m := Ready(x, rel, items);
    var pushed := if mt == MTUpdate then items else [];
    OtherBlock(x, m, pushed, next, next', mt);
    assert [] + [m] == [m];
  }

  lemma LookupExpands(sch: Schema, mt: MType, x: Item, next: int)
    requires Conn(x) && mt in {MTInsert, MTUpdate, MTUpsert} && !x.render && x.id < next && x.deps == {}
    ensures Expand(sch, mt, x, next) == Planned([x.(render := true)], next)
    ensures Block(Rev([x.(render := true)]), 0, x, next, next, mt) && Weight([x.(render := true)]) < ItemWeight(x)
  {
    OtherBlock(x, x.(render := true), [], next, next, mt);
    assert [] + [x.(render := true)] == [x.(render := true)];
    WeightOne(x.(render := true));
  }

  /** An expansion takes the item's place as a block, with fresh ids and less weight. */
  lemma ExpandBlock(sch: Schema, mt: MType, x: Item, next: int) returns (c: int)
    requires Expand(sch, mt, x, next).Planned? && mt in {MTInsert, MTUpdate, MTUpsert}
    requires !x.render && x.id < next && x.parent < x.id && x.deps == {} && x.mtype in {mt, MTConnect, MTDisconnect}
    requires x.parent == -1 ==> x.rel.kind == NoRel
    ensures var r := Expand(sch, mt, x, next);
      Block(Rev(r.items), c, x, next, r.next, mt) && Weight(r.items) < ItemWeight(x)
  {
    c := 0;
    if Conn(x) {
      LookupExpands(sch, mt, x, next);
    } else {
      var rel, items, next' := NestedOf(sch, mt, x, next);
      PushesWeigh(x, rel, items);
      if mt == MTInsert {
        c := |Connects(items)|;
        InsertExpands(sch, x, next, rel, items, next');
      } else {
        OtherExpands(sch, mt, x, next, rel, items, next');
      }
    }
  }

  /** The pushes weigh no more than the nested items and the item itself. */
  lemma PushWeight(m: Item, items: seq<Item>)
    requires m.render && (m.mtype in {MTInsert, MTUpdate, MTUpsert})
    ensures Weight(PushOrder(m, items)) <= 1 + Weight(items)
  {
    WeightOne(m);
    if m.mtype == MTInsert {
      var a, b, d := Writes(items, OneToMany), Writes(items, OneToOne), Connects(items);
      PartsWeight(items);
      WeightAppend(a, b);
      WeightAppend(a + b, [m]);
      WeightAppend(a + b + [m], d);
    } else {
      WeightAppend(items, [m]);
    }
  }

  lemma {:induction false} PartsWeight(items: seq<Item>)
    ensures Weight(Writes(items, OneToMany)) + Weight(Writes(items, OneToOne)) + Weight(Connects(items)) <= Weight(items)
    decreases |items|
  {
    if items != [] {
      var n := |items| - 1;
      var v := items[n];
      PartsWeight(items[..n]);
      WeightMaybe(Writes(items[..n], OneToMany), Chosen(v, OneToMany), v);
      WeightMaybe(Writes(items[..n], OneToOne), Chosen(v, OneToOne), v);
      WeightMaybe(Connects(items[..n]), v.mtype == MTConnect, v);
    }
  }

  lemma WeightMaybe(w: seq<Item>, add: bool, v: Item)
    ensures Weight(w + if add then [v] else []) == Weight(w) + if add then ItemWeight(v) else 0
  {
    WeightOne(v);
    WeightAppend(w, if add then [v] else []);
  }

  // ---- Every round ----

  ghost predicate PlanInv(out: seq<Item>, st: seq<Item>, next: int, mt: MType) {
    Inv(Line(out, st), |out|, next, mt)
  }

  lemma TopInLine(out: seq<Item>, st: seq<Item>)
    requires st != []
    ensures Line(out, st) == out + [st[|st| - 1]] + Rev(st[..|st| - 1])
  {
  }

  lemma RevAppend(a: seq<Item>, b: seq<Item>)
    ensures Rev(a + b) == Rev(b) + Rev(a)
  {
  }

  /** A round keeps the invariant and takes weight off. */
  lemma StepKeepsInv(sch: Schema, mt: MType, out: seq<Item>, st: seq<Item>, next: int)
    requires mt !in {MTConnect, MTDisconnect} && PlanInv(out, st, next, mt) && st != []
    requires Step(sch, mt, out, st, next).Went?
    ensures var r := Step(sch, mt, out, st, next);
      PlanInv(r.out, r.st, r.next, mt) && next <= r.next && Weight(r.st) < Weight(st)
  {
    var n := |st| - 1;
    var top, below := st[n], st[..n];
    assert st == below + [top];
    WeightAppend(below, [top]);
    WeightOne(top);
    TopInLine(out, st);
    var line := Line(out, st);
    assert line[|out|] == top && ItemOk(line, |out|, mt);
    if top.render {
      LineMoved(out, st);
    } else {
      var r := Expand(sch, mt, top, next);
      var c := ExpandBlock(sch, mt, top, next);
      ReplaceKeepsInv(out, top, Rev(below), Rev(r.items), c, next, r.next, mt);
      LineReplaced(out, below, r.items);
      WeightAppend(below, r.items);
    }
  }

  lemma LineMoved(out: seq<Item>, st: seq<Item>)
    requires st != []
    ensures Line(out + [st[|st| - 1]], st[..|st| - 1]) == Line(out, st)
  {
    TopInLine(out, st);
  }

  lemma LineReplaced(out: seq<Item>, below: seq<Item>, items: seq<Item>)
    ensures Line(out, below + items) == out + Rev(items) + Rev(below)
  {
    RevAppend(below, items);
    assert out + (Rev(items) + Rev(below)) == out + Rev(items) + Rev(below);
  }
}
