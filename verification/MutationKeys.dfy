/** What each kind of payload key is planned as, case by case. */
module MutationKeys {
  import opened Common
  import opened MutationItems
  import opened MutationPlan
  import opened MutationOrder

  /** The value was stored under the name, and nothing after it was. */
  predicate Stored(ms: seq<Member>, name: string, v: Payload) {
    exists i :: 0 <= i < |ms| && ms[i] == Member(name, v) && forall j | i < j < |ms| :: ms[j].name != name
  }

  lemma {:induction false} LookupIsStored(ms: seq<Member>, name: string)
    ensures Lookup(ms, name).Some? ==> Stored(ms, name, Lookup(ms, name).value)
    ensures Lookup(ms, name).None? ==> forall i | 0 <= i < |ms| :: ms[i].name != name
    decreases |ms|
  {
    if ms != [] {
      var n := |ms| - 1;
      LookupIsStored(ms[..n], name);
      if ms[n].name == name {
        assert ms[n] == Member(name, ms[n].value);
      } else if Lookup(ms, name).Some? {
        var v := Lookup(ms, name).value;
        var i :| 0 <= i < n && ms[..n][i] == Member(name, v) && forall j | i < j < n :: ms[..n][j].name != name;
        assert ms[i] == Member(name, v);
        forall j | i < j < |ms| ensures ms[j].name != name {
          assert j < n ==> ms[..n][j] == ms[j];
        }
      } else {
        forall i | 0 <= i < |ms| ensures ms[i].name != name {
          assert i < n ==> ms[..n][i] == ms[i];
        }
      }
    }
  }

  lemma StoredOnce(ms: seq<Member>, name: string, v: Payload)
    requires Stored(ms, name, v)
    ensures Lookup(ms, name) == Some(v)
  {
    LookupIsStored(ms, name);
    var i :| 0 <= i < |ms| && ms[i] == Member(name, v) && forall j | i < j < |ms| :: ms[j].name != name;
    assert ms[i].name == name;
    var w := Lookup(ms, name).value;
    var k :| 0 <= k < |ms| && ms[k] == Member(name, w) && forall j | k < j < |ms| :: ms[j].name != name;
    assert ms[k].name == name;
  }

  /** The item of a nested row: fresh, not ready and without dependencies. */
  predicate Fresh(it: Item, id: int, parent: int, mtype: MType, key: string, rel: Rel, table: Table, data: Payload, isJSON: bool) {
    it == Item(id, parent, mtype, key, rel, table, 0, data, isJSON, false, {})
  }

  // ---- Keys of relations ----

  /** A connect in the payload of an insert: the object stored last under "connect" is the filter of a lookup in the other table. */
  lemma ConnectIsLookup(sch: Schema, m: Item, key: string, members: seq<Member>, filter: seq<Member>, rel: Rel, next: int)
    requires Stored(members, "connect", Obj(filter)) && sch.findPath(key, m.key) == Some(rel)
    ensures var r := MemberItems(sch, MTInsert, m, Member(key, Obj(members)), next);
      if !sch.filterOk(Obj(filter)) then r.Refused?
      else
        && r.Planned? && r.next == next + 1 && |r.items| == 1
        && Fresh(r.items[0], next, m.id, MTConnect, key, rel, if rel.left == m.table then rel.right else rel.left, Obj(filter), false)
  {
    StoredOnce(members, "connect", Obj(filter));
  }

  /** The members hold no connect with an object. */
  ghost predicate NoConnect(members: seq<Member>) {
    forall f :: !Stored(members, "connect", Obj(f))
  }

  lemma NoFilter(members: seq<Member>)
    requires NoConnect(members)
    ensures ConnectFilter(Obj(members)).None?
  {
    LookupIsStored(members, "connect");
  }

  /** Any other object is one nested row, of the relation's table that is not the parent's along a one-to-many edge. */
  lemma ObjectIsRow(sch: Schema, mt: MType, m: Item, key: string, members: seq<Member>, bound: bool, rel: Rel, next: int)
    requires mt == MTInsert || mt == MTUpdate
    requires mt == MTInsert ==> bound || NoConnect(members)
    requires sch.findPath(key, m.key) == Some(rel)
    ensures var v := Obj(members);
      var r := MemberItems(sch, mt, m, Member(key, if bound then Bound(v) else v), next);
      && r.Planned? && r.next == next + 1 && |r.items| == 1
      && Fresh(r.items[0], next, m.id, if mt == MTUpdate && rel.kind == OneToMany then MTConnect else mt, key, rel,
               if rel.kind == OneToMany && rel.right != m.table then rel.right else rel.left, v, m.isJSON || bound)
  {
    if mt == MTInsert && !bound {
      NoFilter(members);
    }
  }

  /** Inline, a list under an insert is one row per element, along the one-to-many edge; of other edges only one-to-one is turned around. */
  lemma ListIsRows(sch: Schema, m: Item, key: string, elems: seq<Payload>, rel: Rel, next: int)
    requires sch.findPath(key, m.key) == Some(rel) && (sch.mongo || !m.isJSON)
    ensures var r := MemberItems(sch, MTInsert, m, Member(key, List(elems)), next);
      if rel.kind != OneToOne && rel.kind != OneToMany then r.Refused?
      else
        var near, far := if rel.kind == OneToOne then rel.right else rel.left, if rel.kind == OneToOne then rel.left else rel.right;
        && r.Planned? && |r.items| == |elems| && r.next == next + (if elems == [] then 1 else |elems|)
        && forall k | 0 <= k < |elems| ::
             Fresh(r.items[k], next + k, m.id, MTInsert, key, Rel(OneToMany, near, far), if far != m.table then far else near, elems[k], m.isJSON)
  {
  }

  /** A list in a variable is one row, whose keys are those of all elements, each once; an empty list has the table's columns. */
  lemma BoundListIsRow(sch: Schema, m: Item, key: string, elems: seq<Payload>, rel: Rel, next: int)
    requires sch.findPath(key, m.key) == Some(rel) && !sch.mongo && rel.kind == OneToMany
    ensures var r := MemberItems(sch, MTInsert, m, Member(key, Bound(List(elems))), next);
      && r.Planned? && r.next == next + 1 && |r.items| == 1
      && Fresh(r.items[0], next, m.id, MTInsert, key, rel, if rel.right != m.table then rel.right else rel.left, r.items[0].data, true)
      && r.items[0].data.Obj?
      && (elems != [] ==> forall name :: Knows(r.items[0].data.members, name) <==>
            exists k {:trigger elems[k]} :: 0 <= k < |elems| && Knows(Members(elems[k]), name))
      && (elems == [] ==>
            var cols, ms := sch.columns(r.items[0].table), r.items[0].data.members;
            |ms| == |cols| && forall k | 0 <= k < |cols| :: ms[k] == Member(cols[k], Scalar("null")))
  {
    forall name ensures elems != [] ==>
      (Knows(UnionMembers([], elems), name) <==> exists k {:trigger elems[k]} :: 0 <= k < |elems| && Knows(Members(elems[k]), name))
    {
      UnionKeys([], elems, name);
    }
  }

  /** Under an update a list is connected along a one-to-many edge, and refused along any other. */
  lemma ListUnderUpdate(sch: Schema, m: Item, key: string, elems: seq<Payload>, rel: Rel, next: int)
    requires sch.findPath(key, m.key) == Some(rel) && (sch.mongo || !m.isJSON)
    ensures var r := MemberItems(sch, MTUpdate, m, Member(key, List(elems)), next);
      if rel.kind != OneToMany then r.Refused?
      else
        && r.Planned? && |r.items| == |elems|
        && forall k | 0 <= k < |elems| ::
             Fresh(r.items[k], next + k, m.id, MTConnect, key, rel, if rel.right != m.table then rel.right else rel.left, elems[k], m.isJSON)
  {
  }

  // ---- Other keys ----

  /** A plain value is planned as nothing, whatever its key. */
  lemma PlainIsNothing(sch: Schema, mt: MType, m: Item, key: string, v: Payload, next: int)
    requires v.Scalar? || (v.Bound? && !v.value.Obj? && !v.value.List?)
    ensures MemberItems(sch, mt, m, Member(key, v), next) == Planned([], next)
  {
  }

  /** An object or a list under a column's name belongs to the column or is refused. */
  lemma ColumnTakesValue(sch: Schema, mt: MType, m: Item, key: string, v: Payload, next: int)
    requires (v.Obj? || v.List?) && sch.findPath(key, m.key).None? && sch.column(m.table, key) != NoColumn
    ensures MemberItems(sch, mt, m, Member(key, v), next) ==
      if sch.column(m.table, key) == JsonColumn || (sch.column(m.table, key) == ArrayColumn && v.List?) then Planned([], next) else Refused
  {
  }

  /** The keywords of inserts and of updates: a lookup or none; every other name is refused. */
  const INSERT_WORDS := map["connect" := Some(MTConnect), "find" := None]
  const UPDATE_WORDS := map["connect" := Some(MTConnect), "disconnect" := Some(MTDisconnect), "where" := None, "find" := None]

  lemma KeywordIsLookup(sch: Schema, mt: MType, m: Item, key: string, v: Payload, next: int)
    requires (v.Obj? || v.List?) && sch.findPath(key, m.key).None? && sch.column(m.table, key) == NoColumn
    ensures var words := if mt == MTInsert then INSERT_WORDS else if mt == MTUpdate then UPDATE_WORDS else map[];
      var r := MemberItems(sch, mt, m, Member(key, v), next);
      if key !in words then r.Refused?
      else if words[key].None? then r == Planned([], next)
      else
        && r.Planned? && r.next == next + 1 && |r.items| == 1
        && Fresh(r.items[0], next, m.parent, words[key].value, key, Rel(NoRel, Table("", ""), Table("", "")), m.table, v, m.isJSON)
  {
  }

  // ---- Self-references ----

  /**
   The side of a self-reference: "child" makes it one-to-one, "parent" one-to-many with the sides swapped, which an insert
   refuses. Without the key an insert has a child and an update a parent; any other side leaves it as it is.
   */
  lemma SideDecides(mt: MType, m: Item, members: seq<Member>, side: string)
    requires mt == MTInsert || mt == MTUpdate
    requires m.data == Obj(members) && m.rel.kind == Recursive
    requires Stored(members, "find", Scalar(side))
      || ((forall i | 0 <= i < |members| :: members[i].name != "find") && side == if mt == MTInsert then "child" else "parent")
    ensures var left, right := m.rel.left, m.rel.right;
      OwnRel(mt, m) ==
        if side in {"child", "children"} then Some(Rel(OneToOne, left, right))
        else if side in {"parent", "parents"} then (if mt == MTInsert then None else Some(Rel(OneToMany, right, left)))
        else Some(m.rel)
  {
    LookupIsStored(members, "find");
    if Stored(members, "find", Scalar(side)) {
      StoredOnce(members, "find", Scalar(side));
    }
  }

  // ---- What goes on the stack ----

  /** An expansion pushes the item itself and all its nested items, once; under an insert those along the two relation kinds. */
  lemma ExpansionPushesAll(m: Item, items: seq<Item>)
    requires m.mtype == MTInsert || m.mtype == MTUpdate
    requires m.mtype == MTInsert ==> forall v <- items :: v.mtype == MTConnect || v.rel.kind in {OneToOne, OneToMany}
    ensures multiset(PushOrder(m, items)) == multiset(items) + multiset{m}
  {
    if m.mtype == MTInsert {
      InsertPlansAll(items);
    }
  }

  /** How early a pushed item comes off the stack under an insert: lookups, the item, what reads it directly, the rest. */
  function Turn(m: Item, v: Item): nat {
    if v.mtype == MTConnect then 0 else if v == m then 1 else if v.rel.kind == OneToOne then 2 else 3
  }

  lemma {:induction false} KindsOf(items: seq<Item>)
    ensures forall v <- Writes(items, OneToMany) :: v in items && v.mtype != MTConnect && v.rel.kind == OneToMany
    ensures forall v <- Writes(items, OneToOne) :: v in items && v.mtype != MTConnect && v.rel.kind == OneToOne
    ensures forall v <- Connects(items) :: v.mtype == MTConnect
    decreases |items|
  {
    if items != [] {
      KindsOf(items[..|items| - 1]);
    }
  }

  /** What is pushed later comes off earlier, and has an earlier turn or the same. */
  lemma InsertTurns(m: Item, items: seq<Item>, i: nat, j: nat)
    requires m.mtype == MTInsert && m !in items && i < j < |PushOrder(m, items)|
    ensures Turn(m, PushOrder(m, items)[i]) >= Turn(m, PushOrder(m, items)[j])
  {
    KindsOf(items);
    var a, b, d := Writes(items, OneToMany), Writes(items, OneToOne), Connects(items);
    TurnsOf(m, a, b, d, i);
    TurnsOf(m, a, b, d, j);
  }

  lemma TurnsOf(m: Item, a: seq<Item>, b: seq<Item>, d: seq<Item>, i: nat)
    requires m.mtype == MTInsert && m !in a && m !in b && i < |a + b + [m] + d|
    requires (forall v <- a :: v.mtype != MTConnect && v.rel.kind == OneToMany) && (forall v <- b :: v.mtype != MTConnect && v.rel.kind == OneToOne)
    requires forall v <- d :: v.mtype == MTConnect
    ensures Turn(m, (a + b + [m] + d)[i]) ==
      if i < |a| then 3 else if i < |a| + |b| then 2 else if i == |a| + |b| then 1 else 0
  {
    var v := (a + b + [m] + d)[i];
    assert v == if i < |a| then a[i] else if i < |a| + |b| then b[i - |a|] else if i == |a| + |b| then m else d[i - |a| - |b| - 1];
  }
}
