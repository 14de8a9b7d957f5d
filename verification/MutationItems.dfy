/**
 Items of a mutation plan: what one payload object turns into, which ids its
 nested items get, and what each item depends on.
 */
module MutationItems {
  import opened Common

  datatype Table = Table(schema: string, name: string)

  datatype RelKind = NoRel | OneToOne | OneToMany | Recursive | OtherRel

  datatype Rel = Rel(kind: RelKind, left: Table, right: Table)

  /** The same edge seen from its other side. */
  function ReverseRel(r: Rel): Rel {
    Rel(match r.kind
        case OneToOne => OneToMany
        case OneToMany => OneToOne
        case k => k, r.right, r.left)
  }

  /** The edge with its two sides swapped. */
  function FlipRel(r: Rel): Rel {
    r.(left := r.right, right := r.left)
  }

  datatype MType = MTInsert | MTUpdate | MTUpsert | MTDelete | MTConnect | MTDisconnect

  /** A payload. A key bound to a variable carries the value of the variable. */
  datatype Payload = Scalar(val: string) | Obj(members: seq<Member>) | List(elems: seq<Payload>) | Bound(value: Payload)

  datatype Member = Member(name: string, value: Payload)

  datatype Column = NoColumn | JsonColumn | ArrayColumn | PlainColumn

  /** What the planner asks the schema and the compilers of filters and columns. */
  datatype Schema = Schema(
    mongo: bool,
    findPath: (string, string) -> Option<Rel>,
    column: (Table, string) -> Column,
    columns: Table -> seq<string>,
    filterOk: Payload -> bool,
    columnsOk: (Item, seq<Item>) -> bool)

  /** One planned item. deps are the ids of the items it depends on. */
  datatype Item = Item(
    id: int, parent: int, mtype: MType, key: string, rel: Rel, table: Table, selID: nat,
    data: Payload, isJSON: bool, render: bool, deps: set<int>)

  datatype Planned = Refused | Planned(items: seq<Item>, next: int)

  // ---- Size of a payload ----

  function Size(p: Payload): (n: nat)
    ensures n >= 1
    decreases p
  {
    match p
    case Scalar(_) => 1
    case Obj(ms) => 1 + MembersSize(ms)
    case List(es) => 1 + ElemsSize(es)
    case Bound(v) => 1 + Size(v)
  }

  /** A plain value weighs nothing: it is never planned. */
  function MembersSize(ms: seq<Member>): nat
    decreases ms
  {
    if ms == [] then 0
    else (if ms[0].value.Scalar? then 0 else 1 + Size(ms[0].value)) + MembersSize(ms[1..])
  }

  function MemberSize(m: Member): nat {
    if m.value.Scalar? then 0 else 1 + Size(m.value)
  }

  function ElemsSize(es: seq<Payload>): nat
    decreases es
  {
    if es == [] then 0 else 2 + Size(es[0]) + ElemsSize(es[1..])
  }

  /** The named parts of a payload; a list's elements have no name. */
  function Members(p: Payload): seq<Member> {
    match p
    case Obj(ms) => ms
    case List(es) => seq(|es|, i requires 0 <= i < |es| => Member("", es[i]))
    case _ => []
  }

  lemma {:induction false} ListMembers(es: seq<Payload>)
    ensures MembersSize(Members(List(es))) <= ElemsSize(es)
    decreases |es|
  {
    if es != [] {
      ListMembers(es[1..]);
      assert Members(List(es))[1..] == Members(List(es[1..]));
    }
  }

  lemma MembersFit(p: Payload)
    ensures MembersSize(Members(p)) < Size(p)
  {
    if p.List? {
      ListMembers(p.elems);
    }
  }

  lemma {:induction false} MembersSplit(ms: seq<Member>, k: nat)
    requires k < |ms|
    ensures MembersSize(ms[..k + 1]) == MembersSize(ms[..k]) + MemberSize(ms[k])
    decreases |ms|
  {
    if k > 0 {
      assert ms[..k + 1][1..] == ms[1..][..k] && ms[..k][1..] == ms[1..][..k - 1];
      MembersSplit(ms[1..], k - 1);
    } else {
      assert ms[..1] == [ms[0]] && ms[..0] == [];
    }
  }

  /** The value stored last under a name. */
  function Lookup(ms: seq<Member>, name: string): Option<Payload> {
    if ms == [] then None
    else
      var last := |ms| - 1;
      if ms[last].name == name then Some(ms[last].value) else Lookup(ms[..last], name)
  }

  lemma {:induction false} LookupFits(ms: seq<Member>, name: string)
    ensures Lookup(ms, name).Some? && !Lookup(ms, name).value.Scalar? ==> Size(Lookup(ms, name).value) < MembersSize(ms)
    decreases |ms|
  {
    if ms != [] {
      MembersSplit(ms, |ms| - 1);
      assert ms[..|ms|] == ms;
      LookupFits(ms[..|ms| - 1], name);
    }
  }

  // ---- Lists ----

  /** One item per element, with consecutive ids. */
  function PerElement(it: Item, es: seq<Payload>): (r: seq<Item>)
    ensures |r| == |es|
  {
    seq(|es|, i requires 0 <= i < |es| => it.(id := it.id + i, data := es[i]))
  }

  predicate Knows(ms: seq<Member>, name: string) {
    exists i :: 0 <= i < |ms| && ms[i].name == name
  }

  /** The members of ms, then those of more under names not seen yet. */
  function AddNew(ms: seq<Member>, more: seq<Member>): seq<Member>
    decreases |more|
  {
    if more == [] then ms
    else AddNew(if Knows(ms, more[0].name) then ms else ms + [more[0]], more[1..])
  }

  function UnionMembers(ms: seq<Member>, es: seq<Payload>): seq<Member>
    decreases |es|
  {
    if es == [] then ms else UnionMembers(AddNew(ms, Members(es[0])), es[1..])
  }

  /** A list of rows as one row with every key that any of them has. */
  function UnionOfElements(es: seq<Payload>): Payload {
    Obj(UnionMembers([], es))
  }

  lemma {:induction false} MembersSizeAppend(a: seq<Member>, m: Member)
    ensures MembersSize(a + [m]) == MembersSize(a) + MemberSize(m)
  {
    MembersSplit(a + [m], |a|);
    assert (a + [m])[..|a| + 1] == a + [m] && (a + [m])[..|a|] == a;
  }

  lemma {:induction false} AddNewSize(ms: seq<Member>, more: seq<Member>)
    ensures MembersSize(AddNew(ms, more)) <= MembersSize(ms) + MembersSize(more)
    decreases |more|
  {
    if more != [] {
      MembersSizeAppend(ms, more[0]);
      AddNewSize(if Knows(ms, more[0].name) then ms else ms + [more[0]], more[1..]);
    }
  }

  lemma {:induction false} UnionSize(ms: seq<Member>, es: seq<Payload>)
    ensures MembersSize(UnionMembers(ms, es)) <= MembersSize(ms) + ElemsSize(es)
    decreases |es|
  {
    if es != [] {
      MembersFit(es[0]);
      AddNewSize(ms, Members(es[0]));
      UnionSize(AddNew(ms, Members(es[0])), es[1..]);
    }
  }

  /** The union has a key exactly when some element has it, and each key once. */
  lemma {:induction false} UnionKeys(ms: seq<Member>, es: seq<Payload>, name: string)
    ensures Knows(UnionMembers(ms, es), name) <==>
      Knows(ms, name) || (exists k {:trigger es[k]} :: 0 <= k < |es| && Knows(Members(es[k]), name))
    decreases |es|
  {
    if es != [] {
      AddNewKeys(ms, Members(es[0]), name);
      UnionKeys(AddNew(ms, Members(es[0])), es[1..], name);
      if k :| 0 <= k < |es| && Knows(Members(es[k]), name) {
        assert k > 0 ==> es[1..][k - 1] == es[k];
      }
      if k :| 0 <= k < |es[1..]| && Knows(Members(es[1..][k]), name) {
        assert es[1..][k] == es[k + 1];
      }
    }
  }

  lemma {:induction false} AddNewKeys(ms: seq<Member>, more: seq<Member>, name: string)
    ensures Knows(AddNew(ms, more), name) <==> Knows(ms, name) || Knows(more, name)
    decreases |more|
  {
    if more != [] {
      var m := more[0];
      var ms' := if Knows(ms, m.name) then ms else ms + [m];
      AddNewKeys(ms', more[1..], name);
      KnowsAppend(ms, m, name);
      assert more == [m] + more[1..];
      KnowsFront(m, more[1..], name);
    }
  }

  lemma KnowsAppend(ms: seq<Member>, m: Member, name: string)
    ensures Knows(ms + [m], name) <==> Knows(ms, name) || m.name == name
  {
    assert (ms + [m])[|ms|] == m;
    if i :| 0 <= i < |ms| && ms[i].name == name {
      assert (ms + [m])[i].name == name;
    }
  }

  lemma KnowsFront(m: Member, ms: seq<Member>, name: string)
    ensures Knows([m] + ms, name) <==> m.name == name || Knows(ms, name)
  {
    assert ([m] + ms)[0] == m;
    if i :| 0 <= i < |ms| && ms[i].name == name {
      assert ([m] + ms)[i + 1].name == name;
    }
  }

  /** The payload of an empty list: the table's own columns, without values. */
  function EmptyPayload(sch: Schema, table: Table): Payload {
    var cols := sch.columns(table);
    Obj(seq(|cols|, i requires 0 <= i < |cols| => Member(cols[i], Scalar("null"))))
  }

  lemma {:induction false} PlainSize(ms: seq<Member>)
    requires forall i {:trigger ms[i]} :: 0 <= i < |ms| ==> ms[i].value.Scalar?
    ensures MembersSize(ms) == 0
  {
    if ms != [] {
      PlainSize(ms[1..]);
    }
  }

  /** The items of a list payload: one per element inline, one for the whole list when it comes as JSON. */
  function ListItems(sch: Schema, it: Item): seq<Item>
    requires it.data.List?
  {
    if sch.mongo then PerElement(it, it.data.elems)
    else if it.isJSON then
      [it.(data := if it.data.elems == [] then EmptyPayload(sch, it.table) else UnionOfElements(it.data.elems))]
    else PerElement(it, it.data.elems)
  }

  // ---- Nested items ----

  /** The value a member's key stands for, if it can be a nested relation: an object or a list. */
  function Resolve(v: Payload): Option<Payload> {
    match v
    case Bound(w) => if w.Obj? || w.List? then Some(w) else None
    case Scalar(_) => None
    case _ => Some(v)
  }

  /** The filter of a connect, when the value is one. */
  function ConnectFilter(v: Payload): Option<Payload> {
    if !v.Obj? then None
    else
      match Lookup(v.members, "connect")
      case Some(Obj(ms)) => Some(Obj(ms))
      case _ => None
  }

  datatype Keyword = NotKeyword | Ignored | Acts(mtype: MType)

  /** Keys that are neither relations nor columns. */
  function KeywordOf(mt: MType, name: string): Keyword {
    if mt == MTInsert then
      if name == "connect" then Acts(MTConnect) else if name == "find" then Ignored else NotKeyword
    else if mt == MTUpdate then
      if name == "connect" then Acts(MTConnect)
      else if name == "disconnect" then Acts(MTDisconnect)
      else if name == "where" || name == "find" then Ignored
      else NotKeyword
    else NotKeyword
  }

  function NoTable(): Table {
    Table("", "")
  }

  function NewItem(id: int, parent: int, mtype: MType, key: string, rel: Rel, table: Table, data: Payload, isJSON: bool): Item {
    Item(id, parent, mtype, key, rel, table, 0, data, isJSON, false, {})
  }

  /** A key without a relation: a column that holds documents, or a keyword. */
  function KeyItems(sch: Schema, mt: MType, m: Item, name: string, data: Payload, isJSON: bool, next: int): Planned {
    match sch.column(m.table, name)
    case JsonColumn => Planned([], next)
    case ArrayColumn => if data.List? then Planned([], next) else Refused
    case PlainColumn => Refused
    case NoColumn =>
      match KeywordOf(mt, name)
      case NotKeyword => Refused
      case Ignored => Planned([], next)
      case Acts(ty) =>
        Planned([NewItem(next, m.parent, ty, name, Rel(NoRel, NoTable(), NoTable()), m.table, data, isJSON)], next + 1)
  }

  /** The table a nested item writes: the child's side of the relation. */
  function ChildTable(rel: Rel, parent: Table): Table {
    if rel.kind == OneToMany && rel.right != parent then rel.right else rel.left
  }

  /** The relation of a nested key; under an insert a list turns a one-to-one edge around. */
  function NestedRel(mt: MType, rel: Rel, data: Payload): Rel {
    if data.List? && mt == MTInsert && rel.kind == OneToOne then ReverseRel(rel) else rel
  }

  /** The item of a nested relation, before a list is expanded. */
  function RelationItem(mt: MType, m: Item, name: string, rel: Rel, data: Payload, isJSON: bool, next: int): Item {
    NewItem(next, m.id, if rel.kind == OneToMany && mt == MTUpdate then MTConnect else mt,
            name, rel, ChildTable(rel, m.table), data, isJSON)
  }

  /** The parent's table in a connect: the side of the relation that is not m's table. */
  function ConnectTable(rel: Rel, table: Table): Table {
    if rel.left != table then rel.left else rel.right
  }

  /** The items of a key that names a relation. */
  function RelationItems(sch: Schema, mt: MType, m: Item, mem: Member, rel: Rel, data: Payload, isJSON: bool, next: int): Planned {
    if mt == MTInsert && ConnectFilter(mem.value).Some? then
      var filter := ConnectFilter(mem.value).value;
      if sch.filterOk(filter)
      then Planned([NewItem(next, m.id, MTConnect, mem.name, rel, ConnectTable(rel, m.table), filter, false)], next + 1)
      else Refused
    else
      var rel' := NestedRel(mt, rel, data);
      if data.List? && rel'.kind != OneToMany then Refused
      else
        var it := RelationItem(mt, m, mem.name, rel', data, isJSON, next);
        if data.List? then
          var ml := ListItems(sch, it);
          Planned(ml, next + 1 + if |ml| > 1 then |ml| - 1 else 0)
        else Planned([it], next + 1)
  }

  /** The items of one key of m's payload, with ids from next on. */
  function MemberItems(sch: Schema, mt: MType, m: Item, mem: Member, next: int): Planned {
    match Resolve(mem.value)
    case None => Planned([], next)
    case Some(data) =>
      var isJSON := m.isJSON || mem.value.Bound?;
      match sch.findPath(mem.name, m.key)
      case None => KeyItems(sch, mt, m, mem.name, data, isJSON, next)
      case Some(rel) => RelationItems(sch, mt, m, mem, rel, data, isJSON, next)
  }

  /** The items of the keys in ms, in order. */
  function NestedItems(sch: Schema, mt: MType, m: Item, ms: seq<Member>, acc: seq<Item>, next: int): Planned
    decreases |ms|
  {
    if ms == [] then Planned(acc, next)
    else
      var r := MemberItems(sch, mt, m, ms[0], next);
      if r.Refused? then Refused else NestedItems(sch, mt, m, ms[1..], acc + r.items, r.next)
  }

  /** Under a self-reference the payload says on which side the nested row stands. */
  function FindSide(mt: MType, data: Payload): string {
    match (if data.Obj? then Lookup(data.members, "find") else None)
    case Some(Scalar(v)) => v
    case Some(_) => ""
    case None => if mt == MTInsert then "child" else "parent"
  }

  /** The relation of m after its own payload was looked at. */
  function OwnRel(mt: MType, m: Item): Option<Rel> {
    if m.rel.kind != Recursive then Some(m.rel)
    else
      var side := FindSide(mt, m.data);
      if side == "child" || side == "children" then Some(m.rel.(kind := OneToOne))
      else if side == "parent" || side == "parents" then
        if mt == MTInsert then None else Some(FlipRel(m.rel.(kind := OneToMany)))
      else Some(m.rel)
  }

  function WhereOk(sch: Schema, data: Payload): bool {
    match (if data.Obj? then Lookup(data.members, "where") else None)
    case Some(w) => sch.filterOk(w)
    case None => true
  }

  // ---- Dependencies ----

  predicate Conn(it: Item) {
    it.mtype == MTConnect || it.mtype == MTDisconnect
  }

  /** An insert that reads its parent's key. */
  predicate NeedsParent(m: Item) {
    m.rel.kind == OneToOne || (m.rel.kind == OneToMany && m.parent != -1 && m.rel.left != m.table)
  }

  /** A nested item whose key the insert into table reads: a connect, or an item on the parent's side. */
  predicate ReadBy(v: Item, table: Table) {
    v.mtype == MTConnect || (v.rel.kind == OneToMany && v.rel.right == table)
  }

  ghost function DepsOf(m: Item, items: seq<Item>): set<int> {
    match m.mtype
    case MTInsert =>
      (if NeedsParent(m) then {m.parent} else {}) + ReadIds(m.table, items)
    case MTUpdate => if m.parent != -1 then {m.parent} else {}
    case _ => if m.rel.kind == OneToOne then {m.parent} else {}
  }

  ghost function ReadIds(table: Table, items: seq<Item>): set<int> {
    set k | 0 <= k < |items| && ReadBy(items[k], table) :: items[k].id
  }
}
