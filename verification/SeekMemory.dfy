/**
 The seek predicate as it is built in memory. Children lists are slices, and a
 list that is extended for one term may share its backing array with the list
 of disjuncts it extends: the next disjunct then overwrites a child of that
 term, and the expression contains itself. Proved here is when this happens,
 and that otherwise the expression is the tree of the nested loop.
 */
module SeekMemory {
  import opened Common
  import opened Expressions
  import opened SeekPredicate

  /** The first len elements of a backing array. */
  datatype Slice = Slice(arr: nat, len: nat)

  /** An expression object: a comparison, or an operator with a slice of objects. */
  datatype Cell = Leaf(e: Exp) | Branch(op: BoolOp, kids: Slice)

  datatype Memory = Memory(cells: seq<Cell>, arrays: seq<seq<nat>>)

  /** The capacity the runtime gives a list of some capacity that must hold some number of elements. */
  type Growth = (nat, nat) -> nat

  predicate Fits(m: Memory, s: Slice) {
    s.arr < |m.arrays| && s.len <= |m.arrays[s.arr]|
  }

  function Kids(m: Memory, s: Slice): seq<nat> {
    if Fits(m, s) then m.arrays[s.arr][..s.len] else []
  }

  function Put(m: Memory, c: Cell): Memory {
    m.(cells := m.cells + [c])
  }

  function NewCap(grow: Growth, cap: nat, n: nat): (c: nat)
    ensures c >= n
  {
    if grow(cap, n) >= n then grow(cap, n) else n
  }

  /** Appends in place when the capacity allows it, and otherwise to a copy in a new array. */
  function Append(grow: Growth, m: Memory, s: Slice, items: seq<nat>): (Memory, Slice) {
    if !Fits(m, s) then (m, s)
    else
      var a, n := m.arrays[s.arr], s.len + |items|;
      if n <= |a| then (m.(arrays := m.arrays[s.arr := a[..s.len] + items + a[n..]]), Slice(s.arr, n))
      else
        var spare := seq(NewCap(grow, |a|, n) - n, k => 0);
        (m.(arrays := m.arrays + [a[..s.len] + items + spare]), Slice(|m.arrays|, n))
  }

  // ---- The tree an object stands for ----

  /** The tree below an object, if it has at most d levels. */
  function Unfold(m: Memory, ref: nat, d: nat): Option<Exp>
    decreases d, 0, 0
  {
    if d == 0 || ref >= |m.cells| then None
    else
      match m.cells[ref]
      case Leaf(e) => Some(e)
      case Branch(op, kids) =>
        var es := UnfoldAll(m, Kids(m, kids), d - 1);
        if es.None? then None else Some(Node(op, es.value))
  }

  function UnfoldAll(m: Memory, refs: seq<nat>, d: nat): Option<seq<Exp>>
    decreases d, 1, |refs|
  {
    if refs == [] then Some([])
    else
      var e, es := Unfold(m, refs[0], d), UnfoldAll(m, refs[1..], d);
      if e.None? || es.None? then None else Some([e.value] + es.value)
  }

  // ---- Building ----

  /** The memory, the list of disjuncts, and the list of terms of the current disjunct. */
  datatype Build = Build(m: Memory, ors: Slice, ands: Slice)

  function Comparing(ob: OrderBy, last: bool): Exp {
    var cmp := if !last then Equals else if IsDesc(ob.order) then LesserThan else GreaterThan;
    Compare(cmp, ColRef(Own, ob.col.name), ColRef(Cursor, CursorName(ob)))
  }

  /** The objects of a term: the comparison, or the disjuncts so far extended by it and two tests. */
  function PutTerm(grow: Growth, m: Memory, ors: Slice, ob: OrderBy, last: bool): (Memory, nat) {
    var n := |m.cells|;
    if ob.col.notNull then (Put(m, Leaf(Comparing(ob, last))), n)
    else
      var m3 := Put(Put(Put(m, Leaf(Comparing(ob, last))), Leaf(CursorIsNull(ob))), Leaf(IsNull(ColRef(Own, ob.col.name))));
      var (m4, s) := Append(grow, m3, ors, [n + 1, n + 2, n]);
      (Put(m4, Branch(OpOr, s)), n + 3)
  }

  /** The inner loop's round for entry n of disjunct i. */
  function Entry(grow: Growth, b: Build, obs: seq<OrderBy>, i: nat, n: nat): Build
    requires n < |obs|
  {
    var (m, f) := PutTerm(grow, b.m, b.ors, obs[n], n == i);
    if i > 0 then
      var (m', s) := Append(grow, m, b.ands, [f]);
      Build(m', b.ors, s)
    else
      var (m', s) := Append(grow, m, b.ors, [f]);
      Build(m', s, b.ands)
  }

  function Entries(grow: Growth, b: Build, obs: seq<OrderBy>, i: nat, n: nat): Build
    requires n <= |obs|
  {
    if n == 0 then b else Entry(grow, Entries(grow, b, obs, i, n - 1), obs, i, n - 1)
  }

  /** A disjunct starts with no terms. */
  function NewAnd(b: Build): Build {
    Build(b.m.(arrays := b.m.arrays + [[]]), b.ors, Slice(|b.m.arrays|, 0))
  }

  function CloseAnd(grow: Growth, b: Build): Build {
    var (m, s) := Append(grow, Put(b.m, Branch(OpAnd, b.ands)), b.ors, [|b.m.cells|]);
    Build(m, s, b.ands)
  }

  function Disjunct(grow: Growth, b: Build, obs: seq<OrderBy>, i: nat): Build
    requires i < |obs|
  {
    var b' := Entries(grow, NewAnd(b), obs, i, i + 1);
    if i == 0 then b' else CloseAnd(grow, b')
  }

  function Begin(obs: seq<OrderBy>): Build
    requires obs != []
  {
    Build(Memory([Leaf(CursorIsNull(obs[0]))], [[0]]), Slice(0, 1), Slice(0, 0))
  }

  /** After i rounds of the outer loop. */
  function Built(grow: Growth, obs: seq<OrderBy>, i: nat): Build
    requires obs != [] && i <= |obs|
  {
    if i == 0 then Begin(obs) else Disjunct(grow, Built(grow, obs, i - 1), obs, i - 1)
  }

  /** The whole expression: the memory, and the object of the disjunction. */
  function Seek(grow: Growth, obs: seq<OrderBy>): (Memory, nat)
    requires obs != []
  {
    var b := Built(grow, obs, |obs|);
    (Put(b.m, Branch(OpOr, b.ors)), |b.m.cells|)
  }

  // ---- When lists are shared ----

  /** The capacity of a list that was begun with one element and has grown one by one. */
  function Cap(grow: Growth, len: nat): nat {
    if len <= 1 then 1
    else
      var c := Cap(grow, len - 1);
      if len <= c then c else NewCap(grow, c, len)
  }

  /** In disjunct i the list of disjuncts has room for three more, and entry n extends it for a nullable column. */
  predicate Shares(grow: Growth, obs: seq<OrderBy>, i: nat, n: nat)
    requires i < |obs|
  {
    n <= i && !obs[n].col.notNull && Cap(grow, i + 1) >= i + 4
  }

  predicate Unshared(grow: Growth, obs: seq<OrderBy>) {
    forall i, n | 0 <= n <= i < |obs| :: !Shares(grow, obs, i, n)
  }

  // ---- What appending and putting keep ----

  /** Every operator's slice lies in memory. */
  ghost predicate Well(m: Memory) {
    forall c {:trigger m.cells[c]} :: 0 <= c < |m.cells| && m.cells[c].Branch? ==> Fits(m, m.cells[c].kids)
  }

  /** No object has its children in the array. */
  ghost predicate Private(m: Memory, arr: nat) {
    forall c {:trigger m.cells[c]} :: 0 <= c < |m.cells| && m.cells[c].Branch? ==> m.cells[c].kids.arr != arr
  }

  /** Old objects have the children they had. */
  ghost predicate Extends(m: Memory, m': Memory) {
    && m.cells <= m'.cells
    && forall c {:trigger m.cells[c]} :: 0 <= c < |m.cells| && m.cells[c].Branch? ==>
         Fits(m', m.cells[c].kids) && Kids(m', m.cells[c].kids) == Kids(m, m.cells[c].kids)
  }

  lemma {:induction false} UnfoldKept(m: Memory, m': Memory, ref: nat, d: nat)
    requires Extends(m, m') && Unfold(m, ref, d).Some?
    ensures Unfold(m', ref, d) == Unfold(m, ref, d)
    decreases d, 0, 0
  {
    assert m'.cells[ref] == m.cells[ref];
    if m.cells[ref].Branch? {
      UnfoldAllKept(m, m', Kids(m, m.cells[ref].kids), d - 1);
    }
  }

  lemma {:induction false} UnfoldAllKept(m: Memory, m': Memory, refs: seq<nat>, d: nat)
    requires Extends(m, m') && UnfoldAll(m, refs, d).Some?
    ensures UnfoldAll(m', refs, d) == UnfoldAll(m, refs, d)
    decreases d, 1, |refs|
  {
    if refs != [] {
      UnfoldKept(m, m', refs[0], d);
      UnfoldAllKept(m, m', refs[1..], d);
    }
  }

  lemma {:induction false} UnfoldDeeper(m: Memory, ref: nat, d: nat, d': nat)
    requires d <= d' && Unfold(m, ref, d).Some?
    ensures Unfold(m, ref, d') == Unfold(m, ref, d)
    decreases d, 0, 0
  {
    if m.cells[ref].Branch? {
      UnfoldAllDeeper(m, Kids(m, m.cells[ref].kids), d - 1, d' - 1);
    }
  }

  lemma {:induction false} UnfoldAllDeeper(m: Memory, refs: seq<nat>, d: nat, d': nat)
    requires d <= d' && UnfoldAll(m, refs, d).Some?
    ensures UnfoldAll(m, refs, d') == UnfoldAll(m, refs, d)
    decreases d, 1, |refs|
  {
    if refs != [] {
      UnfoldDeeper(m, refs[0], d, d');
      UnfoldAllDeeper(m, refs[1..], d, d');
    }
  }

  lemma {:induction false} UnfoldAllAppend(m: Memory, a: seq<nat>, b: seq<nat>, d: nat)
    requires UnfoldAll(m, a, d).Some? && UnfoldAll(m, b, d).Some?
    ensures UnfoldAll(m, a + b, d) == Some(UnfoldAll(m, a, d).value + UnfoldAll(m, b, d).value)
    decreases |a|
  {
    if a == [] {
      assert a + b == b && [] + UnfoldAll(m, b, d).value == UnfoldAll(m, b, d).value;
    } else {
      assert (a + b)[1..] == a[1..] + b;
      UnfoldAllAppend(m, a[1..], b, d);
      var e, es, fs := Unfold(m, a[0], d).value, UnfoldAll(m, a[1..], d).value, UnfoldAll(m, b, d).value;
      assert [e] + (es + fs) == [e] + es + fs;
    }
  }

  /** Appending gives the longer list, keeps every other array, and leaves old objects alone if the list is private. */
  lemma AppendIs(grow: Growth, m: Memory, s: Slice, items: seq<nat>)
    requires Fits(m, s)
    ensures var (m', s') := Append(grow, m, s, items);
      && m'.cells == m.cells && Fits(m', s') && Kids(m', s') == Kids(m, s) + items
      && s'.len == s.len + |items| && |m.arrays| <= |m'.arrays|
      && (forall a {:trigger m'.arrays[a]} :: 0 <= a < |m.arrays| && a != s.arr ==> m'.arrays[a] == m.arrays[a])
      && |m'.arrays[s.arr]| == |m.arrays[s.arr]| && m'.arrays[s.arr][..s.len] == m.arrays[s.arr][..s.len]
      && (if s'.len <= |m.arrays[s.arr]| then s'.arr == s.arr
          else s'.arr == |m.arrays| && m'.arrays[s.arr] == m.arrays[s.arr])
      && |m'.arrays[s'.arr]| == if s'.len <= |m.arrays[s.arr]| then |m.arrays[s.arr]| else NewCap(grow, |m.arrays[s.arr]|, s'.len)
  {
    var a, n := m.arrays[s.arr], s.len + |items|;
    if n <= |a| {
      assert (a[..s.len] + items + a[n..])[..n] == a[..s.len] + items;
      assert (a[..s.len] + items + a[n..])[..s.len] == a[..s.len];
    } else {
      var spare := seq(NewCap(grow, |a|, n) - n, k => 0);
      assert (a[..s.len] + items + spare)[..n] == a[..s.len] + items;
    }
  }

  lemma AppendKeeps(grow: Growth, m: Memory, s: Slice, items: seq<nat>)
    requires Fits(m, s) && Well(m)
    ensures var m' := Append(grow, m, s, items).0;
      Well(m') && (Private(m, s.arr) || s.len + |items| > |m.arrays[s.arr]| ==> Extends(m, m'))
  {
    AppendIs(grow, m, s, items);
    var m' := Append(grow, m, s, items).0;
    var safe := Private(m, s.arr) || s.len + |items| > |m.arrays[s.arr]|;
    forall c {:trigger m.cells[c]} | 0 <= c < |m.cells| && m.cells[c].Branch?
      ensures Fits(m', m.cells[c].kids)
      ensures safe ==> Kids(m', m.cells[c].kids) == Kids(m, m.cells[c].kids)
    {
      var arr := m.cells[c].kids.arr;
      assert arr != s.arr ==> m'.arrays[arr] == m.arrays[arr];
    }
  }

  lemma PutKeeps(m: Memory, c: Cell)
    requires Well(m) && (c.Branch? ==> Fits(m, c.kids))
    ensures Well(Put(m, c)) && Extends(m, Put(m, c))
    ensures forall a: nat {:trigger Private(m, a)} :: Private(m, a) && (c.Branch? ==> c.kids.arr != a) ==> Private(Put(m, c), a)
  {
  }

  lemma ExtendsTwice(m: Memory, m': Memory, m'': Memory)
    requires Extends(m, m') && Extends(m', m'')
    ensures Extends(m, m'')
  {
    forall c {:trigger m.cells[c]} | 0 <= c < |m.cells| && m.cells[c].Branch?
      ensures Fits(m'', m.cells[c].kids) && Kids(m'', m.cells[c].kids) == Kids(m, m.cells[c].kids)
    {
      assert m'.cells[c] == m.cells[c];
    }
  }

  // ---- Unshared lists give the tree ----

  /** The lists lie in memory, apart; the disjuncts are k and have the capacity they must have. */
  ghost predicate Shape(grow: Growth, b: Build, k: nat) {
    && Well(b.m) && Fits(b.m, b.ors) && Fits(b.m, b.ands) && b.ors.arr != b.ands.arr
    && b.ors.len == k && |b.m.arrays[b.ors.arr]| == Cap(grow, k)
  }

  /** No object reads the lists that grow. */
  ghost predicate Apart(b: Build) {
    Private(b.m, b.ors.arr) && Private(b.m, b.ands.arr)
  }

  /** The objects stand for the trees, within d levels. */
  ghost predicate Stands(m: Memory, refs: seq<nat>, es: seq<Exp>, d: nat) {
    UnfoldAll(m, refs, d) == Some(es)
  }

  lemma StandsOne(m: Memory, ref: nat, e: Exp, d: nat)
    requires Unfold(m, ref, d) == Some(e)
    ensures Stands(m, [ref], [e], d)
  {
    assert [ref][1..] == [] && [e] + [] == [e];
  }

  lemma StandsBoth(m: Memory, a: seq<nat>, es: seq<Exp>, b: seq<nat>, fs: seq<Exp>, d: nat)
    requires Stands(m, a, es, d) && Stands(m, b, fs, d)
    ensures Stands(m, a + b, es + fs, d)
  {
    UnfoldAllAppend(m, a, b, d);
  }

  /** A term is put in memory: old objects stay, and its object stands for the term. */
  lemma LeavesKeep(m: Memory, a: Exp, b: Exp, c: Exp)
    requires Well(m)
    ensures var m' := Put(Put(Put(m, Leaf(a)), Leaf(b)), Leaf(c));
      && Well(m') && Extends(m, m') && m'.arrays == m.arrays
      && m'.cells == m.cells + [Leaf(a), Leaf(b), Leaf(c)]
      && forall k: nat {:trigger Private(m, k)} :: Private(m, k) ==> Private(m', k)
  {
    var m1 := Put(m, Leaf(a));
    var m2 := Put(m1, Leaf(b));
    var m3 := Put(m2, Leaf(c));
    PutKeeps(m, Leaf(a));
    PutKeeps(m1, Leaf(b));
    PutKeeps(m2, Leaf(c));
    ExtendsTwice(m, m1, m2);
    ExtendsTwice(m, m2, m3);
  }

  lemma TermPut(grow: Growth, m: Memory, ors: Slice, obs: seq<OrderBy>, i: nat, n: nat, prev: seq<Exp>, d: nat)
    requires Well(m) && Fits(m, ors) && n <= i < |obs| && d >= 1 && Stands(m, Kids(m, ors), prev, d)
    requires obs[n].col.notNull || ors.len + 3 > |m.arrays[ors.arr]|
    ensures var (m', f) := PutTerm(grow, m, ors, obs[n], n == i);
      && Well(m') && Extends(m, m') && Unfold(m', f, d + 1) == Some(Term(obs, i, n, prev))
      && |m.arrays| <= |m'.arrays|
      && (forall a {:trigger m'.arrays[a]} :: 0 <= a < |m.arrays| ==> m'.arrays[a] == m.arrays[a])
      && (forall a: nat {:trigger Private(m, a)} :: Private(m, a) && a < |m.arrays| ==> Private(m', a))
  {
    var ob, last := obs[n], n == i;
    if ob.col.notNull {
      var leaf := Leaf(Comparing(ob, last));
      PutKeeps(m, leaf);
      assert Unfold(Put(m, leaf), |m.cells|, d + 1) == Some(leaf.e);
    } else {
      NullableTermPut(grow, m, ors, ob, last, prev, d);
    }
  }

  lemma NullableTermPut(grow: Growth, m: Memory, ors: Slice, ob: OrderBy, last: bool, prev: seq<Exp>, d: nat)
    requires Well(m) && Fits(m, ors) && d >= 1 && Stands(m, Kids(m, ors), prev, d)
    requires !ob.col.notNull && ors.len + 3 > |m.arrays[ors.arr]|
    ensures var (m', f) := PutTerm(grow, m, ors, ob, last);
      && Well(m') && Extends(m, m')
      && Unfold(m', f, d + 1) == Some(Node(OpOr, prev + [CursorIsNull(ob), IsNull(ColRef(Own, ob.col.name)), Comparing(ob, last)]))
      && |m.arrays| <= |m'.arrays|
      && (forall a {:trigger m'.arrays[a]} :: 0 <= a < |m.arrays| ==> m'.arrays[a] == m.arrays[a])
      && (forall a: nat {:trigger Private(m, a)} :: Private(m, a) && a < |m.arrays| ==> Private(m', a))
  {
    var leaf, curNull, rowNull := Leaf(Comparing(ob, last)), Leaf(CursorIsNull(ob)), Leaf(IsNull(ColRef(Own, ob.col.name)));
    var k := |m.cells|;
    var m3 := Put(Put(Put(m, leaf), curNull), rowNull);
    LeavesKeep(m, leaf.e, curNull.e, rowNull.e);
    AppendIs(grow, m3, ors, [k + 1, k + 2, k]);
    AppendKeeps(grow, m3, ors, [k + 1, k + 2, k]);
    var (m4, s) := Append(grow, m3, ors, [k + 1, k + 2, k]);
    ExtendsTwice(m, m3, m4);
    PutKeeps(m4, Branch(OpOr, s));
    var m5 := Put(m4, Branch(OpOr, s));
    ExtendsTwice(m, m4, m5);
    OrStands(m, m5, Kids(m, ors), prev, k, curNull.e, rowNull.e, leaf.e, d);
    forall a: nat {:trigger Private(m, a)} | Private(m, a) && a < |m.arrays| ensures Private(m5, a) {
      assert Private(m3, a) && m4.cells == m3.cells && s.arr != a;
    }
  }

  lemma OrStands(m: Memory, m': Memory, refs: seq<nat>, prev: seq<Exp>, k: nat, c: Exp, r: Exp, f: Exp, d: nat)
    requires Extends(m, m') && Stands(m, refs, prev, d) && d >= 1 && k + 3 < |m'.cells|
    requires m'.cells[k] == Leaf(f) && m'.cells[k + 1] == Leaf(c) && m'.cells[k + 2] == Leaf(r)
    requires m'.cells[k + 3].Branch? && m'.cells[k + 3].op == OpOr && Kids(m', m'.cells[k + 3].kids) == refs + [k + 1, k + 2, k]
    ensures Unfold(m', k + 3, d + 1) == Some(Node(OpOr, prev + [c, r, f]))
  {
    UnfoldAllKept(m, m', refs, d);
    StandsOne(m', k + 1, c, d);
    StandsOne(m', k + 2, r, d);
    StandsOne(m', k, f, d);
    StandsBoth(m', [k + 1], [c], [k + 2], [r], d);
    StandsBoth(m', [k + 1] + [k + 2], [c] + [r], [k], [f], d);
    assert [k + 1] + [k + 2] + [k] == [k + 1, k + 2, k] && [c] + [r] + [f] == [c, r, f];
    StandsBoth(m', refs, prev, [k + 1, k + 2, k], [c, r, f], d);
  }

  // ---- One round ----

  /** The lists while disjunct i is built, its first n terms being there. */
  ghost predicate Within(grow: Growth, b: Build, obs: seq<OrderBy>, i: nat, n: nat, prev: seq<Exp>, d: nat)
    requires n <= i + 1 && i < |obs|
  {
    && Shape(grow, b, i + 1) && Apart(b)
    && Stands(b.m, Kids(b.m, b.ors), prev, d)
    && Stands(b.m, Kids(b.m, b.ands), Terms(obs, i, n, prev), d + 1)
  }

  /** Putting a term in memory leaves both lists standing. */
  lemma TermStands(grow: Growth, b: Build, obs: seq<OrderBy>, i: nat, n: nat, prev: seq<Exp>, d: nat)
    requires 0 < i < |obs| && n <= i && d >= 1 && Within(grow, b, obs, i, n, prev, d) && !Shares(grow, obs, i, n)
    ensures var (m, f) := PutTerm(grow, b.m, b.ors, obs[n], n == i);
      && Well(m) && Fits(m, b.ors) && Fits(m, b.ands) && Private(m, b.ors.arr) && Private(m, b.ands.arr)
      && m.arrays[b.ors.arr] == b.m.arrays[b.ors.arr] && m.arrays[b.ands.arr] == b.m.arrays[b.ands.arr]
      && Stands(m, Kids(m, b.ors), prev, d) && Stands(m, Kids(m, b.ands), Terms(obs, i, n, prev), d + 1)
      && Unfold(m, f, d + 1) == Some(Term(obs, i, n, prev))
  {
    var (m, f) := PutTerm(grow, b.m, b.ors, obs[n], n == i);
    TermPut(grow, b.m, b.ors, obs, i, n, prev, d);
    assert m.arrays[b.ors.arr] == b.m.arrays[b.ors.arr] && m.arrays[b.ands.arr] == b.m.arrays[b.ands.arr];
    UnfoldAllKept(b.m, m, Kids(b.m, b.ors), d);
    UnfoldAllKept(b.m, m, Kids(b.m, b.ands), d + 1);
  }

  lemma EntryKeeps(grow: Growth, b: Build, obs: seq<OrderBy>, i: nat, n: nat, prev: seq<Exp>, d: nat)
    requires 0 < i < |obs| && n <= i && d >= 1 && Within(grow, b, obs, i, n, prev, d) && !Shares(grow, obs, i, n)
    ensures Within(grow, Entry(grow, b, obs, i, n), obs, i, n + 1, prev, d)
  {
    var (m, f) := PutTerm(grow, b.m, b.ors, obs[n], n == i);
    TermStands(grow, b, obs, i, n, prev, d);
    TermAppended(grow, m, b.ors, b.ands, f, prev, Terms(obs, i, n, prev), Term(obs, i, n, prev), d);
    AppendApart(grow, m, b.ands, [f], b.ors.arr);
    AppendIs(grow, m, b.ands, [f]);
  }

  /** The term's object is appended to the list of terms. */
  lemma TermAppended(grow: Growth, m: Memory, ors: Slice, ands: Slice, f: nat, prev: seq<Exp>, terms: seq<Exp>, t: Exp, d: nat)
    requires Well(m) && Fits(m, ors) && Fits(m, ands) && ors.arr != ands.arr && Private(m, ands.arr)
    requires Stands(m, Kids(m, ors), prev, d) && Stands(m, Kids(m, ands), terms, d + 1) && Unfold(m, f, d + 1) == Some(t)
    ensures var (m', s) := Append(grow, m, ands, [f]);
      Well(m') && Stands(m', Kids(m, ors), prev, d) && Stands(m', Kids(m', s), terms + [t], d + 1)
  {
    AppendIs(grow, m, ands, [f]);
    AppendKeeps(grow, m, ands, [f]);
    var m' := Append(grow, m, ands, [f]).0;
    UnfoldAllKept(m, m', Kids(m, ors), d);
    UnfoldAllKept(m, m', Kids(m, ands), d + 1);
    UnfoldKept(m, m', f, d + 1);
    StandsOne(m', f, t, d + 1);
    StandsBoth(m', Kids(m, ands), terms, [f], [t], d + 1);
  }

  /** A private list stays so, and another private array stays apart from it. */
  lemma AppendApart(grow: Growth, m: Memory, s: Slice, items: seq<nat>, other: nat)
    requires Well(m) && Fits(m, s) && Private(m, s.arr) && Private(m, other) && other < |m.arrays| && other != s.arr
    ensures var (m', s') := Append(grow, m, s, items);
      Private(m', s'.arr) && Private(m', other) && s'.arr != other && m'.arrays[other] == m.arrays[other]
  {
    AppendIs(grow, m, s, items);
  }

  lemma {:induction false} EntriesKeep(grow: Growth, b: Build, obs: seq<OrderBy>, i: nat, n: nat, prev: seq<Exp>, d: nat)
    requires 0 < i < |obs| && n <= i + 1 && d >= 1 && Within(grow, b, obs, i, 0, prev, d) && Unshared(grow, obs)
    ensures Within(grow, Entries(grow, b, obs, i, n), obs, i, n, prev, d)
  {
    if n > 0 {
      var c := Entries(grow, b, obs, i, n - 1);
      EntriesKeep(grow, b, obs, i, n - 1, prev, d);
      assert Within(grow, Entry(grow, c, obs, i, n - 1), obs, i, n, prev, d) by {
        EntryKeeps(grow, c, obs, i, n - 1, prev, d);
      }
      assert Entries(grow, b, obs, i, n) == Entry(grow, c, obs, i, n - 1);
    }
  }

  /** Between two rounds of the outer loop: i disjuncts are there, besides the test of the cursor. */
  ghost predicate Between(grow: Growth, b: Build, obs: seq<OrderBy>, i: nat)
    requires obs != [] && i <= |obs|
  {
    && Well(b.m) && Fits(b.m, b.ors) && Private(b.m, b.ors.arr)
    && b.ors.len == i + 1 && |b.m.arrays[b.ors.arr]| == Cap(grow, i + 1)
    && Stands(b.m, Kids(b.m, b.ors), Disjuncts(obs, i), 2 * i + 1)
  }

  lemma NewAndKeeps(grow: Growth, b: Build, obs: seq<OrderBy>, i: nat)
    requires i < |obs| && Between(grow, b, obs, i)
    ensures Within(grow, NewAnd(b), obs, i, 0, Disjuncts(obs, i), 2 * i + 1)
  {
    var b' := NewAnd(b);
    assert Extends(b.m, b'.m);
    UnfoldAllKept(b.m, b'.m, Kids(b.m, b.ors), 2 * i + 1);
  }

  /** The first disjunct is a term on its own. */
  lemma FirstKeeps(grow: Growth, b: Build, obs: seq<OrderBy>)
    requires obs != [] && Between(grow, b, obs, 0)
    ensures Between(grow, Disjunct(grow, b, obs, 0), obs, 1)
  {
    var b0, prev := NewAnd(b), Disjuncts(obs, 0);
    NewAndKeeps(grow, b, obs, 0);
    TermPut(grow, b0.m, b0.ors, obs, 0, 0, prev, 1);
    var (m, f) := PutTerm(grow, b0.m, b0.ors, obs[0], true);
    assert m.arrays[b0.ors.arr] == b0.m.arrays[b0.ors.arr];
    UnfoldDeeper(m, f, 2, 3);
    AppendsDisjunct(grow, b0.m, m, b0.ors, f, obs, 0, Term(obs, 0, 0, prev), 1);
    assert Entries(grow, b0, obs, 0, 0) == b0;
  }

  /** One more object behind those that stand for the list. */
  lemma StandsMore(m0: Memory, m: Memory, m': Memory, refs: seq<nat>, es: seq<Exp>, f: nat, e: Exp, d: nat)
    requires Extends(m0, m) && Extends(m, m') && Stands(m0, refs, es, d) && Unfold(m, f, d + 2) == Some(e)
    ensures Stands(m', refs + [f], es + [e], d + 2)
  {
    UnfoldAllKept(m0, m, refs, d);
    UnfoldAllDeeper(m, refs, d, d + 2);
    UnfoldAllKept(m, m', refs, d + 2);
    UnfoldKept(m, m', f, d + 2);
    StandsOne(m', f, e, d + 2);
    StandsBoth(m', refs, es, [f], [e], d + 2);
  }

  /** A finished disjunct is appended to the list. */
  lemma AppendsDisjunct(grow: Growth, m0: Memory, m: Memory, ors: Slice, f: nat, obs: seq<OrderBy>, i: nat, e: Exp, d: nat)
    requires i < |obs| && d >= 1 && Well(m) && Fits(m0, ors) && Fits(m, ors) && Extends(m0, m) && Private(m, ors.arr)
    requires Kids(m, ors) == Kids(m0, ors) && ors.len == i + 1 && |m.arrays[ors.arr]| == Cap(grow, i + 1)
    requires Stands(m0, Kids(m0, ors), Disjuncts(obs, i), d) && Unfold(m, f, d + 2) == Some(e) && d + 2 == 2 * i + 3
    requires Disjuncts(obs, i + 1) == Disjuncts(obs, i) + [e]
    ensures var (m', s) := Append(grow, m, ors, [f]);
      Between(grow, Build(m', s, ors), obs, i + 1)
  {
    AppendIs(grow, m, ors, [f]);
    AppendKeeps(grow, m, ors, [f]);
    var (m', s) := Append(grow, m, ors, [f]);
    StandsMore(m0, m, m', Kids(m0, ors), Disjuncts(obs, i), f, e, d);
    GrownCap(grow, m, ors, [f], i);
    assert Private(m', s.arr);
  }

  lemma GrownCap(grow: Growth, m: Memory, ors: Slice, items: seq<nat>, i: nat)
    requires Fits(m, ors) && |items| == 1 && ors.len == i + 1 && |m.arrays[ors.arr]| == Cap(grow, i + 1)
    ensures var (m', s) := Append(grow, m, ors, items);
      Fits(m', s) && |m'.arrays[s.arr]| == Cap(grow, i + 2)
  {
    AppendIs(grow, m, ors, items);
  }

  lemma ClosesAnd(grow: Growth, b: Build, obs: seq<OrderBy>, i: nat)
    requires 0 < i < |obs| && Within(grow, b, obs, i, i + 1, Disjuncts(obs, i), 2 * i + 1)
    ensures Between(grow, CloseAnd(grow, b), obs, i + 1)
  {
    var h := |b.m.cells|;
    var node := Branch(OpAnd, b.ands);
    var m := Put(b.m, node);
    PutKeeps(b.m, node);
    var terms := Terms(obs, i, i + 1, Disjuncts(obs, i));
    UnfoldAllKept(b.m, m, Kids(b.m, b.ands), 2 * i + 2);
    assert m.cells[h] == node && Kids(m, b.ands) == Kids(b.m, b.ands);
    assert Unfold(m, h, 2 * i + 3) == Some(Node(OpAnd, terms));
    AppendsDisjunct(grow, b.m, m, b.ors, h, obs, i, Node(OpAnd, terms), 2 * i + 1);
  }

  lemma DisjunctKeeps(grow: Growth, b: Build, obs: seq<OrderBy>, i: nat)
    requires 0 < i < |obs| && Unshared(grow, obs) && Between(grow, b, obs, i)
    ensures Between(grow, Disjunct(grow, b, obs, i), obs, i + 1)
  {
    NewAndKeeps(grow, b, obs, i);
    EntriesKeep(grow, NewAnd(b), obs, i, i + 1, Disjuncts(obs, i), 2 * i + 1);
    ClosesAnd(grow, Entries(grow, NewAnd(b), obs, i, i + 1), obs, i);
  }

  lemma BeginKeeps(grow: Growth, obs: seq<OrderBy>)
    requires obs != []
    ensures Between(grow, Begin(obs), obs, 0)
  {
    var b := Begin(obs);
    StandsOne(b.m, 0, CursorIsNull(obs[0]), 1);
    assert Kids(b.m, b.ors) == [0];
  }

  lemma {:induction false} BuiltKeeps(grow: Growth, obs: seq<OrderBy>, i: nat)
    requires obs != [] && i <= |obs| && Unshared(grow, obs)
    ensures Between(grow, Built(grow, obs, i), obs, i)
  {
    if i == 0 {
      BeginKeeps(grow, obs);
    } else {
      var b := Built(grow, obs, i - 1);
      BuiltKeeps(grow, obs, i - 1);
      if i == 1 {
        FirstKeeps(grow, b, obs);
      } else {
        DisjunctKeeps(grow, b, obs, i - 1);
      }
    }
  }

  lemma RootStands(b: Build, es: seq<Exp>, d: nat)
    requires Well(b.m) && Fits(b.m, b.ors) && Stands(b.m, Kids(b.m, b.ors), es, d)
    ensures Unfold(Put(b.m, Branch(OpOr, b.ors)), |b.m.cells|, d + 1) == Some(Node(OpOr, es))
  {
    var node := Branch(OpOr, b.ors);
    var m := Put(b.m, node);
    PutKeeps(b.m, node);
    UnfoldAllKept(b.m, m, Kids(b.m, b.ors), d);
    assert m.cells[|b.m.cells|] == node && Kids(m, b.ors) == Kids(b.m, b.ors);
  }

  /** Where no lists are shared, the expression is the tree of the nested loop. */
  lemma SeekIsTree(grow: Growth, obs: seq<OrderBy>)
    requires obs != [] && Unshared(grow, obs)
    ensures var (m, root) := Seek(grow, obs);
      Unfold(m, root, 2 * |obs| + 2) == Some(SeekTree(obs))
  {
    BuiltKeeps(grow, obs, |obs|);
    RootStands(Built(grow, obs, |obs|), Disjuncts(obs, |obs|), 2 * |obs| + 1);
  }

  // ---- Shared lists give a ring ----

  /** Objects g and h are children of each other: h stands in g's array at slot s, g in h's array at slot u. */
  datatype Ring = Ring(g: nat, h: nat, a: nat, s: nat, t: nat, u: nat)

  /** Object x is the child of object p that stands in array arr at slot k. */
  ghost predicate ChildAt(m: Memory, p: nat, arr: nat, k: nat, x: nat) {
    && p < |m.cells| && m.cells[p].Branch? && Fits(m, m.cells[p].kids)
    && m.cells[p].kids.arr == arr && k < m.cells[p].kids.len && m.arrays[arr][k] == x
  }

  ghost predicate Ringed(m: Memory, r: Ring) {
    ChildAt(m, r.g, r.a, r.s, r.h) && ChildAt(m, r.h, r.t, r.u, r.g)
  }

  lemma {:induction false} ChildMissing(m: Memory, refs: seq<nat>, k: nat, d: nat)
    requires k < |refs| && Unfold(m, refs[k], d).None?
    ensures UnfoldAll(m, refs, d).None?
    decreases k
  {
    if k > 0 {
      ChildMissing(m, refs[1..], k - 1, d);
    }
  }

  /** An object whose child has no tree has none. */
  lemma ParentMissing(m: Memory, p: nat, arr: nat, k: nat, x: nat, d: nat)
    requires ChildAt(m, p, arr, k, x) && d > 0 && Unfold(m, x, d - 1).None?
    ensures Unfold(m, p, d).None?
  {
    var kids := Kids(m, m.cells[p].kids);
    assert kids[k] == x;
    ChildMissing(m, kids, k, d - 1);
  }

  /** No object of a ring stands for a tree. */
  lemma {:induction false} RingHasNoTree(m: Memory, r: Ring, d: nat)
    requires Ringed(m, r)
    ensures Unfold(m, r.g, d).None? && Unfold(m, r.h, d).None?
    decreases d
  {
    if d > 0 {
      RingHasNoTree(m, r, d - 1);
      ParentMissing(m, r.g, r.a, r.s, r.h, d);
      ParentMissing(m, r.h, r.t, r.u, r.g, d);
    }
  }

  /** Appending to the list does not write the slot. */
  ghost predicate Spares(s: Slice, arr: nat, k: nat) {
    s.arr == arr ==> k < s.len
  }

  ghost predicate SparesRing(s: Slice, r: Ring) {
    Spares(s, r.a, r.s) && Spares(s, r.t, r.u)
  }

  lemma AppendKeepsChild(grow: Growth, m: Memory, s: Slice, items: seq<nat>, p: nat, arr: nat, k: nat, x: nat)
    requires Fits(m, s) && Spares(s, arr, k) && ChildAt(m, p, arr, k, x)
    ensures var (m', s') := Append(grow, m, s, items);
      ChildAt(m', p, arr, k, x) && Spares(s', arr, k)
  {
    AppendIs(grow, m, s, items);
    var m' := Append(grow, m, s, items).0;
    if s.arr == arr {
      assert m'.arrays[arr][k] == m'.arrays[arr][..s.len][k];
    } else {
      assert m'.arrays[arr] == m.arrays[arr];
    }
  }

  lemma AppendKeepsRing(grow: Growth, m: Memory, s: Slice, items: seq<nat>, r: Ring)
    requires Fits(m, s) && SparesRing(s, r) && Ringed(m, r)
    ensures var (m', s') := Append(grow, m, s, items);
      Ringed(m', r) && SparesRing(s', r)
  {
    AppendKeepsChild(grow, m, s, items, r.g, r.a, r.s, r.h);
    AppendKeepsChild(grow, m, s, items, r.h, r.t, r.u, r.g);
  }

  /** Where the lists lie, whatever they share: k disjuncts with their capacity, and n terms in another array. */
  ghost predicate Lies(grow: Growth, b: Build, k: nat, n: nat) {
    && Fits(b.m, b.ors) && Fits(b.m, b.ands) && b.ors.arr != b.ands.arr
    && b.ors.len == k && |b.m.arrays[b.ors.arr]| == Cap(grow, k) && b.ands.len == n
  }

  /** What putting a term in memory does to the arrays, and what its object is for a nullable column. */
  lemma TermLies(grow: Growth, m: Memory, ors: Slice, ob: OrderBy, last: bool)
    requires Fits(m, ors)
    ensures var (m', f) := PutTerm(grow, m, ors, ob, last);
      && m.cells <= m'.cells && f < |m'.cells| && |m.arrays| <= |m'.arrays|
      && (forall a {:trigger m'.arrays[a]} :: 0 <= a < |m.arrays| && a != ors.arr ==> m'.arrays[a] == m.arrays[a])
      && |m'.arrays[ors.arr]| == |m.arrays[ors.arr]| && Kids(m', ors) == Kids(m, ors)
      && (!ob.col.notNull && ors.len + 3 <= |m.arrays[ors.arr]| ==> m'.cells[f] == Branch(OpOr, Slice(ors.arr, ors.len + 3)))
  {
    var k := |m.cells|;
    if !ob.col.notNull {
      var m3 := Put(Put(Put(m, Leaf(Comparing(ob, last))), Leaf(CursorIsNull(ob))), Leaf(IsNull(ColRef(Own, ob.col.name))));
      AppendIs(grow, m3, ors, [k + 1, k + 2, k]);
    }
  }

  lemma TermKeepsRing(grow: Growth, m: Memory, ors: Slice, ob: OrderBy, last: bool, r: Ring)
    requires Fits(m, ors) && SparesRing(ors, r) && Ringed(m, r)
    ensures Ringed(PutTerm(grow, m, ors, ob, last).0, r)
  {
    if !ob.col.notNull {
      var k := |m.cells|;
      var m3 := Put(Put(Put(m, Leaf(Comparing(ob, last))), Leaf(CursorIsNull(ob))), Leaf(IsNull(ColRef(Own, ob.col.name))));
      AppendKeepsRing(grow, m3, ors, [k + 1, k + 2, k], r);
    }
  }

  /** A round for an entry of a later disjunct adds one term and leaves the rest of the lists alone. */
  lemma EntryLies(grow: Growth, b: Build, obs: seq<OrderBy>, i: nat, n: nat)
    requires 0 < i && n < |obs| && Lies(grow, b, i + 1, n)
    ensures var b' := Entry(grow, b, obs, i, n);
      && Lies(grow, b', i + 1, n + 1) && b'.ors == b.ors && b.m.cells <= b'.m.cells
      && Kids(b'.m, b'.ors) == Kids(b.m, b.ors) && Kids(b.m, b.ands) <= Kids(b'.m, b'.ands)
      && (!obs[n].col.notNull && Cap(grow, i + 1) >= i + 4 ==>
            var g := Kids(b'.m, b'.ands)[n];
            g < |b'.m.cells| && b'.m.cells[g] == Branch(OpOr, Slice(b.ors.arr, i + 4)))
  {
    var (m, f) := PutTerm(grow, b.m, b.ors, obs[n], n == i);
    TermLies(grow, b.m, b.ors, obs[n], n == i);
    assert m.arrays[b.ands.arr] == b.m.arrays[b.ands.arr];
    AppendIs(grow, m, b.ands, [f]);
    var m' := Append(grow, m, b.ands, [f]).0;
    assert m'.arrays[b.ors.arr] == m.arrays[b.ors.arr];
  }

  lemma {:induction false} EntriesLie(grow: Growth, b: Build, obs: seq<OrderBy>, i: nat, n: nat)
    requires 0 < i < |obs| && n <= i + 1 && Lies(grow, b, i + 1, 0)
    ensures var b' := Entries(grow, b, obs, i, n);
      Lies(grow, b', i + 1, n) && b'.ors == b.ors && Kids(b'.m, b'.ors) == Kids(b.m, b.ors)
  {
    if n > 0 {
      EntriesLie(grow, b, obs, i, n - 1);
      EntryLies(grow, Entries(grow, b, obs, i, n - 1), obs, i, n - 1);
    }
  }

  /** The term of entry n, which extends the list of disjuncts in place. */
  ghost predicate Extended(b: Build, i: nat, n: nat, g: nat) {
    && g < |b.m.cells| && b.m.cells[g] == Branch(OpOr, Slice(b.ors.arr, i + 4))
    && n < |Kids(b.m, b.ands)| && Kids(b.m, b.ands)[n] == g
  }

  /** It stays among the terms until the disjunct is finished. */
  lemma {:induction false} ExtendedStays(grow: Growth, b: Build, obs: seq<OrderBy>, i: nat, n: nat, k: nat) returns (g: nat)
    requires 0 < i < |obs| && n < k <= i + 1 && Lies(grow, b, i + 1, 0) && Shares(grow, obs, i, n)
    ensures Extended(Entries(grow, b, obs, i, k), i, n, g)
    decreases k
  {
    EntriesLie(grow, b, obs, i, k - 1);
    var b' := Entries(grow, b, obs, i, k - 1);
    var c := Entry(grow, b', obs, i, k - 1);
    assert Entries(grow, b, obs, i, k) == c;
    EntryLies(grow, b', obs, i, k - 1);
    if k == n + 1 {
      g := Kids(c.m, c.ands)[n];
    } else {
      g := ExtendedStays(grow, b, obs, i, n, k - 1);
    }
  }

  /** Object x is among the disjuncts. */
  ghost predicate Listed(b: Build, x: nat) {
    x in Kids(b.m, b.ors)
  }

  /** A finished disjunct overwrites the child behind the list in the term that extended it, and the two make a ring. */
  lemma RingMade(grow: Growth, b: Build, i: nat, n: nat, g: nat) returns (r: Ring)
    requires Lies(grow, b, i + 1, i + 1) && n <= i && Cap(grow, i + 1) >= i + 4 && Extended(b, i, n, g)
    ensures var b' := CloseAnd(grow, b);
      Ringed(b'.m, r) && SparesRing(b'.ors, r) && Listed(b', r.h)
  {
    var h := |b.m.cells|;
    r := Ring(g, h, b.ors.arr, i + 1, b.ands.arr, n);
    var m := Put(b.m, Branch(OpAnd, b.ands));
    AppendIs(grow, m, b.ors, [h]);
    var (m', s) := Append(grow, m, b.ors, [h]);
    assert m'.arrays[b.ands.arr] == m.arrays[b.ands.arr];
    assert Kids(m', s)[i + 1] == h;
    assert m'.arrays[b.ors.arr][i + 1] == Kids(m', s)[i + 1];
    assert Kids(b.m, b.ands)[n] == m.arrays[b.ands.arr][n];
  }

  lemma CloseAndLies(grow: Growth, b: Build, i: nat)
    requires Lies(grow, b, i + 1, i + 1)
    ensures var b' := CloseAnd(grow, b);
      Fits(b'.m, b'.ors) && b'.ors.len == i + 2 && |b'.m.arrays[b'.ors.arr]| == Cap(grow, i + 2)
      && Kids(b.m, b.ors) <= Kids(b'.m, b'.ors)
  {
    AppendIs(grow, Put(b.m, Branch(OpAnd, b.ands)), b.ors, [|b.m.cells|]);
  }

  lemma NewAndLies(grow: Growth, b: Build, i: nat)
    requires Fits(b.m, b.ors) && b.ors.len == i + 1 && |b.m.arrays[b.ors.arr]| == Cap(grow, i + 1)
    ensures Lies(grow, NewAnd(b), i + 1, 0) && Kids(NewAnd(b).m, b.ors) == Kids(b.m, b.ors)
  {
  }

  // ---- A ring stays ----

  /** There is a ring, and one of its objects is a disjunct. */
  ghost predicate Lost(b: Build, r: Ring) {
    Ringed(b.m, r) && SparesRing(b.ors, r) && Listed(b, r.h)
  }

  /** The ring is out of reach of the disjunct that is being built as well. */
  ghost predicate Spared(b: Build, r: Ring) {
    Lost(b, r) && SparesRing(b.ands, r)
  }

  lemma EntryStaysLost(grow: Growth, b: Build, obs: seq<OrderBy>, i: nat, n: nat, r: Ring)
    requires 0 < i && n < |obs| && Lies(grow, b, i + 1, n) && Spared(b, r)
    ensures Spared(Entry(grow, b, obs, i, n), r)
  {
    EntryLies(grow, b, obs, i, n);
    TermLies(grow, b.m, b.ors, obs[n], n == i);
    TermKeepsRing(grow, b.m, b.ors, obs[n], n == i, r);
    var (m, f) := PutTerm(grow, b.m, b.ors, obs[n], n == i);
    AppendKeepsRing(grow, m, b.ands, [f], r);
  }

  lemma {:induction false} EntriesStayLost(grow: Growth, b: Build, obs: seq<OrderBy>, i: nat, n: nat, r: Ring)
    requires 0 < i < |obs| && n <= i + 1 && Lies(grow, b, i + 1, 0) && Spared(b, r)
    ensures Spared(Entries(grow, b, obs, i, n), r)
  {
    if n > 0 {
      var c := Entries(grow, b, obs, i, n - 1);
      EntriesLie(grow, b, obs, i, n - 1);
      EntriesStayLost(grow, b, obs, i, n - 1, r);
      var d := Entry(grow, c, obs, i, n - 1);
      assert Spared(d, r) by {
        EntryStaysLost(grow, c, obs, i, n - 1, r);
      }
      assert Entries(grow, b, obs, i, n) == d;
    }
  }

  lemma DisjunctStaysLost(grow: Growth, b: Build, obs: seq<OrderBy>, i: nat, r: Ring)
    requires 0 < i < |obs| && Lost(b, r)
    requires Fits(b.m, b.ors) && b.ors.len == i + 1 && |b.m.arrays[b.ors.arr]| == Cap(grow, i + 1)
    ensures Lost(Disjunct(grow, b, obs, i), r)
  {
    var b0 := NewAnd(b);
    NewAndLies(grow, b, i);
    NewAndLost(b, r);
    EntriesStayLost(grow, b0, obs, i, i + 1, r);
    EntriesLie(grow, b0, obs, i, i + 1);
    var b1 := Entries(grow, b0, obs, i, i + 1);
    PutKeepsRing(b1.m, Branch(OpAnd, b1.ands), r);
    AppendKeepsRing(grow, Put(b1.m, Branch(OpAnd, b1.ands)), b1.ors, [|b1.m.cells|], r);
    CloseAndLies(grow, b1, i);
  }

  lemma NewAndLost(b: Build, r: Ring)
    requires Lost(b, r) && Fits(b.m, b.ors)
    ensures Spared(NewAnd(b), r)
  {
    assert Kids(NewAnd(b).m, b.ors) == Kids(b.m, b.ors);
  }

  lemma FirstLies(grow: Growth, b: Build, obs: seq<OrderBy>)
    requires obs != [] && Lies(grow, b, 1, 0)
    ensures var b' := Entries(grow, b, obs, 0, 1);
      Fits(b'.m, b'.ors) && b'.ors.len == 2 && |b'.m.arrays[b'.ors.arr]| == Cap(grow, 2)
  {
    TermLies(grow, b.m, b.ors, obs[0], true);
    var (m, f) := PutTerm(grow, b.m, b.ors, obs[0], true);
    AppendIs(grow, m, b.ors, [f]);
    assert Entries(grow, b, obs, 0, 0) == b;
  }

  lemma {:induction false} BuiltLies(grow: Growth, obs: seq<OrderBy>, i: nat)
    requires obs != [] && i <= |obs|
    ensures var b := Built(grow, obs, i);
      Fits(b.m, b.ors) && b.ors.len == i + 1 && |b.m.arrays[b.ors.arr]| == Cap(grow, i + 1)
  {
    if i > 0 {
      var b := Built(grow, obs, i - 1);
      BuiltLies(grow, obs, i - 1);
      NewAndLies(grow, b, i - 1);
      if i == 1 {
        FirstLies(grow, NewAnd(b), obs);
      } else {
        EntriesLie(grow, NewAnd(b), obs, i - 1, i);
        CloseAndLies(grow, Entries(grow, NewAnd(b), obs, i - 1, i), i - 1);
      }
    }
  }

  lemma DisjunctIsLost(grow: Growth, b: Build, obs: seq<OrderBy>, i: nat, n: nat) returns (r: Ring)
    requires i < |obs| && n <= i && Shares(grow, obs, i, n)
    requires Fits(b.m, b.ors) && b.ors.len == i + 1 && |b.m.arrays[b.ors.arr]| == Cap(grow, i + 1)
    ensures Lost(Disjunct(grow, b, obs, i), r)
  {
    var b0 := NewAnd(b);
    NewAndLies(grow, b, i);
    EntriesLie(grow, b0, obs, i, i + 1);
    var g := ExtendedStays(grow, b0, obs, i, n, i + 1);
    r := RingMade(grow, Entries(grow, b0, obs, i, i + 1), i, n, g);
  }

  /** From the round that shares a list on, the expression is lost. */
  lemma {:induction false} BuiltIsLost(grow: Growth, obs: seq<OrderBy>, i: nat, n: nat, k: nat) returns (c: Build, r: Ring)
    requires n <= i < k <= |obs| && Shares(grow, obs, i, n)
    ensures c == Built(grow, obs, k) && Lost(c, r)
    decreases k
  {
    var b := Built(grow, obs, k - 1);
    BuiltLies(grow, obs, k - 1);
    c := Disjunct(grow, b, obs, k - 1);
    if k == i + 1 {
      r := DisjunctIsLost(grow, b, obs, i, n);
    } else {
      b, r := BuiltIsLost(grow, obs, i, n, k - 1);
      DisjunctStaysLost(grow, b, obs, k - 1, r);
    }
  }

  lemma PutKeepsRing(m: Memory, c: Cell, r: Ring)
    requires Ringed(m, r)
    ensures Ringed(Put(m, c), r)
  {
  }

  lemma DisjunctionLost(b: Build, r: Ring, d: nat)
    requires Lost(b, r) && Fits(b.m, b.ors)
    ensures Unfold(Put(b.m, Branch(OpOr, b.ors)), |b.m.cells|, d).None?
  {
    var m := Put(b.m, Branch(OpOr, b.ors));
    PutKeepsRing(b.m, Branch(OpOr, b.ors), r);
    if d > 0 {
      RingHasNoTree(m, r, d - 1);
      var k :| 0 <= k < |Kids(b.m, b.ors)| && Kids(b.m, b.ors)[k] == r.h;
      assert b.m.arrays[b.ors.arr][k] == r.h;
      assert ChildAt(m, |b.m.cells|, b.ors.arr, k, r.h);
      ParentMissing(m, |b.m.cells|, b.ors.arr, k, r.h, d);
    }
  }

  /** Where lists are shared, the expression has no tree of any depth: it contains itself. */
  lemma SharedHasNoTree(grow: Growth, obs: seq<OrderBy>, i: nat, n: nat, d: nat)
    requires n <= i < |obs| && Shares(grow, obs, i, n)
    ensures var (m, root) := Seek(grow, obs);
      Unfold(m, root, d).None?
  {
    var b, r := BuiltIsLost(grow, obs, i, n, |obs|);
    BuiltLies(grow, obs, |obs|);
    DisjunctionLost(b, r, d);
  }

  /** The object stands for some tree. */
  ghost predicate HasTree(m: Memory, ref: nat) {
    exists d: nat :: Unfold(m, ref, d).Some?
  }

  /** The built expression has a tree exactly if no list is shared, and it is the tree of the nested loop. */
  lemma SeekHasTree(grow: Growth, obs: seq<OrderBy>)
    requires obs != []
    ensures var (m, root) := Seek(grow, obs);
      && (HasTree(m, root) <==> Unshared(grow, obs))
      && forall d: nat :: Unfold(m, root, d).Some? ==> Unfold(m, root, d) == Some(SeekTree(obs))
  {
    var (m, root) := Seek(grow, obs);
    if Unshared(grow, obs) {
      SeekIsTree(grow, obs);
      var n := 2 * |obs| + 2;
      forall d: nat | Unfold(m, root, d).Some? ensures Unfold(m, root, d) == Some(SeekTree(obs)) {
        UnfoldDeeper(m, root, d, d + n);
        UnfoldDeeper(m, root, n, d + n);
      }
    } else {
      var i, n :| 0 <= n <= i < |obs| && Shares(grow, obs, i, n);
      forall d: nat ensures Unfold(m, root, d).None? {
        SharedHasNoTree(grow, obs, i, n, d);
      }
    }
  }

  /** The tree of the expression that is built for an order list, if it has one. */
  function SeekBuilt(grow: Growth, obs: seq<OrderBy>): Option<Exp>
    requires obs != []
  {
    var (m, root) := Seek(grow, obs);
    Unfold(m, root, 2 * |obs| + 2)
  }

  lemma SeekUnfolds(grow: Growth, obs: seq<OrderBy>)
    requires obs != []
    ensures SeekBuilt(grow, obs) == if Unshared(grow, obs) then Some(SeekTree(obs)) else None
  {
    if Unshared(grow, obs) {
      SeekIsTree(grow, obs);
    } else {
      var i, n :| 0 <= n <= i < |obs| && Shares(grow, obs, i, n);
      SharedHasNoTree(grow, obs, i, n, 2 * |obs| + 2);
    }
  }

  // ---- Which lists are shared ----

  /** Lists of columns that are not null are never shared. */
  lemma NotNullUnshared(grow: Growth, obs: seq<OrderBy>)
    requires forall ob <- obs :: ob.col.notNull
    ensures Unshared(grow, obs)
  {
    forall i, n | 0 <= n <= i < |obs| ensures !Shares(grow, obs, i, n) {
      assert obs[n] in obs;
    }
  }

  /** Small lists are doubled. */
  ghost predicate Doubles(grow: Growth) {
    grow(1, 2) == 2 && grow(2, 3) == 4 && grow(4, 5) == 8
  }

  lemma DoubledCaps(grow: Growth)
    requires Doubles(grow)
    ensures Cap(grow, 1) == 1 && Cap(grow, 2) == 2 && Cap(grow, 3) == 4 && Cap(grow, 4) == 4 && Cap(grow, 5) == 8
  {
    assert Cap(grow, 2) == NewCap(grow, 1, 2);
    assert Cap(grow, 3) == NewCap(grow, 2, 3);
  }

  /** Where small lists are doubled, lists of four entries never share, and lists of more do with a nullable column among five. */
  lemma FiveEntries(grow: Growth, obs: seq<OrderBy>)
    requires Doubles(grow)
    ensures |obs| <= 4 ==> Unshared(grow, obs)
    ensures |obs| >= 5 && (exists n :: 0 <= n < 5 && !obs[n].col.notNull) ==> !Unshared(grow, obs)
  {
    DoubledCaps(grow);
    if |obs| >= 5 && exists n :: 0 <= n < 5 && !obs[n].col.notNull {
      var n :| 0 <= n < 5 && !obs[n].col.notNull;
      assert Shares(grow, obs, 4, n);
    }
  }
}
