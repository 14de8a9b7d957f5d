/**
 Keyset pagination: the OR-of-ANDs predicate of an order list as a tree, which
 rows it admits, and the proof that where all values are present these are the
 rows strictly after the cursor in lexicographic order.
 */
module SeekPredicate {
  import opened Common
  import opened Expressions

  datatype Order =
    | OrderNone | OrderAsc | OrderDesc
    | OrderAscNullsFirst | OrderAscNullsLast
    | OrderDescNullsFirst | OrderDescNullsLast

  datatype Column = Column(name: string, notNull: bool)

  /** One entry of the order list. `key` names a configured variant and is empty for a plain column. */
  datatype OrderBy = OrderBy(col: Column, key: string, order: Order)

  predicate IsDesc(o: Order) {
    o in {OrderDesc, OrderDescNullsFirst, OrderDescNullsLast}
  }

  /** The name under which the `__cur` row holds the entry's value. */
  function CursorName(ob: OrderBy): string {
    if ob.key == "" then ob.col.name else ob.col.name + "_" + ob.key
  }

  // ---- The relation the predicate stands for ----

  predicate Beyond(o: Order, a: int, b: int) {
    if IsDesc(o) then a < b else a > b
  }

  /** The number a present value stands for. */
  function Num(v: Value): int {
    if v.Val? then v.v else 0
  }

  /** Every value the order list reads is present, in the row and in the cursor. */
  predicate Comparable(obs: seq<OrderBy>, row: Row, cur: Row) {
    forall ob <- obs :: Get(row, ob.col.name).Val? && Get(cur, CursorName(ob)).Val?
  }

  /** The row comes strictly after the cursor in the order of the list. */
  predicate StrictlyAfter(obs: seq<OrderBy>, row: Row, cur: Row) {
    if obs == [] then false
    else
      var a, b := Num(Get(row, obs[0].col.name)), Num(Get(cur, CursorName(obs[0])));
      Beyond(obs[0].order, a, b) || (a == b && StrictlyAfter(obs[1..], row, cur))
  }

  // ---- The tree the nested loop builds ----

  function CursorIsNull(ob: OrderBy): Exp {
    IsNull(ColRef(Cursor, CursorName(ob)))
  }

  /** The term of entry n in the i-th disjunct, where `prev` are the disjuncts built so far. */
  function Term(obs: seq<OrderBy>, i: nat, n: nat, prev: seq<Exp>): Exp
    requires n <= i < |obs|
  {
    var ob := obs[n];
    var cmp := if n != i then Equals else if IsDesc(ob.order) then LesserThan else GreaterThan;
    var f := Compare(cmp, ColRef(Own, ob.col.name), ColRef(Cursor, CursorName(ob)));
    if ob.col.notNull then f
    else Node(OpOr, prev + [CursorIsNull(ob), IsNull(ColRef(Own, ob.col.name)), f])
  }

  function Terms(obs: seq<OrderBy>, i: nat, n: nat, prev: seq<Exp>): seq<Exp>
    requires n <= i + 1 && i < |obs|
  {
    if n == 0 then [] else Terms(obs, i, n - 1, prev) + [Term(obs, i, n - 1, prev)]
  }

  function Disjuncts(obs: seq<OrderBy>, i: nat): (d: seq<Exp>)
    requires i <= |obs| && obs != []
  {
    if i == 0 then [CursorIsNull(obs[0])]
    else
      var prev := Disjuncts(obs, i - 1);
      prev + [if i == 1 then Term(obs, 0, 0, prev) else Node(OpAnd, Terms(obs, i - 1, i, prev))]
  }

  function SeekTree(obs: seq<OrderBy>): Exp
    requires obs != []
  {
    Node(OpOr, Disjuncts(obs, |obs|))
  }

  // ---- Meaning of the tree ----

  /** Columns that are not null have a value, in the row and in the cursor. */
  predicate Typed(obs: seq<OrderBy>, row: Row, cur: Row) {
    forall ob <- obs :: ob.col.notNull ==> Get(row, ob.col.name).Val? && Get(cur, CursorName(ob)).Val?
  }

  predicate Missing(ob: OrderBy, row: Row, cur: Row) {
    Get(row, ob.col.name) == Null || Get(cur, CursorName(ob)) == Null
  }

  /** Row and cursor agree at the entry, or one of them has no value there. */
  predicate SameOrNull(ob: OrderBy, row: Row, cur: Row) {
    Missing(ob, row, cur) || Get(row, ob.col.name).v == Get(cur, CursorName(ob)).v
  }

  /** The row is beyond the cursor at the entry, or one of them has no value there. */
  predicate BeyondOrNull(ob: OrderBy, row: Row, cur: Row) {
    Missing(ob, row, cur) || Beyond(ob.order, Get(row, ob.col.name).v, Get(cur, CursorName(ob)).v)
  }

  /** The rows the predicate admits, null values included. */
  predicate Passes(obs: seq<OrderBy>, row: Row, cur: Row) {
    obs != [] && (BeyondOrNull(obs[0], row, cur) || (SameOrNull(obs[0], row, cur) && Passes(obs[1..], row, cur)))
  }

  lemma TermMeaning(obs: seq<OrderBy>, i: nat, n: nat, prev: seq<Exp>, row: Row, cur: Row)
    requires n <= i < |obs| && Typed(obs, row, cur)
    ensures
      var holds := if n != i then SameOrNull(obs[n], row, cur) else BeyondOrNull(obs[n], row, cur);
      Eval(Term(obs, i, n, prev), row, cur) ==
      if obs[n].col.notNull then FromBool(holds) else OrT(EvalAny(prev, row, cur), FromBool(holds))
  {
    var ob := obs[n];
    assert ob in obs;
    var cmp := if n != i then Equals else if IsDesc(ob.order) then LesserThan else GreaterThan;
    var f := Compare(cmp, ColRef(Own, ob.col.name), ColRef(Cursor, CursorName(ob)));
    var c, r := CursorIsNull(ob), IsNull(ColRef(Own, ob.col.name));
    EvalAnyAppend(prev, [c, r, f], row, cur);
    EvalAnyOfThree(c, r, f, row, cur);
  }

  /** The first n entries of row and cursor agree, or have no value. */
  predicate Agree(obs: seq<OrderBy>, n: nat, row: Row, cur: Row)
    requires n <= |obs|
  {
    forall k | 0 <= k < n :: SameOrNull(obs[k], row, cur)
  }

  /** The row is beyond the cursor at entry n, or one has no value there, and they agree before. */
  predicate AfterAt(obs: seq<OrderBy>, n: nat, row: Row, cur: Row)
    requires n < |obs|
  {
    Agree(obs, n, row, cur) && BeyondOrNull(obs[n], row, cur)
  }

  predicate AfterWithin(obs: seq<OrderBy>, i: nat, row: Row, cur: Row)
    requires i <= |obs|
  {
    exists n :: 0 <= n < i && AfterAt(obs, n, row, cur)
  }

  /** One more term, alone or behind the earlier disjuncts e, in a conjunction a that matters only where e is false. */
  lemma OrOverAnd(e: Truth, a: Truth, agree: bool, t: Truth, holds: bool)
    requires e != Unknown && a != Unknown && OrT(e, a) == OrT(e, FromBool(agree))
    requires t == FromBool(holds) || t == OrT(e, FromBool(holds))
    ensures AndT(a, t) != Unknown && OrT(e, AndT(a, t)) == OrT(e, FromBool(agree && holds))
  {
  }

  /** A term in front of the last one asks for agreement, or leaves that to the earlier disjuncts. */
  lemma EqualTerm(obs: seq<OrderBy>, i: nat, n: nat, prev: seq<Exp>, row: Row, cur: Row)
    requires n < i < |obs| && Typed(obs, row, cur)
    ensures var t, same := Eval(Term(obs, i, n, prev), row, cur), FromBool(SameOrNull(obs[n], row, cur));
      t == same || t == OrT(EvalAny(prev, row, cur), same)
  {
    TermMeaning(obs, i, n, prev, row, cur);
  }

  lemma TermsNext(obs: seq<OrderBy>, i: nat, n: nat, prev: seq<Exp>, row: Row, cur: Row)
    requires 0 < n <= i < |obs|
    ensures EvalAll(Terms(obs, i, n, prev), row, cur)
         == AndT(EvalAll(Terms(obs, i, n - 1, prev), row, cur), Eval(Term(obs, i, n - 1, prev), row, cur))
  {
    var t := Term(obs, i, n - 1, prev);
    EvalAllAppend(Terms(obs, i, n - 1, prev), [t], row, cur);
    assert [t][1..] == [];
    assert EvalAll([t], row, cur) == AndT(Eval(t, row, cur), True);
  }

  /**
   A conjunction of the first n terms of disjunct i, weakened by the earlier
   disjuncts: once those are added back, only the agreement is left.
   */
  lemma {:induction false} TermsMeaning(obs: seq<OrderBy>, i: nat, n: nat, prev: seq<Exp>, row: Row, cur: Row)
    requires n <= i < |obs| && Typed(obs, row, cur)
    requires EvalAny(prev, row, cur) != Unknown
    ensures EvalAll(Terms(obs, i, n, prev), row, cur) != Unknown
    ensures OrT(EvalAny(prev, row, cur), EvalAll(Terms(obs, i, n, prev), row, cur))
         == OrT(EvalAny(prev, row, cur), FromBool(Agree(obs, n, row, cur)))
  {
    if n > 0 {
      TermsMeaning(obs, i, n - 1, prev, row, cur);
      EqualTerm(obs, i, n - 1, prev, row, cur);
      TermsNext(obs, i, n, prev, row, cur);
      assert Agree(obs, n, row, cur) == (Agree(obs, n - 1, row, cur) && SameOrNull(obs[n - 1], row, cur));
      OrOverAnd(EvalAny(prev, row, cur), EvalAll(Terms(obs, i, n - 1, prev), row, cur), Agree(obs, n - 1, row, cur),
                Eval(Term(obs, i, n - 1, prev), row, cur), SameOrNull(obs[n - 1], row, cur));
    }
  }

  /** Adding disjunct i to the earlier ones adds exactly the rows that are beyond the cursor at entry i. */
  lemma DisjunctMeaning(obs: seq<OrderBy>, i: nat, row: Row, cur: Row)
    requires i < |obs| && Typed(obs, row, cur)
    requires EvalAny(Disjuncts(obs, i), row, cur) != Unknown
    ensures EvalAny(Disjuncts(obs, i + 1), row, cur)
         == OrT(EvalAny(Disjuncts(obs, i), row, cur), FromBool(AfterAt(obs, i, row, cur)))
  {
    var prev := Disjuncts(obs, i);
    var t := Term(obs, i, i, prev);
    TermMeaning(obs, i, i, prev, row, cur);
    EvalSingleton(t, row, cur);
    if i == 0 {
      assert Disjuncts(obs, 1) == prev + [t];
      EvalAnyAppend(prev, [t], row, cur);
    } else {
      var last := Node(OpAnd, Terms(obs, i, i + 1, prev));
      assert Disjuncts(obs, i + 1) == prev + [last];
      EvalAnyAppend(prev, [last], row, cur);
      EvalSingleton(last, row, cur);
      TermsMeaning(obs, i, i, prev, row, cur);
      EvalAllAppend(Terms(obs, i, i, prev), [t], row, cur);
    }
  }

  /** The test of the cursor and the first i disjuncts; the test alone admits what a null at the first entry admits. */
  lemma {:induction false} DisjunctsMeaning(obs: seq<OrderBy>, i: nat, row: Row, cur: Row)
    requires i <= |obs| && obs != [] && Typed(obs, row, cur)
    ensures EvalAny(Disjuncts(obs, i), row, cur)
         == FromBool(Get(cur, CursorName(obs[0])) == Null || AfterWithin(obs, i, row, cur))
  {
    if i == 0 {
      EvalSingleton(CursorIsNull(obs[0]), row, cur);
    } else {
      DisjunctsMeaning(obs, i - 1, row, cur);
      DisjunctMeaning(obs, i - 1, row, cur);
      assert AfterWithin(obs, i, row, cur) == (AfterWithin(obs, i - 1, row, cur) || AfterAt(obs, i - 1, row, cur));
    }
  }

  lemma {:induction false} AfterWithinIsPasses(obs: seq<OrderBy>, row: Row, cur: Row)
    ensures AfterWithin(obs, |obs|, row, cur) == Passes(obs, row, cur)
  {
    if obs != [] {
      var tail := obs[1..];
      AfterWithinIsPasses(tail, row, cur);
      if AfterWithin(obs, |obs|, row, cur) {
        var n :| 0 <= n < |obs| && AfterAt(obs, n, row, cur);
        if n > 0 {
          assert SameOrNull(obs[0], row, cur);
          assert forall k | 0 <= k < n - 1 :: tail[k] == obs[k + 1];
          assert AfterAt(tail, n - 1, row, cur);
        }
      }
      if AfterWithin(tail, |tail|, row, cur) && SameOrNull(obs[0], row, cur) {
        var n :| 0 <= n < |tail| && AfterAt(tail, n, row, cur);
        forall k | 0 <= k < n + 1 ensures SameOrNull(obs[k], row, cur) {
          assert k > 0 ==> obs[k] == tail[k - 1];
        }
        assert AfterAt(obs, n + 1, row, cur);
      }
      if BeyondOrNull(obs[0], row, cur) {
        assert AfterAt(obs, 0, row, cur);
      }
    }
  }

  /** The rows the predicate admits, for every nullability and all values that the columns allow. */
  lemma SeekMeaning(obs: seq<OrderBy>, row: Row, cur: Row)
    requires obs != [] && Typed(obs, row, cur)
    ensures Eval(SeekTree(obs), row, cur) == FromBool(Passes(obs, row, cur))
  {
    DisjunctsMeaning(obs, |obs|, row, cur);
    AfterWithinIsPasses(obs, row, cur);
    assert obs[0] in obs;
  }

  lemma {:induction false} PassesIsLexicographic(obs: seq<OrderBy>, row: Row, cur: Row)
    requires Comparable(obs, row, cur)
    ensures Passes(obs, row, cur) == StrictlyAfter(obs, row, cur)
  {
    if obs != [] {
      assert obs[0] in obs && forall ob <- obs[1..] :: ob in obs;
      PassesIsLexicographic(obs[1..], row, cur);
    }
  }

  /** The predicate is the lexicographic order, whenever the values it reads are present. */
  lemma SeekIsLexicographic(obs: seq<OrderBy>, row: Row, cur: Row)
    requires obs != [] && Comparable(obs, row, cur)
    ensures Eval(SeekTree(obs), row, cur) == FromBool(StrictlyAfter(obs, row, cur))
  {
    SeekMeaning(obs, row, cur);
    PassesIsLexicographic(obs, row, cur);
  }

  /** A null in a nullable column passes once the entries in front of it agree. */
  lemma NullPasses(obs: seq<OrderBy>, k: nat, row: Row, cur: Row)
    requires k < |obs| && Typed(obs, row, cur) && Get(row, obs[k].col.name) == Null
    requires forall j | 0 <= j < k :: SameOrNull(obs[j], row, cur)
    ensures Passes(obs, row, cur) && Eval(SeekTree(obs), row, cur) == True
  {
    AfterWithinIsPasses(obs, row, cur);
    assert AfterAt(obs, k, row, cur);
    SeekMeaning(obs, row, cur);
  }

  lemma {:induction false} DisjunctsPrefix(obs: seq<OrderBy>, i: nat, j: nat)
    requires i <= j <= |obs| && obs != []
    ensures Disjuncts(obs, i) <= Disjuncts(obs, j)
  {
    if i < j {
      DisjunctsPrefix(obs, i, j - 1);
    }
  }

  lemma TrueDisjunct(obs: seq<OrderBy>, i: nat, row: Row, cur: Row)
    requires i <= |obs| && obs != []
    requires EvalAny(Disjuncts(obs, i), row, cur) == True
    ensures Eval(SeekTree(obs), row, cur) == True
  {
    DisjunctsPrefix(obs, i, |obs|);
    var a, d := Disjuncts(obs, i), Disjuncts(obs, |obs|);
    assert d == a + d[|a|..];
    EvalAnyAppend(a, d[|a|..], row, cur);
  }

  /** Without a cursor every row passes, whatever its values. */
  lemma AbsentCursorAdmitsAll(obs: seq<OrderBy>, row: Row, cur: Row)
    requires obs != [] && Get(cur, CursorName(obs[0])) == Null
    ensures Eval(SeekTree(obs), row, cur) == True
  {
    assert Disjuncts(obs, 0)[1..] == [];
    TrueDisjunct(obs, 0, row, cur);
  }

  /**
   The condition on values cannot be dropped: with a nullable leading column,
   a row whose value is null passes for every cursor, its own included, so it
   is delivered again on every page.
   */
  lemma NullRowPassesEveryCursor(obs: seq<OrderBy>, row: Row, cur: Row)
    requires obs != [] && !obs[0].col.notNull && Get(row, obs[0].col.name) == Null
    ensures Eval(SeekTree(obs), row, cur) == True
  {
    var prev := Disjuncts(obs, 0);
    var t := Term(obs, 0, 0, prev);
    var c, r := CursorIsNull(obs[0]), IsNull(ColRef(Own, obs[0].col.name));
    var f := Compare(if IsDesc(obs[0].order) then LesserThan else GreaterThan,
                     ColRef(Own, obs[0].col.name), ColRef(Cursor, CursorName(obs[0])));
    assert t == Node(OpOr, prev + [c, r, f]);
    EvalAnyAppend(prev, [c, r, f], row, cur);
    EvalAnyOfThree(c, r, f, row, cur);
    EvalAnyAppend(prev, [t], row, cur);
    EvalSingleton(t, row, cur);
    assert Disjuncts(obs, 1) == prev + [t];
    TrueDisjunct(obs, 1, row, cur);
  }

  // ---- Completing the order list ----

  predicate HasColumn(cols: seq<Column>, name: string) {
    exists c <- cols :: Lower(c.name) == Lower(name)
  }

  predicate Orders(obs: seq<OrderBy>, name: string) {
    exists ob <- obs :: ob.col.name == name
  }

  /** The order list followed by the key columns it does not order by yet. */
  function Complete(obs: seq<OrderBy>, keys: seq<Column>, order: Order): seq<OrderBy>
    decreases |keys|
  {
    if keys == [] then obs
    else
      var obs' := if Orders(obs, keys[0].name) then obs else obs + [OrderBy(keys[0], "", order)];
      Complete(obs', keys[1..], order)
  }

  lemma {:induction false} CompleteOrdersEveryKey(obs: seq<OrderBy>, keys: seq<Column>, order: Order)
    ensures obs <= Complete(obs, keys, order)
    ensures forall k <- keys :: Orders(Complete(obs, keys, order), k.name)
    ensures forall ob <- Complete(obs, keys, order)[|obs|..] :: ob.col in keys && ob.key == "" && ob.order == order
    decreases |keys|
  {
    if keys != [] {
      var obs' := if Orders(obs, keys[0].name) then obs else obs + [OrderBy(keys[0], "", order)];
      var r := Complete(obs, keys, order);
      CompleteOrdersEveryKey(obs', keys[1..], order);
      assert Orders(obs', keys[0].name) by {
        if !Orders(obs, keys[0].name) { assert obs'[|obs|] in obs'; }
      }
      assert Orders(r, keys[0].name) by {
        var ob :| ob in obs' && ob.col.name == keys[0].name;
        var i :| 0 <= i < |obs'| && obs'[i] == ob;
        assert r[i] == ob;
      }
      forall ob | ob in r[|obs|..] ensures ob.col in keys && ob.key == "" && ob.order == order {
        var i :| 0 <= i < |r| - |obs| && r[|obs|..][i] == ob;
        if |obs| + i >= |obs'| {
          assert ob == r[|obs'|..][|obs| + i - |obs'|];
        }
      }
    }
  }
}
