/**
 The select whose order list is completed with the primary key and whose filter
 is conjoined with the seek predicate of that list.
 */
module OrderSelect {
  import opened Common
  import opened Expressions
  import opened SeekPredicate
  import opened SeekMemory

  /** `both` holds of a row exactly as the conjunction of `a` and `b` does. */
  ghost predicate Conjoins(both: Exp, a: Exp, b: Exp) {
    forall row, cur :: Eval(both, row, cur) == AndT(Eval(a, row, cur), Eval(b, row, cur))
  }

  lemma Conjoined(a: Exp, b: Exp)
    ensures Conjoins(Node(OpAnd, [a, b]), a, b)
  {
    forall row, cur ensures Eval(Node(OpAnd, [a, b]), row, cur) == AndT(Eval(a, row, cur), Eval(b, row, cur)) {
      EvalPair(a, b, row, cur);
    }
  }

  lemma ColumnAdded(before: seq<Column>, after: seq<Column>, col: Column)
    requires after == if HasColumn(before, col.name) then before else before + [col]
    ensures HasColumn(after, col.name)
  {
    if !HasColumn(before, col.name) {
      assert after[|before|] in after;
    }
  }

  lemma ColumnStays(before: seq<Column>, after: seq<Column>, name: string)
    requires before <= after && HasColumn(before, name)
    ensures HasColumn(after, name)
  {
    var c :| c in before && Lower(c.name) == Lower(name);
    assert c in after;
  }

  class Select {
    const keys: seq<Column>
    const order: Order
    var orderBy: seq<OrderBy>
    var baseCols: seq<Column>
    var filter: Option<Exp>

    constructor (keys: seq<Column>, order: Order, orderBy: seq<OrderBy>, baseCols: seq<Column>, filter: Option<Exp>)
      ensures this.keys == keys && this.order == order && this.orderBy == orderBy
      ensures this.baseCols == baseCols && this.filter == filter
    {
      this.keys, this.order, this.orderBy := keys, order, orderBy;
      this.baseCols, this.filter := baseCols, filter;
    }

    method AddBaseCol(col: Column)
      modifies this`baseCols
      ensures baseCols == if HasColumn(old(baseCols), col.name) then old(baseCols) else old(baseCols) + [col]
    {
      for i := 0 to |baseCols|
        invariant forall j | 0 <= j < i :: Lower(baseCols[j].name) != Lower(col.name)
        invariant baseCols == old(baseCols)
      {
        if Lower(baseCols[i].name) == Lower(col.name) {
          assert baseCols[i] in baseCols;
          return;
        }
      }
      baseCols := baseCols + [col];
    }

    /** Completes the order list with the key, so that no two rows tie. Fails for a table without a key. */
    method OrderByIDCol() returns (ok: bool)
      modifies this`orderBy, this`baseCols
      ensures ok == (keys != [])
      ensures orderBy == if ok then Complete(old(orderBy), keys, order) else old(orderBy)
      ensures old(baseCols) <= baseCols
      ensures ok ==> forall k <- keys :: HasColumn(baseCols, k.name)
    {
      if keys == [] { return false; }
      for i := 0 to |keys|
        invariant Complete(orderBy, keys[i..], order) == Complete(old(orderBy), keys, order)
        invariant old(baseCols) <= baseCols
        invariant forall j | 0 <= j < i :: HasColumn(baseCols, keys[j].name)
      {
        ghost var before := baseCols;
        AddBaseCol(keys[i]);
        ColumnAdded(before, baseCols, keys[i]);
        forall j | 0 <= j < i ensures HasColumn(baseCols, keys[j].name) {
          ColumnStays(before, baseCols, keys[j].name);
        }
        var already := false;
        for n := 0 to |orderBy|
          invariant already == exists m :: 0 <= m < n && orderBy[m].col.name == keys[i].name
        {
          if orderBy[n].col.name == keys[i].name {
            already := true;
            break;
          }
        }
        assert already == Orders(orderBy, keys[i].name);
        if !already {
          orderBy := orderBy + [OrderBy(keys[i], "", order)];
        }
        assert keys[i..][1..] == keys[i + 1..];
      }
      assert keys[|keys|..] == [];
      return true;
    }

    /** Conjoins the expression in front of the filter. */
    method AddAndFilter(ex: Exp)
      modifies this`filter
      ensures filter.Some?
      ensures if old(filter).None? then filter == Some(ex) else Conjoins(filter.value, ex, old(filter).value)
    {
      if filter.None? {
        filter := Some(ex);
        return;
      }
      Conjoined(ex, filter.value);
      filter := Some(Node(OpAnd, [ex, filter.value]));
    }

    /** Conjoins the expression behind the filter. */
    method AddAndFilterLast(ex: Exp)
      modifies this`filter
      ensures filter.Some?
      ensures if old(filter).None? then filter == Some(ex) else Conjoins(filter.value, old(filter).value, ex)
    {
      if filter.None? {
        filter := Some(ex);
        return;
      }
      Conjoined(filter.value, ex);
      filter := Some(Node(OpAnd, [filter.value, ex]));
    }

    /** Conjoins the negation of the expression. */
    method AddNotFilter(ex: Exp)
      modifies this`filter
      ensures filter.Some?
      ensures old(filter).None? ==> forall row, cur :: Eval(filter.value, row, cur) == NotT(Eval(ex, row, cur))
      ensures old(filter).Some? ==> Conjoins(filter.value, Node(OpNot, [ex]), old(filter).value)
    {
      var not := Node(OpNot, [ex]);
      if filter.None? {
        filter := Some(not);
        return;
      }
      Conjoined(not, filter.value);
      filter := Some(Node(OpAnd, [not, filter.value]));
    }

    /**
     Builds the seek predicate of the order list in memory and conjoins it with the filter. An expression that contains
     itself is no filter: then the method says so.
     */
    method AddSeekPredicate(grow: Growth) returns (ok: bool)
      requires orderBy != []
      modifies this`filter
      ensures ok == Unshared(grow, orderBy)
      ensures !ok ==> filter == old(filter)
      ensures ok ==> filter.Some? && if old(filter).None? then filter == Some(SeekTree(orderBy))
                                     else Conjoins(filter.value, SeekTree(orderBy), old(filter).value)
    {
      var m := Memory([Leaf(CursorIsNull(orderBy[0]))], [[0]]);
      var ors, ands := Slice(0, 1), Slice(0, 0);
      for i := 0 to |orderBy|
        invariant Build(m, ors, ands) == Built(grow, orderBy, i)
        invariant filter == old(filter) && orderBy == old(orderBy)
      {
        m, ors, ands := AddDisjunct(grow, m, ors, ands, i);
      }
      var root := |m.cells|;
      m := Put(m, Branch(OpOr, ors));
      var tree := SeekTreeIn(grow, m, root);
      ok := tree.Some?;
      if ok {
        AddAndFilter(tree.value);
      }
    }

    /** One round of the outer loop. */
    method AddDisjunct(grow: Growth, m: Memory, ors: Slice, ands: Slice, i: nat) returns (m': Memory, ors': Slice, ands': Slice)
      requires i < |orderBy|
      ensures Build(m', ors', ands') == Disjunct(grow, Build(m, ors, ands), orderBy, i)
    {
      m', ors', ands' := AddEntries(grow, m.(arrays := m.arrays + [[]]), ors, Slice(|m.arrays|, 0), i);
      if i > 0 {
        var and := |m'.cells|;
        m' := Put(m', Branch(OpAnd, ands'));
        var r := Append(grow, m', ors', [and]);
        m', ors' := r.0, r.1;
      }
    }

    /** The inner loop: the comparisons of the first i + 1 entries. */
    method AddEntries(grow: Growth, m: Memory, ors: Slice, ands: Slice, i: nat) returns (m': Memory, ors': Slice, ands': Slice)
      requires i < |orderBy|
      ensures Build(m', ors', ands') == Entries(grow, Build(m, ors, ands), orderBy, i, i + 1)
    {
      m', ors', ands' := m, ors, ands;
      for n := 0 to i + 1
        invariant Build(m', ors', ands') == Entries(grow, Build(m, ors, ands), orderBy, i, n)
      {
        var f;
        m', f := AddTerm(grow, m', ors', orderBy[n], i > 0 && n != i);
        if i > 0 {
          var r := Append(grow, m', ands', [f]);
          m', ands' := r.0, r.1;
        } else {
          var r := Append(grow, m', ors', [f]);
          m', ors' := r.0, r.1;
        }
      }
    }

    /** The objects of one entry's comparison; a nullable column's extends the list of disjuncts. */
    method AddTerm(grow: Growth, m: Memory, ors: Slice, ob: OrderBy, equals: bool) returns (m': Memory, f: nat)
      ensures (m', f) == PutTerm(grow, m, ors, ob, !equals)
    {
      var cmp := if equals then Equals else if IsDesc(ob.order) then LesserThan else GreaterThan;
      f := |m.cells|;
      m' := Put(m, Leaf(Compare(cmp, ColRef(Own, ob.col.name), ColRef(Cursor, CursorName(ob)))));
      if !ob.col.notNull {
        m' := Put(m', Leaf(CursorIsNull(ob)));
        m' := Put(m', Leaf(IsNull(ColRef(Own, ob.col.name))));
        var r := Append(grow, m', ors, [f + 1, f + 2, f]);
        f := |r.0.cells|;
        m' := Put(r.0, Branch(OpOr, r.1));
      }
    }

    /** The tree of the built expression, if it has one. */
    method SeekTreeIn(grow: Growth, m: Memory, root: nat) returns (tree: Option<Exp>)
      requires orderBy != [] && (m, root) == Seek(grow, orderBy)
      ensures tree == if Unshared(grow, orderBy) then Some(SeekTree(orderBy)) else None
    {
      tree := Unfold(m, root, 2 * |orderBy| + 2);
      SeekUnfolds(grow, orderBy);
    }
  }
}
