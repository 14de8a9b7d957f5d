/** The two directions of an order list, written out for one column and for two. */
module OrderDirections {
  import opened Common
  import opened Expressions
  import opened SeekPredicate
  import opened Pagination

  predicate Ascending(o: Order) {
    o == OrderNone || o == OrderAsc || o == OrderAscNullsFirst || o == OrderAscNullsLast
  }

  predicate Descending(o: Order) {
    o == OrderDesc || o == OrderDescNullsFirst || o == OrderDescNullsLast
  }

  /** Behind a cursor, an ascending column admits the greater values and a descending one the lesser ones. */
  lemma OneColumn(col: Column, o: Order, row: Row, cur: Row)
    requires Get(row, col.name).Val? && Get(cur, col.name).Val?
    ensures var a, b := Get(row, col.name).v, Get(cur, col.name).v;
      var admits := Eval(SeekTree([OrderBy(col, "", o)]), row, cur);
      (Ascending(o) ==> admits == FromBool(a > b)) && (Descending(o) ==> admits == FromBool(a < b))
  {
    var obs := [OrderBy(col, "", o)];
    assert obs[1..] == [];
    SeekIsLexicographic(obs, row, cur);
  }

  /** Of two columns the second decides where the first one agrees. */
  lemma TwoColumns(first: Column, second: Column, row: Row, cur: Row)
    requires Get(row, first.name).Val? && Get(cur, first.name).Val?
    requires Get(row, second.name).Val? && Get(cur, second.name).Val?
    ensures var a, b, c, d := Get(row, first.name).v, Get(cur, first.name).v, Get(row, second.name).v, Get(cur, second.name).v;
      Eval(SeekTree([OrderBy(first, "", OrderDesc), OrderBy(second, "", OrderAsc)]), row, cur)
        == FromBool(a < b || (a == b && c > d))
  {
    var obs := [OrderBy(first, "", OrderDesc), OrderBy(second, "", OrderAsc)];
    var last := [obs[1]];
    assert obs[1..] == last && last[1..] == [];
    assert StrictlyAfter(last, row, cur) == (Get(row, second.name).v > Get(cur, second.name).v);
    SeekIsLexicographic(obs, row, cur);
  }

  /** The rows of a page ascend or descend. */
  lemma OneColumnSorts(col: Column, o: Order, rows: seq<Row>, i: nat, j: nat)
    requires i < j < |rows| && Sorted([OrderBy(col, "", o)], rows)
    requires Get(rows[i], col.name).Val? && Get(rows[j], col.name).Val?
    ensures var a, b := Get(rows[i], col.name).v, Get(rows[j], col.name).v;
      (Ascending(o) ==> a <= b) && (Descending(o) ==> a >= b)
  {
    var obs := [OrderBy(col, "", o)];
    assert obs[1..] == [];
    assert Before(obs, rows[i], rows[j]);
  }

  /** A configured variant of a column is read from the cursor under the column's name, an underscore and the variant's. */
  lemma VariantColumn(col: Column, variant: string, o: Order, row: Row, cur: Row)
    requires variant != "" && Get(row, col.name).Val? && Get(cur, col.name + "_" + variant).Val?
    ensures var a, b := Get(row, col.name).v, Get(cur, col.name + "_" + variant).v;
      var admits := Eval(SeekTree([OrderBy(col, variant, o)]), row, cur);
      (Ascending(o) ==> admits == FromBool(a > b)) && (Descending(o) ==> admits == FromBool(a < b))
  {
    var obs := [OrderBy(col, variant, o)];
    assert obs[1..] == [];
    SeekIsLexicographic(obs, row, cur);
  }

  // ---- Names of base columns ----

  /** The same letter in either case, or the same byte. */
  predicate SameLetter(a: char, b: char) {
    || a == b
    || ('A' <= a <= 'Z' && a as int + 32 == b as int)
    || ('A' <= b <= 'Z' && b as int + 32 == a as int)
  }

  predicate SameName(a: string, b: string) {
    |a| == |b| && forall k | 0 <= k < |a| :: SameLetter(a[k], b[k])
  }

  lemma LowerIsSame(a: string, b: string)
    ensures Lower(a) == Lower(b) <==> SameName(a, b)
  {
    var l, m := Lower(a), Lower(b);
    if l == m {
      forall k | 0 <= k < |a| ensures SameLetter(a[k], b[k]) {
        assert l[k] == m[k];
      }
    }
  }

  /** A base column is there if one has the name, each letter in either case. */
  lemma ColumnFound(cols: seq<Column>, name: string)
    ensures HasColumn(cols, name) <==> exists c <- cols :: SameName(c.name, name)
  {
    if c :| c in cols && Lower(c.name) == Lower(name) {
      LowerIsSame(c.name, name);
    }
    if c :| c in cols && SameName(c.name, name) {
      LowerIsSame(c.name, name);
    }
  }
}
