/** What key inference makes of every column, in terms of the entries of the column map alone. */
module ViewColumns {
  import opened Common
  import opened ViewKeys

  /** The table has a column of that name. */
  predicate Has(cmap: ColumnMap, t: TableId, name: string) {
    exists k <- cmap :: cmap[k].schema == t.schema && cmap[k].table == t.table && cmap[k].name == name
  }

  /** The column is in the table's key. */
  predicate HasKey(cmap: ColumnMap, t: TableId, name: string) {
    exists k <- cmap :: cmap[k].schema == t.schema && cmap[k].table == t.table && cmap[k].name == name && cmap[k].primaryKey
  }

  /** The names outside the base table's key that both tables have. */
  function Shared(cmap: ColumnMap, view: TableId, base: TableId): set<string> {
    set k | k in cmap && Has(cmap, base, cmap[k].name) && !HasKey(cmap, base, cmap[k].name) && Has(cmap, view, cmap[k].name) :: cmap[k].name
  }

  /** The view has the whole key of another table of its schema, and some other column of that table. */
  ghost predicate Covers(cmap: ColumnMap, view: TableId, base: TableId) {
    && base.schema == view.schema && base.table != view.table
    && (exists n :: HasKey(cmap, base, n)) && (forall n :: HasKey(cmap, base, n) ==> Has(cmap, view, n))
    && Shared(cmap, view, base) != {}
  }

  /** It shares more columns with that table than with any other such table. */
  ghost predicate Best(cmap: ColumnMap, view: TableId, base: TableId) {
    && Covers(cmap, view, base)
    && forall t :: Covers(cmap, view, t) && t != base ==> |Shared(cmap, view, t)| < |Shared(cmap, view, base)|
  }

  lemma SetsAre(cmap: ColumnMap, t: TableId, n: string)
    ensures n in Cols(cmap, t) <==> Has(cmap, t, n)
    ensures n in Keys(cmap, t) <==> HasKey(cmap, t, n)
  {
  }

  lemma OverlapIsShared(cmap: ColumnMap, view: TableId, base: TableId)
    ensures (Cols(cmap, base) - Keys(cmap, base)) * Cols(cmap, view) == Shared(cmap, view, base)
  {
    forall n ensures n in (Cols(cmap, base) - Keys(cmap, base)) * Cols(cmap, view) <==> n in Shared(cmap, view, base) {
      SetsAre(cmap, base, n);
      SetsAre(cmap, view, n);
      if n in Cols(cmap, view) {
        var k :| k in cmap && TableOf(cmap[k]) == view && cmap[k].name == n;
      }
    }
  }

  lemma CandidateCovers(cmap: ColumnMap, view: TableId, base: TableId)
    ensures Candidate(cmap, view, base) <==> Covers(cmap, view, base)
  {
    OverlapIsShared(cmap, view, base);
    forall n ensures (n in Keys(cmap, base) <==> HasKey(cmap, base, n)) && (n in Cols(cmap, view) <==> Has(cmap, view, n)) {
      SetsAre(cmap, base, n);
      SetsAre(cmap, view, n);
    }
    if n :| HasKey(cmap, base, n) {
      assert n in Keys(cmap, base);
    }
    if Keys(cmap, base) != {} {
      var n :| n in Keys(cmap, base);
      assert HasKey(cmap, base, n);
    }
  }

  lemma WinnerIsBest(cmap: ColumnMap, view: TableId, base: TableId)
    ensures Winner(cmap, view, base) <==> Best(cmap, view, base)
  {
    forall t ensures (Candidate(cmap, view, t) <==> Covers(cmap, view, t)) && Overlap(cmap, view, t) == |Shared(cmap, view, t)| {
      CandidateCovers(cmap, view, t);
      OverlapIsShared(cmap, view, t);
    }
    forall t | Candidate(cmap, view, t) ensures t in Tables(cmap) {
      KeyedTableExists(cmap, t);
    }
  }

  /** Every column stands under "schema:table:column". */
  ghost predicate Named(cmap: ColumnMap) {
    forall k {:trigger cmap[k]} :: k in cmap ==>
      var c := cmap[k];
      k == c.schema + ":" + c.table + ":" + c.name && ':' !in c.schema && ':' !in c.table
  }

  /** The column gets into a key: its table has none, is no internal one, and has a best base table whose key has the name. */
  ghost predicate Gains(cmap: ColumnMap, c: Column) {
    var t := TableId(c.schema, c.table);
    && (forall n :: !HasKey(cmap, t, n)) && !("_gj_" <= c.table)
    && exists base :: Best(cmap, t, base) && HasKey(cmap, base, c.name)
  }

  /** Inference marks exactly the columns that gain a key, as primary and as unique, and changes nothing else. */
  lemma ColumnsInferred(cmap: ColumnMap, k: string)
    requires Named(cmap) && k in cmap
    ensures var c, r := cmap[k], Inferred(cmap, Tables(cmap));
      r.Keys == cmap.Keys && r[k] == if Gains(cmap, c) then c.(primaryKey := true, uniqueKey := true) else c
  {
    assert Indexed(cmap) by {
      NamedIsIndexed(cmap);
    }
    MarkedExactly(cmap, k);
    GainsIsWon(cmap, k);
    EntryInferred(cmap, Tables(cmap), k);
    if cmap[k].primaryKey {
      assert HasKey(cmap, TableId(cmap[k].schema, cmap[k].table), cmap[k].name);
    }
  }

  lemma NamedIsIndexed(cmap: ColumnMap)
    requires Named(cmap)
    ensures Indexed(cmap)
  {
  }

  lemma EntryInferred(cmap: ColumnMap, views: set<TableId>, k: string)
    requires k in cmap
    ensures var c, r := cmap[k], Inferred(cmap, views);
      r.Keys == cmap.Keys && r[k] == if Marked(cmap, views, k) && !c.primaryKey then c.(primaryKey := true, uniqueKey := true) else c
  {
  }

  lemma GainsIsWon(cmap: ColumnMap, k: string)
    requires k in cmap
    ensures Gains(cmap, cmap[k]) <==> WonKey(cmap, TableOf(cmap[k]), cmap[k].name)
  {
    KeylessIs(cmap, k);
    WonIs(cmap, TableOf(cmap[k]), cmap[k].name);
  }

  lemma KeylessIs(cmap: ColumnMap, k: string)
    requires k in cmap
    ensures var t := TableId(cmap[k].schema, cmap[k].table);
      Keyless(cmap, t) <==> (forall n :: !HasKey(cmap, t, n)) && !("_gj_" <= t.table)
  {
    var t := TableId(cmap[k].schema, cmap[k].table);
    assert TableOf(cmap[k]) == t && t in Tables(cmap);
    forall n ensures n in Keys(cmap, t) <==> HasKey(cmap, t, n) {
      SetsAre(cmap, t, n);
    }
  }

  lemma WonIs(cmap: ColumnMap, t: TableId, name: string)
    ensures (exists b <- Tables(cmap) :: Winner(cmap, t, b) && name in Keys(cmap, b))
      <==> exists base :: Best(cmap, t, base) && HasKey(cmap, base, name)
  {
    if b :| b in Tables(cmap) && Winner(cmap, t, b) && name in Keys(cmap, b) {
      WinnerIsBest(cmap, t, b);
      SetsAre(cmap, b, name);
    }
    if base :| Best(cmap, t, base) && HasKey(cmap, base, name) {
      WinnerIsBest(cmap, t, base);
      SetsAre(cmap, base, name);
      KeyedTableExists(cmap, base);
    }
  }
}
