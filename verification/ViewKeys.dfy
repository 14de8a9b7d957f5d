/**
 Inferring the primary key of a view from the base table whose columns it
 shares most of. All loops run over maps, so every order of their entries has
 to give the same result; the loops below pick entries arbitrarily.
 */
module ViewKeys {

  datatype Column = Column(schema: string, table: string, name: string, primaryKey: bool, uniqueKey: bool)

  datatype TableId = TableId(schema: string, table: string)

  type ColumnMap = map<string, Column>

  function TableOf(c: Column): TableId {
    TableId(c.schema, c.table)
  }

  /** The name under which the column map holds a column of a table. */
  function EntryName(t: TableId, col: string): string {
    t.schema + ":" + t.table + ":" + col
  }

  // ---- What is inferred ----

  function Tables(cmap: ColumnMap): set<TableId> {
    set k | k in cmap :: TableOf(cmap[k])
  }

  function Cols(cmap: ColumnMap, t: TableId): set<string> {
    set k | k in cmap && TableOf(cmap[k]) == t :: cmap[k].name
  }

  function Keys(cmap: ColumnMap, t: TableId): set<string> {
    set k | k in cmap && TableOf(cmap[k]) == t && cmap[k].primaryKey :: cmap[k].name
  }

  predicate Internal(t: TableId) {
    "_gj_" <= t.table
  }

  predicate Keyless(cmap: ColumnMap, t: TableId) {
    t in Tables(cmap) && Keys(cmap, t) == {} && !Internal(t)
  }

  /** How many columns outside the base table's key the view has as well. */
  function Overlap(cmap: ColumnMap, view: TableId, base: TableId): nat {
    |(Cols(cmap, base) - Keys(cmap, base)) * Cols(cmap, view)|
  }

  /** A base table the view may be taken from: it shares the whole key and some other column. */
  predicate Candidate(cmap: ColumnMap, view: TableId, base: TableId) {
    && Keys(cmap, base) != {} && base != view && base.schema == view.schema
    && Keys(cmap, base) <= Cols(cmap, view)
    && Overlap(cmap, view, base) > 0
  }

  /** The base table is the one candidate with the most shared columns. */
  predicate Winner(cmap: ColumnMap, view: TableId, base: TableId) {
    && Candidate(cmap, view, base)
    && forall t <- Tables(cmap) :: Candidate(cmap, view, t) && t != base ==> Overlap(cmap, view, t) < Overlap(cmap, view, base)
  }

  /** One of the given views gets its key from a base table, and the entry is a column of that key. */
  predicate Marked(cmap: ColumnMap, views: set<TableId>, entry: string) {
    exists view <- views, base <- Tables(cmap), pk <- Cols(cmap, base) ::
      && Keyless(cmap, view) && Winner(cmap, view, base)
      && pk in Keys(cmap, base) && entry == EntryName(view, pk)
  }

  function Mark(c: Column): Column {
    if c.primaryKey then c else c.(primaryKey := true, uniqueKey := true)
  }

  /** The column map with the keys of the given views marked. */
  function Inferred(cmap: ColumnMap, views: set<TableId>): ColumnMap {
    map k | k in cmap :: if Marked(cmap, views, k) then Mark(cmap[k]) else cmap[k]
  }

  // ---- The loops ----

  /** The per-table column sets and key lists of the column map. */
  ghost predicate Collected(cmap: ColumnMap, tableCols: map<TableId, set<string>>, tablePKs: map<TableId, seq<string>>) {
    && tableCols.Keys == Tables(cmap)
    && (forall t <- tableCols :: tableCols[t] == Cols(cmap, t))
    && (forall t :: t in tablePKs <==> Keys(cmap, t) != {})
    && (forall t <- tablePKs :: forall c :: c in tablePKs[t] <==> c in Keys(cmap, t))
  }

  /** The part of the column map with the given entries. */
  function Part(cmap: ColumnMap, entries: set<string>): ColumnMap {
    map k | k in cmap && k in entries :: cmap[k]
  }

  lemma PartGrows(cmap: ColumnMap, done: set<string>, k: string)
    requires k in cmap && k !in done
    ensures var c, p, p' := cmap[k], Part(cmap, done), Part(cmap, done + {k});
      && Tables(p') == Tables(p) + {TableOf(c)}
      && (forall t :: Cols(p', t) == if t == TableOf(c) then Cols(p, t) + {c.name} else Cols(p, t))
      && (forall t :: Keys(p', t) == if t == TableOf(c) && c.primaryKey then Keys(p, t) + {c.name} else Keys(p, t))
  {
    var c, p, p' := cmap[k], Part(cmap, done), Part(cmap, done + {k});
    assert p' == p[k := c];
    forall t ensures Cols(p', t) == if t == TableOf(c) then Cols(p, t) + {c.name} else Cols(p, t) {
      GrowCols(p, k, c, t);
    }
    forall t ensures Keys(p', t) == if t == TableOf(c) && c.primaryKey then Keys(p, t) + {c.name} else Keys(p, t) {
      GrowKeys(p, k, c, t);
    }
    GrowTables(p, k, c);
  }

  lemma GrowTables(p: ColumnMap, k: string, c: Column)
    requires k !in p
    ensures Tables(p[k := c]) == Tables(p) + {TableOf(c)}
  {
    var p' := p[k := c];
    forall t | t in Tables(p) + {TableOf(c)} ensures t in Tables(p') {
      if t in Tables(p) {
        var j :| j in p && TableOf(p[j]) == t;
        assert p'[j] == p[j];
      } else {
        assert p'[k] == c;
      }
    }
  }

  lemma GrowCols(p: ColumnMap, k: string, c: Column, t: TableId)
    requires k !in p
    ensures Cols(p[k := c], t) == if t == TableOf(c) then Cols(p, t) + {c.name} else Cols(p, t)
  {
    var p' := p[k := c];
    forall n | n in Cols(p, t) ensures n in Cols(p', t) {
      var j :| j in p && TableOf(p[j]) == t && p[j].name == n;
      assert p'[j] == p[j];
    }
    assert p'[k] == c;
  }

  lemma GrowKeys(p: ColumnMap, k: string, c: Column, t: TableId)
    requires k !in p
    ensures Keys(p[k := c], t) == if t == TableOf(c) && c.primaryKey then Keys(p, t) + {c.name} else Keys(p, t)
  {
    var p' := p[k := c];
    forall n | n in Keys(p, t) ensures n in Keys(p', t) {
      var j :| j in p && TableOf(p[j]) == t && p[j].primaryKey && p[j].name == n;
      assert p'[j] == p[j];
    }
    assert p'[k] == c;
  }

  lemma TableHasColumns(p: ColumnMap, t: TableId)
    ensures Cols(p, t) != {} ==> t in Tables(p)
  {
    if Cols(p, t) != {} {
      var n :| n in Cols(p, t);
      var k :| k in p && TableOf(p[k]) == t && p[k].name == n;
    }
  }

  /** Enters one column into the per-table sets. */
  method AddColumn(cols: map<TableId, set<string>>, pks: map<TableId, seq<string>>, c: Column)
    returns (cols': map<TableId, set<string>>, pks': map<TableId, seq<string>>)
    ensures cols' == cols[TableOf(c) := (if TableOf(c) in cols then cols[TableOf(c)] else {}) + {c.name}]
    ensures pks' == if c.primaryKey then pks[TableOf(c) := (if TableOf(c) in pks then pks[TableOf(c)] else []) + [c.name]] else pks
  {
    var key := TableOf(c);
    cols', pks' := cols, pks;
    if key !in cols' {
      cols' := cols'[key := {}];
    }
    cols' := cols'[key := cols'[key] + {c.name}];
    if c.primaryKey {
      pks' := pks'[key := (if key in pks' then pks'[key] else []) + [c.name]];
    }
  }

  lemma CollectedGrows(p: ColumnMap, p': ColumnMap, c: Column,
                       cols: map<TableId, set<string>>, pks: map<TableId, seq<string>>,
                       cols': map<TableId, set<string>>, pks': map<TableId, seq<string>>)
    requires Collected(p, cols, pks)
    requires Tables(p') == Tables(p) + {TableOf(c)}
    requires forall t :: Cols(p', t) == if t == TableOf(c) then Cols(p, t) + {c.name} else Cols(p, t)
    requires forall t :: Keys(p', t) == if t == TableOf(c) && c.primaryKey then Keys(p, t) + {c.name} else Keys(p, t)
    requires cols' == cols[TableOf(c) := (if TableOf(c) in cols then cols[TableOf(c)] else {}) + {c.name}]
    requires pks' == if c.primaryKey then pks[TableOf(c) := (if TableOf(c) in pks then pks[TableOf(c)] else []) + [c.name]] else pks
    ensures Collected(p', cols', pks')
  {
    var u := TableOf(c);
    TableHasColumns(p, u);
    forall t ensures t in pks' <==> Keys(p', t) != {} {
      assert t == u && c.primaryKey ==> c.name in Keys(p', t);
    }
    forall t | t in pks' ensures forall n :: n in pks'[t] <==> n in Keys(p', t) {
      assert t in pks || Keys(p, t) == {};
    }
    forall t | t in cols' ensures cols'[t] == Cols(p', t) {
    }
  }

  method CollectTables(cmap: ColumnMap)
    returns (tableCols: map<TableId, set<string>>, tablePKs: map<TableId, seq<string>>)
    ensures Collected(cmap, tableCols, tablePKs)
  {
    tableCols, tablePKs := map[], map[];
    var left := cmap.Keys;
    ghost var done: set<string> := {};
    while left != {}
      invariant done == cmap.Keys - left && left <= cmap.Keys
      invariant Collected(Part(cmap, done), tableCols, tablePKs)
    {
      var k :| k in left;
      left := left - {k};
      ghost var p, p' := Part(cmap, done), Part(cmap, done + {k});
      PartGrows(cmap, done, k);
      done := done + {k};
      ghost var cols, pks := tableCols, tablePKs;
      tableCols, tablePKs := AddColumn(tableCols, tablePKs, cmap[k]);
      CollectedGrows(p, p', cmap[k], cols, pks, tableCols, tablePKs);
    }
    assert Part(cmap, done) == cmap;
  }

  /** Counts the columns of the base table, outside its key, that the view has as well. */
  method CountOverlap(baseCols: set<string>, keys: seq<string>, viewCols: set<string>) returns (overlap: nat)
    ensures overlap == |(baseCols - set k | k in keys) * viewCols|
  {
    overlap := 0;
    var left := baseCols;
    ghost var seen: set<string> := {};
    while left != {}
      invariant left <= baseCols && overlap == |seen|
      invariant seen == (baseCols - left - set k | k in keys) * viewCols
    {
      var col :| col in left;
      left := left - {col};
      if col !in keys && col in viewCols {
        assert col !in seen;
        seen := seen + {col};
        overlap := overlap + 1;
      }
    }
    assert seen == (baseCols - set k | k in keys) * viewCols;
  }

  method AllPresent(keys: seq<string>, viewCols: set<string>) returns (all: bool)
    ensures all == forall k <- keys :: k in viewCols
  {
    for i := 0 to |keys|
      invariant forall j | 0 <= j < i :: keys[j] in viewCols
    {
      if keys[i] !in viewCols { return false; }
    }
    return true;
  }

  /** The overlap of a base table with the view, or zero when the table is no candidate. */
  method Measure(ghost cmap: ColumnMap, view: TableId, key: TableId,
                 tableCols: map<TableId, set<string>>, tablePKs: map<TableId, seq<string>>) returns (overlap: nat)
    requires Collected(cmap, tableCols, tablePKs) && view in tableCols && key in tablePKs
    ensures overlap > 0 <==> Candidate(cmap, view, key)
    ensures overlap > 0 ==> overlap == Overlap(cmap, view, key)
  {
    KeyedTableExists(cmap, key);
    if key.schema != view.schema || key == view { return 0; }
    var present := AllPresent(tablePKs[key], tableCols[view]);
    if !present { return 0; }
    overlap := CountOverlap(tableCols[key], tablePKs[key], tableCols[view]);
    assert (set k | k in tablePKs[key]) == Keys(cmap, key);
  }

  /** The best candidate among the base tables seen so far, and whether another one is as good. */
  ghost predicate BestOf(cmap: ColumnMap, view: TableId, seen: set<TableId>, best: TableId, overlap: nat, tied: bool) {
    && (forall t <- seen :: Candidate(cmap, view, t) ==> Overlap(cmap, view, t) <= overlap)
    && (overlap > 0 ==> best in seen && Candidate(cmap, view, best) && Overlap(cmap, view, best) == overlap)
    && (overlap > 0 ==>
          (tied <==> exists t <- seen :: t != best && Candidate(cmap, view, t) && Overlap(cmap, view, t) == overlap))
    && (overlap == 0 ==> !tied)
  }

  /** Finds the base table with the largest overlap; a tie for it counts as none. */
  method FindBase(ghost cmap: ColumnMap, view: TableId, tableCols: map<TableId, set<string>>, tablePKs: map<TableId, seq<string>>)
    returns (found: bool, base: TableId)
    requires Collected(cmap, tableCols, tablePKs) && view in tableCols
    ensures found ==> base in tablePKs && Winner(cmap, view, base)
    ensures !found ==> forall t <- Tables(cmap) :: !Winner(cmap, view, t)
  {
    var best, bestOverlap: nat, tied := view, 0, false;
    var left := tablePKs.Keys;
    ghost var seen: set<TableId> := {};
    while left != {}
      invariant left <= tablePKs.Keys && seen == tablePKs.Keys - left
      invariant BestOf(cmap, view, seen, best, bestOverlap, tied)
    {
      var key :| key in left;
      left := left - {key};
      ghost var before := seen;
      seen := seen + {key};
      var overlap := Measure(cmap, view, key, tableCols, tablePKs);
      if overlap == 0 {
        BestSkips(cmap, view, before, key, best, bestOverlap, tied);
        continue;
      }
      BestMeets(cmap, view, before, key, best, bestOverlap, tied);
      if overlap > bestOverlap {
        best, bestOverlap, tied := key, overlap, false;
      } else if overlap == bestOverlap && best != key {
        tied := true;
      }
    }
    found, base := bestOverlap > 0 && !tied, best;
    BestDecides(cmap, view, tablePKs.Keys, best, bestOverlap, tied);
  }

  lemma KeyedTableExists(cmap: ColumnMap, t: TableId)
    requires Keys(cmap, t) != {}
    ensures t in Tables(cmap)
  {
    var n :| n in Keys(cmap, t);
  }

  lemma BestSkips(cmap: ColumnMap, view: TableId, seen: set<TableId>, t: TableId, best: TableId, overlap: nat, tied: bool)
    requires BestOf(cmap, view, seen, best, overlap, tied) && !Candidate(cmap, view, t)
    ensures BestOf(cmap, view, seen + {t}, best, overlap, tied)
  {
  }

  lemma BestMeets(cmap: ColumnMap, view: TableId, seen: set<TableId>, t: TableId, best: TableId, overlap: nat, tied: bool)
    requires BestOf(cmap, view, seen, best, overlap, tied) && Candidate(cmap, view, t) && t !in seen
    ensures var n := Overlap(cmap, view, t);
      if n > overlap then BestOf(cmap, view, seen + {t}, t, n, false)
      else BestOf(cmap, view, seen + {t}, best, overlap, tied || n == overlap) && (n == overlap ==> best != t)
  {
  }

  lemma BestDecides(cmap: ColumnMap, view: TableId, keyed: set<TableId>, best: TableId, overlap: nat, tied: bool)
    requires BestOf(cmap, view, keyed, best, overlap, tied)
    requires forall t :: t in keyed <==> Keys(cmap, t) != {}
    ensures if overlap > 0 && !tied then Winner(cmap, view, best) else forall t <- Tables(cmap) :: !Winner(cmap, view, t)
  {
    if overlap > 0 && tied {
      var u :| u in keyed && u != best && Candidate(cmap, view, u) && Overlap(cmap, view, u) == overlap;
      KeyedTableExists(cmap, u);
      KeyedTableExists(cmap, best);
    }
  }

  lemma WinnerUnique(cmap: ColumnMap, view: TableId, a: TableId, b: TableId)
    requires Winner(cmap, view, a) && Winner(cmap, view, b)
    ensures a == b
  {
    KeyedTableExists(cmap, a);
    KeyedTableExists(cmap, b);
  }

  function Elems(s: seq<string>): set<string> {
    set c | c in s
  }

  /** The entry is one of the given columns of the table. */
  predicate Names(t: TableId, cols: set<string>, entry: string) {
    exists c <- cols :: entry == EntryName(t, c)
  }

  /** Marks the key columns of a view. */
  method MarkKeys(cmap: ColumnMap, view: TableId, pkCols: seq<string>) returns (r: ColumnMap)
    ensures r == map k | k in cmap :: if Names(view, Elems(pkCols), k) then Mark(cmap[k]) else cmap[k]
  {
    r := cmap;
    for i := 0 to |pkCols|
      invariant r == map k | k in cmap :: if Names(view, Elems(pkCols[..i]), k) then Mark(cmap[k]) else cmap[k]
    {
      var k := EntryName(view, pkCols[i]);
      assert Elems(pkCols[..i + 1]) == Elems(pkCols[..i]) + {pkCols[i]};
      if k in r && !r[k].primaryKey {
        r := r[k := r[k].(primaryKey := true, uniqueKey := true)];
      }
    }
    assert pkCols[..|pkCols|] == pkCols;
  }

  /** Marks the keys of all views. Whatever the order of the entries, the result is the same map. */
  method InferViewPKs(cmap: ColumnMap) returns (r: ColumnMap)
    ensures r == Inferred(cmap, Tables(cmap))
  {
    var tableCols, tablePKs := CollectTables(cmap);
    r := cmap;
    var left := tableCols.Keys;
    ghost var done: set<TableId> := {};
    assert Inferred(cmap, {}) == cmap;
    while left != {}
      invariant left <= tableCols.Keys && done == tableCols.Keys - left
      invariant r == Inferred(cmap, done)
    {
      var view :| view in left;
      left := left - {view};
      ghost var before := done;
      done := done + {view};
      if view in tablePKs || Internal(view) {
        NothingMarked(cmap, before, view);
        continue;
      }
      var found, base := FindBase(cmap, view, tableCols, tablePKs);
      if found {
        r := MarkKeys(r, view, tablePKs[base]);
        assert Elems(tablePKs[base]) == Keys(cmap, base);
        ViewMarked(cmap, before, view, base, r);
      } else {
        NothingMarked(cmap, before, view);
      }
    }
    assert done == Tables(cmap);
  }

  lemma NothingMarked(cmap: ColumnMap, views: set<TableId>, view: TableId)
    requires !Keyless(cmap, view) || forall t <- Tables(cmap) :: !Winner(cmap, view, t)
    ensures Inferred(cmap, views + {view}) == Inferred(cmap, views)
  {
    forall k | k in cmap ensures Marked(cmap, views + {view}, k) == Marked(cmap, views, k) {
    }
  }

  lemma ViewMarked(cmap: ColumnMap, views: set<TableId>, view: TableId, base: TableId, r: ColumnMap)
    requires Keyless(cmap, view) && Winner(cmap, view, base)
    requires var m := Inferred(cmap, views);
      r == map k | k in m :: if Names(view, Keys(cmap, base), k) then Mark(m[k]) else m[k]
    ensures r == Inferred(cmap, views + {view})
  {
    var m, m' := Inferred(cmap, views), Inferred(cmap, views + {view});
    assert r.Keys == m.Keys == cmap.Keys == m'.Keys;
    forall k | k in cmap ensures r[k] == m'[k] {
      EntryMarked(cmap, views, view, base, k);
      assert r[k] == if Names(view, Keys(cmap, base), k) then Mark(m[k]) else m[k];
    }
  }

  lemma EntryMarked(cmap: ColumnMap, views: set<TableId>, view: TableId, base: TableId, k: string)
    requires Keyless(cmap, view) && Winner(cmap, view, base) && k in cmap
    ensures var m := Inferred(cmap, views);
      Inferred(cmap, views + {view})[k] == if Names(view, Keys(cmap, base), k) then Mark(m[k]) else m[k]
  {
    MarkedByView(cmap, views, view, base, k);
  }

  /** One more view marks exactly the entries of its winner's key. */
  lemma MarkedByView(cmap: ColumnMap, views: set<TableId>, view: TableId, base: TableId, k: string)
    requires Keyless(cmap, view) && Winner(cmap, view, base)
    ensures Marked(cmap, views + {view}, k)
         == (Marked(cmap, views, k) || Names(view, Keys(cmap, base), k))
  {
    KeyedTableExists(cmap, base);
    if Names(view, Keys(cmap, base), k) {
      var pk :| pk in Keys(cmap, base) && k == EntryName(view, pk);
      assert pk in Cols(cmap, base);
      assert view in views + {view};
    }
    if Marked(cmap, views + {view}, k) && !Marked(cmap, views, k) {
      var b, pk :| b in Tables(cmap) && pk in Cols(cmap, b) && Keyless(cmap, view) && Winner(cmap, view, b)
                   && pk in Keys(cmap, b) && k == EntryName(view, pk);
      WinnerUnique(cmap, view, b, base);
    }
  }

  // ---- What the inferred map says ----

  /** Every entry stands under its own name, and no schema or table name holds the separator. */
  predicate Indexed(cmap: ColumnMap) {
    forall k <- cmap ::
      var c := cmap[k];
      k == EntryName(TableOf(c), c.name) && ':' !in c.schema && ':' !in c.table
  }

  /** Where the first separator is. */
  function FirstColon(s: string): nat {
    if s == "" || s[0] == ':' then 0 else 1 + FirstColon(s[1..])
  }

  lemma {:induction false} ColonAfter(a: string, x: string)
    requires ':' !in a
    ensures FirstColon(a + ":" + x) == |a|
  {
    if a != "" {
      assert (a + ":" + x)[1..] == a[1..] + ":" + x;
      ColonAfter(a[1..], x);
    }
  }

  lemma SplitAtColon(a: string, x: string, b: string, y: string)
    requires a + ":" + x == b + ":" + y && ':' !in a && ':' !in b
    ensures a == b && x == y
  {
    ColonAfter(a, x);
    ColonAfter(b, y);
    var s := a + ":" + x;
    assert a == s[..|a|] && b == s[..|b|] && x == s[|a| + 1..] && y == s[|b| + 1..];
  }

  lemma EntryNamesDiffer(t: TableId, c: string, u: TableId, d: string)
    requires EntryName(t, c) == EntryName(u, d)
    requires ':' !in t.schema && ':' !in t.table && ':' !in u.schema && ':' !in u.table
    ensures t == u && c == d
  {
    assert EntryName(t, c) == t.schema + ":" + (t.table + ":" + c);
    assert EntryName(u, d) == u.schema + ":" + (u.table + ":" + d);
    SplitAtColon(t.schema, t.table + ":" + c, u.schema, u.table + ":" + d);
    SplitAtColon(t.table, c, u.table, d);
  }

  /** The column belongs to the key of the base table that wins the keyless table t. */
  predicate WonKey(cmap: ColumnMap, t: TableId, col: string) {
    Keyless(cmap, t) && exists b <- Tables(cmap) :: Winner(cmap, t, b) && col in Keys(cmap, b)
  }

  /** An entry is marked exactly when it belongs to the key of the winner of its own table. */
  lemma MarkedExactly(cmap: ColumnMap, k: string)
    requires Indexed(cmap) && k in cmap
    ensures var c := cmap[k];
      Marked(cmap, Tables(cmap), k)
      <==> WonKey(cmap, TableOf(c), c.name)
  {
    var c := cmap[k];
    if Marked(cmap, Tables(cmap), k) {
      var view, b, pk :| view in Tables(cmap) && b in Tables(cmap) && pk in Cols(cmap, b) && Keyless(cmap, view)
                         && Winner(cmap, view, b) && pk in Keys(cmap, b) && k == EntryName(view, pk);
      var j :| j in cmap && TableOf(cmap[j]) == view;
      EntryNamesDiffer(view, pk, TableOf(c), c.name);
    }
    if WonKey(cmap, TableOf(c), c.name) {
      var b :| b in Tables(cmap) && Winner(cmap, TableOf(c), b) && c.name in Keys(cmap, b);
      assert c.name in Cols(cmap, b);
    }
  }

  lemma KeyCol(cmap: ColumnMap, t: TableId, n: string)
    requires Indexed(cmap) && n in Cols(cmap, t)
    ensures EntryName(t, n) in cmap && TableOf(cmap[EntryName(t, n)]) == t && cmap[EntryName(t, n)].name == n
    ensures n in Keys(cmap, t) <==> cmap[EntryName(t, n)].primaryKey
  {
    var k :| k in cmap && TableOf(cmap[k]) == t && cmap[k].name == n;
    if n in Keys(cmap, t) {
      var j :| j in cmap && TableOf(cmap[j]) == t && cmap[j].primaryKey && cmap[j].name == n;
      assert j == k;
    }
  }

  /**
   After inference, a keyless table has the key of the unique base table with the
   largest overlap, if there is one, and every other table has the key it had.
   */
  lemma KeysInferred(cmap: ColumnMap, t: TableId)
    requires Indexed(cmap) && t in Tables(cmap)
    ensures (forall b <- Tables(cmap) :: !Winner(cmap, t, b)) || !Keyless(cmap, t) ==>
              Keys(Inferred(cmap, Tables(cmap)), t) == Keys(cmap, t)
    ensures forall b <- Tables(cmap) :: Keyless(cmap, t) && Winner(cmap, t, b) ==>
              Keys(Inferred(cmap, Tables(cmap)), t) == Keys(cmap, b)
  {
    var r := Inferred(cmap, Tables(cmap));
    forall n ensures n in Keys(r, t) <==> (n in Keys(cmap, t) || WonKey(cmap, t, n)) {
      InferredKey(cmap, t, n);
      KeyMember(cmap, r, t, n);
    }
    forall b | b in Tables(cmap) && Keyless(cmap, t) && Winner(cmap, t, b) ensures Keys(r, t) == Keys(cmap, b) {
      forall n ensures WonKey(cmap, t, n) <==> n in Keys(cmap, b) { WonByWinner(cmap, t, b, n); }
    }
  }

  lemma WonByWinner(cmap: ColumnMap, t: TableId, b: TableId, n: string)
    requires b in Tables(cmap) && Keyless(cmap, t) && Winner(cmap, t, b)
    ensures WonKey(cmap, t, n) <==> n in Keys(cmap, b)
  {
    if a :| a in Tables(cmap) && Winner(cmap, t, a) && n in Keys(cmap, a) {
      WinnerUnique(cmap, t, a, b);
    }
  }

  lemma InferredKey(cmap: ColumnMap, t: TableId, n: string)
    ensures n in Keys(Inferred(cmap, Tables(cmap)), t)
      <==> exists k <- cmap :: TableOf(cmap[k]) == t && cmap[k].name == n && (cmap[k].primaryKey || Marked(cmap, Tables(cmap), k))
  {
    var r := Inferred(cmap, Tables(cmap));
    if n in Keys(r, t) {
      var k :| k in r && TableOf(r[k]) == t && r[k].primaryKey && r[k].name == n;
      assert k in cmap && TableOf(cmap[k]) == t && cmap[k].name == n;
    }
    if k :| k in cmap && TableOf(cmap[k]) == t && cmap[k].name == n && (cmap[k].primaryKey || Marked(cmap, Tables(cmap), k)) {
      assert k in r && r[k].primaryKey && TableOf(r[k]) == t && r[k].name == n;
    }
  }

  lemma KeyMember(cmap: ColumnMap, r: ColumnMap, t: TableId, n: string)
    requires Indexed(cmap) && t in Tables(cmap)
    requires n in Keys(r, t) <==> exists k <- cmap :: TableOf(cmap[k]) == t && cmap[k].name == n
                                    && (cmap[k].primaryKey || Marked(cmap, Tables(cmap), k))
    ensures n in Keys(r, t) <==> (n in Keys(cmap, t) || WonKey(cmap, t, n))
  {
    if n in Keys(r, t) {
      var k :| k in cmap && TableOf(cmap[k]) == t && cmap[k].name == n && (cmap[k].primaryKey || Marked(cmap, Tables(cmap), k));
      MarkedExactly(cmap, k);
    }
    if n in Keys(cmap, t) {
      var k :| k in cmap && TableOf(cmap[k]) == t && cmap[k].primaryKey && cmap[k].name == n;
    }
    if b :| b in Tables(cmap) && Keyless(cmap, t) && Winner(cmap, t, b) && n in Keys(cmap, b) {
      assert n in Cols(cmap, t);
      KeyCol(cmap, t, n);
      MarkedExactly(cmap, EntryName(t, n));
    }
  }
}
