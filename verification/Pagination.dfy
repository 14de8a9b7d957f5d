/**
 Walking a table page by page: each page is the first k rows, in order, that
 the seek predicate of the last delivered row admits.
 */
module Pagination {
  import opened Common
  import opened Expressions
  import opened SeekPredicate
  import opened SeekMemory

  /** Entries over plain columns; each one reads the column of its own name from row and cursor. */
  predicate Plain(obs: seq<OrderBy>) {
    forall ob <- obs :: ob.key == ""
  }

  /** The cursor taken from a delivered row: the values of the columns the list orders by. */
  function CursorOf(row: Row, obs: seq<OrderBy>): Row {
    if obs == [] then map[]
    else CursorOf(row, obs[1..])[CursorName(obs[0]) := Get(row, obs[0].col.name)]
  }

  predicate Present(obs: seq<OrderBy>, row: Row) {
    forall ob <- obs :: Get(row, ob.col.name).Val?
  }

  /** Row a is ordered strictly before row b. */
  predicate Before(obs: seq<OrderBy>, a: Row, b: Row) {
    if obs == [] then false
    else
      var x, y := Num(Get(a, obs[0].col.name)), Num(Get(b, obs[0].col.name));
      Beyond(obs[0].order, y, x) || (x == y && Before(obs[1..], a, b))
  }

  /** The rows have all ordered values and no two of them agree on the key. */
  predicate Keyed(obs: seq<OrderBy>, keys: seq<Column>, rows: seq<Row>) {
    && (forall r <- rows :: Present(obs, r))
    && (forall i, j | 0 <= i < j < |rows| :: exists k <- keys :: Get(rows[i], k.name) != Get(rows[j], k.name))
  }

  /** The list orders any two of the rows one way or the other. */
  predicate Separated(obs: seq<OrderBy>, rows: seq<Row>) {
    forall i, j {:trigger Before(obs, rows[i], rows[j])} | 0 <= i < j < |rows| :: Before(obs, rows[i], rows[j]) || Before(obs, rows[j], rows[i])
  }

  // ---- Sorting ----

  function Insert(obs: seq<OrderBy>, r: Row, s: seq<Row>): (t: seq<Row>)
    ensures multiset(t) == multiset{r} + multiset(s)
  {
    if s == [] then [r]
    else if Before(obs, s[0], r) then
      assert s == [s[0]] + s[1..];
      [s[0]] + Insert(obs, r, s[1..])
    else [r] + s
  }

  function Sort(obs: seq<OrderBy>, s: seq<Row>): (t: seq<Row>)
    ensures multiset(t) == multiset(s)
  {
    if s == [] then []
    else
      assert s == [s[0]] + s[1..];
      Insert(obs, s[0], Sort(obs, s[1..]))
  }

  predicate Sorted(obs: seq<OrderBy>, s: seq<Row>) {
    forall i, j {:trigger Before(obs, s[i], s[j])} | 0 <= i < j < |s| :: Before(obs, s[i], s[j])
  }

  lemma {:induction false} BeforeTransitive(obs: seq<OrderBy>, a: Row, b: Row, c: Row)
    requires Before(obs, a, b) && Before(obs, b, c)
    ensures Before(obs, a, c)
  {
    if Num(Get(a, obs[0].col.name)) == Num(Get(b, obs[0].col.name)) == Num(Get(c, obs[0].col.name)) {
      BeforeTransitive(obs[1..], a, b, c);
    }
  }

  lemma {:induction false} BeforeAsymmetric(obs: seq<OrderBy>, a: Row, b: Row)
    ensures !(Before(obs, a, b) && Before(obs, b, a))
  {
    if obs != [] {
      BeforeAsymmetric(obs[1..], a, b);
    }
  }

  lemma {:induction false} InsertSorted(obs: seq<OrderBy>, r: Row, s: seq<Row>)
    requires Sorted(obs, s)
    requires forall x <- s :: Before(obs, r, x) || Before(obs, x, r)
    ensures Sorted(obs, Insert(obs, r, s))
  {
    var t := Insert(obs, r, s);
    if s != [] {
      assert s[0] in s;
      if Before(obs, s[0], r) {
        InsertSorted(obs, r, s[1..]);
        var u := Insert(obs, r, s[1..]);
        forall j | 0 <= j < |u| ensures Before(obs, s[0], u[j]) {
          assert u[j] in multiset(u);
          if u[j] != r {
            assert u[j] in s[1..];
          }
        }
        assert t == [s[0]] + u;
      } else {
        forall j | 0 <= j < |s| ensures Before(obs, r, s[j]) {
          if j > 0 { BeforeTransitive(obs, r, s[0], s[j]); }
        }
        assert t == [r] + s;
      }
    }
  }

  /** A row of a separated sequence is comparable with every row that follows, also after sorting. */
  lemma SortedTailComparable(obs: seq<OrderBy>, s: seq<Row>)
    requires Separated(obs, s) && s != []
    ensures forall x <- Sort(obs, s[1..]) :: Before(obs, s[0], x) || Before(obs, x, s[0])
  {
    var t := Sort(obs, s[1..]);
    forall x | x in t ensures Before(obs, s[0], x) || Before(obs, x, s[0]) {
      assert x in multiset(t);
      assert x in s[1..];
    }
  }

  lemma {:induction false} SortSorted(obs: seq<OrderBy>, s: seq<Row>)
    requires Separated(obs, s)
    ensures Sorted(obs, Sort(obs, s))
  {
    if s != [] {
      SortSorted(obs, s[1..]);
      SortedTailComparable(obs, s);
      InsertSorted(obs, s[0], Sort(obs, s[1..]));
    }
  }

  // ---- Filtering ----

  function Filter(p: Row -> bool, s: seq<Row>): (t: seq<Row>)
    ensures forall x <- t :: x in s && p(x)
    ensures |t| <= |s|
  {
    if s == [] then []
    else if p(s[0]) then [s[0]] + Filter(p, s[1..])
    else Filter(p, s[1..])
  }

  lemma InsertFront(obs: seq<OrderBy>, r: Row, s: seq<Row>)
    requires forall x <- s :: Before(obs, r, x)
    ensures Insert(obs, r, s) == [r] + s
  {
    if s != [] {
      assert s[0] in s;
      BeforeAsymmetric(obs, r, s[0]);
    }
  }

  lemma FilterCons(p: Row -> bool, r: Row, s: seq<Row>)
    ensures Filter(p, [r] + s) == if p(r) then [r] + Filter(p, s) else Filter(p, s)
  {
    assert ([r] + s)[1..] == s;
  }

  lemma {:induction false} InsertFilter(p: Row -> bool, obs: seq<OrderBy>, r: Row, s: seq<Row>)
    requires Sorted(obs, s)
    requires forall x <- s :: Before(obs, r, x) || Before(obs, x, r)
    ensures Filter(p, Insert(obs, r, s)) == if p(r) then Insert(obs, r, Filter(p, s)) else Filter(p, s)
  {
    var t := Insert(obs, r, s);
    if s != [] && Before(obs, s[0], r) {
      InsertFilter(p, obs, r, s[1..]);
      FilterCons(p, s[0], Insert(obs, r, s[1..]));
      assert t == [s[0]] + Insert(obs, r, s[1..]);
    } else {
      FilterCons(p, r, s);
      assert t == [r] + s;
      forall x | x in s ensures Before(obs, r, x) {
        var j :| 0 <= j < |s| && s[j] == x;
        assert s[0] in s;
        if j > 0 { BeforeTransitive(obs, r, s[0], s[j]); }
      }
      if p(r) {
        InsertFront(obs, r, Filter(p, s));
      }
    }
  }

  lemma {:induction false} SortFilter(p: Row -> bool, obs: seq<OrderBy>, s: seq<Row>)
    requires Separated(obs, s)
    ensures Sort(obs, Filter(p, s)) == Filter(p, Sort(obs, s))
  {
    if s != [] {
      SortFilter(p, obs, s[1..]);
      SortSorted(obs, s[1..]);
      SortedTailComparable(obs, s);
      InsertFilter(p, obs, s[0], Sort(obs, s[1..]));
      if p(s[0]) {
        assert Filter(p, s)[1..] == Filter(p, s[1..]);
      }
    }
  }

  lemma {:induction false} FilterAllOrNone(p: Row -> bool, s: seq<Row>)
    ensures (forall x <- s :: p(x)) ==> Filter(p, s) == s
    ensures (forall x <- s :: !p(x)) ==> Filter(p, s) == []
  {
    if s != [] {
      FilterAllOrNone(p, s[1..]);
      assert s[0] in s;
    }
  }

  lemma {:induction false} FilterAppend(p: Row -> bool, s: seq<Row>, t: seq<Row>)
    ensures Filter(p, s + t) == Filter(p, s) + Filter(p, t)
  {
    if s == [] {
      assert s + t == t;
    } else {
      assert (s + t)[1..] == s[1..] + t;
      FilterAppend(p, s[1..], t);
    }
  }

  // ---- Pages ----

  /** What the compiled filter admits for a cursor. */
  function Admits(grow: Growth, obs: seq<OrderBy>, cur: Row): Row -> bool
    requires obs != []
  {
    row => var tree := SeekBuilt(grow, obs); tree.Some? && Eval(tree.value, row, cur) == True
  }

  function Min(a: nat, b: nat): nat {
    if a <= b then a else b
  }

  /** The rows one request delivers: filter, sort, then the first k. */
  function Page(grow: Growth, obs: seq<OrderBy>, table: seq<Row>, cur: Row, k: nat): seq<Row>
    requires obs != []
  {
    var all := Sort(obs, Filter(Admits(grow, obs, cur), table));
    all[..Min(|all|, k)]
  }

  /** How the server answers a request that passes the cursor `cur`. */
  function Server(grow: Growth, obs: seq<OrderBy>, table: seq<Row>, k: nat): Row -> seq<Row>
    requires obs != []
  {
    cur => Page(grow, obs, table, cur, k)
  }

  /** The rows of the first `fuel` pages, each request passing the cursor of the row delivered last. */
  function Pages(serve: Row -> seq<Row>, obs: seq<OrderBy>, cur: Row, fuel: nat): seq<Row>
    decreases fuel
  {
    if fuel == 0 then []
    else
      var page := serve(cur);
      if page == [] then []
      else page + Pages(serve, obs, CursorOf(page[|page| - 1], obs), fuel - 1)
  }

  lemma {:induction false} CursorHolds(obs: seq<OrderBy>, row: Row, ob: OrderBy)
    requires Plain(obs) && ob in obs
    ensures Get(CursorOf(row, obs), CursorName(ob)) == Get(row, ob.col.name)
  {
    if ob.col.name != obs[0].col.name {
      assert ob in obs[1..];
      CursorHolds(obs[1..], row, ob);
      assert obs[0] in obs;
    } else {
      assert obs[0] in obs;
    }
  }

  lemma {:induction false} AfterIsBefore(all: seq<OrderBy>, obs: seq<OrderBy>, row: Row, last: Row)
    requires Plain(all) && Present(all, row) && Present(all, last)
    requires forall ob <- obs :: ob in all
    ensures Comparable(obs, row, CursorOf(last, all))
    ensures StrictlyAfter(obs, row, CursorOf(last, all)) == Before(obs, last, row)
  {
    var cur := CursorOf(last, all);
    forall ob | ob in obs ensures Get(cur, CursorName(ob)) == Get(last, ob.col.name) {
      CursorHolds(all, last, ob);
    }
    if obs != [] {
      AfterIsBefore(all, obs[1..], row, last);
      assert obs[0] in obs;
    }
  }

  /** The compiled predicate admits exactly the rows ordered after the row the cursor was taken from. */
  lemma AdmitsAfter(grow: Growth, obs: seq<OrderBy>, row: Row, last: Row)
    requires obs != [] && Unshared(grow, obs) && Plain(obs) && Present(obs, row) && Present(obs, last)
    ensures Admits(grow, obs, CursorOf(last, obs))(row) == Before(obs, last, row)
  {
    AfterIsBefore(obs, obs, row, last);
    SeekIsLexicographic(obs, row, CursorOf(last, obs));
    SeekUnfolds(grow, obs);
  }

  lemma AdmitsRest(grow: Growth, obs: seq<OrderBy>, s: seq<Row>, n: nat, j: nat)
    requires obs != [] && Unshared(grow, obs) && Plain(obs) && Sorted(obs, s) && 0 < n <= |s| && j < |s|
    requires Present(obs, s[j]) && Present(obs, s[n - 1])
    ensures Admits(grow, obs, CursorOf(s[n - 1], obs))(s[j]) == (j >= n)
  {
    AdmitsAfter(grow, obs, s[j], s[n - 1]);
    BeforeAsymmetric(obs, s[n - 1], s[j]);
  }

  /** After n delivered rows, the predicate admits exactly the rest. */
  lemma RestAdmitted(grow: Growth, obs: seq<OrderBy>, s: seq<Row>, n: nat)
    requires obs != [] && Unshared(grow, obs) && Plain(obs) && Sorted(obs, s) && 0 < n <= |s|
    requires forall r <- s :: Present(obs, r)
    ensures Filter(Admits(grow, obs, CursorOf(s[n - 1], obs)), s) == s[n..]
  {
    var p := Admits(grow, obs, CursorOf(s[n - 1], obs));
    assert s == s[..n] + s[n..];
    assert s[n - 1] in s;
    forall j | 0 <= j < |s| ensures p(s[j]) == (j >= n) {
      assert s[j] in s;
      AdmitsRest(grow, obs, s, n, j);
    }
    FilterAppend(p, s[..n], s[n..]);
    FilterAllOrNone(p, s[..n]);
    FilterAllOrNone(p, s[n..]);
  }

  lemma SortKeepsRows(obs: seq<OrderBy>, table: seq<Row>)
    ensures |Sort(obs, table)| == |table|
    ensures forall r <- Sort(obs, table) :: r in table
  {
    var s := Sort(obs, table);
    assert |s| == |multiset(s)| == |table|;
    forall r | r in s ensures r in table {
      assert r in multiset(s);
    }
  }

  /** After n delivered rows, what is left to deliver is the rest of the sorted table. */
  lemma RestOfTable(grow: Growth, obs: seq<OrderBy>, table: seq<Row>, s: seq<Row>, n: nat)
    requires obs != [] && Unshared(grow, obs) && Plain(obs) && Separated(obs, table) && s == Sort(obs, table) && 0 < n <= |s|
    requires forall r <- table :: Present(obs, r)
    ensures Sort(obs, Filter(Admits(grow, obs, CursorOf(s[n - 1], obs)), table)) == s[n..]
  {
    SortKeepsRows(obs, table);
    SortSorted(obs, table);
    SortFilter(Admits(grow, obs, CursorOf(s[n - 1], obs)), obs, table);
    RestAdmitted(grow, obs, s, n);
  }

  /** The page after n delivered rows is the next k rows of the sorted table. */
  lemma NextPage(grow: Growth, obs: seq<OrderBy>, table: seq<Row>, s: seq<Row>, k: nat, n: nat)
    requires obs != [] && Unshared(grow, obs) && Plain(obs) && Separated(obs, table) && s == Sort(obs, table) && 0 < n <= |s|
    requires forall r <- table :: Present(obs, r)
    ensures Page(grow, obs, table, CursorOf(s[n - 1], obs), k) == s[n..Min(|s|, n + k)]
  {
    RestOfTable(grow, obs, table, s, n);
  }

  /** The first page is the first k rows of the sorted table. */
  lemma FirstPage(grow: Growth, obs: seq<OrderBy>, table: seq<Row>, k: nat)
    requires obs != [] && Unshared(grow, obs) && Separated(obs, table)
    ensures Page(grow, obs, table, map[], k) == Sort(obs, table)[..Min(|Sort(obs, table)|, k)]
  {
    var p := Admits(grow, obs, map[]);
    SeekUnfolds(grow, obs);
    forall r ensures p(r) { AbsentCursorAdmitsAll(obs, r, map[]); }
    FilterAllOrNone(p, table);
  }

  /** Every request with the cursor of a row of s is answered with the rows that follow it in s. */
  predicate Follows(serve: Row -> seq<Row>, obs: seq<OrderBy>, s: seq<Row>, k: nat) {
    forall n {:trigger CursorOf(s[n - 1], obs)} | 0 < n <= |s| ::
      serve(CursorOf(s[n - 1], obs)) == s[n..Min(|s|, n + k)]
  }

  lemma {:induction false} PagesFrom(serve: Row -> seq<Row>, obs: seq<OrderBy>, s: seq<Row>, k: nat, n: nat, fuel: nat)
    requires Follows(serve, obs, s, k)
    requires k >= 1 && 0 < n <= |s| && fuel > |s| - n
    ensures Pages(serve, obs, CursorOf(s[n - 1], obs), fuel) == s[n..]
    decreases fuel
  {
    if n < |s| {
      var m := Min(|s|, n + k);
      var page := s[n..m];
      assert page[|page| - 1] == s[m - 1];
      PagesFrom(serve, obs, s, k, m, fuel - 1);
      assert s[n..] == page + s[m..];
    }
  }

  lemma WalkFromStart(serve: Row -> seq<Row>, obs: seq<OrderBy>, s: seq<Row>, k: nat, fuel: nat)
    requires Follows(serve, obs, s, k) && serve(map[]) == s[..Min(|s|, k)]
    requires k >= 1 && fuel > |s|
    ensures Pages(serve, obs, map[], fuel) == s
  {
    if s != [] {
      var m := Min(|s|, k);
      assert s[..m][m - 1] == s[m - 1];
      PagesFrom(serve, obs, s, k, m, fuel - 1);
      assert s == s[..m] + s[m..];
    }
  }

  lemma ServerFollowsSortedTable(grow: Growth, obs: seq<OrderBy>, table: seq<Row>, k: nat)
    requires obs != [] && Unshared(grow, obs) && Plain(obs) && Separated(obs, table)
    requires forall r <- table :: Present(obs, r)
    ensures Follows(Server(grow, obs, table, k), obs, Sort(obs, table), k)
  {
    var s := Sort(obs, table);
    forall n {:trigger CursorOf(s[n - 1], obs)} | 0 < n <= |s|
      ensures Server(grow, obs, table, k)(CursorOf(s[n - 1], obs)) == s[n..Min(|s|, n + k)]
    {
      NextPage(grow, obs, table, s, k, n);
    }
  }

  /**
   Following the cursors from the start delivers the whole table, every row
   once and in order, for every page size; the walk has ended after at most
   one request per row and one more.
   */
  lemma WalkVisitsEveryRowOnce(grow: Growth, obs: seq<OrderBy>, table: seq<Row>, k: nat, fuel: nat)
    requires obs != [] && Unshared(grow, obs) && Plain(obs) && Separated(obs, table) && k >= 1 && fuel > |table|
    requires forall r <- table :: Present(obs, r)
    ensures Pages(Server(grow, obs, table, k), obs, map[], fuel) == Sort(obs, table)
    ensures Sorted(obs, Sort(obs, table)) && multiset(Sort(obs, table)) == multiset(table)
  {
    var s, serve := Sort(obs, table), Server(grow, obs, table, k);
    SortSorted(obs, table);
    assert serve(map[]) == s[..Min(|s|, k)] by { FirstPage(grow, obs, table, k); }
    assert Follows(serve, obs, s, k) by { ServerFollowsSortedTable(grow, obs, table, k); }
    assert |s| == |table| by { SortKeepsRows(obs, table); }
    WalkFromStart(serve, obs, s, k, fuel);
  }

  // ---- Completing the order list with the key ----

  lemma {:induction false} DistinctRowsAreOrdered(obs: seq<OrderBy>, a: Row, b: Row, name: string)
    requires Present(obs, a) && Present(obs, b)
    requires Orders(obs, name) && Get(a, name) != Get(b, name)
    ensures Before(obs, a, b) || Before(obs, b, a)
  {
    if Get(a, obs[0].col.name) == Get(b, obs[0].col.name) {
      assert Orders(obs[1..], name) by {
        var ob :| ob in obs && ob.col.name == name;
        assert ob in obs[1..];
      }
      DistinctRowsAreOrdered(obs[1..], a, b, name);
    }
  }

  /** A list completed with the key separates any rows that differ on the key. */
  lemma CompletedListSeparates(obs: seq<OrderBy>, keys: seq<Column>, order: Order, rows: seq<Row>)
    requires Keyed(Complete(obs, keys, order), keys, rows)
    ensures Separated(Complete(obs, keys, order), rows)
  {
    var full := Complete(obs, keys, order);
    CompleteOrdersEveryKey(obs, keys, order);
    forall i, j | 0 <= i < j < |rows| ensures Before(full, rows[i], rows[j]) || Before(full, rows[j], rows[i]) {
      var k :| k in keys && Get(rows[i], k.name) != Get(rows[j], k.name);
      DistinctRowsAreOrdered(full, rows[i], rows[j], k.name);
    }
  }

  /**
   The pagination law: any plain order list, completed with the table's key, walks the table, unless the lists of its
   seek predicate are shared.
   */
  lemma KeysetPagination(grow: Growth, obs: seq<OrderBy>, keys: seq<Column>, order: Order, table: seq<Row>, k: nat, fuel: nat)
    requires Plain(obs) && keys != [] && k >= 1 && fuel > |table|
    requires Keyed(Complete(obs, keys, order), keys, table) && Unshared(grow, Complete(obs, keys, order))
    ensures var full := Complete(obs, keys, order);
      && full != []
      && Separated(full, table)
      && Pages(Server(grow, full, table, k), full, map[], fuel) == Sort(full, table)
      && Sorted(full, Sort(full, table))
      && multiset(Sort(full, table)) == multiset(table)
  {
    var full := Complete(obs, keys, order);
    CompleteOrdersEveryKey(obs, keys, order);
    assert keys[0] in keys;
    assert Plain(full) by {
      forall ob | ob in full ensures ob.key == "" {
        var i :| 0 <= i < |full| && full[i] == ob;
        if i < |obs| { assert ob == obs[i]; } else { assert ob == full[|obs|..][i - |obs|]; }
      }
    }
    CompletedListSeparates(obs, keys, order, table);
    WalkVisitsEveryRowOnce(grow, full, table, k, fuel);
  }

  /** In particular every list of columns that are not null, key columns among them, walks the table, whatever its length. */
  lemma NotNullPagination(grow: Growth, obs: seq<OrderBy>, keys: seq<Column>, order: Order, table: seq<Row>, k: nat, fuel: nat)
    requires Plain(obs) && keys != [] && k >= 1 && fuel > |table|
    requires (forall ob <- obs :: ob.col.notNull) && (forall c <- keys :: c.notNull)
    requires Keyed(Complete(obs, keys, order), keys, table)
    ensures var full := Complete(obs, keys, order);
      && full != []
      && Pages(Server(grow, full, table, k), full, map[], fuel) == Sort(full, table)
      && Sorted(full, Sort(full, table)) && multiset(Sort(full, table)) == multiset(table)
  {
    var full := Complete(obs, keys, order);
    CompleteOrdersEveryKey(obs, keys, order);
    assert keys[0] in keys;
    forall ob | ob in full ensures ob.col.notNull {
      var i :| 0 <= i < |full| && full[i] == ob;
      if i < |obs| { assert ob == obs[i]; } else { assert ob == full[|obs|..][i - |obs|]; }
    }
    NotNullUnshared(grow, full);
    KeysetPagination(grow, obs, keys, order, table, k, fuel);
  }
}
