/**
 A query over several databases: its roots are grouped by database, each group
 selects the roots of one sub-query, and the sub-results are merged again.
 */
module DatabaseSplit {
  import opened Common

  // ---- Grouping the roots ----

  datatype Table = Table(name: string, database: string)

  /** A field of the parsed query, as far as splitting looks at it. */
  datatype Field = Field(id: nat, parentID: int, keyword: bool, name: string)

  predicate IsRoot(f: Field) {
    f.parentID == -1 && !f.keyword
  }

  function RootNames(fields: seq<Field>): seq<string> {
    if fields == [] then []
    else (if IsRoot(fields[0]) then [fields[0].name] else []) + RootNames(fields[1..])
  }

  /** The database of the first table entry that names the root and a database, or the default one. */
  function DatabaseOf(tables: seq<Table>, defaultDB: string, root: string): string {
    if tables == [] then defaultDB
    else if tables[0].name == root && tables[0].database != "" then tables[0].database
    else DatabaseOf(tables[1..], defaultDB, root)
  }

  /** The table entry gives the root a database. */
  predicate Gives(t: Table, root: string) {
    t.name == root && t.database != ""
  }

  /** A root's database is that of the first entry which gives it one, or else the default. */
  lemma {:induction false} DatabaseGiven(tables: seq<Table>, defaultDB: string, root: string)
    ensures forall i {:trigger tables[i]} :: 0 <= i < |tables| && Gives(tables[i], root) && (forall j | 0 <= j < i :: !Gives(tables[j], root)) ==>
              DatabaseOf(tables, defaultDB, root) == tables[i].database
    ensures (forall t <- tables :: !Gives(t, root)) ==> DatabaseOf(tables, defaultDB, root) == defaultDB
  {
    if tables != [] {
      DatabaseGiven(tables[1..], defaultDB, root);
      forall i {:trigger tables[i]} | 0 <= i < |tables| && Gives(tables[i], root) && (forall j | 0 <= j < i :: !Gives(tables[j], root))
        ensures DatabaseOf(tables, defaultDB, root) == tables[i].database
      {
        if i > 0 {
          assert !Gives(tables[0], root) && tables[1..][i - 1] == tables[i];
          forall j | 0 <= j < i - 1 ensures !Gives(tables[1..][j], root) {
            assert !Gives(tables[j + 1], root);
          }
        }
      }
      if forall t <- tables :: !Gives(t, root) {
        assert !Gives(tables[0], root) && forall t <- tables[1..] :: t in tables;
      }
    }
  }

  /** The roots of one database, in query order. */
  function RootsOf(tables: seq<Table>, defaultDB: string, roots: seq<string>, db: string): seq<string> {
    if roots == [] then []
    else (if DatabaseOf(tables, defaultDB, roots[0]) == db then [roots[0]] else [])
         + RootsOf(tables, defaultDB, roots[1..], db)
  }

  lemma {:induction false} RootsOfAppend(tables: seq<Table>, defaultDB: string, roots: seq<string>, r: string, db: string)
    ensures RootsOf(tables, defaultDB, roots + [r], db)
         == RootsOf(tables, defaultDB, roots, db) + if DatabaseOf(tables, defaultDB, r) == db then [r] else []
  {
    if roots == [] {
      assert roots + [r] == [r] && [r][1..] == [];
    } else {
      assert (roots + [r])[1..] == roots[1..] + [r];
      RootsOfAppend(tables, defaultDB, roots[1..], r, db);
    }
  }

  lemma {:induction false} RootsOfMembers(tables: seq<Table>, defaultDB: string, roots: seq<string>, db: string)
    ensures forall r :: r in RootsOf(tables, defaultDB, roots, db) <==> r in roots && DatabaseOf(tables, defaultDB, r) == db
  {
    if roots != [] {
      RootsOfMembers(tables, defaultDB, roots[1..], db);
    }
  }

  /** The groups list exactly the databases with roots, each with its roots. */
  ghost predicate Grouped(tables: seq<Table>, defaultDB: string, roots: seq<string>, byDB: map<string, seq<string>>) {
    && (forall db {:trigger db in byDB} :: db in byDB <==> RootsOf(tables, defaultDB, roots, db) != [])
    && (forall db {:trigger byDB[db]} :: db in byDB ==> byDB[db] == RootsOf(tables, defaultDB, roots, db))
  }

  lemma GroupedNext(tables: seq<Table>, defaultDB: string, roots: seq<string>, byDB: map<string, seq<string>>, r: string)
    requires Grouped(tables, defaultDB, roots, byDB)
    ensures var db := DatabaseOf(tables, defaultDB, r);
      Grouped(tables, defaultDB, roots + [r], byDB[db := (if db in byDB then byDB[db] else []) + [r]])
  {
    var db := DatabaseOf(tables, defaultDB, r);
    var next := byDB[db := (if db in byDB then byDB[db] else []) + [r]];
    assert db !in byDB ==> RootsOf(tables, defaultDB, roots, db) == [];
    forall d ensures d in next <==> RootsOf(tables, defaultDB, roots + [r], d) != [] {
      RootsOfAppend(tables, defaultDB, roots, r, d);
    }
    forall d | d in next ensures next[d] == RootsOf(tables, defaultDB, roots + [r], d) {
      RootsOfAppend(tables, defaultDB, roots, r, d);
    }
  }

  method FindDatabase(tables: seq<Table>, defaultDB: string, root: string) returns (db: string)
    ensures db == DatabaseOf(tables, defaultDB, root)
  {
    db := defaultDB;
    for n := 0 to |tables|
      invariant db == defaultDB
      invariant DatabaseOf(tables[n..], defaultDB, root) == DatabaseOf(tables, defaultDB, root)
    {
      assert tables[n..][1..] == tables[n + 1..];
      if tables[n].name == root && tables[n].database != "" {
        return tables[n].database;
      }
    }
  }

  method GroupRootsByDatabase(tables: seq<Table>, defaultDB: string, roots: seq<string>)
    returns (byDB: map<string, seq<string>>)
    ensures Grouped(tables, defaultDB, roots, byDB)
  {
    byDB := map[];
    for i := 0 to |roots|
      invariant Grouped(tables, defaultDB, roots[..i], byDB)
    {
      var db := FindDatabase(tables, defaultDB, roots[i]);
      GroupedNext(tables, defaultDB, roots[..i], byDB, roots[i]);
      assert roots[..i + 1] == roots[..i] + [roots[i]];
      byDB := byDB[db := (if db in byDB then byDB[db] else []) + [roots[i]]];
    }
    assert roots[..|roots|] == roots;
  }

  /** A sub-query keeps a root field when its group names it. */
  predicate Kept(f: Field, allowed: seq<string>) {
    f.parentID == -1 && f.name in allowed
  }

  lemma {:induction false} RootNamesMembers(fields: seq<Field>)
    ensures forall n :: n in RootNames(fields) <==> exists f <- fields :: IsRoot(f) && f.name == n
  {
    if fields != [] {
      RootNamesMembers(fields[1..]);
      forall n ensures n in RootNames(fields) <==> exists f <- fields :: IsRoot(f) && f.name == n {
        if f :| f in fields && IsRoot(f) && f.name == n {
          assert f == fields[0] || f in fields[1..];
        }
        if n in RootNames(fields[1..]) {
          var f :| f in fields[1..] && IsRoot(f) && f.name == n;
          assert f in fields;
        }
        assert IsRoot(fields[0]) ==> fields[0] in fields;
      }
    }
  }

  /** Every root that is no keyword is kept by the sub-query of its own database and by no other. */
  lemma EveryRootInOneQuery(tables: seq<Table>, defaultDB: string, fields: seq<Field>, f: Field, db: string)
    requires f in fields && f.parentID == -1 && !f.keyword
    ensures var roots := RootNames(fields);
      Kept(f, RootsOf(tables, defaultDB, roots, db)) <==> db == DatabaseOf(tables, defaultDB, f.name)
  {
    RootNamesMembers(fields);
    RootsOfMembers(tables, defaultDB, RootNames(fields), db);
  }

  /** A keyword root, such as a top-level cursor field, is kept only where another root has its name. */
  lemma KeywordRootsDropped(tables: seq<Table>, defaultDB: string, fields: seq<Field>, f: Field, db: string)
    requires f in fields && f.parentID == -1 && f.keyword
    ensures var roots := RootNames(fields);
      Kept(f, RootsOf(tables, defaultDB, roots, db))
      <==> db == DatabaseOf(tables, defaultDB, f.name) && exists g <- fields :: g.parentID == -1 && !g.keyword && g.name == f.name
  {
    RootNamesMembers(fields);
    RootsOfMembers(tables, defaultDB, RootNames(fields), db);
  }

  // ---- Merging the results ----

  /** The bytes one database returned: none, bytes that are no JSON object, or an object. */
  datatype Data = NoData | Malformed(raw: string) | Members(members: map<string, string>)

  datatype DBResult = DBResult(database: string, data: Data, err: Option<string>)

  datatype Merged =
    | Nothing
    | Raw(data: Data)
    | Object(members: map<string, string>)
    | DatabaseFailed(database: string)
    | ParseFailed(database: string)
    | DuplicateKey(key: string)

  predicate Succeeded(m: Merged) {
    m.Nothing? || m.Raw? || m.Object?
  }

  function MembersOf(r: DBResult): map<string, string> {
    if r.data.Members? then r.data.members else map[]
  }

  /** How many of the results hold the key. */
  function Holders(rs: seq<DBResult>, k: string): nat {
    if rs == [] then 0 else (if k in MembersOf(rs[0]) then 1 else 0) + Holders(rs[1..], k)
  }

  function Union(rs: seq<DBResult>): map<string, string> {
    if rs == [] then map[] else MembersOf(rs[0]) + Union(rs[1..])
  }

  predicate NoneFailed(rs: seq<DBResult>) {
    forall r <- rs :: r.err.None?
  }

  predicate NoneMalformed(rs: seq<DBResult>) {
    forall r <- rs :: !r.data.Malformed?
  }

  ghost predicate NoKeyRepeats(rs: seq<DBResult>) {
    forall k :: Holders(rs, k) <= 1
  }

  lemma {:induction false} HoldersAppend(rs: seq<DBResult>, r: DBResult, k: string)
    ensures Holders(rs + [r], k) == Holders(rs, k) + if k in MembersOf(r) then 1 else 0
  {
    if rs == [] {
      assert rs + [r] == [r] && [r][1..] == [];
    } else {
      assert (rs + [r])[1..] == rs[1..] + [r];
      HoldersAppend(rs[1..], r, k);
    }
  }

  lemma {:induction false} HoldersPrefix(rs: seq<DBResult>, i: nat, k: string)
    requires i <= |rs|
    ensures Holders(rs[..i], k) <= Holders(rs, k)
    decreases |rs| - i
  {
    if i < |rs| {
      assert rs[..i + 1] == rs[..i] + [rs[i]];
      HoldersAppend(rs[..i], rs[i], k);
      HoldersPrefix(rs, i + 1, k);
    } else {
      assert rs[..i] == rs;
    }
  }

  lemma {:induction false} UnionKeys(rs: seq<DBResult>)
    ensures forall k :: k in Union(rs) <==> Holders(rs, k) > 0
  {
    if rs != [] {
      UnionKeys(rs[1..]);
    }
  }

  lemma {:induction false} UnionAppend(rs: seq<DBResult>, r: DBResult)
    ensures Union(rs + [r]) == Union(rs) + MembersOf(r)
  {
    if rs == [] {
      assert rs + [r] == [r] && [r][1..] == [];
    } else {
      assert (rs + [r])[1..] == rs[1..] + [r];
      UnionAppend(rs[1..], r);
    }
  }

  /** Adds the members of one result, in whatever order they come, until a key is there already. */
  method AddMembers(merged: map<string, string>, obj: map<string, string>)
    returns (r: map<string, string>, duplicate: Option<string>)
    ensures duplicate.None? ==> merged.Keys !! obj.Keys && r == merged + obj
    ensures duplicate.Some? ==> duplicate.value in merged && duplicate.value in obj
  {
    r := merged;
    var left := obj.Keys;
    while left != {}
      invariant left <= obj.Keys && (obj.Keys - left) !! merged.Keys
      invariant r == merged + map k | k in obj && k !in left :: obj[k]
    {
      var k :| k in left;
      if k in r {
        return r, Some(k);
      }
      left := left - {k};
      r := r[k := obj[k]];
    }
    assert (map k | k in obj && k !in left :: obj[k]) == obj;
    return r, None;
  }

  /**
   What a merge may answer: a failure of the first database that failed; one result as it is; several results as
   the union of their keys, or else a database whose result is no object or a key that repeats.
   */
  ghost predicate Answers(results: seq<DBResult>, m: Merged) {
    if !NoneFailed(results) then m.DatabaseFailed? && FirstFailed(results, m.database)
    else if |results| == 0 then m == Nothing
    else if |results| == 1 then m == Raw(results[0].data)
    else if NoneMalformed(results) && NoKeyRepeats(results) then m == Object(Union(results))
    else
      || (m.ParseFailed? && exists r <- results :: r.data.Malformed? && r.database == m.database)
      || (m.DuplicateKey? && Holders(results, m.key) > 1)
  }

  /** The database is that of the first result with an error. */
  ghost predicate FirstFailed(results: seq<DBResult>, database: string) {
    exists i {:trigger results[i]} :: 0 <= i < |results| && results[i].err.Some? && results[i].database == database
      && forall j | 0 <= j < i :: results[j].err.None?
  }

  method MergeRootResults(results: seq<DBResult>) returns (m: Merged)
    ensures Answers(results, m)
  {
    for i := 0 to |results|
      invariant forall j | 0 <= j < i :: results[j].err.None?
    {
      if results[i].err.Some? {
        assert results[i] in results;
        return DatabaseFailed(results[i].database);
      }
    }
    if |results| == 0 { return Nothing; }
    if |results| == 1 { return Raw(results[0].data); }
    var merged: map<string, string> := map[];
    for i := 0 to |results|
      invariant merged == Union(results[..i])
      invariant NoneMalformed(results[..i]) && NoKeyRepeats(results[..i])
    {
      var r := results[i];
      assert results[..i + 1] == results[..i] + [r];
      forall k { HoldersAppend(results[..i], r, k); }
      UnionAppend(results[..i], r);
      if r.data.NoData? {
        assert Union(results[..i]) + map[] == Union(results[..i]);
        continue;
      }
      if r.data.Malformed? {
        assert r in results;
        return ParseFailed(r.database);
      }
      var duplicate: Option<string>;
      UnionKeys(results[..i]);
      merged, duplicate := AddMembers(merged, r.data.members);
      if duplicate.Some? {
        assert Holders(results[..i + 1], duplicate.value) > 1;
        HoldersPrefix(results, i + 1, duplicate.value);
        return DuplicateKey(duplicate.value);
      }
    }
    assert results[..|results|] == results;
    return Object(merged);
  }

  // ---- The order of the databases does not matter ----

  lemma {:induction false} HoldersRemove(rs: seq<DBResult>, i: nat, k: string)
    requires i < |rs|
    ensures Holders(rs, k) == Holders(rs[..i] + rs[i + 1..], k) + if k in MembersOf(rs[i]) then 1 else 0
  {
    if i == 0 {
      assert rs[..0] + rs[1..] == rs[1..];
    } else {
      assert (rs[..i] + rs[i + 1..])[1..] == rs[1..][..i - 1] + rs[1..][i..];
      HoldersRemove(rs[1..], i - 1, k);
    }
  }

  lemma TakeOut(rs: seq<DBResult>, i: nat)
    requires i < |rs|
    ensures multiset(rs[..i] + rs[i + 1..]) == multiset(rs) - multiset{rs[i]}
  {
    assert rs == rs[..i] + [rs[i]] + rs[i + 1..];
  }

  /** Where the first result of one order stands in another. */
  lemma FirstIn(a: seq<DBResult>, b: seq<DBResult>) returns (i: nat)
    requires a != [] && multiset(a) == multiset(b)
    ensures i < |b| && b[i] == a[0] && multiset(a[1..]) == multiset(b[..i] + b[i + 1..])
  {
    assert a[0] in multiset(b);
    i :| i < |b| && b[i] == a[0];
    TakeOut(b, i);
    assert a == [a[0]] + a[1..];
  }

  lemma {:induction false} HoldersPermuted(a: seq<DBResult>, b: seq<DBResult>, k: string)
    requires multiset(a) == multiset(b)
    ensures Holders(a, k) == Holders(b, k)
  {
    if a == [] {
      assert |b| == |multiset(b)| == 0;
    } else {
      var i := FirstIn(a, b);
      HoldersPermuted(a[1..], b[..i] + b[i + 1..], k);
      HoldersRemove(b, i, k);
    }
  }

  /** When no key repeats, the union holds exactly the members of the results. */
  lemma {:induction false} UnionMembers(rs: seq<DBResult>, k: string, r: DBResult)
    requires NoKeyRepeats(rs) && r in rs && k in MembersOf(r)
    ensures k in Union(rs) && Union(rs)[k] == MembersOf(r)[k]
  {
    UnionKeys(rs[1..]);
    assert Holders(rs, k) <= 1;
    if r in rs[1..] {
      forall j ensures Holders(rs[1..], j) <= 1 { assert Holders(rs, j) <= 1; }
      UnionMembers(rs[1..], k, r);
    }
  }

  lemma UnionPermuted(a: seq<DBResult>, b: seq<DBResult>)
    requires multiset(a) == multiset(b) && NoKeyRepeats(a)
    ensures NoKeyRepeats(b) && Union(a) == Union(b)
  {
    forall k ensures Holders(b, k) == Holders(a, k) { HoldersPermuted(a, b, k); }
    UnionKeys(a);
    UnionKeys(b);
    forall k | k in Union(a) ensures Union(a)[k] == Union(b)[k] {
      var r := HolderOf(a, k);
      UnionMembers(a, k, r);
      assert r in multiset(b);
      UnionMembers(b, k, r);
    }
  }

  lemma {:induction false} HolderOf(rs: seq<DBResult>, k: string) returns (r: DBResult)
    requires Holders(rs, k) > 0
    ensures r in rs && k in MembersOf(r)
  {
    if k in MembersOf(rs[0]) {
      r := rs[0];
    } else {
      r := HolderOf(rs[1..], k);
    }
  }

  /** Merging the same results in another order succeeds exactly when merging them does, with the same answer. */
  lemma MergeOrderIrrelevant(a: seq<DBResult>, b: seq<DBResult>, m: Merged, n: Merged)
    requires multiset(a) == multiset(b) && Answers(a, m) && Answers(b, n)
    ensures Succeeded(m) == Succeeded(n) && (Succeeded(m) ==> m == n)
  {
    assert |a| == |multiset(a)| == |multiset(b)| == |b|;
    assert forall r :: r in a <==> r in multiset(a);
    assert forall r :: r in b <==> r in multiset(b);
    if NoKeyRepeats(a) {
      UnionPermuted(a, b);
    }
    if NoKeyRepeats(b) {
      UnionPermuted(b, a);
    }
    if |a| == 1 {
      assert a[0] in multiset(b);
    }
  }

  /** A merged object has every key that some result has, with that result's value, and no other key. */
  lemma MergedHasExactlyTheKeys(results: seq<DBResult>, m: Merged, k: string)
    requires Answers(results, m) && m.Object?
    ensures k in m.members <==> exists r <- results :: k in MembersOf(r)
    ensures forall r <- results :: k in MembersOf(r) ==> k in m.members && m.members[k] == MembersOf(r)[k]
  {
    UnionKeys(results);
    if k in m.members {
      var r := HolderOf(results, k);
    }
    forall r | r in results && k in MembersOf(r) ensures k in m.members && m.members[k] == MembersOf(r)[k] {
      UnionMembers(results, k, r);
    }
  }
}
