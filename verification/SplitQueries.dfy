/**
 A query over several databases from end to end: each root is in the query that
 is rebuilt for its database and in no other, and the merged answer has exactly
 the keys of the roots.
 */
module SplitQueries {
  import opened Common
  import opened GraphSyntax
  import opened FieldForest
  import opened FieldTrees
  import opened QueryBuild
  import opened QueryRoundTrip
  import GraphDocument
  import DatabaseSplit

  /** A field as the splitting looks at it. */
  function View(f: Field, i: nat): DatabaseSplit.Field {
    DatabaseSplit.Field(i, f.parent, f.ftype == Keyword, f.header.name)
  }

  function Views(f: seq<Field>): (v: seq<DatabaseSplit.Field>)
    ensures |v| == |f|
  {
    seq(|f|, i requires 0 <= i < |f| => View(f[i], i))
  }

  /** The roots of one database, as they are handed to the rebuilding. */
  function RootsFor(tables: seq<DatabaseSplit.Table>, defaultDB: string, f: seq<Field>, db: string): set<string> {
    set r | r in DatabaseSplit.RootsOf(tables, defaultDB, DatabaseSplit.RootNames(Views(f)), db)
  }

  predicate PlainRoot(f: seq<Field>, i: int) {
    0 <= i < |f| && f[i].parent == -1 && f[i].ftype != Keyword
  }

  /** A root that is no keyword is kept, with everything below it, in the query of its own database and in no other. */
  lemma RootInOneQuery(tables: seq<DatabaseSplit.Table>, defaultDB: string, f: seq<Field>, i: int, db: string)
    requires Ordered(f) && PlainRoot(f, i)
    ensures i in KeepSet(f, RootsFor(tables, defaultDB, f, db), |f|)
      <==> db == DatabaseSplit.DatabaseOf(tables, defaultDB, f[i].header.name)
  {
    var views := Views(f);
    assert views[i] in views;
    DatabaseSplit.EveryRootInOneQuery(tables, defaultDB, views, views[i], db);
    KeepSetKeeps(f, RootsFor(tables, defaultDB, f, db), |f|);
  }

  /** So the text rebuilt for a database prints the root's tree exactly if the database is the root's. */
  lemma RootPrintedOnce(op: GraphDocument.Operation, tables: seq<DatabaseSplit.Table>, defaultDB: string, i: int, db: string)
    requires Ordered(op.fields) && PlainRoot(op.fields, i)
    ensures var names := RootsFor(tables, defaultDB, op.fields, db);
      && Chosen(op.fields, names, |op.fields|) == Kept(op.fields, -1, KeepSet(op.fields, names, |op.fields|), |op.fields|)
      && (op.fields[i].header.name in names <==> db == DatabaseSplit.DatabaseOf(tables, defaultDB, op.fields[i].header.name))
  {
    var names := RootsFor(tables, defaultDB, op.fields, db);
    KeepSetKeeps(op.fields, names, |op.fields|);
    KeptIsChosen(op.fields, names, KeepSet(op.fields, names, |op.fields|), |op.fields|);
    RootInOneQuery(tables, defaultDB, op.fields, i, db);
  }

  // ---- The merged answer ----

  /** The key under which a field is answered. */
  function AnswerKey(h: Header): string {
    if h.alias != "" then h.alias else h.name
  }

  /** Root i of the database is answered under the key. */
  predicate AnsweredUnder(tables: seq<DatabaseSplit.Table>, defaultDB: string, f: seq<Field>, db: string, i: int, k: string) {
    PlainRoot(f, i) && AnswerKey(f[i].header) == k && DatabaseSplit.DatabaseOf(tables, defaultDB, f[i].header.name) == db
  }

  /** The database answers exactly its roots. */
  ghost predicate AnswersRoots(tables: seq<DatabaseSplit.Table>, defaultDB: string, f: seq<Field>, db: string, r: DatabaseSplit.DBResult) {
    && r.err.None? && r.data.Members?
    && forall k :: k in r.data.members <==>
         exists i :: AnsweredUnder(tables, defaultDB, f, db, i, k)
  }

  /** Roots of different databases are answered under different keys. */
  ghost predicate KeysApart(tables: seq<DatabaseSplit.Table>, defaultDB: string, f: seq<Field>) {
    forall i, j {:trigger f[i], f[j]} :: PlainRoot(f, i) && PlainRoot(f, j) && AnswerKey(f[i].header) == AnswerKey(f[j].header) ==>
      DatabaseSplit.DatabaseOf(tables, defaultDB, f[i].header.name) == DatabaseSplit.DatabaseOf(tables, defaultDB, f[j].header.name)
  }

  lemma {:induction false} HeldTwice(rs: seq<DatabaseSplit.DBResult>, k: string) returns (a: nat, b: nat)
    requires DatabaseSplit.Holders(rs, k) > 1
    ensures a < b < |rs| && k in DatabaseSplit.MembersOf(rs[a]) && k in DatabaseSplit.MembersOf(rs[b])
  {
    if k in DatabaseSplit.MembersOf(rs[0]) {
      a := 0;
      b := HeldOnce(rs[1..], k);
      b := b + 1;
    } else {
      a, b := HeldTwice(rs[1..], k);
      a, b := a + 1, b + 1;
    }
  }

  lemma {:induction false} HeldOnce(rs: seq<DatabaseSplit.DBResult>, k: string) returns (a: nat)
    requires DatabaseSplit.Holders(rs, k) > 0
    ensures a < |rs| && k in DatabaseSplit.MembersOf(rs[a])
  {
    if k in DatabaseSplit.MembersOf(rs[0]) {
      a := 0;
    } else {
      a := HeldOnce(rs[1..], k);
      a := a + 1;
    }
  }

  /** So no key is answered twice. */
  lemma AnsweredOnce(tables: seq<DatabaseSplit.Table>, defaultDB: string, f: seq<Field>, dbs: seq<string>,
                     results: seq<DatabaseSplit.DBResult>, k: string)
    requires |results| == |dbs| && (forall a, b | 0 <= a < b < |dbs| :: dbs[a] != dbs[b])
    requires forall a {:trigger results[a]} :: 0 <= a < |dbs| ==> AnswersRoots(tables, defaultDB, f, dbs[a], results[a])
    requires KeysApart(tables, defaultDB, f)
    ensures DatabaseSplit.Holders(results, k) <= 1
  {
    if DatabaseSplit.Holders(results, k) > 1 {
      var a, b := HeldTwice(results, k);
      var i := AnsweredByRoot(tables, defaultDB, f, dbs[a], results[a], k);
      var j := AnsweredByRoot(tables, defaultDB, f, dbs[b], results[b], k);
      assert false;
    }
  }

  /**
   Where several databases answer exactly their roots, under keys that no two databases share, the merge succeeds and its
   answer has exactly the keys of all roots.
   */
  lemma MergedAnswersAllRoots(tables: seq<DatabaseSplit.Table>, defaultDB: string, f: seq<Field>, dbs: seq<string>,
                              results: seq<DatabaseSplit.DBResult>, m: DatabaseSplit.Merged)
    requires |results| == |dbs| > 1 && (forall a, b | 0 <= a < b < |dbs| :: dbs[a] != dbs[b])
    requires forall i {:trigger f[i]} :: PlainRoot(f, i) ==> DatabaseSplit.DatabaseOf(tables, defaultDB, f[i].header.name) in dbs
    requires forall a {:trigger results[a]} :: 0 <= a < |dbs| ==> AnswersRoots(tables, defaultDB, f, dbs[a], results[a])
    requires KeysApart(tables, defaultDB, f) && DatabaseSplit.Answers(results, m)
    ensures m.Object? && forall k :: k in m.members <==> exists i {:trigger f[i]} :: PlainRoot(f, i) && AnswerKey(f[i].header) == k
  {
    forall k ensures DatabaseSplit.Holders(results, k) <= 1 {
      AnsweredOnce(tables, defaultDB, f, dbs, results, k);
    }
    forall r | r in results ensures r.err.None? && !r.data.Malformed? {
      var a :| 0 <= a < |results| && results[a] == r;
    }
    forall k ensures k in m.members <==> exists i {:trigger f[i]} :: PlainRoot(f, i) && AnswerKey(f[i].header) == k {
      DatabaseSplit.MergedHasExactlyTheKeys(results, m, k);
      if k in m.members {
        var r :| r in results && k in DatabaseSplit.MembersOf(r);
        var a :| 0 <= a < |results| && results[a] == r;
        var i := AnsweredByRoot(tables, defaultDB, f, dbs[a], r, k);
        assert f[i].parent == -1;
      }
      if i :| PlainRoot(f, i) && AnswerKey(f[i].header) == k {
        var db := DatabaseSplit.DatabaseOf(tables, defaultDB, f[i].header.name);
        assert f[i].parent == -1;
        var a :| 0 <= a < |dbs| && dbs[a] == db;
        assert AnsweredUnder(tables, defaultDB, f, db, i, k);
        assert k in results[a].data.members;
        assert results[a] in results;
      }
    }
  }

  lemma AnsweredByRoot(tables: seq<DatabaseSplit.Table>, defaultDB: string, f: seq<Field>, db: string,
                       r: DatabaseSplit.DBResult, k: string) returns (i: int)
    requires AnswersRoots(tables, defaultDB, f, db, r) && k in DatabaseSplit.MembersOf(r)
    ensures AnsweredUnder(tables, defaultDB, f, db, i, k)
  {
    i :| AnsweredUnder(tables, defaultDB, f, db, i, k);
  }
}
