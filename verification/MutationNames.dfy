/**
 The names of a mutation's writes: each write's own result set, and the result
 set a root reads back from all its writes to a table.
 */
module MutationNames {
  import opened Common

  /** A planned write by position: the select of its root and the name of its table. */
  datatype Write = Write(selID: nat, table: string)

  // ---- Numbers as text ----

  function Digit(n: nat): char
    requires n < 10
  {
    '0' + n as char
  }

  function Dec(n: nat): (s: string)
    ensures s != [] && forall k :: 0 <= k < |s| ==> '0' <= s[k] <= '9'
  {
    if n < 10 then [Digit(n)] else Dec(n / 10) + [Digit(n % 10)]
  }

  lemma {:induction false} DecLength(n: nat)
    ensures |Dec(n)| == 1 <==> n < 10
  {
    if n >= 10 {
      DecLength(n / 10);
    }
  }

  lemma {:induction false} DecInjective(a: nat, b: nat)
    requires Dec(a) == Dec(b)
    ensures a == b
    decreases a
  {
    DecLength(a);
    DecLength(b);
    var s := Dec(a);
    if a < 10 {
      assert s[0] == Digit(a) && s[0] == Digit(b);
    } else {
      assert s[|s| - 1] == Digit(a % 10) && s[|s| - 1] == Digit(b % 10);
      assert s[..|s| - 1] == Dec(a / 10) && s[..|s| - 1] == Dec(b / 10);
      DecInjective(a / 10, b / 10);
    }
  }

  ghost predicate Digits(s: string) {
    forall k {:trigger s[k]} :: 0 <= k < |s| ==> '0' <= s[k] <= '9'
  }

  lemma NoUnderscoreBehind(t: string, d: string, k: nat)
    requires Digits(d) && |t| < k < |t + "_" + d|
    ensures (t + "_" + d)[k] != '_'
  {
    assert (t + "_" + d)[k] == d[k - |t| - 1];
  }

  /** What stands behind the last underscore is determined by the whole. */
  lemma SuffixUnique(t: string, d: string, u: string, e: string)
    requires Digits(d) && Digits(e) && t + "_" + d == u + "_" + e
    ensures t == u && d == e
  {
    var s := t + "_" + d;
    assert s[|t|] == '_' && s[|u|] == '_';
    forall k | |t| < k < |s| || |u| < k < |s| ensures s[k] != '_' {
      if |t| < k {
        NoUnderscoreBehind(t, d, k);
      } else {
        NoUnderscoreBehind(u, e, k);
      }
    }
    assert |t| == |u|;
    assert s[..|t|] == t && s[..|u|] == u;
    assert s[|t| + 1..] == d && s[|u| + 1..] == e;
  }

  // ---- Groups ----

  /** The writes of one root to one table. */
  datatype Group = Group(selID: nat, table: string)

  function GroupOf(w: Write): Group {
    Group(w.selID, w.table)
  }

  function GroupIds(ws: seq<Write>, g: Group): seq<nat> {
    if ws == [] then []
    else
      var last := |ws| - 1;
      GroupIds(ws[..last], g) + if GroupOf(ws[last]) == g then [last] else []
  }

  function RootsOf(ws: seq<Write>, table: string): set<nat> {
    set i | 0 <= i < |ws| && ws[i].table == table :: ws[i].selID
  }

  lemma {:induction false} GroupIdsAre(ws: seq<Write>, g: Group)
    ensures forall i {:trigger i in GroupIds(ws, g)} :: i in GroupIds(ws, g) <==> 0 <= i < |ws| && GroupOf(ws[i]) == g
    ensures forall j, k {:trigger GroupIds(ws, g)[j], GroupIds(ws, g)[k]} ::
      0 <= j < k < |GroupIds(ws, g)| ==> GroupIds(ws, g)[j] < GroupIds(ws, g)[k]
  {
    if ws != [] {
      GroupIdsAre(ws[..|ws| - 1], g);
      var front := GroupIds(ws[..|ws| - 1], g);
      assert forall k :: 0 <= k < |front| ==> front[k] in front;
    }
  }

  /** The write needs a name of its own: its group has others, or its table has other roots. */
  predicate Multi(ws: seq<Write>, i: nat)
    requires i < |ws|
  {
    |GroupIds(ws, GroupOf(ws[i]))| > 1 || |RootsOf(ws, ws[i].table)| > 1
  }

  function CteName(ws: seq<Write>, i: nat): string
    requires i < |ws|
  {
    if Multi(ws, i) then ws[i].table + "_" + Dec(i) else ws[i].table
  }

  function UnionName(ws: seq<Write>, g: Group): string {
    if |RootsOf(ws, g.table)| <= 1 then g.table else g.table + "__" + Dec(g.selID)
  }

  // ---- Names of writes ----

  lemma TwoInGroup(ws: seq<Write>, i: nat, j: nat)
    requires i < j < |ws| && GroupOf(ws[i]) == GroupOf(ws[j])
    ensures |GroupIds(ws, GroupOf(ws[i]))| > 1
  {
    var g := GroupOf(ws[i]);
    GroupIdsAre(ws, g);
    var ids := GroupIds(ws, g);
    assert i in ids && j in ids;
    var p :| 0 <= p < |ids| && ids[p] == i;
    var q :| 0 <= q < |ids| && ids[q] == j;
  }

  lemma TwoRoots(ws: seq<Write>, i: nat, j: nat)
    requires i < |ws| && j < |ws| && ws[i].table == ws[j].table && ws[i].selID != ws[j].selID
    ensures |RootsOf(ws, ws[i].table)| > 1
  {
    var roots := RootsOf(ws, ws[i].table);
    assert ws[i].selID in roots && ws[j].selID in roots;
    var pair := {ws[i].selID, ws[j].selID};
    assert |pair| == 2;
    SubsetSize(pair, roots);
  }

  /** Two writes to one table both have names of their own. */
  lemma SameTableMulti(ws: seq<Write>, i: nat, j: nat)
    requires i < |ws| && j < |ws| && i != j && ws[i].table == ws[j].table
    ensures Multi(ws, i) && Multi(ws, j)
  {
    if ws[i].selID == ws[j].selID {
      TwoInGroup(ws, if i < j then i else j, if i < j then j else i);
    } else {
      TwoRoots(ws, i, j);
    }
  }

  /** A numbered write's name is the plain name of another's table. */
  ghost predicate Clash(ws: seq<Write>, i: nat, j: nat)
    requires i < |ws| && j < |ws|
  {
    Multi(ws, i) && !Multi(ws, j) && ws[j].table == ws[i].table + "_" + Dec(i)
  }

  /** Two writes have the same name exactly when a table is called like another's numbered write. */
  lemma NamesMeet(ws: seq<Write>, i: nat, j: nat)
    requires i < |ws| && j < |ws| && i != j
    ensures CteName(ws, i) == CteName(ws, j) <==> Clash(ws, i, j) || Clash(ws, j, i)
  {
    if Multi(ws, i) && Multi(ws, j) {
      if CteName(ws, i) == CteName(ws, j) {
        SuffixUnique(ws[i].table, Dec(i), ws[j].table, Dec(j));
        DecInjective(i, j);
      }
    } else if !Multi(ws, i) && !Multi(ws, j) {
      if ws[i].table == ws[j].table {
        SameTableMulti(ws, i, j);
      }
    }
  }

  /** No table is another's name with a number behind one underscore or two. */
  ghost predicate NoSuffixes(ws: seq<Write>) {
    forall i, j, n: nat {:trigger ws[i], ws[j], Dec(n)} :: 0 <= i < |ws| && 0 <= j < |ws| ==>
      ws[j].table != ws[i].table + "_" + Dec(n) && ws[j].table != ws[i].table + "__" + Dec(n)
  }

  /** Then all writes have different names. */
  lemma WritesNamedApart(ws: seq<Write>, i: nat, j: nat)
    requires NoSuffixes(ws) && i < |ws| && j < |ws| && i != j
    ensures CteName(ws, i) != CteName(ws, j)
  {
    NamesMeet(ws, i, j);
    assert ws[j].table != ws[i].table + "_" + Dec(i);
    assert ws[i].table != ws[j].table + "_" + Dec(j);
  }

  lemma {:induction false} NoneYet(ws: seq<Write>, g: Group)
    requires forall i {:trigger ws[i]} :: 0 <= i < |ws| ==> GroupOf(ws[i]) != g
    ensures GroupIds(ws, g) == []
  {
    if ws != [] {
      NoneYet(ws[..|ws| - 1], g);
    }
  }

  /** Without the assumption two writes can meet: "t" written twice and "t_0" once. */
  lemma NamesCanMeet(t: string)
    ensures var ws := [Write(0, t), Write(0, t), Write(0, t + "_" + Dec(0))];
      CteName(ws, 0) == CteName(ws, 2)
  {
    var u := t + "_" + Dec(0);
    var ws := [Write(0, t), Write(0, t), Write(0, u)];
    assert |u| > |t|;
    SameTableMulti(ws, 0, 1);
    var g := GroupOf(ws[2]);
    var front := ws[..2];
    assert front == [Write(0, t), Write(0, t)];
    NoneYet(front, g);
    assert GroupIds(ws, g) == [2];
    assert RootsOf(ws, u) == {0} by {
      assert ws[2].table == u;
    }
  }

  // ---- Names of result sets ----

  ghost predicate IsGroup(ws: seq<Write>, g: Group) {
    exists i {:trigger ws[i]} :: 0 <= i < |ws| && GroupOf(ws[i]) == g
  }

  /** The two-underscore form determines table and select. */
  lemma UnionSuffixUnique(t: string, a: nat, u: string, b: nat)
    requires t + "__" + Dec(a) == u + "__" + Dec(b)
    ensures t == u && a == b
  {
    assert t + "__" + Dec(a) == (t + "_") + "_" + Dec(a);
    assert u + "__" + Dec(b) == (u + "_") + "_" + Dec(b);
    SuffixUnique(t + "_", Dec(a), u + "_", Dec(b));
    assert (t + "_")[..|t|] == t && (u + "_")[..|u|] == u;
    DecInjective(a, b);
  }

  /** Different groups have result sets of different names; so two roots on one table never share one. */
  lemma GroupsNamedApart(ws: seq<Write>, g: Group, h: Group)
    requires NoSuffixes(ws) && IsGroup(ws, g) && IsGroup(ws, h) && g != h
    ensures UnionName(ws, g) != UnionName(ws, h)
  {
    var i :| 0 <= i < |ws| && GroupOf(ws[i]) == g;
    var j :| 0 <= j < |ws| && GroupOf(ws[j]) == h;
    assert ws[j].table != ws[i].table + "__" + Dec(g.selID) && ws[i].table != ws[j].table + "__" + Dec(h.selID);
    if g.table == h.table {
      TwoRoots(ws, i, j);
    }
    if g.table + "__" + Dec(g.selID) == h.table + "__" + Dec(h.selID) {
      UnionSuffixUnique(g.table, g.selID, h.table, h.selID);
    }
  }

  /** The writes are split by their groups: each is listed in its own and in no other. */
  lemma GroupsPartition(ws: seq<Write>, i: nat, g: Group)
    requires i < |ws|
    ensures i in GroupIds(ws, g) <==> g == GroupOf(ws[i])
  {
    GroupIdsAre(ws, g);
  }

  lemma MixedForms(t: string, a: nat, u: string, b: nat)
    requires t + "__" + Dec(a) == u + "_" + Dec(b)
    ensures u == t + "_"
  {
    assert t + "__" + Dec(a) == (t + "_") + "_" + Dec(a);
    SuffixUnique(t + "_", Dec(a), u, Dec(b));
  }

  lemma InSharedGroup(ws: seq<Write>, g: Group, i: nat, j: nat)
    requires i < |ws| && j < |ws| && GroupOf(ws[j]) == g && ws[i].table == g.table
    requires |RootsOf(ws, g.table)| <= 1 && |GroupIds(ws, g)| > 1
    ensures Multi(ws, i)
  {
    if ws[i].selID != g.selID {
      TwoRoots(ws, i, j);
    }
  }

  /**
   A result set that gathers several writes is not called like any write either, if no table's name is another's
   with an underscore behind it.
   */
  lemma UnionsApartFromWrites(ws: seq<Write>, g: Group, i: nat)
    requires NoSuffixes(ws) && IsGroup(ws, g) && i < |ws|
    requires forall j {:trigger ws[j]} :: 0 <= j < |ws| ==> ws[j].table != g.table + "_"
    requires |GroupIds(ws, g)| > 1 || |RootsOf(ws, g.table)| > 1
    ensures UnionName(ws, g) != CteName(ws, i)
  {
    var j :| 0 <= j < |ws| && GroupOf(ws[j]) == g;
    assert ws[i].table != ws[j].table + "__" + Dec(g.selID) && ws[j].table != ws[i].table + "_" + Dec(i);
    if |RootsOf(ws, g.table)| > 1 {
      if g.table + "__" + Dec(g.selID) == ws[i].table + "_" + Dec(i) {
        MixedForms(g.table, g.selID, ws[i].table, i);
      }
    } else if ws[i].table == g.table {
      InSharedGroup(ws, g, i, j);
    }
  }

  // ---- Naming all writes ----

  ghost predicate Collected(ws: seq<Write>, k: nat, groups: map<Group, seq<nat>>, tableRoots: map<string, set<nat>>)
    requires k <= |ws|
  {
    && (forall g {:trigger g in groups} :: g in groups <==> IsGroup(ws[..k], g))
    && (forall g {:trigger groups[g]} :: g in groups ==> groups[g] == GroupIds(ws[..k], g))
    && (forall t {:trigger t in tableRoots} :: t in tableRoots <==> RootsOf(ws[..k], t) != {})
    && (forall t {:trigger tableRoots[t]} :: t in tableRoots ==> tableRoots[t] == RootsOf(ws[..k], t))
  }

  lemma NextWrite(ws: seq<Write>, k: nat)
    requires k < |ws|
    ensures forall g {:trigger IsGroup(ws[..k + 1], g)} :: IsGroup(ws[..k + 1], g) <==> IsGroup(ws[..k], g) || g == GroupOf(ws[k])
    ensures forall g {:trigger GroupIds(ws[..k + 1], g)} ::
      GroupIds(ws[..k + 1], g) == GroupIds(ws[..k], g) + if GroupOf(ws[k]) == g then [k] else []
    ensures forall t {:trigger RootsOf(ws[..k + 1], t)} ::
      RootsOf(ws[..k + 1], t) == RootsOf(ws[..k], t) + if ws[k].table == t then {ws[k].selID} else {}
  {
    var a, b := ws[..k], ws[..k + 1];
    assert b[..k] == a && b[k] == ws[k];
    forall g ensures IsGroup(b, g) <==> IsGroup(a, g) || g == GroupOf(ws[k]) {
      if i :| 0 <= i < |a| && GroupOf(a[i]) == g {
        assert b[i] == a[i];
      }
      if i :| 0 <= i < |b| && GroupOf(b[i]) == g {
        assert i < k ==> a[i] == b[i];
      }
    }
    forall t ensures RootsOf(b, t) == RootsOf(a, t) + if ws[k].table == t then {ws[k].selID} else {} {
      NextRoots(ws, k, t);
    }
  }

  lemma NextRoots(ws: seq<Write>, k: nat, t: string)
    requires k < |ws|
    ensures RootsOf(ws[..k + 1], t) == RootsOf(ws[..k], t) + if ws[k].table == t then {ws[k].selID} else {}
  {
    var a, b := ws[..k], ws[..k + 1];
    forall x | x in RootsOf(a, t) ensures x in RootsOf(b, t) {
      var i :| 0 <= i < |a| && a[i].table == t && a[i].selID == x;
      assert b[i] == a[i];
    }
    if ws[k].table == t {
      assert b[k].table == t && b[k].selID in RootsOf(b, t);
    }
    forall x | x in RootsOf(b, t) ensures x in RootsOf(a, t) || (ws[k].table == t && x == ws[k].selID) {
      var i :| 0 <= i < |b| && b[i].table == t && b[i].selID == x;
      assert i < k ==> a[i] == b[i];
    }
  }

  lemma CollectedNext(ws: seq<Write>, k: nat, groups: map<Group, seq<nat>>, tableRoots: map<string, set<nat>>)
    requires k < |ws| && Collected(ws, k, groups, tableRoots)
    ensures var g, t := GroupOf(ws[k]), ws[k].table;
      Collected(ws, k + 1, groups[g := (if g in groups then groups[g] else []) + [k]],
                tableRoots[t := (if t in tableRoots then tableRoots[t] else {}) + {ws[k].selID}])
  {
    NextWrite(ws, k);
    var g := GroupOf(ws[k]);
    if g !in groups {
      NoneYet(ws[..k], g);
    }
  }

  /** Enters one write into its group and its table's roots. */
  method AddWrite(ws: seq<Write>, k: nat, groups: map<Group, seq<nat>>, tableRoots: map<string, set<nat>>)
    returns (groups': map<Group, seq<nat>>, tableRoots': map<string, set<nat>>)
    requires k < |ws| && Collected(ws, k, groups, tableRoots)
    ensures Collected(ws, k + 1, groups', tableRoots')
  {
    var g, t := GroupOf(ws[k]), ws[k].table;
    var ids := if g in groups then groups[g] else [];
    var roots := if t in tableRoots then tableRoots[t] else {};
    groups' := groups[g := ids + [k]];
    tableRoots' := tableRoots[t := roots + {ws[k].selID}];
    CollectedNext(ws, k, groups, tableRoots);
  }

  method Collect(ws: seq<Write>) returns (groups: map<Group, seq<nat>>, tableRoots: map<string, set<nat>>)
    ensures Collected(ws, |ws|, groups, tableRoots)
  {
    groups, tableRoots := map[], map[];
    var k := 0;
    while k < |ws|
      invariant 0 <= k <= |ws| && Collected(ws, k, groups, tableRoots)
    {
      groups, tableRoots := AddWrite(ws, k, groups, tableRoots);
      k := k + 1;
    }
  }

  /** The result sets of all groups but those in todo are stored under their names. */
  ghost predicate Stored(ws: seq<Write>, unions: map<string, seq<nat>>, todo: set<Group>) {
    forall g {:trigger IsGroup(ws, g)} :: IsGroup(ws, g) && g !in todo ==>
      UnionName(ws, g) in unions && unions[UnionName(ws, g)] == GroupIds(ws, g)
  }

  lemma StoreOne(ws: seq<Write>, unions: map<string, seq<nat>>, todo: set<Group>, g: Group)
    requires Stored(ws, unions, todo + {g}) && NoSuffixes(ws) && IsGroup(ws, g)
    ensures Stored(ws, unions[UnionName(ws, g) := GroupIds(ws, g)], todo)
  {
    forall h | IsGroup(ws, h) && h !in todo && h != g ensures UnionName(ws, h) != UnionName(ws, g) {
      GroupsNamedApart(ws, g, h);
    }
  }

  /** The result sets by name, in whatever order the groups come. */
  method NameUnions(ws: seq<Write>, groups: map<Group, seq<nat>>, tableRoots: map<string, set<nat>>)
    returns (unions: map<string, seq<nat>>)
    requires Collected(ws, |ws|, groups, tableRoots)
    ensures NoSuffixes(ws) ==> Stored(ws, unions, {})
  {
    assert ws[..|ws|] == ws;
    unions := map[];
    var todo := groups.Keys;
    while todo != {}
      invariant todo <= groups.Keys
      invariant NoSuffixes(ws) ==> Stored(ws, unions, todo)
      decreases todo
    {
      var g :| g in todo;
      var name := UnionNameOf(ws, groups, tableRoots, g);
      if NoSuffixes(ws) {
        assert todo - {g} + {g} == todo;
        StoreOne(ws, unions, todo - {g}, g);
      }
      todo := todo - {g};
      unions := unions[name := groups[g]];
    }
  }

  method UnionNameOf(ws: seq<Write>, groups: map<Group, seq<nat>>, tableRoots: map<string, set<nat>>, g: Group)
    returns (name: string)
    requires Collected(ws, |ws|, groups, tableRoots) && g in groups
    ensures name == UnionName(ws, g) && IsGroup(ws, g) && groups[g] == GroupIds(ws, g)
  {
    assert ws[..|ws|] == ws;
    HasRoots(ws, g);
    name := if |tableRoots[g.table]| <= 1 then g.table else g.table + "__" + Dec(g.selID);
  }

  /** The writes that need names of their own. */
  method MarkMulti(ws: seq<Write>, groups: map<Group, seq<nat>>, tableRoots: map<string, set<nat>>) returns (multi: seq<bool>)
    requires Collected(ws, |ws|, groups, tableRoots)
    ensures |multi| == |ws| && forall i {:trigger multi[i]} :: 0 <= i < |ws| ==> multi[i] == Multi(ws, i)
  {
    assert ws[..|ws|] == ws;
    multi := [];
    var k := 0;
    while k < |ws|
      invariant 0 <= k <= |ws| && |multi| == k
      invariant forall i {:trigger multi[i]} :: 0 <= i < k ==> multi[i] == Multi(ws, i)
    {
      var g := GroupOf(ws[k]);
      assert IsGroup(ws, g);
      HasRoots(ws, g);
      multi := multi + [|groups[g]| > 1 || |tableRoots[ws[k].table]| > 1];
      k := k + 1;
    }
  }

  lemma HasRoots(ws: seq<Write>, g: Group)
    requires IsGroup(ws, g)
    ensures RootsOf(ws, g.table) != {}
  {
    var i :| 0 <= i < |ws| && GroupOf(ws[i]) == g;
    assert ws[i].selID in RootsOf(ws, g.table);
  }
}
