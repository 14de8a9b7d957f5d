/**
 Field arrays as trees: every list of trees has one array, and reading the
 trees back from the array gives the list again.
 */
module FieldTrees {
  import opened GraphSyntax
  import opened FieldForest
  import opened FieldParser

  datatype Tree = Tree(header: Header, kids: seq<Tree>)

  function Flat(t: Tree): seq<Field>
    decreases t
  {
    Splice(Single(t.header), 0, FlatAll(t.kids))
  }

  function FlatAll(ts: seq<Tree>): seq<Field>
    decreases ts
  {
    if ts == [] then [] else Splice(Flat(ts[0]), -1, FlatAll(ts[1..]))
  }

  lemma {:induction false} FlatSound(t: Tree)
    ensures Sound(Flat(t)) && |Flat(t)| > 0
    decreases t
  {
    var h := Single(t.header);
    FlatAllSound(t.kids);
    SingleSound(t.header);
    var s := State([], h, [0]);
    assert Chain(h, 0) == [0];
    assert Inv(s);
    SpliceKeepsInv(s, FlatAll(t.kids));
  }

  lemma {:induction false} FlatAllSound(ts: seq<Tree>)
    ensures Sound(FlatAll(ts))
    decreases ts
  {
    if ts != [] {
      FlatSound(ts[0]);
      FlatAllSound(ts[1..]);
      var s := State([], Flat(ts[0]), []);
      assert Inv(s);
      SpliceKeepsInv(s, FlatAll(ts[1..]));
    }
  }

  // ---- Reading trees off an array ----

  lemma {:induction false} KidsIn(f: seq<Field>, p: int)
    ensures forall k {:trigger k in Kids(f, p)} :: k in Kids(f, p) <==> 0 <= k < |f| && f[k].parent == p
  {
    if f != [] {
      KidsIn(f[..|f| - 1], p);
    }
  }

  lemma KidAt(f: seq<Field>, p: int, j: int)
    requires Ordered(f) && 0 <= j < |Kids(f, p)|
    ensures p < Kids(f, p)[j] && 0 <= Kids(f, p)[j] < |f| && f[Kids(f, p)[j]].parent == p
  {
    KidsIn(f, p);
    assert Kids(f, p)[j] in Kids(f, p);
  }

  ghost function TreeAt(f: seq<Field>, i: int): Tree
    requires Ordered(f) && 0 <= i < |f|
    decreases |f| - i
  {
    var kids := Kids(f, i);
    Tree(f[i].header, seq(|kids|, j requires 0 <= j < |kids| => KidAt(f, i, j); TreeAt(f, kids[j])))
  }

  /** The trees at the given positions. */
  ghost function TreesAt(f: seq<Field>, ids: seq<int>): (ts: seq<Tree>)
    requires Ordered(f) && forall k {:trigger ids[k]} :: 0 <= k < |ids| ==> 0 <= ids[k] < |f|
    ensures |ts| == |ids|
  {
    seq(|ids|, k requires 0 <= k < |ids| => TreeAt(f, ids[k]))
  }

  ghost function Roots(f: seq<Field>): seq<Tree>
    requires Ordered(f)
  {
    assert forall k {:trigger Kids(f, -1)[k]} :: 0 <= k < |Kids(f, -1)| ==> 0 <= Kids(f, -1)[k] < |f| by {
      forall k | 0 <= k < |Kids(f, -1)| ensures 0 <= Kids(f, -1)[k] < |f| {
        KidAt(f, -1, k);
      }
    }
    TreesAt(f, Kids(f, -1))
  }

  /** From position n on, all is g, moved. */
  ghost predicate Holds(all: seq<Field>, n: nat, g: seq<Field>) {
    && |all| == n + |g|
    && forall j {:trigger g[j]} :: 0 <= j < |g| ==>
         all[n + j].header == g[j].header && Kids(all, n + j) == Add(Kids(g, j), n)
  }

  lemma KidsInRange(f: seq<Field>, p: int)
    requires Ordered(f)
    ensures forall k {:trigger Kids(f, p)[k]} :: 0 <= k < |Kids(f, p)| ==> 0 <= Kids(f, p)[k] < |f|
  {
    forall k | 0 <= k < |Kids(f, p)| ensures 0 <= Kids(f, p)[k] < |f| {
      KidAt(f, p, k);
    }
  }

  /** A field's tree is its header over the trees of its children. */
  lemma TreeAtIs(f: seq<Field>, i: int)
    requires Ordered(f) && 0 <= i < |f|
    ensures forall k {:trigger Kids(f, i)[k]} :: 0 <= k < |Kids(f, i)| ==> 0 <= Kids(f, i)[k] < |f|
    ensures TreeAt(f, i) == Tree(f[i].header, TreesAt(f, Kids(f, i)))
  {
    KidsInRange(f, i);
  }

  lemma {:induction false} TreeHeld(all: seq<Field>, n: nat, g: seq<Field>, j: int)
    requires Ordered(all) && Ordered(g) && Holds(all, n, g) && 0 <= j < |g|
    ensures TreeAt(all, n + j) == TreeAt(g, j)
    decreases |g| - j, 0
  {
    TreeAtIs(all, n + j);
    TreeAtIs(g, j);
    assert all[n + j].header == g[j].header;
    KidsAbove(g, j);
    TreesHeld(all, n, g, Kids(g, j), j + 1);
  }

  lemma KidsAbove(g: seq<Field>, j: int)
    requires Ordered(g) && 0 <= j < |g|
    ensures InArray(g, Kids(g, j)) && forall k {:trigger Kids(g, j)[k]} :: 0 <= k < |Kids(g, j)| ==> j + 1 <= Kids(g, j)[k]
  {
    forall k | 0 <= k < |Kids(g, j)| ensures j + 1 <= Kids(g, j)[k] < |g| {
      KidAt(g, j, k);
    }
  }

  ghost predicate InArray(f: seq<Field>, ids: seq<int>) {
    forall k {:trigger ids[k]} :: 0 <= k < |ids| ==> 0 <= ids[k] < |f|
  }

  lemma {:induction false} TreesHeld(all: seq<Field>, n: nat, g: seq<Field>, ids: seq<int>, lo: int)
    requires Ordered(all) && Ordered(g) && Holds(all, n, g) && InArray(g, ids)
    requires 0 <= lo <= |g| && forall k {:trigger ids[k]} :: 0 <= k < |ids| ==> lo <= ids[k]
    ensures InArray(all, Add(ids, n)) && TreesAt(all, Add(ids, n)) == TreesAt(g, ids)
    decreases |g| - lo, 1
  {
    assert forall k {:trigger Add(ids, n)[k]} :: 0 <= k < |ids| ==> Add(ids, n)[k] == ids[k] + n;
    forall k | 0 <= k < |ids| ensures TreesAt(all, Add(ids, n))[k] == TreesAt(g, ids)[k] {
      TreeHeld(all, n, g, ids[k]);
    }
  }

  lemma SpliceHolds(all: seq<Field>, f: seq<Field>, pid: int, g: seq<Field>)
    requires Ordered(f) && -1 <= pid < |f| && all == Splice(f, pid, g)
    ensures Holds(all, |f|, g)
  {
    forall k | 0 <= k < |g|
      ensures all[|f| + k].header == g[k].header && Kids(all, |f| + k) == Add(Kids(g, k), |f|)
    {
      KidsMoved(Adopt(f, pid, Add(Kids(g, -1), |f|)), g, pid, k);
    }
  }

  /** A root appended behind an array leaves the trees in it alone. */
  lemma {:induction false} TreeKept(all: seq<Field>, f: seq<Field>, i: int)
    requires Ordered(f) && Ordered(all) && Keeps(all, f) && 0 <= i < |f|
    ensures TreeAt(all, i) == TreeAt(f, i)
    decreases |f| - i
  {
    TreeAtIs(all, i);
    TreeAtIs(f, i);
    var kids := Kids(f, i);
    assert all[i].header == f[i].header;
    forall k | 0 <= k < |kids| ensures TreesAt(all, kids)[k] == TreesAt(f, kids)[k] {
      KidAt(f, i, k);
      TreeKept(all, f, kids[k]);
    }
  }

  /** all starts with f, children and all. */
  ghost predicate Keeps(all: seq<Field>, f: seq<Field>) {
    |f| <= |all| && forall i {:trigger f[i]} :: 0 <= i < |f| ==> all[i].header == f[i].header && Kids(all, i) == Kids(f, i)
  }

  lemma SpliceKeeps(all: seq<Field>, f: seq<Field>, g: seq<Field>)
    requires Ordered(f) && Ordered(g) && all == Splice(f, -1, g)
    ensures Keeps(all, f)
  {
    forall i | 0 <= i < |f| ensures all[i].header == f[i].header && Kids(all, i) == Kids(f, i) {
      KidsOfSplice(f, -1, g, i);
    }
  }

  lemma TreesAtJoin(f: seq<Field>, a: seq<int>, b: seq<int>)
    requires Ordered(f) && InArray(f, a) && InArray(f, b)
    ensures InArray(f, a + b) && TreesAt(f, a + b) == TreesAt(f, a) + TreesAt(f, b)
  {
  }

  lemma TreesKept(all: seq<Field>, f: seq<Field>, ids: seq<int>)
    requires Ordered(f) && Ordered(all) && Keeps(all, f) && InArray(f, ids)
    ensures InArray(all, ids) && TreesAt(all, ids) == TreesAt(f, ids)
  {
    forall k | 0 <= k < |ids| ensures TreesAt(all, ids)[k] == TreesAt(f, ids)[k] {
      TreeKept(all, f, ids[k]);
    }
  }

  lemma RootsAre(f: seq<Field>)
    requires Ordered(f)
    ensures InArray(f, Kids(f, -1)) && Roots(f) == TreesAt(f, Kids(f, -1))
  {
    KidsInRange(f, -1);
  }

  lemma RootsAppend(f: seq<Field>, g: seq<Field>)
    requires Ordered(f) && Ordered(g) && Ordered(Splice(f, -1, g))
    ensures Roots(Splice(f, -1, g)) == Roots(f) + Roots(g)
  {
    KidsOfSplice(f, -1, g, -1);
    RootsJoin(Splice(f, -1, g), f, g);
  }

  lemma RootsJoin(all: seq<Field>, f: seq<Field>, g: seq<Field>)
    requires Ordered(f) && Ordered(g) && all == Splice(f, -1, g) && Ordered(all)
    requires Kids(all, -1) == Kids(f, -1) + Add(Kids(g, -1), |f|)
    ensures Roots(all) == Roots(f) + Roots(g)
  {
    RootsAre(all);
    RootsAre(f);
    RootsAre(g);
    SpliceHolds(all, f, -1, g);
    SpliceKeeps(all, f, g);
    TreesKept(all, f, Kids(f, -1));
    TreesHeld(all, |f|, g, Kids(g, -1), 0);
    TreesAtJoin(all, Kids(f, -1), Add(Kids(g, -1), |f|));
  }

  lemma RootOfBranch(h: Header, g: seq<Field>)
    requires Ordered(g) && Ordered(Splice(Single(h), 0, g))
    ensures Roots(Splice(Single(h), 0, g)) == [Tree(h, Roots(g))]
  {
    BranchShape(h, g);
    OnlyRoot(Splice(Single(h), 0, g), h, g);
  }

  lemma BranchShape(h: Header, g: seq<Field>)
    requires Ordered(g)
    ensures var all := Splice(Single(h), 0, g);
      Holds(all, 1, g) && all[0].header == h && Kids(all, 0) == Add(Kids(g, -1), 1) && Kids(all, -1) == [0]
  {
    KidsOfSplice(Single(h), 0, g, -1);
    KidsOfSplice(Single(h), 0, g, 0);
    assert Kids(Single(h), -1) == [0];
    assert Kids(Single(h), 0) == [];
    SpliceHolds(Splice(Single(h), 0, g), Single(h), 0, g);
  }

  lemma OnlyRoot(all: seq<Field>, h: Header, g: seq<Field>)
    requires Ordered(g) && Ordered(all) && Holds(all, 1, g) && all[0].header == h && Kids(all, 0) == Add(Kids(g, -1), 1)
    requires Kids(all, -1) == [0]
    ensures Roots(all) == [Tree(h, Roots(g))]
  {
    RootsAre(all);
    BranchTree(all, h, g);
  }

  lemma BranchTree(all: seq<Field>, h: Header, g: seq<Field>)
    requires Ordered(g) && Ordered(all) && Holds(all, 1, g) && all[0].header == h && Kids(all, 0) == Add(Kids(g, -1), 1)
    ensures TreeAt(all, 0) == Tree(h, Roots(g))
  {
    TreeAtIs(all, 0);
    RootsAre(g);
    TreesHeld(all, 1, g, Kids(g, -1), 0);
  }

  /** Reading the trees off the array of a list of trees gives the list. */
  lemma {:induction false} RootsOfFlat(ts: seq<Tree>)
    ensures Ordered(FlatAll(ts)) && Roots(FlatAll(ts)) == ts
    decreases ts
  {
    FlatAllSound(ts);
    if ts != [] {
      RootOfFlat(ts[0]);
      RootsOfFlat(ts[1..]);
      RootsAppend(Flat(ts[0]), FlatAll(ts[1..]));
      assert ts == [ts[0]] + ts[1..];
    }
  }

  lemma {:induction false} RootOfFlat(t: Tree)
    ensures Ordered(Flat(t)) && Roots(Flat(t)) == [t]
    decreases t
  {
    FlatSound(t);
    RootsOfFlat(t.kids);
    RootOfBranch(t.header, FlatAll(t.kids));
  }

  // ---- Every pre-order forest is the array of its trees ----

  lemma {:induction false} FlatAllAppend(ts: seq<Tree>, t: Tree)
    ensures FlatAll(ts + [t]) == Splice(FlatAll(ts), -1, Flat(t))
    decreases ts
  {
    FlatSound(t);
    if ts == [] {
      assert ts + [t] == [t] && [t][1..] == [];
      SpliceNothing(Flat(t), -1);
      SpliceEmpty(Flat(t));
    } else {
      assert (ts + [t])[1..] == ts[1..] + [t];
      FlatAllAppend(ts[1..], t);
      SpliceAssoc(Flat(ts[0]), -1, FlatAll(ts[1..]), -1, Flat(t));
    }
  }

  /** pid is -1 or encloses the last field, or is it. */
  ghost predicate OnEdge(f: seq<Field>, pid: int)
    requires Ordered(f)
  {
    pid == -1 || pid in Chain(f, |f| - 1)
  }

  lemma {:induction false} ChainIn(f: seq<Field>, i: int)
    requires Ordered(f) && i < |f|
    ensures forall k {:trigger k in Chain(f, i)} :: k in Chain(f, i) ==> 0 <= k <= i
    decreases i + 1
  {
    if i >= 0 {
      ChainIn(f, f[i].parent);
    }
  }

  lemma InShifted(c: seq<int>, d: seq<int>, n: int, x: int)
    requires x in c + Add(d, n)
    ensures x in c || x - n in d
  {
    var k :| 0 <= k < |c + Add(d, n)| && (c + Add(d, n))[k] == x;
    if k >= |c| {
      assert d[k - |c|] == x - n;
    }
  }

  /** On the edge of a spliced array means on the edge of what was spliced in last, or in front of it. */
  lemma EdgeBelow(all: seq<Field>, f: seq<Field>, pid: int, g: seq<Field>, at: int)
    requires Ordered(f) && Ordered(g) && Ordered(all) && Grafted(all, f, pid, g)
    requires g != [] && -1 <= pid < |f| && OnEdge(all, at) && at != -1
    ensures at in Chain(f, pid) || (OnEdge(g, at - |f|) && 0 <= at - |f| < |g|)
  {
    ChainAbove(all, f, pid, g, |g| - 1);
    InShifted(Chain(f, pid), Chain(g, |g| - 1), |f|, at);
    ChainIn(g, |g| - 1);
  }

  /** An edge position behind the seam of two root arrays is one of the second. */
  lemma EdgeOfRoot(f: seq<Field>, g: seq<Field>, at: int)
    requires Ordered(f) && Ordered(g) && g != [] && at != -1
    requires Ordered(Splice(f, -1, g)) && OnEdge(Splice(f, -1, g), at)
    ensures 0 <= at - |f| < |g| && OnEdge(g, at - |f|)
  {
    SpliceGrafts(f, -1, g);
    EdgeBelow(Splice(f, -1, g), f, -1, g, at);
    assert Chain(f, -1) == [];
  }

  lemma EdgeOfBranch(top: seq<Field>, g: seq<Field>, at: int)
    requires Ordered(top) && |top| == 1 && Ordered(g) && at > 0
    requires Ordered(Splice(top, 0, g)) && at < |Splice(top, 0, g)| && OnEdge(Splice(top, 0, g), at)
    ensures 0 <= at - 1 < |g| && OnEdge(g, at - 1)
  {
    SpliceGrafts(top, 0, g);
    EdgeBelow(Splice(top, 0, g), top, 0, g, at);
    ChainIn(top, 0);
  }

  /** A leaf added on the edge of the array of some trees gives the array of other trees. */
  lemma {:induction false} GraftLeaf(ts: seq<Tree>, all: seq<Field>, pid: int, h: Header) returns (r: seq<Tree>)
    requires all == FlatAll(ts) && Ordered(all) && -1 <= pid < |all| && OnEdge(all, pid)
    ensures FlatAll(r) == Splice(all, pid, Single(h))
    decreases ts
  {
    if pid == -1 {
      r := ts + [Tree(h, [])];
      SpliceNothing(Single(h), 0);
      FlatAllAppend(ts, Tree(h, []));
    } else {
      var front, t := ts[..|ts| - 1], ts[|ts| - 1];
      assert ts == front + [t];
      FlatAllAppend(front, t);
      FlatAllSound(front);
      FlatSound(t);
      var t' := GraftInLast(front, t, FlatAll(front), Flat(t), pid, h);
      r := front + [t'];
    }
  }

  lemma {:induction false} GraftInLast(front: seq<Tree>, t: Tree, f: seq<Field>, g: seq<Field>, pid: int, h: Header)
    returns (t': Tree)
    requires f == FlatAll(front) && g == Flat(t) && Ordered(f) && Ordered(g) && g != []
    requires var all := Splice(f, -1, g);
      Ordered(all) && 0 <= pid < |all| && OnEdge(all, pid)
    ensures FlatAll(front + [t']) == Splice(Splice(f, -1, g), pid, Single(h))
    decreases t, 1
  {
    EdgeOfRoot(f, g, pid);
    t' := GraftInTree(t, g, pid - |f|, h);
    LeafBehind(f, g, pid, h);
    FlatAllAppend(front, t');
  }

  lemma LeafBehind(f: seq<Field>, g: seq<Field>, pid: int, h: Header)
    requires 0 <= pid - |f| < |g|
    ensures Splice(Splice(f, -1, g), pid, Single(h)) == Splice(f, -1, Splice(g, pid - |f|, Single(h)))
  {
    SpliceAssoc(f, -1, g, pid - |f|, Single(h));
  }

  lemma {:induction false} GraftInTree(t: Tree, all: seq<Field>, pid: int, h: Header) returns (r: Tree)
    requires all == Flat(t) && Ordered(all) && 0 <= pid < |all| && OnEdge(all, pid)
    ensures Flat(r) == Splice(all, pid, Single(h))
    decreases t, 0
  {
    var top, g := Single(t.header), FlatAll(t.kids);
    FlatAllSound(t.kids);
    if pid > 0 {
      EdgeOfBranch(top, g, pid);
    }
    var kids := GraftLeaf(t.kids, g, pid - 1, h);
    assert Splice(top, 0, FlatAll(kids)) == Splice(all, pid, Single(h)) by {
      SpliceAssoc(top, 0, g, pid - 1, Single(h));
    }
    r := Tree(t.header, kids);
  }

  ghost predicate AllPlain(f: seq<Field>) {
    forall i {:trigger f[i]} :: 0 <= i < |f| ==> f[i].ftype == Plain
  }

  /** The array without its last field. */
  function WithoutLast(f: seq<Field>): (r: seq<Field>)
    requires f != []
    ensures |r| == |f| - 1
  {
    var last := |f| - 1;
    seq(last, i requires 0 <= i < last => f[i].(children := Kids(f[..last], i)))
  }

  lemma WithoutLastForest(f: seq<Field>)
    requires f != [] && Forest(f)
    ensures Forest(WithoutLast(f))
  {
    var g, n := WithoutLast(f), |f| - 1;
    forall i | 0 <= i < |g| ensures g[i].id == i && -1 <= g[i].parent < i && g[i].children == Kids(g, i) {
      assert f[i].id == i;
      KidsSame(f[..n], g, i);
    }
  }

  lemma LastGrafted(f: seq<Field>)
    requires f != [] && Ordered(f)
    ensures var g, last := WithoutLast(f), f[|f| - 1];
      Ordered(g) && -1 <= last.parent < |g| && Grafted(f, g, last.parent, Single(last.header))
  {
  }

  lemma WithoutLastPreOrder(f: seq<Field>)
    requires f != [] && Ordered(f) && PreOrder(f)
    ensures Ordered(WithoutLast(f)) && PreOrder(WithoutLast(f)) && OnEdge(WithoutLast(f), f[|f| - 1].parent)
  {
    var last := f[|f| - 1];
    LastGrafted(f);
    FrontPreOrder(f, WithoutLast(f), last.parent, Single(last.header));
  }

  lemma FrontFollows(f: seq<Field>, g: seq<Field>, pid: int, s: seq<Field>, i: int)
    requires Ordered(f) && PreOrder(f) && Ordered(g) && Ordered(s) && |s| == 1 && |f| == |g| + 1
    requires -1 <= pid < |g| && Grafted(f, g, pid, s) && 0 < i < |g|
    ensures Follows(g, i)
  {
    assert Follows(f, i);
    assert f[i].parent == g[i].parent;
    ChainBelow(f, g, pid, s, i - 1);
  }

  lemma FrontPreOrder(f: seq<Field>, g: seq<Field>, pid: int, s: seq<Field>)
    requires Ordered(f) && PreOrder(f) && Ordered(g) && Ordered(s) && |s| == 1 && |f| == |g| + 1
    requires -1 <= pid < |g| && Grafted(f, g, pid, s) && f[|g|].parent == pid
    ensures PreOrder(g) && OnEdge(g, pid)
  {
    forall i | 0 < i < |g| ensures Follows(g, i) {
      FrontFollows(f, g, pid, s, i);
    }
    if |g| > 0 {
      assert Follows(f, |g|);
      ChainBelow(f, g, pid, s, |g| - 1);
    }
  }

  /** The last field was spliced in below its parent. */
  lemma LastSpliced(f: seq<Field>)
    requires f != [] && Forest(f) && AllPlain(f)
    ensures var g, last := WithoutLast(f), f[|f| - 1];
      f == Splice(g, last.parent, Single(last.header))
  {
    var g, n := WithoutLast(f), |f| - 1;
    var last := f[n];
    var s := Single(last.header);
    NoKids(f, n);
    assert Kids(s, -1) == [0];
    assert Add([0], n) == [n];
    forall i | 0 <= i < |f| ensures f[i] == Splice(g, last.parent, s)[i] {
      assert f[i].ftype == Plain && f[i].id == i && f[i].children == Kids(f, i);
      if i < n {
        SpliceHead(g, last.parent, s, i);
      }
    }
  }

  lemma WithoutLastSound(f: seq<Field>)
    requires f != [] && Sound(f) && AllPlain(f)
    ensures Sound(WithoutLast(f)) && AllPlain(WithoutLast(f)) && OnEdge(WithoutLast(f), f[|f| - 1].parent)
  {
    WithoutLastForest(f);
    WithoutLastPreOrder(f);
  }

  /** Conversely, every pre-order forest is the array of the trees read off it. */
  lemma {:induction false} FlatOfRoots(f: seq<Field>)
    requires Sound(f) && AllPlain(f)
    ensures FlatAll(Roots(f)) == f
    decreases |f|
  {
    if f == [] {
      assert Roots(f) == [];
    } else {
      var g, last := WithoutLast(f), f[|f| - 1];
      WithoutLastSound(f);
      LastSpliced(f);
      FlatOfRoots(g);
      var ts := GraftLeaf(Roots(g), g, last.parent, last.header);
      RootsOfFlat(ts);
    }
  }

  // ---- Arrays with the same trees ----

  ghost predicate SameNodes(f: seq<Field>, g: seq<Field>) {
    SameParents(f, g) && forall i {:trigger f[i]} :: 0 <= i < |f| ==> f[i].header == g[i].header
  }

  lemma {:induction false} SameTree(f: seq<Field>, g: seq<Field>, i: int)
    requires Ordered(f) && Ordered(g) && SameNodes(f, g) && 0 <= i < |f|
    ensures TreeAt(g, i) == TreeAt(f, i)
    decreases |f| - i
  {
    KidsSame(f, g, i);
    var kids := Kids(f, i);
    assert g[i].header == f[i].header;
    forall j | 0 <= j < |kids| ensures TreeAt(g, i).kids[j] == TreeAt(f, i).kids[j] {
      KidAt(f, i, j);
      SameTree(f, g, kids[j]);
    }
  }

  lemma SameRoots(f: seq<Field>, g: seq<Field>)
    requires Ordered(f) && SameNodes(f, g)
    ensures Ordered(g) && Roots(g) == Roots(f)
  {
    assert Ordered(g) by {
      forall i {:trigger g[i]} | 0 <= i < |g| ensures -1 <= g[i].parent < i { assert f[i].parent == g[i].parent; }
    }
    KidsSame(f, g, -1);
    forall k | 0 <= k < |Roots(f)| ensures Roots(g)[k] == Roots(f)[k] {
      KidAt(f, -1, k);
      SameTree(f, g, Kids(f, -1)[k]);
    }
  }

  /** The array with its field types forgotten; trees do not have them. */
  function Untyped(f: seq<Field>): (r: seq<Field>)
    ensures |r| == |f|
  {
    seq(|f|, i requires 0 <= i < |f| => f[i].(ftype := Plain))
  }

  /** Every pre-order forest, its types forgotten, is the array of the trees read off it. */
  lemma FlatOfTrees(f: seq<Field>)
    requires Sound(f)
    ensures FlatAll(Roots(f)) == Untyped(f)
  {
    var g := Untyped(f);
    assert SameShape(f, g);
    SameShapeForest(f, g);
    assert OpenPath(f, []);
    SameShapePreOrder(f, g, []);
    SameRoots(f, g);
    FlatOfRoots(g);
  }
}
