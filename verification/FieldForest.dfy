/**
 The field array of a parsed selection: a forest in which a field names its
 parent and its children by position, and the one way it grows, by splicing
 another such array in under an open field.
 */
module FieldForest {
  import opened GraphSyntax

  datatype FieldType = Plain | Union | Member | Keyword

  datatype Field = Field(id: int, parent: int, ftype: FieldType, header: Header, children: seq<int>)

  function Add(s: seq<int>, n: int): (r: seq<int>)
    ensures |r| == |s|
  {
    seq(|s|, k requires 0 <= k < |s| => s[k] + n)
  }

  lemma AddAppend(a: seq<int>, b: seq<int>, n: int)
    ensures Add(a + b, n) == Add(a, n) + Add(b, n)
  {
  }

  lemma AddTwice(a: seq<int>, m: int, n: int)
    ensures Add(Add(a, m), n) == Add(a, m + n)
  {
  }

  /** The positions whose parent is p, in ascending order; the roots for p = -1. */
  function Kids(fields: seq<Field>, p: int): seq<int>
  {
    if fields == [] then []
    else
      var last := |fields| - 1;
      Kids(fields[..last], p) + if fields[last].parent == p then [last] else []
  }

  /** Field i of an array that is appended behind n fields, its roots handed to pid. */
  function Moved(f: Field, i: int, n: int, pid: int): Field {
    f.(id := n + i, parent := if f.parent == -1 then pid else f.parent + n, children := Add(f.children, n))
  }

  function MovedAll(g: seq<Field>, n: int, pid: int): (r: seq<Field>)
    ensures |r| == |g|
  {
    seq(|g|, i requires 0 <= i < |g| => Moved(g[i], i, n, pid))
  }

  function Adopt(fields: seq<Field>, pid: int, kids: seq<int>): (r: seq<Field>)
    requires -1 <= pid < |fields|
    ensures |r| == |fields|
  {
    if pid == -1 then fields else fields[pid := fields[pid].(children := fields[pid].children + kids)]
  }

  /** fields with the forest g appended, g's roots becoming the last children of pid. */
  function Splice(fields: seq<Field>, pid: int, g: seq<Field>): (r: seq<Field>)
    requires -1 <= pid < |fields|
    ensures |r| == |fields| + |g|
  {
    Adopt(fields, pid, Add(Kids(g, -1), |fields|)) + MovedAll(g, |fields|, pid)
  }

  /** A field on its own. */
  function Single(h: Header): seq<Field> {
    [Field(0, -1, Plain, h, [])]
  }

  /** Every field named as a child of the inline-fragment owner pid takes over its arguments. */
  function MarkMembers(fields: seq<Field>, pid: int): (r: seq<Field>)
    requires 0 <= pid < |fields|
    ensures |r| == |fields|
  {
    var args := fields[pid].header.args;
    seq(|fields|, i requires 0 <= i < |fields| =>
      if i > pid && fields[i].parent == pid
      then fields[i].(ftype := Member, header := fields[i].header.(args := args))
      else fields[i])
  }

  function MarkUnion(fields: seq<Field>, pid: int): (r: seq<Field>)
    requires 0 <= pid < |fields|
    ensures |r| == |fields|
  {
    fields[pid := fields[pid].(ftype := Union)]
  }

  // ---- Children lists ----

  ghost predicate SameParents(f: seq<Field>, g: seq<Field>) {
    |f| == |g| && forall i {:trigger f[i]} :: 0 <= i < |f| ==> f[i].parent == g[i].parent
  }

  lemma {:induction false} KidsSame(f: seq<Field>, g: seq<Field>, p: int)
    requires SameParents(f, g)
    ensures Kids(f, p) == Kids(g, p)
  {
    if f != [] {
      KidsSame(f[..|f| - 1], g[..|g| - 1], p);
    }
  }

  /** The children lists of an appended array, read off its two parts. */
  lemma {:induction false} KidsAppend(f: seq<Field>, g: seq<Field>, pid: int, p: int)
    requires p < |f| && (forall i {:trigger g[i]} :: 0 <= i < |g| ==> g[i].parent >= -1)
    ensures Kids(f + MovedAll(g, |f|, pid), p) ==
      Kids(f, p) + (if p == pid then Add(Kids(g, -1), |f|) else [])
  {
    var n := |f|;
    if g == [] {
      assert f + MovedAll(g, n, pid) == f;
    } else {
      var g' := g[..|g| - 1];
      var all := f + MovedAll(g, n, pid);
      assert all[..|all| - 1] == f + MovedAll(g', n, pid);
      KidsAppend(f, g', pid, p);
      AddAppend(Kids(g', -1), [|g| - 1], n);
      assert all[|all| - 1] == Moved(g[|g| - 1], |g| - 1, n, pid);
      assert Add([|g| - 1], n) == [|all| - 1];
    }
  }

  /** Below the seam the children lists are those of the appended forest, moved. */
  lemma {:induction false} KidsMoved(f: seq<Field>, g: seq<Field>, pid: int, p: int)
    requires 0 <= p && pid < |f| && (forall i {:trigger f[i]} :: 0 <= i < |f| ==> f[i].parent < |f|)
    ensures Kids(f + MovedAll(g, |f|, pid), |f| + p) == Add(Kids(g, p), |f|)
  {
    var n := |f|;
    if g == [] {
      assert f + MovedAll(g, n, pid) == f;
      NoKids(f, n + p);
    } else {
      var g' := g[..|g| - 1];
      var all := f + MovedAll(g, n, pid);
      assert all[..|all| - 1] == f + MovedAll(g', n, pid);
      KidsMoved(f, g', pid, p);
      AddAppend(Kids(g', p), [|g| - 1], n);
    }
  }

  lemma {:induction false} NoKids(f: seq<Field>, p: int)
    requires forall i {:trigger f[i]} :: 0 <= i < |f| ==> f[i].parent < p
    ensures Kids(f, p) == []
  {
    if f != [] {
      NoKids(f[..|f| - 1], p);
    }
  }

  // ---- Splicing is associative ----

  ghost predicate ParentsOk(g: seq<Field>) {
    forall i {:trigger g[i]} :: 0 <= i < |g| ==> g[i].parent >= -1
  }

  lemma KidsOfSplice(g: seq<Field>, pid: int, h: seq<Field>, p: int)
    requires -1 <= pid < |g| && ParentsOk(h) && p < |g|
    ensures Kids(Splice(g, pid, h), p) == Kids(g, p) + if p == pid then Add(Kids(h, -1), |g|) else []
  {
    var a := Adopt(g, pid, Add(Kids(h, -1), |g|));
    KidsAppend(a, h, pid, p);
    KidsSame(a, g, p);
  }

  /** Splicing h into g and the result into f is splicing g into f and h into the result. */
  lemma SpliceAssoc(f: seq<Field>, pid: int, g: seq<Field>, qid: int, h: seq<Field>)
    requires -1 <= pid < |f| && -1 <= qid < |g| && ParentsOk(h)
    ensures Splice(f, pid, Splice(g, qid, h)) == Splice(Splice(f, pid, g), At(f, pid, qid), h)
  {
    var left := Splice(f, pid, Splice(g, qid, h));
    var right := Splice(Splice(f, pid, g), At(f, pid, qid), h);
    forall i | 0 <= i < |left| ensures left[i] == right[i] {
      if i < |f| {
        AssocHead(f, pid, g, qid, h, i);
      } else if i < |f| + |g| {
        AssocMiddle(f, pid, g, qid, h, i - |f|);
      } else {
        AddTwice(h[i - |f| - |g|].children, |g|, |f|);
      }
    }
  }

  /** Where field qid of an array spliced into f below pid ends up; its roots' parent is pid. */
  function At(f: seq<Field>, pid: int, qid: int): int {
    if qid == -1 then pid else qid + |f|
  }

  lemma SpliceHead(f: seq<Field>, pid: int, g: seq<Field>, i: int)
    requires -1 <= pid < |f| && 0 <= i < |f|
    ensures Splice(f, pid, g)[i] ==
      if i == pid then f[i].(children := f[i].children + Add(Kids(g, -1), |f|)) else f[i]
  {
  }

  lemma SpliceNothing(fields: seq<Field>, pid: int)
    requires -1 <= pid < |fields|
    ensures Splice(fields, pid, []) == fields
  {
    forall i | 0 <= i < |fields| ensures Splice(fields, pid, [])[i] == fields[i] {
      SpliceHead(fields, pid, [], i);
      assert Add(Kids([], -1), |fields|) == [];
      assert fields[i].children + [] == fields[i].children;
    }
  }

  lemma AssocHead(f: seq<Field>, pid: int, g: seq<Field>, qid: int, h: seq<Field>, i: int)
    requires -1 <= pid < |f| && -1 <= qid < |g| && ParentsOk(h) && 0 <= i < |f|
    ensures Splice(f, pid, Splice(g, qid, h))[i] == Splice(Splice(f, pid, g), At(f, pid, qid), h)[i]
  {
    SpliceHead(f, pid, Splice(g, qid, h), i);
    SpliceHead(f, pid, g, i);
    SpliceHead(Splice(f, pid, g), At(f, pid, qid), h, i);
    if i == pid {
      KidsOfSplice(g, qid, h, -1);
      AddAppend(Kids(g, -1), Add(Kids(h, -1), |g|), |f|);
      AddTwice(Kids(h, -1), |g|, |f|);
      Regroup(f[i].children, Add(Kids(g, -1), |f|), Add(Kids(h, -1), |g| + |f|));
    }
  }

  lemma Regroup(a: seq<int>, b: seq<int>, c: seq<int>)
    ensures (a + b) + c == a + (b + c)
  {
  }

  lemma AssocMiddle(f: seq<Field>, pid: int, g: seq<Field>, qid: int, h: seq<Field>, j: int)
    requires -1 <= pid < |f| && -1 <= qid < |g| && ParentsOk(h) && 0 <= j < |g|
    ensures Splice(f, pid, Splice(g, qid, h))[|f| + j] == Splice(Splice(f, pid, g), At(f, pid, qid), h)[|f| + j]
  {
    AddAppend(g[j].children, Add(Kids(h, -1), |g|), |f|);
    AddTwice(Kids(h, -1), |g|, |f|);
  }

  lemma UnionSplices(f: seq<Field>, pid: int, g: seq<Field>, qid: int)
    requires -1 <= pid < |f| && 0 <= qid < |g|
    ensures Splice(f, pid, MarkUnion(g, qid)) == MarkUnion(Splice(f, pid, g), qid + |f|)
  {
    KidsSame(MarkUnion(g, qid), g, -1);
  }

  lemma MembersSplice(f: seq<Field>, pid: int, g: seq<Field>, qid: int)
    requires -1 <= pid < |f| && 0 <= qid < |g|
    ensures Splice(f, pid, MarkMembers(g, qid)) == MarkMembers(Splice(f, pid, g), qid + |f|)
  {
    KidsSame(MarkMembers(g, qid), g, -1);
  }

  // ---- The forest invariant ----

  /** Ids are positions, a parent stands in front of its children, and children lists invert the parents. */
  ghost predicate Forest(f: seq<Field>) {
    forall i {:trigger f[i]} :: 0 <= i < |f| ==>
      f[i].id == i && -1 <= f[i].parent < i && f[i].children == Kids(f, i)
  }

  lemma SpliceForest(f: seq<Field>, pid: int, g: seq<Field>)
    requires Forest(f) && Forest(g) && -1 <= pid < |f|
    ensures Forest(Splice(f, pid, g))
  {
    var all := Splice(f, pid, g);
    forall i | 0 <= i < |all|
      ensures all[i].id == i && -1 <= all[i].parent < i && all[i].children == Kids(all, i)
    {
      if i < |f| {
        KidsOfSplice(f, pid, g, i);
        SpliceHead(f, pid, g, i);
      } else {
        SpliceTail(f, pid, g, i - |f|);
      }
    }
  }

  lemma SpliceTail(f: seq<Field>, pid: int, g: seq<Field>, j: int)
    requires Forest(f) && Forest(g) && -1 <= pid < |f| && 0 <= j < |g|
    ensures var all := Splice(f, pid, g);
      var i := |f| + j;
      all[i].id == i && -1 <= all[i].parent < i && all[i].children == Kids(all, i)
  {
    KidsMoved(Adopt(f, pid, Add(Kids(g, -1), |f|)), g, pid, j);
    assert g[j].id == j && g[j].children == Kids(g, j);
  }

  ghost predicate Ordered(f: seq<Field>) {
    forall i {:trigger f[i]} :: 0 <= i < |f| ==> -1 <= f[i].parent < i
  }

  /** i and the fields that enclose it, outermost first. */
  ghost function Chain(f: seq<Field>, i: int): (r: seq<int>)
    requires i < |f| && Ordered(f)
    ensures i >= 0 ==> r != [] && r[|r| - 1] == i
    decreases i + 1
  {
    if i < 0 then [] else Chain(f, f[i].parent) + [i]
  }

  /** The innermost open field, or -1. */
  function Top(stack: seq<int>): int {
    if stack == [] then -1 else stack[|stack| - 1]
  }

  lemma SpliceEmpty(g: seq<Field>)
    requires Forest(g)
    ensures Splice([], -1, g) == g
  {
    forall i | 0 <= i < |g| ensures Moved(g[i], i, 0, -1) == g[i] {
      assert Add(g[i].children, 0) == g[i].children;
    }
  }

  /** Field i is a root, or a child of the field in front of it or of one that encloses that. */
  ghost predicate Follows(f: seq<Field>, i: int)
    requires Ordered(f) && 0 < i < |f|
  {
    f[i].parent == -1 || f[i].parent in Chain(f, i - 1)
  }

  ghost predicate PreOrder(f: seq<Field>)
    requires Ordered(f)
  {
    forall i {:trigger Follows(f, i)} :: 0 < i < |f| ==> Follows(f, i)
  }

  /** The stack is the path from a root down to one of the fields that enclose the last one. */
  ghost predicate OpenPath(f: seq<Field>, stack: seq<int>)
    requires Ordered(f)
  {
    stack <= Chain(f, |f| - 1)
  }

  lemma {:induction false} PrefixIsChain(f: seq<Field>, i: int, stack: seq<int>)
    requires Ordered(f) && i < |f| && stack <= Chain(f, i) && stack != []
    ensures var top := stack[|stack| - 1];
      0 <= top <= i && stack == Chain(f, top)
    decreases i + 1
  {
    if i >= 0 && |stack| < |Chain(f, i)| {
      var up := Chain(f, f[i].parent);
      assert Chain(f, i)[..|up|] == up;
      PrefixIsChain(f, f[i].parent, stack);
    }
  }

  /** The parents in all, an array of f and g with g's roots below pid. */
  ghost predicate Grafted(all: seq<Field>, f: seq<Field>, pid: int, g: seq<Field>) {
    && |all| == |f| + |g|
    && (forall i {:trigger all[i]} :: 0 <= i < |f| ==> all[i].parent == f[i].parent)
    && (forall j {:trigger g[j]} :: 0 <= j < |g| ==>
          all[|f| + j].parent == if g[j].parent == -1 then pid else g[j].parent + |f|)
  }

  lemma SpliceGrafts(f: seq<Field>, pid: int, g: seq<Field>)
    requires Ordered(f) && Ordered(g) && -1 <= pid < |f|
    ensures Ordered(Splice(f, pid, g)) && Grafted(Splice(f, pid, g), f, pid, g)
  {
  }

  lemma {:induction false} ChainBelow(all: seq<Field>, f: seq<Field>, pid: int, g: seq<Field>, i: int)
    requires Ordered(f) && Ordered(g) && Ordered(all) && Grafted(all, f, pid, g)
    requires -1 <= pid < |f| && i < |f|
    ensures Chain(all, i) == Chain(f, i)
    decreases i + 1
  {
    if i >= 0 {
      ChainBelow(all, f, pid, g, f[i].parent);
    }
  }

  lemma Lifted(below: seq<int>, above: seq<int>, j: int, n: int)
    ensures below + Add(above + [j], n) == below + Add(above, n) + [n + j]
    ensures below + Add([], n) == below
  {
    AddAppend(above, [j], n);
    assert Add([j], n) == [n + j];
  }

  lemma {:induction false} ChainAbove(all: seq<Field>, f: seq<Field>, pid: int, g: seq<Field>, j: int)
    requires Ordered(f) && Ordered(g) && Ordered(all) && Grafted(all, f, pid, g)
    requires -1 <= pid < |f| && 0 <= j < |g|
    ensures Chain(all, |f| + j) == Chain(f, pid) + Add(Chain(g, j), |f|)
    decreases j
  {
    var n := |f|;
    var up := g[j].parent;
    if up == -1 {
      ChainBelow(all, f, pid, g, pid);
      assert all[n + j].parent == pid;
    } else {
      ChainAbove(all, f, pid, g, up);
      assert all[n + j].parent == n + up;
    }
    Lifted(Chain(f, pid), Chain(g, up), j, n);
  }

  /** A forest stays in pre-order when another is spliced in below the innermost open field. */
  lemma SplicePreOrder(f: seq<Field>, stack: seq<int>, g: seq<Field>)
    requires Ordered(f) && Ordered(g) && PreOrder(f) && PreOrder(g) && OpenPath(f, stack)
    ensures -1 <= Top(stack) < |f| && Ordered(Splice(f, Top(stack), g))
    ensures PreOrder(Splice(f, Top(stack), g)) && OpenPath(Splice(f, Top(stack), g), stack)
  {
    StackTop(f, stack);
    SpliceGrafts(f, Top(stack), g);
    GraftPreOrder(Splice(f, Top(stack), g), f, stack, g);
  }

  lemma GraftPreOrder(all: seq<Field>, f: seq<Field>, stack: seq<int>, g: seq<Field>)
    requires Ordered(f) && Ordered(g) && PreOrder(f) && PreOrder(g) && OpenPath(f, stack)
    requires -1 <= Top(stack) < |f| && Ordered(all) && Grafted(all, f, Top(stack), g)
    ensures PreOrder(all) && OpenPath(all, stack)
  {
    var n := |f|;
    StackTop(f, stack);
    if g == [] {
      ChainBelow(all, f, Top(stack), g, n - 1);
    } else {
      ChainAbove(all, f, Top(stack), g, |g| - 1);
    }
    forall i | 0 < i < |all| ensures Follows(all, i) {
      if i <= n {
        SeamParent(all, f, stack, g, i);
      } else {
        GraftedParent(all, f, Top(stack), g, i - n);
      }
    }
  }

  /** The stack is the whole path to its innermost field. */
  lemma StackTop(f: seq<Field>, stack: seq<int>)
    requires Ordered(f) && OpenPath(f, stack)
    ensures -1 <= Top(stack) < |f| && stack == Chain(f, Top(stack))
  {
    if stack != [] {
      PrefixIsChain(f, |f| - 1, stack);
    }
  }

  lemma SeamParent(all: seq<Field>, f: seq<Field>, stack: seq<int>, g: seq<Field>, i: int)
    requires Ordered(f) && Ordered(g) && PreOrder(f) && OpenPath(f, stack)
    requires -1 <= Top(stack) < |f| && Ordered(all) && Grafted(all, f, Top(stack), g)
    requires 0 < i <= |f| && i < |all|
    ensures Follows(all, i)
  {
    ChainBelow(all, f, Top(stack), g, i - 1);
    if i < |f| {
      assert Follows(f, i);
      assert all[i].parent == f[i].parent;
    } else {
      assert all[i].parent == all[|f| + 0].parent && g[0].parent == -1;
      if stack != [] {
        assert Chain(f, i - 1)[|stack| - 1] == Top(stack);
      }
    }
  }

  lemma GraftedParent(all: seq<Field>, f: seq<Field>, pid: int, g: seq<Field>, j: int)
    requires Ordered(f) && Ordered(g) && Ordered(all) && Grafted(all, f, pid, g)
    requires -1 <= pid < |f| && 0 < j < |g| && PreOrder(g)
    ensures Follows(all, |f| + j)
  {
    ChainAbove(all, f, pid, g, j - 1);
    var c := Chain(g, j - 1);
    assert Follows(g, j);
    if g[j].parent == -1 {
      if pid != -1 {
        assert pid in Chain(f, pid);
      }
    } else {
      assert g[j].parent in c;
      var k :| 0 <= k < |c| && c[k] == g[j].parent;
      assert Add(c, |f|)[k] == g[j].parent + |f|;
    }
  }

  ghost predicate SameShape(f: seq<Field>, g: seq<Field>) {
    |f| == |g| && forall i {:trigger f[i]} {:trigger g[i]} :: 0 <= i < |f| ==>
      f[i].id == g[i].id && f[i].parent == g[i].parent && f[i].children == g[i].children
  }

  lemma MarksKeepShape(f: seq<Field>, pid: int)
    requires 0 <= pid < |f|
    ensures SameShape(f, MarkUnion(f, pid)) && SameShape(f, MarkMembers(f, pid))
  {
  }

  /** Types and arguments do not matter to the forest. */
  lemma SameShapeForest(f: seq<Field>, g: seq<Field>)
    requires SameShape(f, g) && Forest(f)
    ensures Forest(g)
  {
    forall i | 0 <= i < |g| ensures g[i].id == i && -1 <= g[i].parent < i && g[i].children == Kids(g, i) {
      KidsSame(f, g, i);
      assert f[i].children == Kids(f, i);
    }
  }

  lemma {:induction false} SameShapeChain(f: seq<Field>, g: seq<Field>, i: int)
    requires SameShape(f, g) && Ordered(f) && Ordered(g) && i < |f|
    ensures Chain(f, i) == Chain(g, i)
    decreases i + 1
  {
    if i >= 0 {
      SameShapeChain(f, g, f[i].parent);
    }
  }

  lemma SameShapePreOrder(f: seq<Field>, g: seq<Field>, stack: seq<int>)
    requires SameShape(f, g) && Ordered(f) && PreOrder(f) && OpenPath(f, stack)
    ensures Ordered(g) && PreOrder(g) && OpenPath(g, stack)
  {
    SameShapeChain(f, g, |f| - 1);
    forall i | 0 < i < |g| ensures Follows(g, i) {
      assert Follows(f, i);
      assert f[i].parent == g[i].parent;
      SameShapeChain(f, g, i - 1);
    }
  }
}
