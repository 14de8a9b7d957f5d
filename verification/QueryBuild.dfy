/**
 Rebuilding a query for one database: the chosen root fields and everything
 below them are printed, and parsing the print gives back exactly those.
 */
module QueryBuild {
  import opened Common
  import opened GraphSyntax
  import opened StringValue
  import opened GraphLexer
  import opened FieldForest
  import opened FieldParser
  import opened FieldTrees
  import opened GraphDocument
  import opened QueryText
  import opened QueryTree

  // ---- What is kept ----

  /** p encloses field i. */
  ghost predicate Below(f: seq<Field>, i: int, p: int)
    requires Ordered(f) && i < |f|
    decreases i
  {
    i >= 0 && (f[i].parent == p || Below(f, f[i].parent, p))
  }

  ghost function Descendants(f: seq<Field>, p: int): set<int>
    requires Ordered(f)
  {
    set i | 0 <= i < |f| && Below(f, i, p)
  }

  lemma {:induction false} BelowOwn(f: seq<Field>, i: int, p: int)
    requires Ordered(f) && 0 <= i < |f| && p >= 0 && Below(f, i, p)
    ensures p < i
    ensures exists c :: 0 <= c < |f| && f[c].parent == p && (c == i || Below(f, i, c))
    decreases i
  {
    if f[i].parent != p {
      BelowOwn(f, f[i].parent, p);
      var c :| 0 <= c < |f| && f[c].parent == p && (c == f[i].parent || Below(f, f[i].parent, c));
      assert Below(f, i, c);
    } else {
      assert f[i].parent == p && i == i;
    }
  }

  lemma {:induction false} BelowTrans(f: seq<Field>, i: int, c: int, p: int)
    requires Ordered(f) && 0 <= i < |f| && 0 <= c < |f| && Below(f, i, c) && f[c].parent == p
    ensures Below(f, i, p)
    decreases i
  {
    if f[i].parent != c {
      BelowTrans(f, f[i].parent, c, p);
    }
  }

  /** Marks everything below parent, children first by position, each with its own subtree. */
  method MarkDescendants(f: seq<Field>, parent: int, keep: set<int>) returns (marked: set<int>)
    requires Ordered(f) && 0 <= parent < |f|
    ensures marked == keep + Descendants(f, parent)
    decreases |f| - parent
  {
    marked := keep;
    var k := 0;
    while k < |f|
      invariant 0 <= k <= |f|
      invariant marked == keep + Gathered(f, parent, k)
    {
      if f[k].parent == parent {
        var more := MarkDescendants(f, k, marked + {k});
        marked := more;
      }
      GatheredNext(f, parent, k);
      k := k + 1;
    }
    GatheredAll(f, parent);
  }

  /** The children of p in front of position k, with their subtrees. */
  ghost function Gathered(f: seq<Field>, p: int, k: int): set<int>
    requires Ordered(f) && k <= |f|
  {
    set i | 0 <= i < |f| && GatheredAt(f, p, k, i)
  }

  ghost predicate GatheredAt(f: seq<Field>, p: int, k: int, i: int)
    requires Ordered(f) && k <= |f| && 0 <= i < |f|
  {
    exists c {:trigger f[c]} :: 0 <= c < k && f[c].parent == p && (c == i || Below(f, i, c))
  }

  lemma GatheredNext(f: seq<Field>, p: int, k: int)
    requires Ordered(f) && 0 <= k < |f|
    ensures Gathered(f, p, k + 1) ==
      if f[k].parent == p then Gathered(f, p, k) + {k} + Descendants(f, k) else Gathered(f, p, k)
  {
    forall i | 0 <= i < |f|
      ensures GatheredAt(f, p, k + 1, i) <==>
        (GatheredAt(f, p, k, i) || (f[k].parent == p && (i == k || Below(f, i, k))))
    {
    }
  }

  lemma GatheredAll(f: seq<Field>, p: int)
    requires Ordered(f) && 0 <= p < |f|
    ensures Gathered(f, p, |f|) == Descendants(f, p)
  {
    forall i | 0 <= i < |f| ensures GatheredAt(f, p, |f|, i) <==> Below(f, i, p) {
      if Below(f, i, p) {
        BelowOwn(f, i, p);
      }
      if GatheredAt(f, p, |f|, i) {
        var c :| 0 <= c < |f| && f[c].parent == p && (c == i || Below(f, i, c));
        if c != i {
          BelowTrans(f, i, c, p);
        }
      }
    }
  }

  /** Every descendant of a kept field is kept. */
  ghost predicate Closed(f: seq<Field>, keep: set<int>) {
    forall i {:trigger f[i]} :: 0 <= i < |f| && f[i].parent in keep ==> i in keep
  }

  lemma DescendantsClosed(f: seq<Field>, keep: set<int>, p: int)
    requires Ordered(f) && 0 <= p < |f| && Closed(f, keep)
    ensures Closed(f, keep + {p} + Descendants(f, p))
  {
    forall i {:trigger f[i]} | 0 <= i < |f| && f[i].parent in keep + {p} + Descendants(f, p)
      ensures i in keep + {p} + Descendants(f, p)
    {
      if f[i].parent in Descendants(f, p) {
        assert Below(f, i, p);
      }
    }
  }

  // ---- Printing ----

  class Buffer {
    var text: string

    constructor ()
      ensures text == ""
    {
      text := "";
    }

    method WriteString(s: string)
      modifies this
      ensures text == old(text) + s
    {
      text := text + s;
    }
  }

  lemma {:induction false} ListTextAppend(ns: seq<Node>, n: Node)
    ensures ListText(ns + [n]) == ListText(ns) + (if ns == [] then "" else ", ") + Text(n)
  {
    if ns == [] {
      assert ns + [n] == [n];
    } else {
      assert (ns + [n])[1..] == ns[1..] + [n];
      ListTextAppend(ns[1..], n);
    }
  }

  lemma {:induction false} ObjTextAppend(ns: seq<Node>, n: Node)
    ensures ObjText(ns + [n]) == ObjText(ns) + (if ns == [] then "" else ", ") + n.name + ": " + Text(n)
  {
    if ns == [] {
      assert ns + [n] == [n];
    } else {
      assert (ns + [n])[1..] == ns[1..] + [n];
      ObjTextAppend(ns[1..], n);
    }
  }

  lemma {:induction false} ArgsTextAppend(args: seq<Arg>, a: Arg)
    ensures ArgsText(args + [a]) == ArgsText(args) + (if args == [] then "" else ", ") + a.name + ": " + Text(a.val)
  {
    if args == [] {
      assert args + [a] == [a];
    } else {
      assert (args + [a])[1..] == args[1..] + [a];
      ArgsTextAppend(args[1..], a);
    }
  }

  method WriteNode(buf: Buffer, n: Node)
    modifies buf
    ensures buf.text == old(buf.text) + Text(n)
    decreases n
  {
    match n.kind
    case NodeStr =>
      buf.WriteString("\"");
      buf.WriteString(EscapeQuotes(n.val));
      buf.WriteString("\"");
    case NodeVar =>
      buf.WriteString("$");
      buf.WriteString(n.val);
    case NodeList =>
      buf.WriteString("[");
      WriteItems(buf, n, n.children);
      buf.WriteString("]");
    case NodeObj =>
      buf.WriteString("{");
      WriteMembers(buf, n, n.children);
      buf.WriteString("}");
    case _ =>
      buf.WriteString(n.val);
  }

  method WriteItems(buf: Buffer, ghost parent: Node, children: seq<Node>)
    requires children == parent.children
    modifies buf
    ensures buf.text == old(buf.text) + ListText(children)
    decreases parent, 0
  {
    var i := 0;
    while i < |children|
      invariant 0 <= i <= |children|
      invariant buf.text == old(buf.text) + ListText(children[..i])
    {
      if i > 0 {
        buf.WriteString(", ");
      }
      WriteNode(buf, children[i]);
      ListTextAppend(children[..i], children[i]);
      assert children[..i + 1] == children[..i] + [children[i]];
      i := i + 1;
    }
    assert children[..i] == children;
  }

  method WriteMembers(buf: Buffer, ghost parent: Node, children: seq<Node>)
    requires children == parent.children
    modifies buf
    ensures buf.text == old(buf.text) + ObjText(children)
    decreases parent, 0
  {
    var i := 0;
    while i < |children|
      invariant 0 <= i <= |children|
      invariant buf.text == old(buf.text) + ObjText(children[..i])
    {
      if i > 0 {
        buf.WriteString(", ");
      }
      buf.WriteString(children[i].name);
      buf.WriteString(": ");
      WriteNode(buf, children[i]);
      ObjTextAppend(children[..i], children[i]);
      assert children[..i + 1] == children[..i] + [children[i]];
      i := i + 1;
    }
    assert children[..i] == children;
  }

  method WriteArgs(buf: Buffer, args: seq<Arg>)
    modifies buf
    ensures buf.text == old(buf.text) + ArgsText(args)
  {
    var i := 0;
    while i < |args|
      invariant 0 <= i <= |args|
      invariant buf.text == old(buf.text) + ArgsText(args[..i])
    {
      if i > 0 {
        buf.WriteString(", ");
      }
      buf.WriteString(args[i].name);
      buf.WriteString(": ");
      WriteNode(buf, args[i].val);
      ArgsTextAppend(args[..i], args[i]);
      assert args[..i + 1] == args[..i] + [args[i]];
      i := i + 1;
    }
    assert args[..i] == args;
  }

  method WriteHeader(buf: Buffer, h: Header)
    modifies buf
    ensures buf.text == old(buf.text) + HeaderText(h)
  {
    if h.alias != "" {
      buf.WriteString(h.alias);
      buf.WriteString(": ");
    }
    buf.WriteString(h.name);
    if |h.args| > 0 {
      buf.WriteString("(");
      WriteArgs(buf, h.args);
      buf.WriteString(")");
    }
  }

  /** The trees of the kept children of p in front of position k, each without what is not kept below it. */
  ghost function Kept(f: seq<Field>, p: int, keep: set<int>, k: nat): seq<Tree>
    requires Ordered(f) && -1 <= p < |f| && k <= |f|
    decreases |f| - p, 0, k
  {
    if k == 0 then []
    else Kept(f, p, keep, k - 1) + if f[k - 1].parent == p && k - 1 in keep then [Pruned(f, k - 1, keep)] else []
  }

  /** The tree of field i without what is not kept. */
  ghost function Pruned(f: seq<Field>, i: int, keep: set<int>): Tree
    requires Ordered(f) && 0 <= i < |f|
    decreases |f| - i, 1, 0
  {
    Tree(f[i].header, Kept(f, i, keep, |f|))
  }

  lemma {:induction false} TreesTextAppend(ts: seq<Tree>, t: Tree)
    ensures TreesText(ts + [t]) == TreesText(ts) + (if ts == [] then "" else " ") + TreeText(t)
  {
    if ts == [] {
      assert ts + [t] == [t];
    } else {
      assert (ts + [t])[1..] == ts[1..] + [t];
      TreesTextAppend(ts[1..], t);
    }
  }

  lemma {:induction false} KeptBelow(f: seq<Field>, p: int, keep: set<int>, k: nat)
    requires Ordered(f) && Closed(f, keep) && p in keep && 0 <= p < |f| && k <= |f|
    ensures forall j {:trigger Kids(f[..k], p)[j]} :: 0 <= j < |Kids(f[..k], p)| ==> 0 <= Kids(f[..k], p)[j] < |f|
    ensures Kept(f, p, keep, k) == TreesAt(f, Kids(f[..k], p))
    decreases |f| - p, 0, k
  {
    if k > 0 {
      KeptBelow(f, p, keep, k - 1);
      assert f[..k][..k - 1] == f[..k - 1];
      var ids := Kids(f[..k - 1], p);
      if f[k - 1].parent == p {
        PrunedIsTree(f, k - 1, keep);
        assert TreesAt(f, ids + [k - 1]) == TreesAt(f, ids) + [TreeAt(f, k - 1)];
      }
    }
  }

  /** Where everything below a kept field is kept, nothing is missing from its tree. */
  lemma {:induction false} PrunedIsTree(f: seq<Field>, i: int, keep: set<int>)
    requires Ordered(f) && Closed(f, keep) && i in keep && 0 <= i < |f|
    ensures Pruned(f, i, keep) == TreeAt(f, i)
    decreases |f| - i, 1, 0
  {
    KeptBelow(f, i, keep, |f|);
    assert f[..|f|] == f;
  }

  method HasChildren(f: seq<Field>, p: int, keep: set<int>) returns (r: bool)
    requires Ordered(f) && -1 <= p < |f|
    ensures r == (Kept(f, p, keep, |f|) != [])
  {
    r := false;
    var k := 0;
    while k < |f|
      invariant 0 <= k <= |f|
      invariant r == (Kept(f, p, keep, k) != [])
    {
      if f[k].parent == p && k in keep {
        KeptGrows(f, p, keep, k + 1);
        return true;
      }
      k := k + 1;
    }
  }

  lemma {:induction false} KeptGrows(f: seq<Field>, p: int, keep: set<int>, k: nat)
    requires Ordered(f) && -1 <= p < |f| && k <= |f|
    ensures |Kept(f, p, keep, k)| <= |Kept(f, p, keep, |f|)|
    decreases |f| - k
  {
    if k < |f| {
      KeptGrows(f, p, keep, k + 1);
    }
  }

  lemma Joined(a: string, b: string, c: string, d: string, before: string, after: string)
    requires before == a + b && after == (if c == "" then before else before + c) + d
    ensures after == a + (b + c + d)
  {
  }

  /** Prints the kept children of parent, each with what is kept below it. */
  method WriteFields(buf: Buffer, f: seq<Field>, parent: int, keep: set<int>)
    requires Forest(f) && -1 <= parent < |f|
    modifies buf
    ensures buf.text == old(buf.text) + TreesText(Kept(f, parent, keep, |f|))
    decreases |f| - parent, 0, 0
  {
    var first := true;
    var k := 0;
    while k < |f|
      invariant 0 <= k <= |f|
      invariant first == (Kept(f, parent, keep, k) == [])
      invariant buf.text == old(buf.text) + TreesText(Kept(f, parent, keep, k))
    {
      ghost var done := Kept(f, parent, keep, k);
      if f[k].parent != parent || k !in keep {
        assert Kept(f, parent, keep, k + 1) == done;
        k := k + 1;
        continue;
      }
      ghost var before := buf.text;
      if !first {
        buf.WriteString(" ");
      }
      first := false;
      WriteField(buf, f, k, keep);
      TreesTextAppend(done, Pruned(f, k, keep));
      assert Kept(f, parent, keep, k + 1) == done + [Pruned(f, k, keep)];
      Joined(old(buf.text), TreesText(done), if done == [] then "" else " ", TreeText(Pruned(f, k, keep)), before, buf.text);
      assert buf.text == old(buf.text) + TreesText(Kept(f, parent, keep, k + 1));
      k := k + 1;
    }
  }

  method WriteField(buf: Buffer, f: seq<Field>, i: int, keep: set<int>)
    requires Forest(f) && 0 <= i < |f|
    modifies buf
    ensures buf.text == old(buf.text) + TreeText(Pruned(f, i, keep))
    decreases |f| - i, 1
  {
    ghost var before := buf.text;
    WriteHeader(buf, f[i].header);
    var hasChildren := HasChildren(f, i, keep);
    ghost var block := Kept(f, i, keep, |f|);
    if hasChildren {
      WriteBlock(buf, f, i, keep);
    }
    TreeWritten(before, f[i].header, block, buf.text, Pruned(f, i, keep));
  }

  lemma TreeWritten(before: string, h: Header, kids: seq<Tree>, after: string, t: Tree)
    requires t == Tree(h, kids)
    requires after == before + HeaderText(h) + (if kids == [] then "" else " { " + TreesText(kids) + " }")
    ensures after == before + TreeText(t)
  {
  }

  method WriteBlock(buf: Buffer, f: seq<Field>, i: int, keep: set<int>)
    requires Forest(f) && 0 <= i < |f|
    modifies buf
    ensures buf.text == old(buf.text) + (" { " + TreesText(Kept(f, i, keep, |f|)) + " }")
    decreases |f| - i, 0, 1
  {
    buf.WriteString(" { ");
    WriteFields(buf, f, i, keep);
    buf.WriteString(" }");
  }
}
