/**
 The filter compiler: a stack of payload nodes from which an expression graph
 is built in place. Expressions are objects that the stack still refers to
 while their children are appended, so they live in a store and are named by
 their index in it.
 */
module FilterCompiler {
  import opened Common
  import opened Expressions

  datatype Kind = StrKind | NumKind | BoolKind | VarKind | LabelKind | ObjKind | ListKind

  /** A node of the parsed filter. List elements have no name. */
  datatype Node = PayloadNode(kind: Kind, name: string, val: string, children: seq<Node>)

  /** The columns of the table, each with whether it is an array. */
  type Columns = map<string, bool>

  datatype Operator =
    | EqualsOp | NotEqualsOp | GreaterThanOp | LesserThanOp | GreaterOrEqualsOp | LesserOrEqualsOp
    | InOp | NotInOp | LikeOp | NotLikeOp | ILikeOp | NotILikeOp | SimilarOp | NotSimilarOp
    | RegexOp | NotRegexOp | IRegexOp | NotIRegexOp | ContainsOp | ContainedInOp | HasInCommonOp
    | HasKeyOp | HasKeyAnyOp | HasKeyAllOp | IsNullOp | NotDistinctOp | DistinctOp

  /** A comparison of a column with an operand. */
  datatype Leaf = Leaf(col: string, op: Operator, operand: Node)

  // ---- One node ----

  function Unprefixed(name: string): string {
    if name != "" && name[0] == '_' then name[1..] else name
  }

  function BoolOpOf(name: string): Option<BoolOp> {
    match Unprefixed(name)
    case "and" => Some(OpAnd)
    case "or" => Some(OpOr)
    case "not" => Some(OpNot)
    case _ => None
  }

  function OperatorOf(name: string, isArray: bool): Option<Operator> {
    var n := Unprefixed(name);
    if n in {"eq", "equals"} then Some(EqualsOp)
    else if n in {"neq", "notEquals", "not_equals"} then Some(NotEqualsOp)
    else if n in {"gt", "greaterThan", "greater_than"} then Some(GreaterThanOp)
    else if n in {"lt", "lesserThan", "lesser_than"} then Some(LesserThanOp)
    else if n in {"gte", "gteq", "greaterOrEquals", "greater_or_equals"} then Some(GreaterOrEqualsOp)
    else if n in {"lte", "lteq", "lesserOrEquals", "lesser_or_equals"} then Some(LesserOrEqualsOp)
    else if n == "in" then Some(if isArray then HasInCommonOp else InOp)
    else if n in {"nin", "notIn", "not_in"} then Some(NotInOp)
    else if n == "like" then Some(LikeOp)
    else if n in {"nlike", "notLike", "not_like"} then Some(NotLikeOp)
    else if n in {"ilike", "iLike"} then Some(ILikeOp)
    else if n in {"nilike", "notILike", "not_ilike"} then Some(NotILikeOp)
    else if n == "similar" then Some(SimilarOp)
    else if n in {"nsimilar", "notSimiliar", "not_similar"} then Some(NotSimilarOp)
    else if n == "regex" then Some(RegexOp)
    else if n in {"nregex", "notRegex", "not_regex"} then Some(NotRegexOp)
    else if n == "iregex" then Some(IRegexOp)
    else if n in {"niregex", "notIRegex", "not_iregex"} then Some(NotIRegexOp)
    else if n == "contains" then Some(ContainsOp)
    else if n in {"containedIn", "contained_in"} then Some(ContainedInOp)
    else if n in {"hasInCommon", "has_in_common"} then Some(HasInCommonOp)
    else if n in {"hasKey", "has_key"} then Some(HasKeyOp)
    else if n in {"hasKeyAny", "has_key_any"} then Some(HasKeyAnyOp)
    else if n in {"hasKeyAll", "has_key_all"} then Some(HasKeyAllOp)
    else if n in {"isNull", "is_null"} then Some(IsNullOp)
    else if n in {"notDistinct", "ndis", "not_distinct"} then Some(NotDistinctOp)
    else if n in {"dis", "distinct"} then Some(DistinctOp)
    else None
  }

  /** Values an operator accepts; labels and objects are refused. */
  predicate ValueKind(k: Kind) {
    k in {StrKind, NumKind, BoolKind, ListKind, VarKind}
  }

  /** The operand names a column: `{ col: name }`. */
  predicate IsColumnRef(n: Node) {
    && n.kind == ObjKind && |n.children| == 1
    && Lower(n.children[0].name) == "col" && n.children[0].kind in {StrKind, LabelKind}
  }

  predicate AcceptsColumnRef(op: Operator) {
    op !in {InOp, NotInOp, ContainsOp, ContainedInOp, HasInCommonOp, HasKeyOp, HasKeyAnyOp, HasKeyAllOp, IsNullOp}
  }

  predicate OperandOk(cols: Columns, op: Operator, n: Node) {
    if IsColumnRef(n) then AcceptsColumnRef(op) && n.children[0].val in cols else ValueKind(n.kind)
  }

  /** What a node is: a group of nodes of the operator above, an operator over nodes, a comparison, or an error. */
  datatype Meaning = Group(nodes: seq<Node>) | Operation(op: BoolOp, nodes: seq<Node>) | Comparison(leaf: Leaf) | Invalid

  /** A list element as a filter on the column: only the first key of an object is taken. */
  function Attached(column: Node, v: Node): Node {
    column.(children := [if v.name == "" && v.children != [] then v.children[0] else v])
  }

  function OperationOn(op: BoolOp, nodes: seq<Node>): Meaning {
    if nodes == [] || (op != OpNot && |nodes| == 1) then Invalid else Operation(op, nodes)
  }

  function Classify(cols: Columns, n: Node): Meaning {
    if n.name == "" then Group(n.children)
    else if BoolOpOf(n.name).Some? then OperationOn(BoolOpOf(n.name).value, n.children)
    else if n.name !in cols then Invalid
    else
      match n.kind
      case ObjKind =>
        if |n.children| != 1 then Invalid
        else
          var vn := n.children[0];
          var op := OperatorOf(vn.name, cols[n.name]);
          if op.Some? then
            if OperandOk(cols, op.value, vn) then Comparison(Leaf(n.name, op.value, vn)) else Invalid
          else if BoolOpOf(vn.name).Some? then
            OperationOn(BoolOpOf(vn.name).value,
                        seq(|vn.children|, i requires 0 <= i < |vn.children| => Attached(n, vn.children[i])))
          else Invalid
      case ListKind =>
        if n.children == [] then Invalid
        else Comparison(Leaf(n.name, if cols[n.name] then HasInCommonOp else InOp, n))
      case _ =>
        if cols[n.name] then Comparison(Leaf(n.name, HasInCommonOp, n))
        else if ValueKind(n.kind) then Comparison(Leaf(n.name, EqualsOp, n))
        else Invalid
  }

  function Below(m: Meaning): seq<Node> {
    if m.Group? || m.Operation? then m.nodes else []
  }

  // ---- Depth ----

  function Depth(n: Node): nat
    decreases n, 0
  {
    1 + MaxDepth(n.children)
  }

  function MaxDepth(ns: seq<Node>): nat
    decreases ns, |ns|
  {
    if ns == [] then 0 else
      var d, r := Depth(ns[0]), MaxDepth(ns[1..]);
      if d >= r then d else r
  }

  lemma {:induction false} MaxDepthBounds(ns: seq<Node>, n: Node)
    requires n in ns
    ensures Depth(n) <= MaxDepth(ns)
    decreases |ns|
  {
    if n != ns[0] {
      MaxDepthBounds(ns[1..], n);
    }
  }

  lemma AttachedDepth(column: Node, v: Node)
    ensures Depth(Attached(column, v)) <= 1 + Depth(v)
  {
    var c := if v.name == "" && v.children != [] then v.children[0] else v;
    assert MaxDepth([c]) == Depth(c) by { assert [c][1..] == []; }
    if c != v {
      MaxDepthBounds(v.children, c);
    }
  }

  /** What a node pushes is less deep than the node. */
  lemma BelowShallower(cols: Columns, n: Node)
    ensures forall c <- Below(Classify(cols, n)) :: Depth(c) < Depth(n)
  {
    forall c | c in Below(Classify(cols, n)) ensures Depth(c) < Depth(n) {
      if n.name == "" || BoolOpOf(n.name).Some? {
        MaxDepthBounds(n.children, c);
      } else {
        var vn := n.children[0];
        var i :| 0 <= i < |vn.children| && c == Attached(n, vn.children[i]);
        AttachedDepth(n, vn.children[i]);
        MaxDepthBounds(vn.children, vn.children[i]);
        MaxDepthBounds(n.children, vn);
      }
    }
  }

  // ---- The tree a filter stands for ----

  datatype Tree = Test(leaf: Leaf) | Combine(op: BoolOp, subs: seq<Tree>)

  /** The named nodes of a node: itself, or those of the group it is. */
  function Flat(cols: Columns, n: Node): seq<Node>
    decreases Depth(n), 0
  {
    BelowShallower(cols, n);
    if Classify(cols, n).Group? then FlatAll(cols, n.children) else [n]
  }

  function FlatAll(cols: Columns, ns: seq<Node>): seq<Node>
    decreases MaxDepth(ns), |ns|
  {
    if ns == [] then [] else Flat(cols, ns[0]) + FlatAll(cols, ns[1..])
  }

  lemma {:induction false} FlatAllAppend(cols: Columns, a: seq<Node>, b: seq<Node>)
    ensures FlatAll(cols, a + b) == FlatAll(cols, a) + FlatAll(cols, b)
    decreases |a|
  {
    if a == [] {
      assert a + b == b;
    } else {
      assert (a + b)[1..] == a[1..] + b;
      FlatAllAppend(cols, a[1..], b);
    }
  }

  lemma {:induction false} FlatShallow(cols: Columns, n: Node)
    ensures forall m <- Flat(cols, n) :: Depth(m) <= Depth(n) && !Classify(cols, m).Group?
    decreases Depth(n), 0
  {
    BelowShallower(cols, n);
    if Classify(cols, n).Group? {
      FlatAllShallow(cols, n.children);
    }
  }

  lemma {:induction false} FlatAllShallow(cols: Columns, ns: seq<Node>)
    ensures forall m <- FlatAll(cols, ns) :: Depth(m) <= MaxDepth(ns) && !Classify(cols, m).Group?
    decreases MaxDepth(ns), |ns|
  {
    if ns != [] {
      FlatShallow(cols, ns[0]);
      FlatAllShallow(cols, ns[1..]);
    }
  }

  /** No node that is reached is invalid. */
  predicate Good(cols: Columns, n: Node)
    decreases Depth(n)
  {
    BelowShallower(cols, n);
    !Classify(cols, n).Invalid? && forall c <- Below(Classify(cols, n)) :: Good(cols, c)
  }

  /** How many nodes are visited below and including a node. */
  function Visits(cols: Columns, n: Node): nat
    decreases Depth(n), 0
  {
    BelowShallower(cols, n);
    BelowMaxDepth(cols, n);
    1 + AllVisits(cols, Below(Classify(cols, n)))
  }

  function AllVisits(cols: Columns, ns: seq<Node>): nat
    decreases MaxDepth(ns), |ns|
  {
    if ns == [] then 0 else Visits(cols, ns[0]) + AllVisits(cols, ns[1..])
  }

  lemma BelowMaxDepth(cols: Columns, n: Node)
    ensures MaxDepth(Below(Classify(cols, n))) < Depth(n)
  {
    BelowShallower(cols, n);
    MaxDepthBelow(Below(Classify(cols, n)), Depth(n));
  }

  lemma {:induction false} MaxDepthBelow(ns: seq<Node>, d: nat)
    requires forall c <- ns :: Depth(c) < d
    ensures d > 0 ==> MaxDepth(ns) < d
    decreases |ns|
  {
    if ns != [] {
      assert ns[0] in ns && forall c <- ns[1..] :: c in ns;
      MaxDepthBelow(ns[1..], d);
    }
  }

  lemma {:induction false} AllVisitsAppend(cols: Columns, a: seq<Node>, b: seq<Node>)
    ensures AllVisits(cols, a + b) == AllVisits(cols, a) + AllVisits(cols, b)
    decreases |a|
  {
    if a == [] {
      assert a + b == b;
    } else {
      assert (a + b)[1..] == a[1..] + b;
      AllVisitsAppend(cols, a[1..], b);
    }
  }

  /** The tree of a named node. */
  function TreeOf(cols: Columns, n: Node): Tree
    decreases Depth(n), 0
  {
    match Classify(cols, n)
    case Comparison(leaf) => Test(leaf)
    case Operation(op, nodes) =>
      BelowMaxDepth(cols, n);
      FlatAllMaxDepth(cols, nodes);
      Combine(op, TreesOf(cols, FlatAll(cols, nodes)))
    case _ => Combine(OpAnd, [])
  }

  /** The trees of named nodes in the order the stack yields them: the last one first. */
  function TreesOf(cols: Columns, ns: seq<Node>): (ts: seq<Tree>)
    ensures |ts| == |ns|
    decreases MaxDepth(ns), |ns|
  {
    if ns == [] then [] else TreesOf(cols, ns[1..]) + [TreeOf(cols, ns[0])]
  }

  lemma FlatAllMaxDepth(cols: Columns, ns: seq<Node>)
    ensures MaxDepth(FlatAll(cols, ns)) <= MaxDepth(ns)
  {
    FlatAllShallow(cols, ns);
    MaxDepthBelow(FlatAll(cols, ns), MaxDepth(ns) + 1);
  }

  lemma {:induction false} TreesOfAppend(cols: Columns, a: seq<Node>, b: seq<Node>)
    ensures TreesOf(cols, a + b) == TreesOf(cols, b) + TreesOf(cols, a)
    decreases |a|
  {
    if a == [] {
      assert a + b == b;
    } else {
      assert (a + b)[1..] == a[1..] + b;
      TreesOfAppend(cols, a[1..], b);
    }
  }

  /** Conditions at the top are joined pairwise, from the left. */
  function Chain(ts: seq<Tree>): Tree
    requires ts != []
  {
    if |ts| == 1 then ts[0] else Combine(OpAnd, [Chain(ts[..|ts| - 1]), ts[|ts| - 1]])
  }

  /** The expression of a whole filter; none when it holds no condition. */
  function Expected(cols: Columns, n: Node): seq<Tree> {
    TreesOf(cols, Flat(cols, n))
  }

  // ---- The store ----

  /** An expression object: a comparison, or an operator with its children so far. */
  datatype Cell = LeafCell(leaf: Leaf) | OpCell(op: BoolOp, kids: seq<nat>)

  /** A stack entry: a node, and the expression its own expression is a child of. */
  datatype Item = Item(exp: Option<nat>, node: Node)

  /** The named nodes that wait on the stack to become children of `exp`, from bottom to top. */
  function Pending(cols: Columns, stack: seq<Item>, exp: Option<nat>): seq<Node>
    decreases |stack|
  {
    if stack == [] then []
    else (if stack[0].exp == exp then Flat(cols, stack[0].node) else []) + Pending(cols, stack[1..], exp)
  }

  lemma {:induction false} PendingAppend(cols: Columns, a: seq<Item>, b: seq<Item>, exp: Option<nat>)
    ensures Pending(cols, a + b, exp) == Pending(cols, a, exp) + Pending(cols, b, exp)
    decreases |a|
  {
    if a == [] {
      assert a + b == b;
    } else {
      assert (a + b)[1..] == a[1..] + b;
      PendingAppend(cols, a[1..], b, exp);
    }
  }

  function Pushed(nodes: seq<Node>, exp: Option<nat>): seq<Item> {
    seq(|nodes|, i requires 0 <= i < |nodes| => Item(exp, nodes[i]))
  }

  lemma {:induction false} PendingPushed(cols: Columns, nodes: seq<Node>, exp: Option<nat>, e: Option<nat>)
    ensures Pending(cols, Pushed(nodes, exp), e) == if e == exp then FlatAll(cols, nodes) else []
    decreases |nodes|
  {
    if nodes != [] {
      assert Pushed(nodes, exp)[1..] == Pushed(nodes[1..], exp);
      PendingPushed(cols, nodes[1..], exp, e);
    }
  }

  /** With what is pending on the stack, the expression object becomes the tree t. */
  predicate Denotes(cols: Columns, store: seq<Cell>, stack: seq<Item>, i: nat, t: Tree)
    decreases t
  {
    && i < |store|
    && match t
       case Test(leaf) => store[i] == LeafCell(leaf)
       case Combine(op, subs) =>
         && store[i].OpCell? && store[i].op == op
         && |store[i].kids| <= |subs|
         && subs[|store[i].kids|..] == TreesOf(cols, Pending(cols, stack, Some(i)))
         && forall k | 0 <= k < |store[i].kids| :: Denotes(cols, store, stack, store[i].kids[k], subs[k])
  }

  /** The finished expression object is the tree t. */
  predicate Represents(store: seq<Cell>, i: nat, t: Tree)
    decreases t
  {
    && i < |store|
    && match t
       case Test(leaf) => store[i] == LeafCell(leaf)
       case Combine(op, subs) =>
         && store[i].OpCell? && store[i].op == op && |store[i].kids| == |subs|
         && forall k | 0 <= k < |subs| :: Represents(store, store[i].kids[k], subs[k])
  }

  lemma {:induction false} DenotesDone(cols: Columns, store: seq<Cell>, i: nat, t: Tree)
    requires Denotes(cols, store, [], i, t)
    ensures Represents(store, i, t)
    decreases t
  {
    if t.Combine? {
      forall k | 0 <= k < |t.subs| ensures Represents(store, store[i].kids[k], t.subs[k]) {
        DenotesDone(cols, store, store[i].kids[k], t.subs[k]);
      }
    }
  }

  /** A node that groups others is replaced by them: nothing changes. */
  lemma {:induction false} DenotesUngrouped(cols: Columns, store: seq<Cell>, rest: seq<Item>, p: Item, i: nat, t: Tree)
    requires Classify(cols, p.node).Group? && Denotes(cols, store, rest + [p], i, t)
    ensures Denotes(cols, store, rest + Pushed(p.node.children, p.exp), i, t)
    decreases t
  {
    PendingUngrouped(cols, rest, p, Some(i));
    if t.Combine? {
      forall k | 0 <= k < |store[i].kids|
        ensures Denotes(cols, store, rest + Pushed(p.node.children, p.exp), store[i].kids[k], t.subs[k])
      {
        DenotesUngrouped(cols, store, rest, p, store[i].kids[k], t.subs[k]);
      }
    }
  }

  lemma PendingUngrouped(cols: Columns, rest: seq<Item>, p: Item, e: Option<nat>)
    requires Classify(cols, p.node).Group?
    ensures Pending(cols, rest + Pushed(p.node.children, p.exp), e) == Pending(cols, rest + [p], e)
  {
    PendingAppend(cols, rest, [p], e);
    PendingAppend(cols, rest, Pushed(p.node.children, p.exp), e);
    PendingPushed(cols, p.node.children, p.exp, e);
    PendingOne(cols, p, e);
  }

  lemma PendingOne(cols: Columns, p: Item, e: Option<nat>)
    ensures Pending(cols, [p], e) == if p.exp == e then Flat(cols, p.node) else []
  {
    assert Pending(cols, [p][1..], e) == [];
  }

  /** The store after the expression of a named node has been made and hooked under its parent. */
  function Hooked(store: seq<Cell>, parent: Option<nat>, cell: Cell): seq<Cell>
    requires parent.Some? ==> parent.value < |store| && store[parent.value].OpCell?
  {
    (if parent.Some? then store[parent.value := store[parent.value].(kids := store[parent.value].kids + [|store|])] else store)
    + [cell]
  }

  /** The node has an expression of its own. */
  predicate Expresses(m: Meaning) {
    m.Operation? || m.Comparison?
  }

  function CellOf(m: Meaning): Cell
    requires Expresses(m)
  {
    if m.Operation? then OpCell(m.op, []) else LeafCell(m.leaf)
  }

  lemma PendingNamed(cols: Columns, rest: seq<Item>, p: Item, j: nat, e: Option<nat>)
    requires !Classify(cols, p.node).Group? && e != Some(j)
    ensures Pending(cols, rest + [p], e) == Pending(cols, rest + Pushed(Below(Classify(cols, p.node)), Some(j)), e)
                                             + if e == p.exp then [p.node] else []
  {
    PendingAppend(cols, rest, [p], e);
    PendingOne(cols, p, e);
    PendingAppend(cols, rest, Pushed(Below(Classify(cols, p.node)), Some(j)), e);
    PendingPushed(cols, Below(Classify(cols, p.node)), Some(j), e);
  }

  lemma {:induction false} NothingPending(cols: Columns, stack: seq<Item>, e: Option<nat>)
    requires forall x <- stack :: x.exp != e
    ensures Pending(cols, stack, e) == []
    decreases |stack|
  {
    if stack != [] {
      assert stack[0] in stack;
      NothingPending(cols, stack[1..], e);
    }
  }

  predicate RefsOk(store: seq<Cell>, stack: seq<Item>) {
    forall x <- stack :: x.exp.Some? ==> x.exp.value < |store| && store[x.exp.value].OpCell?
  }

  /** The new expression object denotes the tree of its node. */
  lemma NewDenotes(cols: Columns, store: seq<Cell>, rest: seq<Item>, p: Item)
    requires RefsOk(store, rest + [p]) && Expresses(Classify(cols, p.node))
    ensures var m := Classify(cols, p.node);
      p in rest + [p]
      && Denotes(cols, Hooked(store, p.exp, CellOf(m)), rest + Pushed(Below(m), Some(|store|)), |store|, TreeOf(cols, p.node))
  {
    var m, j := Classify(cols, p.node), |store|;
    assert p in rest + [p];
    var store', stack' := Hooked(store, p.exp, CellOf(m)), rest + Pushed(Below(m), Some(j));
    assert store'[j] == CellOf(m);
    if m.Operation? {
      PendingOfNew(cols, store, rest, p, m.nodes);
      var subs := TreesOf(cols, FlatAll(cols, m.nodes));
      assert subs[0..] == subs;
      assert TreeOf(cols, p.node) == Combine(m.op, subs);
    } else {
      assert TreeOf(cols, p.node) == Test(m.leaf);
    }
  }

  lemma PendingOfNew(cols: Columns, store: seq<Cell>, rest: seq<Item>, p: Item, nodes: seq<Node>)
    requires RefsOk(store, rest + [p])
    ensures Pending(cols, rest + Pushed(nodes, Some(|store|)), Some(|store|)) == FlatAll(cols, nodes)
  {
    var j := |store|;
    PendingAppend(cols, rest, Pushed(nodes, Some(j)), Some(j));
    forall x | x in rest ensures x.exp != Some(j) { assert x in rest + [p]; }
    NothingPending(cols, rest, Some(j));
    PendingPushed(cols, nodes, Some(j), Some(j));
  }

  /** Every other expression object still becomes the tree it was to become. */
  lemma {:induction false} OthersDenote(cols: Columns, store: seq<Cell>, rest: seq<Item>, p: Item, i: nat, t: Tree)
    requires RefsOk(store, rest + [p]) && Expresses(Classify(cols, p.node))
    requires Denotes(cols, store, rest + [p], i, t)
    ensures var m := Classify(cols, p.node);
      p in rest + [p] && Denotes(cols, Hooked(store, p.exp, CellOf(m)), rest + Pushed(Below(m), Some(|store|)), i, t)
    decreases t
  {
    assert p in rest + [p];
    var m, j := Classify(cols, p.node), |store|;
    var store', stack' := Hooked(store, p.exp, CellOf(m)), rest + Pushed(Below(m), Some(j));
    if t.Combine? {
      PendingNamed(cols, rest, p, j, Some(i));
      var kids, n := store[i].kids, |store[i].kids|;
      forall k | 0 <= k < n ensures Denotes(cols, store', stack', kids[k], t.subs[k]) {
        OthersDenote(cols, store, rest, p, kids[k], t.subs[k]);
      }
      if p.exp == Some(i) {
        assert store'[i].kids == kids + [j] && store'[i].op == store[i].op;
        TreesOfAppend(cols, Pending(cols, stack', Some(i)), [p.node]);
        TreesOfOne(cols, p.node);
        assert t.subs[n] == t.subs[n..][0] == TreeOf(cols, p.node);
        assert t.subs[n + 1..] == t.subs[n..][1..];
        NewDenotes(cols, store, rest, p);
      } else {
        assert Pending(cols, stack', Some(i)) + [] == Pending(cols, stack', Some(i));
      }
    }
  }

  lemma TreesOfOne(cols: Columns, n: Node)
    ensures TreesOf(cols, [n]) == [TreeOf(cols, n)]
  {
    assert TreesOf(cols, [n][1..]) == [];
  }

  // ---- The worklist ----

  lemma {:induction false} DenotesExtended(cols: Columns, store: seq<Cell>, cell: Cell, stack: seq<Item>, i: nat, t: Tree)
    requires Denotes(cols, store, stack, i, t)
    ensures Denotes(cols, store + [cell], stack, i, t)
    decreases t
  {
    if t.Combine? {
      forall k | 0 <= k < |store[i].kids| ensures Denotes(cols, store + [cell], stack, store[i].kids[k], t.subs[k]) {
        DenotesExtended(cols, store, cell, stack, store[i].kids[k], t.subs[k]);
      }
    }
  }

  /** The expressions of the top conditions made so far, and the ones still to come from the stack. */
  ghost predicate TopOk(cols: Columns, store: seq<Cell>, stack: seq<Item>, tops: seq<nat>, all: seq<Tree>) {
    && |tops| <= |all|
    && all[|tops|..] == TreesOf(cols, Pending(cols, stack, None))
    && forall k | 0 <= k < |tops| :: Denotes(cols, store, stack, tops[k], all[k])
  }

  /** The root joins the top expressions pairwise; `joins` are the objects that do so. */
  ghost predicate Joins(store: seq<Cell>, root: nat, tops: seq<nat>, joins: set<nat>)
    decreases |tops|
  {
    && tops != []
    && if |tops| == 1 then root == tops[0]
       else
         && root in joins && root < |store|
         && store[root].OpCell? && store[root].op == OpAnd && |store[root].kids| == 2
         && store[root].kids[1] == tops[|tops| - 1]
         && Joins(store, store[root].kids[0], tops[..|tops| - 1], joins)
  }

  lemma {:induction false} JoinsKept(store: seq<Cell>, store': seq<Cell>, root: nat, tops: seq<nat>, joins: set<nat>, joins': set<nat>)
    requires Joins(store, root, tops, joins) && joins <= joins'
    requires |store| <= |store'| && forall c <- joins :: c < |store| ==> store'[c] == store[c]
    ensures Joins(store', root, tops, joins')
    decreases |tops|
  {
    if |tops| > 1 {
      JoinsKept(store, store', store[root].kids[0], tops[..|tops| - 1], joins, joins');
    }
  }

  lemma {:induction false} JoinsRepresent(store: seq<Cell>, root: nat, tops: seq<nat>, joins: set<nat>, ts: seq<Tree>)
    requires Joins(store, root, tops, joins) && |ts| == |tops|
    requires forall k | 0 <= k < |tops| :: Represents(store, tops[k], ts[k])
    ensures Represents(store, root, Chain(ts))
    decreases |tops|
  {
    if |tops| > 1 {
      var n := |tops| - 1;
      JoinsRepresent(store, store[root].kids[0], tops[..n], joins, ts[..n]);
      var subs := [Chain(ts[..n]), ts[n]];
      assert Chain(ts) == Combine(OpAnd, subs);
      assert Represents(store, store[root].kids[0], subs[0]) && Represents(store, store[root].kids[1], subs[1]);
    }
  }

  function NodesOf(stack: seq<Item>): seq<Node> {
    seq(|stack|, i requires 0 <= i < |stack| => stack[i].node)
  }

  lemma VisitsDrop(cols: Columns, rest: seq<Item>, p: Item, nodes: seq<Node>, exp: Option<nat>)
    requires nodes == Below(Classify(cols, p.node))
    ensures AllVisits(cols, NodesOf(rest + Pushed(nodes, exp))) < AllVisits(cols, NodesOf(rest + [p]))
  {
    assert NodesOf(rest + [p]) == NodesOf(rest) + [p.node];
    assert NodesOf(rest + Pushed(nodes, exp)) == NodesOf(rest) + nodes;
    AllVisitsAppend(cols, NodesOf(rest), [p.node]);
    AllVisitsAppend(cols, NodesOf(rest), nodes);
    assert AllVisits(cols, [p.node][1..]) == 0;
  }

  ghost predicate StackGood(cols: Columns, stack: seq<Item>) {
    forall x <- stack :: Good(cols, x.node)
  }

  /** The filter is good exactly when all that is left of it on the stack is. */
  lemma GoodSplits(cols: Columns, rest: seq<Item>, p: Item, exp: Option<nat>)
    requires !Classify(cols, p.node).Invalid?
    ensures StackGood(cols, rest + [p]) <==> StackGood(cols, rest + Pushed(Below(Classify(cols, p.node)), exp))
  {
    var nodes := Below(Classify(cols, p.node));
    var a, b := rest + [p], rest + Pushed(nodes, exp);
    if StackGood(cols, a) {
      assert p in a;
      forall x | x in b ensures Good(cols, x.node) {
        assert x in rest ==> x in a;
        if x !in rest { assert x.node in nodes; }
      }
    }
    if StackGood(cols, b) {
      forall c | c in nodes ensures Good(cols, c) {
        var i :| 0 <= i < |nodes| && nodes[i] == c;
        assert Pushed(nodes, exp)[i] == Item(exp, c);
        assert Item(exp, c) in b;
      }
      forall x | x in rest ensures Good(cols, x.node) { assert x in b; }
    }
  }

  /** What the worklist keeps: the finished part and the stack together stand for the whole filter. */
  ghost predicate Working(cols: Columns, all: seq<Tree>, store: seq<Cell>, stack: seq<Item>, root: Option<nat>,
                          tops: seq<nat>, joins: set<nat>)
  {
    && RefsOk(store, stack)
    && TopOk(cols, store, stack, tops, all)
    && (forall x <- stack :: x.exp.Some? ==> x.exp.value !in joins)
    && (forall c <- joins :: c < |store|)
    && (if root.None? then tops == [] && store == [] else Joins(store, root.value, tops, joins))
  }

  lemma WorkingUngrouped(cols: Columns, all: seq<Tree>, store: seq<Cell>, rest: seq<Item>, p: Item, root: Option<nat>,
                         tops: seq<nat>, joins: set<nat>)
    requires Working(cols, all, store, rest + [p], root, tops, joins) && Classify(cols, p.node).Group?
    ensures Working(cols, all, store, rest + Pushed(Below(Classify(cols, p.node)), p.exp), root, tops, joins)
  {
    assert p in rest + [p];
    var stack' := rest + Pushed(p.node.children, p.exp);
    forall x | x in stack' ensures x in rest + [p] || x.exp == p.exp {
    }
    PendingUngrouped(cols, rest, p, None);
    forall k | 0 <= k < |tops| ensures Denotes(cols, store, stack', tops[k], all[k]) {
      DenotesUngrouped(cols, store, rest, p, tops[k], all[k]);
    }
  }

  /** A nested node: its expression is hooked under its parent. */
  lemma WorkingHooked(cols: Columns, all: seq<Tree>, store: seq<Cell>, rest: seq<Item>, p: Item, root: Option<nat>,
                      tops: seq<nat>, joins: set<nat>)
    requires Working(cols, all, store, rest + [p], root, tops, joins) && Expresses(Classify(cols, p.node)) && p.exp.Some?
    ensures var m := Classify(cols, p.node);
      p in rest + [p]
      && Working(cols, all, Hooked(store, p.exp, CellOf(m)), rest + Pushed(Below(m), Some(|store|)), root, tops, joins)
  {
    assert p in rest + [p];
    var m, j := Classify(cols, p.node), |store|;
    var store', stack' := Hooked(store, p.exp, CellOf(m)), rest + Pushed(Below(m), Some(j));
    forall x | x in stack' ensures x.exp.Some? ==> x.exp.value < |store'| && store'[x.exp.value].OpCell? && x.exp.value !in joins {
      HookedRefs(cols, store, rest, p, joins, x);
    }
    PendingNamed(cols, rest, p, j, None);
    assert Pending(cols, stack', None) + [] == Pending(cols, stack', None);
    forall k | 0 <= k < |tops| ensures Denotes(cols, store', stack', tops[k], all[k]) {
      OthersDenote(cols, store, rest, p, tops[k], all[k]);
    }
    JoinsKept(store, store', root.value, tops, joins, joins);
  }

  lemma HookedRefs(cols: Columns, store: seq<Cell>, rest: seq<Item>, p: Item, joins: set<nat>, x: Item)
    requires RefsOk(store, rest + [p]) && Expresses(Classify(cols, p.node))
    requires (forall y <- rest + [p] :: y.exp.Some? ==> y.exp.value !in joins) && (forall c <- joins :: c < |store|)
    requires var m := Classify(cols, p.node);
      x in rest + Pushed(Below(m), Some(|store|))
    ensures p in rest + [p] && (x.exp.Some? ==>
      var store' := Hooked(store, p.exp, CellOf(Classify(cols, p.node)));
      x.exp.value < |store'| && store'[x.exp.value].OpCell? && x.exp.value !in joins)
  {
    assert p in rest + [p];
    if x in rest {
      assert x in rest + [p];
    } else {
      assert x.exp == Some(|store|);
    }
  }

  /** A node at the top: its expression becomes the next one the root joins. */
  lemma WorkingTop(cols: Columns, all: seq<Tree>, store: seq<Cell>, rest: seq<Item>, p: Item, root: Option<nat>,
                   tops: seq<nat>, joins: set<nat>)
    requires Working(cols, all, store, rest + [p], root, tops, joins) && Expresses(Classify(cols, p.node)) && p.exp.None?
    ensures var m, j := Classify(cols, p.node), |store|;
      var store', stack' := store + [CellOf(m)], rest + Pushed(Below(m), Some(j));
      if root.None? then Working(cols, all, store', stack', Some(j), tops + [j], joins)
      else Working(cols, all, store' + [OpCell(OpAnd, [root.value, j])], stack', Some(j + 1), tops + [j], joins + {j + 1})
  {
    assert p in rest + [p];
    var m, j := Classify(cols, p.node), |store|;
    var store', stack' := store + [CellOf(m)], rest + Pushed(Below(m), Some(j));
    assert store' == Hooked(store, p.exp, CellOf(m));
    forall x | x in stack' ensures x.exp.Some? ==> x.exp.value < |store'| && store'[x.exp.value].OpCell? && x.exp.value !in joins {
      HookedRefs(cols, store, rest, p, joins, x);
    }
    TopGrows(cols, all, store, rest, p, tops);
    if root.Some? {
      assert store'[..j] == store;
      WorkingJoined(cols, all, store', stack', root.value, tops, joins, j);
    }
  }

  /** The root is joined with the new top expression. */
  lemma WorkingJoined(cols: Columns, all: seq<Tree>, store: seq<Cell>, stack: seq<Item>, root: nat, tops: seq<nat>,
                      joins: set<nat>, j: nat)
    requires RefsOk(store, stack) && TopOk(cols, store, stack, tops + [j], all)
    requires (forall x <- stack :: x.exp.Some? ==> x.exp.value !in joins) && (forall c <- joins :: c < |store|)
    requires j == |store| - 1 && Joins(store[..j], root, tops, joins)
    ensures Working(cols, all, store + [OpCell(OpAnd, [root, j])], stack, Some(j + 1), tops + [j], joins + {j + 1})
  {
    var join := OpCell(OpAnd, [root, j]);
    var store' := store + [join];
    forall k | 0 <= k < |tops| + 1 ensures Denotes(cols, store', stack, (tops + [j])[k], all[k]) {
      DenotesExtended(cols, store, join, stack, (tops + [j])[k], all[k]);
    }
    JoinsKept(store[..j], store', root, tops, joins, joins + {j + 1});
    assert (tops + [j])[..|tops|] == tops;
  }

  lemma TopGrows(cols: Columns, all: seq<Tree>, store: seq<Cell>, rest: seq<Item>, p: Item, tops: seq<nat>)
    requires RefsOk(store, rest + [p]) && TopOk(cols, store, rest + [p], tops, all)
    requires Expresses(Classify(cols, p.node)) && p.exp.None?
    ensures var m, j := Classify(cols, p.node), |store|;
      TopOk(cols, store + [CellOf(m)], rest + Pushed(Below(m), Some(j)), tops + [j], all)
  {
    var m, j := Classify(cols, p.node), |store|;
    var store', stack' := store + [CellOf(m)], rest + Pushed(Below(m), Some(j));
    assert store' == Hooked(store, p.exp, CellOf(m));
    var n := |tops|;
    PendingNamed(cols, rest, p, j, None);
    TreesOfAppend(cols, Pending(cols, stack', None), [p.node]);
    TreesOfOne(cols, p.node);
    assert all[n] == all[n..][0] == TreeOf(cols, p.node);
    assert all[n + 1..] == all[n..][1..];
    NewDenotes(cols, store, rest, p);
    forall k | 0 <= k < n ensures Denotes(cols, store', stack', tops[k], all[k]) {
      OthersDenote(cols, store, rest, p, tops[k], all[k]);
    }
  }

  /** Makes the expression of a node and hooks it under its parent, or joins it to the root. */
  method Attach(cols: Columns, ghost all: seq<Tree>, store: seq<Cell>, ghost rest: seq<Item>, p: Item, root: Option<nat>,
                ghost tops: seq<nat>, ghost joins: set<nat>)
    returns (store': seq<Cell>, root': Option<nat>, ghost tops': seq<nat>, ghost joins': set<nat>)
    requires Working(cols, all, store, rest + [p], root, tops, joins) && Expresses(Classify(cols, p.node))
    ensures Working(cols, all, store', rest + Pushed(Below(Classify(cols, p.node)), Some(|store|)), root', tops', joins')
  {
    var m, j := Classify(cols, p.node), |store|;
    root', tops', joins' := root, tops, joins;
    assert p in rest + [p];
    if p.exp.Some? {
      WorkingHooked(cols, all, store, rest, p, root, tops, joins);
      var e := p.exp.value;
      store' := store[e := store[e].(kids := store[e].kids + [j])] + [CellOf(m)];
    } else {
      WorkingTop(cols, all, store, rest, p, root, tops, joins);
      store' := store + [CellOf(m)];
      if root.None? {
        root' := Some(j);
      } else {
        store' := store' + [OpCell(OpAnd, [root.value, j])];
        root' := Some(j + 1);
        joins' := joins + {j + 1};
      }
      tops' := tops + [j];
    }
  }

  lemma WorkingStarts(cols: Columns, node: Node)
    ensures Working(cols, Expected(cols, node), [], [Item(None, node)], None, [], {})
    ensures StackGood(cols, [Item(None, node)]) <==> Good(cols, node)
  {
    PendingOne(cols, Item(None, node), None);
    assert Item(None, node) in [Item(None, node)];
    assert Expected(cols, node)[0..] == Expected(cols, node);
  }

  lemma InvalidIsNotGood(cols: Columns, stack: seq<Item>, p: Item)
    requires p in stack && Classify(cols, p.node).Invalid?
    ensures !StackGood(cols, stack)
  {
    assert !Good(cols, p.node);
  }

  /** An empty stack: the graph is finished. */
  lemma WorkingEnds(cols: Columns, all: seq<Tree>, store: seq<Cell>, root: Option<nat>, tops: seq<nat>, joins: set<nat>)
    requires Working(cols, all, store, [], root, tops, joins)
    ensures root.None? <==> all == []
    ensures root.Some? ==> Represents(store, root.value, Chain(all))
  {
    assert all[|tops|..] == [];
    if root.Some? {
      forall k | 0 <= k < |tops| ensures Represents(store, tops[k], all[k]) {
        DenotesDone(cols, store, tops[k], all[k]);
      }
      JoinsRepresent(store, root.value, tops, joins, all);
    }
  }

  /** One visit: the top of the stack is a group, makes an expression, or is invalid. */
  method Visit(cols: Columns, ghost all: seq<Tree>, stack: seq<Item>, store: seq<Cell>, root: Option<nat>,
               ghost tops: seq<nat>, ghost joins: set<nat>)
    returns (valid: bool, stack': seq<Item>, store': seq<Cell>, root': Option<nat>, ghost tops': seq<nat>, ghost joins': set<nat>)
    requires stack != [] && Working(cols, all, store, stack, root, tops, joins)
    ensures !valid ==> !StackGood(cols, stack)
    ensures valid ==> Working(cols, all, store', stack', root', tops', joins')
    ensures valid ==> (StackGood(cols, stack') <==> StackGood(cols, stack))
    ensures valid ==> AllVisits(cols, NodesOf(stack')) < AllVisits(cols, NodesOf(stack))
  {
    var rest, p := stack[..|stack| - 1], stack[|stack| - 1];
    assert stack == rest + [p];
    stack', store', root', tops', joins' := stack, store, root, tops, joins;
    var m := Classify(cols, p.node);
    if m.Invalid? {
      InvalidIsNotGood(cols, stack, p);
      valid := false;
      return;
    }
    valid := true;
    var parent := if m.Group? then p.exp else Some(|store|);
    GoodSplits(cols, rest, p, parent);
    VisitsDrop(cols, rest, p, Below(m), parent);
    stack' := rest + Pushed(Below(m), parent);
    if m.Group? {
      WorkingUngrouped(cols, all, store, rest, p, root, tops, joins);
    } else {
      store', root', tops', joins' := Attach(cols, all, store, rest, p, root, tops, joins);
    }
  }

  /**
   Compiles a filter. It fails exactly when the filter is empty or some node that
   is reached is invalid; otherwise the expression graph is the expected tree.
   */
  method CompileExpNode(cols: Columns, node: Node) returns (ok: bool, root: Option<nat>, store: seq<Cell>)
    ensures ok == (node.children != [] && Good(cols, node))
    ensures ok ==> (root.None? <==> Expected(cols, node) == [])
    ensures ok && root.Some? ==> Represents(store, root.value, Chain(Expected(cols, node)))
  {
    root, store := None, [];
    if node.children == [] { return false, None, []; }
    var stack := [Item(None, node)];
    ghost var all := Expected(cols, node);
    ghost var tops: seq<nat>, joins: set<nat> := [], {};
    WorkingStarts(cols, node);
    while stack != []
      invariant Working(cols, all, store, stack, root, tops, joins)
      invariant StackGood(cols, stack) <==> Good(cols, node)
      decreases AllVisits(cols, NodesOf(stack))
    {
      ok, stack, store, root, tops, joins := Visit(cols, all, stack, store, root, tops, joins);
      if !ok {
        return false, None, [];
      }
    }
    WorkingEnds(cols, all, store, root, tops, joins);
    ok := true;
  }

  // ---- What the tree means ----

  type Truths = Leaf -> Truth

  function EvalTree(t: Tree, truth: Truths): Truth
    decreases t, 0
  {
    match t
    case Test(leaf) => truth(leaf)
    case Combine(OpAnd, subs) => AllTrees(subs, truth)
    case Combine(OpOr, subs) => AnyTree(subs, truth)
    case Combine(OpNot, subs) => if subs == [] then Unknown else NotT(EvalTree(subs[0], truth))
  }

  function AllTrees(ts: seq<Tree>, truth: Truths): Truth
    decreases ts, |ts|
  {
    if ts == [] then True else AndT(EvalTree(ts[0], truth), AllTrees(ts[1..], truth))
  }

  function AnyTree(ts: seq<Tree>, truth: Truths): Truth
    decreases ts, |ts|
  {
    if ts == [] then False else OrT(EvalTree(ts[0], truth), AnyTree(ts[1..], truth))
  }

  lemma {:induction false} TreesAppend(a: seq<Tree>, b: seq<Tree>, truth: Truths)
    ensures AllTrees(a + b, truth) == AndT(AllTrees(a, truth), AllTrees(b, truth))
    ensures AnyTree(a + b, truth) == OrT(AnyTree(a, truth), AnyTree(b, truth))
    decreases |a|
  {
    if a == [] {
      assert a + b == b;
    } else {
      assert (a + b)[1..] == a[1..] + b;
      TreesAppend(a[1..], b, truth);
    }
  }

  lemma OneTree(t: Tree, truth: Truths)
    ensures AllTrees([t], truth) == EvalTree(t, truth) == AnyTree([t], truth)
  {
    assert [t][1..] == [];
  }

  /** Joining conditions pairwise is their conjunction. */
  lemma {:induction false} ChainMeaning(ts: seq<Tree>, truth: Truths)
    requires ts != []
    ensures EvalTree(Chain(ts), truth) == AllTrees(ts, truth)
    decreases |ts|
  {
    var n := |ts| - 1;
    if n == 0 {
      OneTree(ts[0], truth);
      assert ts == [ts[0]];
    } else {
      ChainMeaning(ts[..n], truth);
      assert ts == ts[..n] + [ts[n]];
      TreesAppend(ts[..n], [ts[n]], truth);
      TreesAppend([Chain(ts[..n])], [ts[n]], truth);
      OneTree(Chain(ts[..n]), truth);
      assert [Chain(ts[..n])] + [ts[n]] == [Chain(ts[..n]), ts[n]];
    }
  }

  // ---- The recursive reading of a filter ----

  /** What an operator ranges over: its elements, each a list of conditions that hold together. */
  function Elements(n: Node): seq<seq<Node>> {
    if BoolOpOf(n.name).Some? then seq(|n.children|, i requires 0 <= i < |n.children| => [n.children[i]])
    else if |n.children| != 1 then []
    else
      var vs := n.children[0].children;
      seq(|vs|, i requires 0 <= i < |vs| => Scoped(n, vs[i]))
  }

  /** A list element as conditions on the column: one for every key of an object. */
  function Scoped(column: Node, v: Node): seq<Node> {
    if v.name == "" && v.children != []
    then seq(|v.children|, i requires 0 <= i < |v.children| => column.(children := [v.children[i]]))
    else [column.(children := [v])]
  }

  lemma ElementsShallower(n: Node, e: seq<Node>, c: Node)
    requires e in Elements(n) && c in e
    ensures Depth(c) < Depth(n)
  {
    if BoolOpOf(n.name).Some? {
      MaxDepthBounds(n.children, c);
    } else {
      var vn := n.children[0];
      var i :| 0 <= i < |vn.children| && e == Scoped(n, vn.children[i]);
      var v := vn.children[i];
      MaxDepthBounds(n.children, vn);
      MaxDepthBounds(vn.children, v);
      var x := c.children[0];
      assert MaxDepth([x]) == Depth(x) by { assert [x][1..] == []; }
      if x != v {
        MaxDepthBounds(v.children, x);
      }
    }
  }

  lemma ElementMaxDepth(n: Node, e: seq<Node>)
    requires e in Elements(n)
    ensures MaxDepth(e) < Depth(n)
  {
    forall c | c in e ensures Depth(c) < Depth(n) { ElementsShallower(n, e, c); }
    MaxDepthBelow(e, Depth(n));
  }

  /** A group holds when all of it holds, an operator combines its elements, a column distributes over a list. */
  function Reading(cols: Columns, n: Node, truth: Truths): Truth
    decreases Depth(n), 0, 0
  {
    match Classify(cols, n)
    case Group(nodes) => ReadAll(cols, nodes, truth)
    case Comparison(leaf) => truth(leaf)
    case Invalid => Unknown
    case Operation(op, _) =>
      match op
      case OpAnd => ReadEvery(cols, n, Elements(n), truth)
      case OpOr => ReadSome(cols, n, Elements(n), truth)
      case OpNot => NotT(ReadEvery(cols, n, Elements(n), truth))
  }

  function ReadAll(cols: Columns, ns: seq<Node>, truth: Truths): Truth
    decreases MaxDepth(ns), 1, |ns|
  {
    if ns == [] then True else AndT(Reading(cols, ns[0], truth), ReadAll(cols, ns[1..], truth))
  }

  function ReadEvery(cols: Columns, n: Node, es: seq<seq<Node>>, truth: Truths): Truth
    requires forall e <- es :: e in Elements(n)
    decreases Depth(n), 0, 0, |es|
  {
    if es == [] then True
    else
      ElementMaxDepth(n, es[0]);
      AndT(ReadAll(cols, es[0], truth), ReadEvery(cols, n, es[1..], truth))
  }

  function ReadSome(cols: Columns, n: Node, es: seq<seq<Node>>, truth: Truths): Truth
    requires forall e <- es :: e in Elements(n)
    decreases Depth(n), 0, 0, |es|
  {
    if es == [] then False
    else
      ElementMaxDepth(n, es[0]);
      OrT(ReadAll(cols, es[0], truth), ReadSome(cols, n, es[1..], truth))
  }

  /**
   Every element of a column's list is one key, every element of an `or` is one
   condition, and so is the whole of a `not`; everywhere below as well.
   */
  predicate OneKeyElements(cols: Columns, n: Node)
    decreases Depth(n)
  {
    BelowShallower(cols, n);
    var m := Classify(cols, n);
    && (forall c <- Below(m) :: OneKeyElements(cols, c))
    && (m.Operation? ==>
          && (forall e <- Elements(n) :: |e| == 1)
          && (m.op == OpOr ==> forall c <- m.nodes :: |Flat(cols, c)| == 1)
          && (m.op == OpNot ==> |FlatAll(cols, m.nodes)| == 1))
  }

  /** With one key per element, the elements are the nodes the compiler pushes. */
  lemma ElementsArePushed(cols: Columns, n: Node)
    requires Classify(cols, n).Operation? && forall e <- Elements(n) :: |e| == 1
    ensures var ns := Classify(cols, n).nodes;
      |Elements(n)| == |ns| && forall i | 0 <= i < |ns| :: Elements(n)[i] == [ns[i]]
  {
    var ns := Classify(cols, n).nodes;
    if BoolOpOf(n.name).None? {
      var vs := n.children[0].children;
      forall i | 0 <= i < |vs| ensures Elements(n)[i] == [ns[i]] {
        assert Elements(n)[i] == Scoped(n, vs[i]) && Scoped(n, vs[i]) in Elements(n);
        assert ns[i] == Attached(n, vs[i]);
      }
    }
  }

  function ReadAny(cols: Columns, ns: seq<Node>, truth: Truths): Truth {
    if ns == [] then False else OrT(Reading(cols, ns[0], truth), ReadAny(cols, ns[1..], truth))
  }

  lemma {:induction false} ReadSingles(cols: Columns, n: Node, es: seq<seq<Node>>, ns: seq<Node>, truth: Truths)
    requires |es| == |ns| && (forall e <- es :: e in Elements(n)) && forall i | 0 <= i < |ns| :: es[i] == [ns[i]]
    ensures ReadEvery(cols, n, es, truth) == ReadAll(cols, ns, truth)
    ensures ReadSome(cols, n, es, truth) == ReadAny(cols, ns, truth)
    decreases |es|
  {
    if es != [] {
      assert es[0] in es && forall e <- es[1..] :: e in es;
      ReadSingles(cols, n, es[1..], ns[1..], truth);
      assert ReadAll(cols, [ns[0]], truth) == AndT(Reading(cols, ns[0], truth), ReadAll(cols, [ns[0]][1..], truth));
      assert ReadAll(cols, [ns[0]][1..], truth) == True;
    }
  }

  /** The trees of a node's conditions hold together exactly when the reading of the node holds. */
  lemma {:induction false} TreesMean(cols: Columns, n: Node, truth: Truths)
    requires Good(cols, n) && OneKeyElements(cols, n)
    ensures AllTrees(TreesOf(cols, Flat(cols, n)), truth) == Reading(cols, n, truth)
    decreases Depth(n), 0
  {
    BelowMaxDepth(cols, n);
    var m := Classify(cols, n);
    if m.Group? {
      AllTreesMean(cols, n.children, truth);
    } else {
      TreesOfOne(cols, n);
      OneTree(TreeOf(cols, n), truth);
      if m.Operation? {
        ElementsArePushed(cols, n);
        ReadSingles(cols, n, Elements(n), m.nodes, truth);
        match m.op
        case OpAnd => AllTreesMean(cols, m.nodes, truth);
        case OpOr => AnyTreeMeans(cols, m.nodes, truth);
        case OpNot =>
          AllTreesMean(cols, m.nodes, truth);
          var f := FlatAll(cols, m.nodes);
          assert f == [f[0]];
          TreesOfOne(cols, f[0]);
          OneTree(TreeOf(cols, f[0]), truth);
      }
    }
  }

  lemma {:induction false} AllTreesMean(cols: Columns, ns: seq<Node>, truth: Truths)
    requires forall n <- ns :: Good(cols, n) && OneKeyElements(cols, n)
    ensures AllTrees(TreesOf(cols, FlatAll(cols, ns)), truth) == ReadAll(cols, ns, truth)
    decreases MaxDepth(ns), 1, |ns|
  {
    if ns != [] {
      assert ns[0] in ns && forall c <- ns[1..] :: c in ns;
      var a, b := Flat(cols, ns[0]), FlatAll(cols, ns[1..]);
      TreesMean(cols, ns[0], truth);
      AllTreesMean(cols, ns[1..], truth);
      TreesOfAppend(cols, a, b);
      TreesAppend(TreesOf(cols, b), TreesOf(cols, a), truth);
    }
  }

  lemma {:induction false} AnyTreeMeans(cols: Columns, ns: seq<Node>, truth: Truths)
    requires forall n <- ns :: Good(cols, n) && OneKeyElements(cols, n) && |Flat(cols, n)| == 1
    ensures AnyTree(TreesOf(cols, FlatAll(cols, ns)), truth) == ReadAny(cols, ns, truth)
    decreases MaxDepth(ns), 1, |ns|
  {
    if ns != [] {
      assert ns[0] in ns && forall c <- ns[1..] :: c in ns;
      var a, b := Flat(cols, ns[0]), FlatAll(cols, ns[1..]);
      TreesMean(cols, ns[0], truth);
      AnyTreeMeans(cols, ns[1..], truth);
      TreesOfAppend(cols, a, b);
      TreesAppend(TreesOf(cols, b), TreesOf(cols, a), truth);
      assert a == [a[0]];
      TreesOfOne(cols, a[0]);
      OneTree(TreeOf(cols, a[0]), truth);
    }
  }

  /** The compiled filter admits a row exactly as the recursive reading does; without conditions it admits every row. */
  lemma CompiledMeansReading(cols: Columns, n: Node, truth: Truths)
    requires Good(cols, n) && OneKeyElements(cols, n)
    ensures var ts := Expected(cols, n);
      (if ts == [] then True else EvalTree(Chain(ts), truth)) == Reading(cols, n, truth)
  {
    TreesMean(cols, n, truth);
    var ts := Expected(cols, n);
    if ts != [] {
      ChainMeaning(ts, truth);
    }
  }

  // ---- Where the condition is needed ----

  function Eq(col: string, val: string): Node {
    PayloadNode(NumKind, col, val, [])
  }

  function Element(keys: seq<Node>): Node {
    PayloadNode(ObjKind, "", "", keys)
  }

  function Where(op: string, elements: seq<Node>): Node {
    PayloadNode(ListKind, op, "", elements)
  }

  lemma FlatEq(cols: Columns, col: string, val: string)
    requires col in cols && !cols[col] && col != "" && BoolOpOf(col).None?
    ensures Classify(cols, Eq(col, val)) == Comparison(Leaf(col, EqualsOp, Eq(col, val)))
    ensures Flat(cols, Eq(col, val)) == [Eq(col, val)]
  {
  }

  /** An `or` over an element with two keys compiles to a disjunction of the keys, not of their conjunction. */
  lemma OrSplitsElements(truth: Truths)
    ensures var cols := map["a" := false, "b" := false];
      var n := Where("or", [Element([Eq("a", "1"), Eq("b", "2")]), Element([Eq("a", "3")])]);
      var A, B, C := Leaf("a", EqualsOp, Eq("a", "1")), Leaf("b", EqualsOp, Eq("b", "2")), Leaf("a", EqualsOp, Eq("a", "3"));
      Flat(cols, n) == [n]
      && EvalTree(TreeOf(cols, n), truth) == OrT(truth(C), OrT(truth(B), truth(A)))
      && Reading(cols, n, truth) == OrT(AndT(truth(A), truth(B)), truth(C))
  {
    var cols := map["a" := false, "b" := false];
    var a, b, c := Eq("a", "1"), Eq("b", "2"), Eq("a", "3");
    var e, f := Element([a, b]), Element([c]);
    var n := Where("or", [e, f]);
    FlatEq(cols, "a", "1");
    FlatEq(cols, "b", "2");
    FlatEq(cols, "a", "3");
    OrOfThree(cols, a, b, c, truth);
  }

  lemma OrOfThree(cols: Columns, a: Node, b: Node, c: Node, truth: Truths)
    requires Classify(cols, a).Comparison? && Classify(cols, b).Comparison? && Classify(cols, c).Comparison?
    ensures var n := Where("or", [Element([a, b]), Element([c])]);
      var A, B, C := truth(Classify(cols, a).leaf), truth(Classify(cols, b).leaf), truth(Classify(cols, c).leaf);
      Flat(cols, n) == [n]
      && EvalTree(TreeOf(cols, n), truth) == OrT(C, OrT(B, A))
      && Reading(cols, n, truth) == OrT(AndT(A, B), C)
  {
    var e, f := Element([a, b]), Element([c]);
    var n := Where("or", [e, f]);
    assert Classify(cols, n) == Operation(OpOr, [e, f]);
    FlatOfTwo(cols, a, b);
    FlatOfOne(cols, c);
    assert [e, f][1..] == [f] && [f][1..] == [];
    assert FlatAll(cols, [f]) == [c] + FlatAll(cols, []);
    assert FlatAll(cols, [e, f]) == [a] + ([b] + [c]);
    OrTreesOfThree(cols, a, b, c, truth);
    assert TreeOf(cols, n) == Combine(OpOr, TreesOf(cols, [a] + ([b] + [c])));
    OrReadingOfTwo(cols, n, e, f, truth);
    ReadPair(cols, a, b, truth);
    ReadOne(cols, c, truth);
  }

  lemma OrTreesOfThree(cols: Columns, a: Node, b: Node, c: Node, truth: Truths)
    ensures var A, B, C := EvalTree(TreeOf(cols, a), truth), EvalTree(TreeOf(cols, b), truth), EvalTree(TreeOf(cols, c), truth);
      AnyTree(TreesOf(cols, [a] + ([b] + [c])), truth) == OrT(C, OrT(B, A))
  {
    TreesOfAppend(cols, [a], [b] + [c]);
    TreesOfAppend(cols, [b], [c]);
    TreesOfOne(cols, a);
    TreesOfOne(cols, b);
    TreesOfOne(cols, c);
    var A, B, C := TreeOf(cols, a), TreeOf(cols, b), TreeOf(cols, c);
    TreesAppend([C] + [B], [A], truth);
    TreesAppend([C], [B], truth);
    OneTree(A, truth);
    OneTree(B, truth);
    OneTree(C, truth);
  }

  lemma OrReadingOfTwo(cols: Columns, n: Node, e: Node, f: Node, truth: Truths)
    requires n == Where("or", [e, f])
    ensures Reading(cols, n, truth) == OrT(Reading(cols, e, truth), Reading(cols, f, truth))
  {
    assert Classify(cols, n) == Operation(OpOr, [e, f]);
    var es := Elements(n);
    assert es == [[e], [f]] && es[1..] == [[f]] && es[1..][1..] == [];
    ReadOne(cols, e, truth);
    ReadOne(cols, f, truth);
    assert ReadSome(cols, n, es[1..], truth) == OrT(ReadAll(cols, [f], truth), ReadSome(cols, n, es[1..][1..], truth));
  }

  lemma ReadPair(cols: Columns, a: Node, b: Node, truth: Truths)
    ensures ReadAll(cols, [a, b], truth) == AndT(Reading(cols, a, truth), Reading(cols, b, truth))
  {
    assert [a, b][1..] == [b];
    ReadOne(cols, b, truth);
  }

  lemma ReadOne(cols: Columns, n: Node, truth: Truths)
    ensures ReadAll(cols, [n], truth) == Reading(cols, n, truth)
  {
    assert ReadAll(cols, [n][1..], truth) == True;
  }

  lemma FlatOfOne(cols: Columns, a: Node)
    requires Classify(cols, a).Comparison?
    ensures Flat(cols, Element([a])) == [a] == FlatAll(cols, [a])
  {
    assert FlatAll(cols, [a]) == [a] + FlatAll(cols, [a][1..]);
  }

  lemma FlatOfTwo(cols: Columns, a: Node, b: Node)
    requires Classify(cols, a).Comparison? && Classify(cols, b).Comparison?
    ensures Flat(cols, Element([a, b])) == [a, b]
  {
    FlatOfOne(cols, b);
    assert [a, b][1..] == [b];
    assert FlatAll(cols, [a, b]) == [a] + FlatAll(cols, [b]);
  }

  /** A `not` compiles to the negation of its last condition alone, however many it has. */
  lemma NotReadsLast(cols: Columns, n: Node, truth: Truths)
    requires Classify(cols, n).Operation? && Classify(cols, n).op == OpNot
    requires FlatAll(cols, Classify(cols, n).nodes) != []
    ensures var f := FlatAll(cols, Classify(cols, n).nodes);
      EvalTree(TreeOf(cols, n), truth) == NotT(EvalTree(TreeOf(cols, f[|f| - 1]), truth))
  {
    var f := FlatAll(cols, Classify(cols, n).nodes);
    var k := |f| - 1;
    assert f == f[..k] + [f[k]];
    TreesOfAppend(cols, f[..k], [f[k]]);
    TreesOfOne(cols, f[k]);
    assert TreesOf(cols, f)[0] == TreeOf(cols, f[k]);
  }
}
