/**
 What a compiled filter says of a row, by the words it is written with. The
 words stand here themselves: nothing asks how the compiler classifies them.
 */
module FilterMeaning {
  import opened Common
  import opened Expressions
  import opened FilterCompiler

  // ---- Comparisons over rows ----

  /** What values stand for, and what the database's tests on texts, lists and documents answer. */
  datatype Database = Database(
    value: FilterNode -> Value,
    members: FilterNode -> seq<Value>,
    like: (Value, Value) -> bool,
    ilike: (Value, Value) -> bool,
    similar: (Value, Value) -> bool,
    regex: (Value, Value) -> bool,
    iregex: (Value, Value) -> bool,
    contains: (Value, FilterNode) -> bool,
    containedIn: (Value, FilterNode) -> bool,
    inCommon: (Value, FilterNode) -> bool,
    hasKey: (Value, FilterNode) -> bool,
    hasKeyAny: (Value, FilterNode) -> bool,
    hasKeyAll: (Value, FilterNode) -> bool)

  /** A node of the filter. */
  type FilterNode = FilterCompiler.Node

  /** A test on two values that is unknown when one is null. */
  function Tested(test: (Value, Value) -> bool, a: Value, b: Value): Truth {
    if a == Null || b == Null then Unknown else FromBool(test(a, b))
  }

  function TestedWith(test: (Value, FilterNode) -> bool, a: Value, v: FilterNode): Truth {
    if a == Null then Unknown else FromBool(test(a, v))
  }

  function AnyEqual(a: Value, vs: seq<Value>): Truth {
    if vs == [] then False else OrT(CompareValues(Equals, a, vs[0]), AnyEqual(a, vs[1..]))
  }

  /** The value on the right of a comparison: another column of the row, or what is written there. */
  function Operand(db: Database, row: Row, v: FilterNode): Value {
    if IsColumnRef(v) then Get(row, v.children[0].val) else db.value(v)
  }

  /** The comparison as the database evaluates it. */
  function Holds(db: Database, row: Row, leaf: Leaf): Truth {
    var a, v := Get(row, leaf.col), leaf.operand;
    var b := Operand(db, row, v);
    match leaf.op
    case EqualsOp => CompareValues(Equals, a, b)
    case NotEqualsOp => NotT(CompareValues(Equals, a, b))
    case GreaterThanOp => CompareValues(GreaterThan, a, b)
    case LesserThanOp => CompareValues(LesserThan, a, b)
    case GreaterOrEqualsOp => NotT(CompareValues(LesserThan, a, b))
    case LesserOrEqualsOp => NotT(CompareValues(GreaterThan, a, b))
    case InOp => AnyEqual(a, db.members(v))
    case NotInOp => NotT(AnyEqual(a, db.members(v)))
    case LikeOp => Tested(db.like, a, b)
    case NotLikeOp => NotT(Tested(db.like, a, b))
    case ILikeOp => Tested(db.ilike, a, b)
    case NotILikeOp => NotT(Tested(db.ilike, a, b))
    case SimilarOp => Tested(db.similar, a, b)
    case NotSimilarOp => NotT(Tested(db.similar, a, b))
    case RegexOp => Tested(db.regex, a, b)
    case NotRegexOp => NotT(Tested(db.regex, a, b))
    case IRegexOp => Tested(db.iregex, a, b)
    case NotIRegexOp => NotT(Tested(db.iregex, a, b))
    case ContainsOp => TestedWith(db.contains, a, v)
    case ContainedInOp => TestedWith(db.containedIn, a, v)
    case HasInCommonOp => TestedWith(db.inCommon, a, v)
    case HasKeyOp => TestedWith(db.hasKey, a, v)
    case HasKeyAnyOp => TestedWith(db.hasKeyAny, a, v)
    case HasKeyAllOp => TestedWith(db.hasKeyAll, a, v)
    case IsNullOp => FromBool((a == Null) == (Lower(v.val) != "false"))
    case NotDistinctOp => FromBool(a == b)
    case DistinctOp => FromBool(a != b)
  }

  // ---- What a filter compiles to ----

  /** The truth of what the filter compiles to; without conditions it admits every row. */
  function Compiled(cols: Columns, n: FilterNode, truth: Truths): Truth {
    var ts := Expected(cols, n);
    if ts == [] then True else EvalTree(Chain(ts), truth)
  }

  lemma CompiledIsAll(cols: Columns, n: FilterNode, truth: Truths)
    ensures Compiled(cols, n, truth) == AllTrees(TreesOf(cols, Flat(cols, n)), truth)
  {
    if Expected(cols, n) != [] {
      ChainMeaning(Expected(cols, n), truth);
    }
  }

  function AllCompiled(cols: Columns, ns: seq<FilterNode>, truth: Truths): Truth {
    if ns == [] then True else AndT(Compiled(cols, ns[0], truth), AllCompiled(cols, ns[1..], truth))
  }

  function AnyCompiled(cols: Columns, ns: seq<FilterNode>, truth: Truths): Truth {
    if ns == [] then False else OrT(Compiled(cols, ns[0], truth), AnyCompiled(cols, ns[1..], truth))
  }

  /** The name is one of the words, or one of them behind an underscore. */
  predicate Spells(name: string, words: set<string>) {
    name in words || (name != "" && name[0] == '_' && name[1..] in words)
  }

  lemma {:induction false} AllFlat(cols: Columns, ns: seq<FilterNode>, truth: Truths)
    ensures AllTrees(TreesOf(cols, FlatAll(cols, ns)), truth) == AllCompiled(cols, ns, truth)
  {
    if ns != [] {
      var a, b := Flat(cols, ns[0]), FlatAll(cols, ns[1..]);
      AllFlat(cols, ns[1..], truth);
      CompiledIsAll(cols, ns[0], truth);
      TreesOfAppend(cols, a, b);
      TreesAppend(TreesOf(cols, b), TreesOf(cols, a), truth);
    }
  }

  /** The element is one condition: a named one, alone in whatever braces are around it. */
  predicate Single(n: FilterNode) {
    n.name != "" || (|n.children| == 1 && Single(n.children[0]))
  }

  lemma {:induction false} SingleFlat(cols: Columns, n: FilterNode)
    requires Single(n)
    ensures |Flat(cols, n)| == 1
    decreases n
  {
    if n.name == "" {
      SingleFlat(cols, n.children[0]);
      assert FlatAll(cols, n.children) == Flat(cols, n.children[0]) + FlatAll(cols, n.children[1..]);
      assert n.children[1..] == [];
    }
  }

  lemma {:induction false} AnyFlat(cols: Columns, ns: seq<FilterNode>, truth: Truths)
    requires forall n <- ns :: Single(n)
    ensures AnyTree(TreesOf(cols, FlatAll(cols, ns)), truth) == AnyCompiled(cols, ns, truth)
  {
    if ns != [] {
      assert ns[0] in ns && forall c <- ns[1..] :: c in ns;
      var a, b := Flat(cols, ns[0]), FlatAll(cols, ns[1..]);
      AnyFlat(cols, ns[1..], truth);
      SingleFlat(cols, ns[0]);
      CompiledIsAll(cols, ns[0], truth);
      TreesOfAppend(cols, a, b);
      TreesAppend(TreesOf(cols, b), TreesOf(cols, a), truth);
      assert a == [a[0]];
      TreesOfOne(cols, a[0]);
      OneTree(TreeOf(cols, a[0]), truth);
    }
  }

  /** A named node compiles to its own tree. */
  lemma NamedCompiles(cols: Columns, n: FilterNode, truth: Truths)
    requires n.name != ""
    ensures Compiled(cols, n, truth) == EvalTree(TreeOf(cols, n), truth)
  {
    TreesOfOne(cols, n);
    OneTree(TreeOf(cols, n), truth);
    CompiledIsAll(cols, n, truth);
  }

  // ---- and, or, not ----

  /** Conditions next to each other all have to hold. */
  lemma GroupMeans(cols: Columns, n: FilterNode, truth: Truths)
    requires n.name == ""
    ensures Compiled(cols, n, truth) == AllCompiled(cols, n.children, truth)
  {
    CompiledIsAll(cols, n, truth);
    AllFlat(cols, n.children, truth);
  }

  lemma GroupAccepted(cols: Columns, n: FilterNode)
    requires n.name == ""
    ensures Good(cols, n) <==> forall c <- n.children :: Good(cols, c)
  {
  }

  /** `and` holds exactly when all of its elements hold, whatever they are. */
  lemma AndMeans(cols: Columns, n: FilterNode, truth: Truths)
    requires Spells(n.name, {"and"})
    ensures Good(cols, n) <==> |n.children| >= 2 && forall c <- n.children :: Good(cols, c)
    ensures Good(cols, n) ==> Compiled(cols, n, truth) == AllCompiled(cols, n.children, truth)
  {
    assert "_and"[1..] == "and";
    if Good(cols, n) {
      NamedCompiles(cols, n, truth);
      AllFlat(cols, n.children, truth);
    }
  }

  /** `or` holds exactly when one of its elements holds, each of them one condition. */
  lemma OrMeans(cols: Columns, n: FilterNode, truth: Truths)
    requires Spells(n.name, {"or"})
    ensures Good(cols, n) <==> |n.children| >= 2 && forall c <- n.children :: Good(cols, c)
    ensures Good(cols, n) && (forall c <- n.children :: Single(c)) ==> Compiled(cols, n, truth) == AnyCompiled(cols, n.children, truth)
  {
    if Good(cols, n) && forall c <- n.children :: Single(c) {
      NamedCompiles(cols, n, truth);
      AnyFlat(cols, n.children, truth);
    }
  }

  /** `not` holds exactly when its one condition does not. */
  lemma NotMeans(cols: Columns, n: FilterNode, truth: Truths)
    requires Spells(n.name, {"not"})
    ensures Good(cols, n) <==> |n.children| >= 1 && forall c <- n.children :: Good(cols, c)
    ensures Good(cols, n) && |n.children| == 1 && Single(n.children[0]) ==>
      Compiled(cols, n, truth) == NotT(Compiled(cols, n.children[0], truth))
  {
    if Good(cols, n) && |n.children| == 1 && Single(n.children[0]) {
      var c := n.children[0];
      NamedCompiles(cols, n, truth);
      SingleFlat(cols, c);
      CompiledIsAll(cols, c, truth);
      assert FlatAll(cols, n.children) == Flat(cols, c) + FlatAll(cols, n.children[1..]);
      assert n.children[1..] == [];
      var f := Flat(cols, c);
      assert f == [f[0]];
      TreesOfOne(cols, f[0]);
      OneTree(TreeOf(cols, f[0]), truth);
    }
  }

  // ---- A column ----

  /** A column of the table whose name is no word of the filter. */
  predicate PlainColumn(cols: Columns, col: string) {
    col in cols && col != "" && !Spells(col, {"and"}) && !Spells(col, {"or"}) && !Spells(col, {"not"})
  }

  lemma NoBoolOp(name: string)
    requires !Spells(name, {"and"}) && !Spells(name, {"or"}) && !Spells(name, {"not"})
    ensures BoolOpOf(name).None?
  {
  }

  /** The column with one key of a list element below it: the element itself, or the first key in its braces. */
  function Below(column: FilterNode, v: FilterNode): FilterNode {
    column.(children := [if v.name == "" && v.children != [] then v.children[0] else v])
  }

  /** An operator below a column ranges over the column with each of the elements. */
  lemma ColumnDistributes(cols: Columns, n: FilterNode, truth: Truths)
    requires PlainColumn(cols, n.name) && n.kind == ObjKind && |n.children| == 1
    ensures var vn := n.children[0];
      var ns := seq(|vn.children|, i requires 0 <= i < |vn.children| => Below(n, vn.children[i]));
      && (Spells(vn.name, {"and"}) ==> (Good(cols, n) <==> |ns| >= 2 && forall c <- ns :: Good(cols, c)))
      && (Spells(vn.name, {"or"}) ==> (Good(cols, n) <==> |ns| >= 2 && forall c <- ns :: Good(cols, c)))
      && (Spells(vn.name, {"not"}) ==> (Good(cols, n) <==> |ns| >= 1 && forall c <- ns :: Good(cols, c)))
      && (Spells(vn.name, {"and"}) && Good(cols, n) ==> Compiled(cols, n, truth) == AllCompiled(cols, ns, truth))
      && (Spells(vn.name, {"or"}) && Good(cols, n) ==> Compiled(cols, n, truth) == AnyCompiled(cols, ns, truth))
      && (Spells(vn.name, {"not"}) && Good(cols, n) && |ns| == 1 ==> Compiled(cols, n, truth) == NotT(Compiled(cols, ns[0], truth)))
  {
    var vn := n.children[0];
    var ns := seq(|vn.children|, i requires 0 <= i < |vn.children| => Below(n, vn.children[i]));
    NoBoolOp(n.name);
    if Spells(vn.name, {"and"}) || Spells(vn.name, {"or"}) || Spells(vn.name, {"not"}) {
      ColumnOperation(cols, n, ns);
      if Good(cols, n) {
        NamedCompiles(cols, n, truth);
        AllFlat(cols, ns, truth);
        AnyFlat(cols, ns, truth);
        if |ns| == 1 && Spells(vn.name, {"not"}) {
          NotCompiles(cols, n, ns, truth);
        }
      }
    }
  }

  lemma NotCompiles(cols: Columns, n: FilterNode, ns: seq<FilterNode>, truth: Truths)
    requires n.name != "" && |ns| == 1 && Classify(cols, n) == OperationOn(OpNot, ns) && Single(ns[0]) && ns[0].name != ""
    ensures Compiled(cols, n, truth) == NotT(Compiled(cols, ns[0], truth))
  {
    NamedCompiles(cols, n, truth);
    NamedCompiles(cols, ns[0], truth);
    assert FlatAll(cols, ns) == [ns[0]];
    TreesOfOne(cols, ns[0]);
  }

  lemma ColumnOperation(cols: Columns, n: FilterNode, ns: seq<FilterNode>)
    requires PlainColumn(cols, n.name) && n.kind == ObjKind && |n.children| == 1
    requires var vn := n.children[0];
      && ns == seq(|vn.children|, i requires 0 <= i < |vn.children| => Below(n, vn.children[i]))
      && (Spells(vn.name, {"and"}) || Spells(vn.name, {"or"}) || Spells(vn.name, {"not"}))
    ensures var name := n.children[0].name;
      Classify(cols, n) == OperationOn(if Spells(name, {"and"}) then OpAnd else if Spells(name, {"or"}) then OpOr else OpNot, ns)
    ensures forall c <- ns :: Single(c) && c.name != ""
  {
    var vn := n.children[0];
    NoBoolOp(n.name);
    NoOperator(vn.name, cols[n.name]);
    assert ns == seq(|vn.children|, i requires 0 <= i < |vn.children| => Attached(n, vn.children[i]));
  }

  lemma NoOperator(name: string, isArray: bool)
    requires Spells(name, {"and"}) || Spells(name, {"or"}) || Spells(name, {"not"})
    ensures OperatorOf(name, isArray).None?
  {
    assert Unprefixed(name) in {"and", "or", "not"};
  }

  /** A column with an operator and a value is that comparison. */
  lemma LeafCompiles(cols: Columns, col: string, v: FilterNode, op: Operator, truth: Truths)
    requires PlainColumn(cols, col) && OperatorOf(v.name, cols[col]) == Some(op) && OperandOk(cols, op, v)
    ensures var n := PayloadNode(ObjKind, col, "", [v]);
      Good(cols, n) && Compiled(cols, n, truth) == truth(Leaf(col, op, v))
  {
    var n := PayloadNode(ObjKind, col, "", [v]);
    NoBoolOp(col);
    assert Classify(cols, n) == Comparison(Leaf(col, op, v));
    NamedCompiles(cols, n, truth);
  }

  predicate IsValue(v: FilterNode) {
    v.kind == StrKind || v.kind == NumKind || v.kind == BoolKind || v.kind == ListKind || v.kind == VarKind
  }

  /** What { col: { v } } says of the row. */
  function Says(cols: Columns, db: Database, row: Row, col: string, v: FilterNode): Truth {
    Compiled(cols, PayloadNode(ObjKind, col, "", [v]), leaf => Holds(db, row, leaf))
  }

  function Accepts(cols: Columns, col: string, v: FilterNode): bool {
    Good(cols, PayloadNode(ObjKind, col, "", [v]))
  }

  // ---- The words for comparisons ----

  function Words(op: Operator): set<string> {
    match op
    case EqualsOp => {"eq", "equals"}
    case NotEqualsOp => {"neq", "notEquals", "not_equals"}
    case GreaterThanOp => {"gt", "greaterThan", "greater_than"}
    case LesserThanOp => {"lt", "lesserThan", "lesser_than"}
    case GreaterOrEqualsOp => {"gte", "gteq", "greaterOrEquals", "greater_or_equals"}
    case LesserOrEqualsOp => {"lte", "lteq", "lesserOrEquals", "lesser_or_equals"}
    case InOp => {"in"}
    case NotInOp => {"nin", "notIn", "not_in"}
    case LikeOp => {"like"}
    case NotLikeOp => {"nlike", "notLike", "not_like"}
    case ILikeOp => {"ilike", "iLike"}
    case NotILikeOp => {"nilike", "notILike", "not_ilike"}
    case SimilarOp => {"similar"}
    case NotSimilarOp => {"nsimilar", "notSimiliar", "not_similar"}
    case RegexOp => {"regex"}
    case NotRegexOp => {"nregex", "notRegex", "not_regex"}
    case IRegexOp => {"iregex"}
    case NotIRegexOp => {"niregex", "notIRegex", "not_iregex"}
    case ContainsOp => {"contains"}
    case ContainedInOp => {"containedIn", "contained_in"}
    case HasInCommonOp => {"hasInCommon", "has_in_common"}
    case HasKeyOp => {"hasKey", "has_key"}
    case HasKeyAnyOp => {"hasKeyAny", "has_key_any"}
    case HasKeyAllOp => {"hasKeyAll", "has_key_all"}
    case IsNullOp => {"isNull", "is_null"}
    case NotDistinctOp => {"notDistinct", "ndis", "not_distinct"}
    case DistinctOp => {"dis", "distinct"}
  }

  /** What the words are compiled to; on an array column `in` asks for a common element. */
  function Meant(op: Operator, isArray: bool): Operator {
    if op == InOp && isArray then HasInCommonOp else op
  }

  lemma EqualityWords(name: string, op: Operator, isArray: bool)
    requires op in {EqualsOp, NotEqualsOp, NotDistinctOp, DistinctOp, IsNullOp} && Unprefixed(name) in Words(op)
    ensures OperatorOf(name, isArray) == Some(Meant(op, isArray))
  {
  }

  lemma OrderWords(name: string, op: Operator, isArray: bool)
    requires op in {GreaterThanOp, LesserThanOp, GreaterOrEqualsOp, LesserOrEqualsOp} && Unprefixed(name) in Words(op)
    ensures OperatorOf(name, isArray) == Some(Meant(op, isArray))
  {
  }

  lemma TextWords(name: string, op: Operator, isArray: bool)
    requires op in {LikeOp, NotLikeOp, ILikeOp, NotILikeOp, SimilarOp, NotSimilarOp} && Unprefixed(name) in Words(op)
    ensures OperatorOf(name, isArray) == Some(Meant(op, isArray))
  {
  }

  lemma PatternWords(name: string, op: Operator, isArray: bool)
    requires op in {RegexOp, NotRegexOp, IRegexOp, NotIRegexOp} && Unprefixed(name) in Words(op)
    ensures OperatorOf(name, isArray) == Some(Meant(op, isArray))
  {
  }

  lemma ListWords(name: string, op: Operator, isArray: bool)
    requires op in {InOp, NotInOp, ContainsOp, ContainedInOp, HasInCommonOp} && Unprefixed(name) in Words(op)
    ensures OperatorOf(name, isArray) == Some(Meant(op, isArray))
  {
  }

  lemma KeyWords(name: string, op: Operator, isArray: bool)
    requires op in {HasKeyOp, HasKeyAnyOp, HasKeyAllOp} && Unprefixed(name) in Words(op)
    ensures OperatorOf(name, isArray) == Some(Meant(op, isArray))
  {
  }

  /** Each word is compiled to its comparison. */
  lemma WordNamesOperator(name: string, op: Operator, isArray: bool)
    requires Spells(name, Words(op))
    ensures OperatorOf(name, isArray) == Some(Meant(op, isArray))
  {
    WordIsUnprefixed(name, op);
    if op in {EqualsOp, NotEqualsOp, NotDistinctOp, DistinctOp, IsNullOp} {
      EqualityWords(name, op, isArray);
    } else if op in {GreaterThanOp, LesserThanOp, GreaterOrEqualsOp, LesserOrEqualsOp} {
      OrderWords(name, op, isArray);
    } else if op in {LikeOp, NotLikeOp, ILikeOp, NotILikeOp, SimilarOp, NotSimilarOp} {
      TextWords(name, op, isArray);
    } else if op in {RegexOp, NotRegexOp, IRegexOp, NotIRegexOp} {
      PatternWords(name, op, isArray);
    } else if op in {HasKeyOp, HasKeyAnyOp, HasKeyAllOp} {
      KeyWords(name, op, isArray);
    } else {
      ListWords(name, op, isArray);
    }
  }

  lemma WordIsUnprefixed(name: string, op: Operator)
    requires Spells(name, Words(op))
    ensures Unprefixed(name) in Words(op)
  {
    assert forall w <- Words(op) :: w != "" && w[0] != '_';
  }

  /** And no other word is a comparison. */
  lemma OtherWordsNameNone(name: string, isArray: bool)
    requires forall op: Operator :: !Spells(name, Words(op))
    ensures OperatorOf(name, isArray).None?
  {
    var op := OperatorOf(name, isArray);
    if op.Some? {
      var o := if Unprefixed(name) == "in" then InOp else op.value;
      assert Unprefixed(name) in Words(o);
      assert Spells(name, Words(o));
    }
  }

  // ---- A column, a word and a value ----

  /** Comparisons that may have another column on their right. */
  predicate TakesColumn(op: Operator) {
    op !in {InOp, NotInOp, ContainsOp, ContainedInOp, HasInCommonOp, HasKeyOp, HasKeyAnyOp, HasKeyAllOp, IsNullOp}
  }

  predicate Fits(cols: Columns, op: Operator, v: FilterNode) {
    if IsColumnRef(v) then TakesColumn(op) && v.children[0].val in cols else IsValue(v)
  }

  /** A column with a word and a value is accepted exactly if the value fits, and then says what the word says of the row. */
  lemma WordMeans(cols: Columns, db: Database, row: Row, col: string, v: FilterNode, op: Operator)
    requires PlainColumn(cols, col) && Spells(v.name, Words(op))
    ensures Accepts(cols, col, v) <==> Fits(cols, op, v)
    ensures Accepts(cols, col, v) ==> Says(cols, db, row, col, v) == Holds(db, row, Leaf(col, Meant(op, cols[col]), v))
  {
    WordNamesOperator(v.name, op, cols[col]);
    NoBoolOp(col);
    if Fits(cols, op, v) {
      LeafCompiles(cols, col, v, Meant(op, cols[col]), leaf => Holds(db, row, leaf));
    }
  }

  /** Any other word below a column is refused. */
  lemma OtherWordRefused(cols: Columns, col: string, v: FilterNode)
    requires PlainColumn(cols, col) && !Spells(v.name, {"and"}) && !Spells(v.name, {"or"}) && !Spells(v.name, {"not"})
    requires forall op: Operator :: !Spells(v.name, Words(op))
    ensures !Accepts(cols, col, v)
  {
    OtherWordsNameNone(v.name, cols[col]);
    NoBoolOp(v.name);
    NoBoolOp(col);
  }

  /** So is a column that the table does not have, and a column with more or fewer words than one. */
  lemma OtherColumnRefused(cols: Columns, n: FilterNode)
    requires n.name != "" && !Spells(n.name, {"and"}) && !Spells(n.name, {"or"}) && !Spells(n.name, {"not"})
    requires n.name !in cols || (n.kind == ObjKind && |n.children| != 1)
    ensures !Good(cols, n)
  {
    NoBoolOp(n.name);
  }

  /** Spelled out for the six orders: { price: { gt: x } } admits exactly the rows whose price is greater than x. */
  lemma OrderMeans(cols: Columns, db: Database, row: Row, col: string, v: FilterNode)
    requires PlainColumn(cols, col) && IsValue(v) && !IsColumnRef(v) && Get(row, col).Val? && db.value(v).Val?
    ensures var a, b, says := Get(row, col).v, db.value(v).v, Says(cols, db, row, col, v);
      && (v.name == "eq" ==> says == FromBool(a == b)) && (v.name == "neq" ==> says == FromBool(a != b))
      && (v.name == "gt" ==> says == FromBool(a > b)) && (v.name == "lt" ==> says == FromBool(a < b))
      && (v.name == "gte" ==> says == FromBool(a >= b)) && (v.name == "lte" ==> says == FromBool(a <= b))
  {
    if v.name == "eq" { WordMeans(cols, db, row, col, v, EqualsOp); }
    if v.name == "neq" { WordMeans(cols, db, row, col, v, NotEqualsOp); }
    if v.name == "gt" { WordMeans(cols, db, row, col, v, GreaterThanOp); }
    if v.name == "lt" { WordMeans(cols, db, row, col, v, LesserThanOp); }
    if v.name == "gte" { WordMeans(cols, db, row, col, v, GreaterOrEqualsOp); }
    if v.name == "lte" { WordMeans(cols, db, row, col, v, LesserOrEqualsOp); }
  }

  /** A value by itself asks for equality, a list for one of its members, and an array column for a common element. */
  lemma BareValueMeans(cols: Columns, db: Database, row: Row, n: FilterNode)
    requires PlainColumn(cols, n.name) && n.kind != ObjKind
    ensures Good(cols, n) <==> if n.kind == ListKind then n.children != [] else cols[n.name] || IsValue(n)
    ensures Good(cols, n) ==>
      Compiled(cols, n, leaf => Holds(db, row, leaf)) ==
        if cols[n.name] then TestedWith(db.inCommon, Get(row, n.name), n)
        else if n.kind == ListKind then AnyEqual(Get(row, n.name), db.members(n))
        else CompareValues(Equals, Get(row, n.name), db.value(n))
  {
    NoBoolOp(n.name);
    NamedCompiles(cols, n, leaf => Holds(db, row, leaf));
  }

  /** Against another column: { price: { gt: { col: c } } } compares the two values of the row. */
  lemma ColumnAgainstColumn(cols: Columns, db: Database, row: Row, col: string, c: string, kind: Kind)
    requires PlainColumn(cols, col) && c in cols && kind in {StrKind, LabelKind}
    ensures var v := PayloadNode(ObjKind, "gt", "", [PayloadNode(kind, "col", c, [])]);
      Accepts(cols, col, v) && Says(cols, db, row, col, v) == CompareValues(GreaterThan, Get(row, col), Get(row, c))
  {
    var v := PayloadNode(ObjKind, "gt", "", [PayloadNode(kind, "col", c, [])]);
    assert Lower("col") == "col";
    WordMeans(cols, db, row, col, v, GreaterThanOp);
  }
}
