/**
 The filter expressions of the IR: a tree of boolean operators over column
 comparisons, and its meaning in SQL's three-valued logic.
 */
module Expressions {
  /** A column value. Every finite column domain embeds into the integers in order. */
  datatype Value = Null | Val(v: int)

  datatype Truth = True | False | Unknown

  datatype Source = Own | Cursor

  /** A column of the table being read, or of the `__cur` row. */
  datatype ColRef = ColRef(source: Source, name: string)

  datatype Comparison = Equals | GreaterThan | LesserThan

  datatype BoolOp = OpAnd | OpOr | OpNot

  datatype Exp =
    | IsNull(col: ColRef)
    | Compare(cmp: Comparison, left: ColRef, right: ColRef)
    | Node(op: BoolOp, children: seq<Exp>)

  type Row = map<string, Value>

  function Get(row: Row, name: string): Value {
    if name in row then row[name] else Null
  }

  function Lookup(ref: ColRef, row: Row, cur: Row): Value {
    if ref.source == Cursor then Get(cur, ref.name) else Get(row, ref.name)
  }

  function FromBool(b: bool): Truth {
    if b then True else False
  }

  function AndT(a: Truth, b: Truth): Truth {
    if a == False || b == False then False
    else if a == Unknown || b == Unknown then Unknown
    else True
  }

  function OrT(a: Truth, b: Truth): Truth {
    if a == True || b == True then True
    else if a == Unknown || b == Unknown then Unknown
    else False
  }

  function NotT(a: Truth): Truth {
    match a
    case True => False
    case False => True
    case Unknown => Unknown
  }

  function CompareValues(cmp: Comparison, a: Value, b: Value): Truth {
    if a == Null || b == Null then Unknown
    else
      match cmp
      case Equals => FromBool(a.v == b.v)
      case GreaterThan => FromBool(a.v > b.v)
      case LesserThan => FromBool(a.v < b.v)
  }

  /** The truth value of an expression. A negation reads its first child only, as the renderer does. */
  function Eval(e: Exp, row: Row, cur: Row): Truth
    decreases e, 0
  {
    match e
    case IsNull(col) => FromBool(Lookup(col, row, cur) == Null)
    case Compare(cmp, left, right) => CompareValues(cmp, Lookup(left, row, cur), Lookup(right, row, cur))
    case Node(OpAnd, children) => EvalAll(children, row, cur)
    case Node(OpOr, children) => EvalAny(children, row, cur)
    case Node(OpNot, children) => if children == [] then Unknown else NotT(Eval(children[0], row, cur))
  }

  function EvalAll(es: seq<Exp>, row: Row, cur: Row): Truth
    decreases es, |es|
  {
    if es == [] then True else AndT(Eval(es[0], row, cur), EvalAll(es[1..], row, cur))
  }

  function EvalAny(es: seq<Exp>, row: Row, cur: Row): Truth
    decreases es, |es|
  {
    if es == [] then False else OrT(Eval(es[0], row, cur), EvalAny(es[1..], row, cur))
  }

  lemma {:induction false} EvalAllAppend(a: seq<Exp>, b: seq<Exp>, row: Row, cur: Row)
    ensures EvalAll(a + b, row, cur) == AndT(EvalAll(a, row, cur), EvalAll(b, row, cur))
  {
    if a == [] {
      assert a + b == b;
    } else {
      assert (a + b)[1..] == a[1..] + b;
      EvalAllAppend(a[1..], b, row, cur);
    }
  }

  lemma {:induction false} EvalAnyAppend(a: seq<Exp>, b: seq<Exp>, row: Row, cur: Row)
    ensures EvalAny(a + b, row, cur) == OrT(EvalAny(a, row, cur), EvalAny(b, row, cur))
  {
    if a == [] {
      assert a + b == b;
    } else {
      assert (a + b)[1..] == a[1..] + b;
      EvalAnyAppend(a[1..], b, row, cur);
    }
  }

  lemma EvalSingleton(e: Exp, row: Row, cur: Row)
    ensures EvalAll([e], row, cur) == Eval(e, row, cur) == EvalAny([e], row, cur)
  {
    assert [e][1..] == [];
  }

  lemma EvalAnyOfThree(a: Exp, b: Exp, c: Exp, row: Row, cur: Row)
    ensures EvalAny([a, b, c], row, cur) == OrT(Eval(a, row, cur), OrT(Eval(b, row, cur), Eval(c, row, cur)))
  {
    assert [a, b, c] == [a] + ([b] + [c]);
    EvalAnyAppend([a], [b] + [c], row, cur);
    EvalAnyAppend([b], [c], row, cur);
    EvalSingleton(a, row, cur);
    EvalSingleton(b, row, cur);
    EvalSingleton(c, row, cur);
  }

  lemma EvalPair(a: Exp, b: Exp, row: Row, cur: Row)
    ensures Eval(Node(OpAnd, [a, b]), row, cur) == AndT(Eval(a, row, cur), Eval(b, row, cur))
  {
    assert [a, b] == [a] + [b];
    EvalAllAppend([a], [b], row, cur);
    EvalSingleton(a, row, cur);
    EvalSingleton(b, row, cur);
  }
}
