/**
 The parser as the program runs it: a position in the token list that only
 moves forward, a stack of open fields and a field array patched in place.
 Every method does what the functions of GraphSyntax and FieldParser say.
 */
module GraphParser {
  import opened GraphSyntax
  import opened FieldForest
  import FieldParser
  import FragmentSpread

  /** A stack that keeps popped slots and overwrites them on the next push. */
  class Stack {
    var st: seq<int>
    var top: int

    ghost predicate Valid()
      reads this
    {
      -1 <= top < |st|
    }

    ghost function Contents(): seq<int>
      requires Valid()
      reads this
    {
      st[..top + 1]
    }

    constructor ()
      ensures Valid() && Contents() == []
    {
      st, top := [], -1;
    }

    method Push(value: int)
      requires Valid()
      modifies this
      ensures Valid() && Contents() == old(Contents()) + [value]
    {
      top := top + 1;
      if |st| <= top {
        st := st + [value];
      } else {
        st := st[top := value];
      }
    }

    method Pop()
      requires Valid()
      modifies this
      ensures Valid()
      ensures Contents() == if old(Contents()) == [] then [] else old(Contents()[..|Contents()| - 1])
    {
      if top != -1 {
        top := top - 1;
      }
    }

    function Peek(): int
      requires Valid()
      reads this
      ensures Peek() == FieldForest.Top(Contents())
    {
      if top == -1 then -1 else st[top]
    }
  }

  class Parser {
    const items: seq<Token>
    var pos: int
    var frags: FieldParser.Fragments

    ghost predicate Valid()
      reads this
    {
      -1 <= pos < |items|
    }

    /** The tokens not yet read. */
    ghost function Left(): seq<Token>
      requires Valid()
      reads this
    {
      items[pos + 1..]
    }

    constructor (items: seq<Token>)
      ensures Valid() && this.items == items && Left() == items && frags == map[]
    {
      this.items, pos, frags := items, -1, map[];
    }

    predicate Peek(t: Token)
      requires Valid()
      reads this
      ensures Peek(t) == GraphSyntax.Peek(Left(), t)
    {
      pos + 1 < |items| && items[pos + 1] == t
    }

    predicate PeekName()
      requires Valid()
      reads this
      ensures PeekName() == (Left() != [] && Left()[0].Name?)
    {
      pos + 1 < |items| && items[pos + 1].Name?
    }

    method Next() returns (t: Token)
      requires Valid()
      modifies this`pos
      ensures Valid() && pos >= old(pos)
      ensures old(Left()) == [] ==> t == Eof && Left() == []
      ensures old(Left()) != [] ==> t == old(Left())[0] && Left() == old(Left())[1..] && pos == old(pos) + 1
    {
      if pos + 1 >= |items| {
        return Eof;
      }
      pos := pos + 1;
      t := items[pos];
    }

    ghost predicate Matches<T>(ok: bool, value: T, r: Result<T>)
      reads this
    {
      && Valid()
      && ok == r.Parsed?
      && (ok ==> value == r.value && Left() == r.rest)
    }

    method ParseValue() returns (ok: bool, node: Node)
      requires Valid()
      modifies this`pos
      ensures pos >= old(pos) && Matches(ok, node, GraphSyntax.ParseValue(old(Left())))
      decreases |items| - pos, 0
    {
      if Peek(ListOpen) {
        var _ := Next();
        ok, node := ParseList();
        return;
      }
      if Peek(ObjOpen) {
        var _ := Next();
        ok, node := ParseObj();
        return;
      }
      var item := Next();
      ok := true;
      match item
      case NumberVal(v) => node := Node(NodeNum, "", v, []);
      case StringVal(v) => node := Node(NodeStr, "", v, []);
      case BoolVal(v) => node := Node(NodeBool, "", v, []);
      case Variable(v) => node := Node(NodeVar, "", v, []);
      case Name(v) => node := Node(NodeLabel, "", v, []);
      case _ =>
        ok, node := false, Node(NodeStr, "", "", []);
    }

    method ParseList() returns (ok: bool, node: Node)
      requires Valid()
      modifies this`pos
      ensures pos >= old(pos) && Matches(ok, node, GraphSyntax.ParseList(old(Left()), []))
      decreases |items| - pos, 1
    {
      var nodes: seq<Node> := [];
      node := Node(NodeList, "", "", []);
      while !Peek(Eof) && !Peek(ListClose)
        invariant Valid() && pos >= old(pos)
        invariant GraphSyntax.ParseList(Left(), nodes) == GraphSyntax.ParseList(old(Left()), [])
        decreases |items| - pos
      {
        var v;
        ok, v := ParseValue();
        if !ok {
          return;
        }
        nodes := nodes + [v];
      }
      var _ := Next();
      return true, Node(NodeList, "", "", nodes);
    }

    method ParseObj() returns (ok: bool, node: Node)
      requires Valid()
      modifies this`pos
      ensures pos >= old(pos) && Matches(ok, node, GraphSyntax.ParseObj(old(Left()), []))
      decreases |items| - pos, 1
    {
      var nodes: seq<Node> := [];
      node := Node(NodeObj, "", "", []);
      while !Peek(Eof) && !Peek(ObjClose)
        invariant Valid() && pos >= old(pos)
        invariant GraphSyntax.ParseObj(Left(), nodes) == GraphSyntax.ParseObj(old(Left()), [])
        decreases |items| - pos
      {
        if !PeekName() {
          return false, node;
        }
        var name := Next();
        if !Peek(Colon) {
          return false, node;
        }
        var _ := Next();
        var v;
        ok, v := ParseValue();
        if !ok {
          return;
        }
        nodes := nodes + [v.(name := name.val)];
      }
      var _ := Next();
      return true, Node(NodeObj, "", "", nodes);
    }

    method ParseArgs() returns (ok: bool, args: seq<Arg>)
      requires Valid()
      modifies this`pos
      ensures pos >= old(pos) && Matches(ok, args, GraphSyntax.ParseArgs(old(Left()), []))
    {
      args := [];
      while true
        invariant Valid() && pos >= old(pos)
        invariant GraphSyntax.ParseArgs(Left(), args) == GraphSyntax.ParseArgs(old(Left()), [])
        decreases |items| - pos
      {
        if |args| >= MAX_ARGS {
          return false, args;
        }
        if Peek(Eof) || Peek(ArgsClose) {
          var _ := Next();
          return true, args;
        }
        if !PeekName() {
          return false, args;
        }
        var name := Next();
        if !Peek(Colon) {
          return false, args;
        }
        var _ := Next();
        var v;
        ok, v := ParseValue();
        if !ok {
          return;
        }
        args := args + [Arg(name.val, v)];
      }
    }

    method ParseDirective() returns (ok: bool, d: FieldDirective)
      requires Valid()
      modifies this`pos
      ensures pos >= old(pos) && Matches(ok, d, GraphSyntax.ParseDirective(old(Left())))
    {
      d := FieldDirective("", []);
      if !PeekName() {
        return false, d;
      }
      var name := Next();
      var args: seq<Arg> := [];
      ok := true;
      if Peek(ArgsOpen) {
        var _ := Next();
        ok, args := ParseArgs();
      }
      d := FieldDirective(name.val, args);
    }

    method ParseDirectives() returns (ok: bool, ds: seq<FieldDirective>)
      requires Valid()
      modifies this`pos
      ensures pos >= old(pos) && Matches(ok, ds, GraphSyntax.ParseDirectives(old(Left()), []))
    {
      ok, ds := true, [];
      while Peek(Directive)
        invariant Valid() && pos >= old(pos)
        invariant GraphSyntax.ParseDirectives(Left(), ds) == GraphSyntax.ParseDirectives(old(Left()), [])
        invariant ok
        decreases |items| - pos
      {
        var _ := Next();
        var d;
        ok, d := ParseDirective();
        if !ok {
          return;
        }
        ds := ds + [d];
      }
    }

    method ParseField() returns (ok: bool, h: Header)
      requires Valid() && PeekName()
      modifies this`pos
      ensures pos >= old(pos) && Matches(ok, h, GraphSyntax.ParseField(old(Left())))
    {
      h := Header("", "", [], []);
      var v := Next();
      var alias, name := "", v.val;
      if Peek(Colon) {
        var _ := Next();
        if !PeekName() {
          return false, h;
        }
        var target := Next();
        alias, name := v.val, target.val;
      }
      ok, h := ParseTail(alias, name);
    }

    method ParseTail(alias: string, name: string) returns (ok: bool, h: Header)
      requires Valid()
      modifies this`pos
      ensures pos >= old(pos) && Matches(ok, h, GraphSyntax.ParseTail(old(Left()), alias, name))
    {
      h := Header(name, alias, [], []);
      var args: seq<Arg> := [];
      ok := true;
      if Peek(ArgsOpen) {
        var _ := Next();
        ok, args := ParseArgs();
        if !ok {
          return;
        }
      }
      var ds;
      ok, ds := ParseDirectives();
      h := Header(name, alias, args, ds);
    }

    // ---- The field array ----

    /** Appends one field and, if it has a selection, opens it. */
    method ParseNormalFields(st: Stack, fields: seq<Field>) returns (ok: bool, all: seq<Field>)
      requires Valid() && st.Valid() && StackIn(st, fields)
      modifies this`pos, st
      ensures pos >= old(pos) && Valid() && st.Valid()
      ensures Reached(ok, all, st, FieldParser.Normal(old(Before(st, fields))))
    {
      all := fields;
      if !PeekName() {
        return false, all;
      }
      var id := |fields|;
      var h;
      ok, h := ParseField();
      if !ok {
        return;
      }
      var pid := st.Peek();
      all := fields + [Field(id, if st.top == -1 then -1 else pid, Plain, h, [])];
      if st.top != -1 {
        all := all[pid := all[pid].(children := all[pid].children + [id])];
      }
      SpliceOne(fields, pid, h, all);
      if Peek(ObjOpen) {
        var _ := Next();
        st.Push(id);
      }
    }

    ghost predicate StackIn(st: Stack, fields: seq<Field>)
      requires st.Valid()
      reads st
    {
      forall k {:trigger st.Contents()[k]} :: 0 <= k < |st.Contents()| ==> 0 <= st.Contents()[k] < |fields|
    }

    ghost function Before(st: Stack, fields: seq<Field>): (s: FieldParser.State)
      requires Valid() && st.Valid()
      reads this, st
    {
      FieldParser.State(Left(), fields, st.Contents())
    }

    /** The call went as the outcome says, and the objects hold its state. */
    ghost predicate Reached(ok: bool, all: seq<Field>, st: Stack, r: FieldParser.Outcome)
      requires Valid() && st.Valid()
      reads this, st
    {
      ok == r.More? && (ok ==> r.next == Before(st, all))
    }

    /** Type, arguments and members of an inline fragment's owner. */
    method MarkMembersOf(fields: seq<Field>, pid: int) returns (all: seq<Field>)
      requires 0 <= pid < |fields|
      ensures all == MarkMembers(fields, pid)
    {
      all := fields;
      var i := pid + 1;
      while i < |all|
        invariant pid < i <= |fields| == |all|
        invariant forall k :: 0 <= k < i ==> all[k] == MarkMembers(fields, pid)[k]
        invariant forall k :: i <= k < |all| ==> all[k] == fields[k]
      {
        if all[i].parent == pid {
          all := all[i := all[i].(header := all[i].header.(args := all[pid].header.args), ftype := Member)];
        }
        i := i + 1;
      }
    }

    method ShiftAll(s: seq<int>, n: int) returns (r: seq<int>)
      ensures r == Add(s, n)
    {
      r := s;
      var j := 0;
      while j < |r|
        invariant 0 <= j <= |r| == |s|
        invariant forall k :: 0 <= k < j ==> r[k] == s[k] + n
        invariant forall k :: j <= k < |s| ==> r[k] == s[k]
      {
        r := r[j := r[j] + n];
        j := j + 1;
      }
    }

    /** Appends the fields of a fragment and renumbers them one by one. */
    method AppendFragment(fields: seq<Field>, pid: int, ff: seq<Field>) returns (all: seq<Field>)
      requires -1 <= pid < |fields|
      ensures all == Splice(fields, pid, ff)
    {
      var n := |fields|;
      all := fields + ff;
      var i := 0;
      assert fields + ff == Splice(fields, pid, ff[..0]) + ff[0..] by {
        SpliceNothing(fields, pid);
      }
      while i < |ff|
        invariant 0 <= i <= |ff|
        invariant all == Splice(fields, pid, ff[..i]) + ff[i..]
      {
        var k := n + i;
        assert all[k] == ff[i];
        var f := all[k].(id := k);
        if n != 0 {
          if f.parent == -1 {
            if pid != -1 {
              f := f.(parent := pid);
              all := all[pid := all[pid].(children := all[pid].children + [k])];
            }
          } else {
            f := f.(parent := f.parent + n);
          }
        }
        var children := ShiftAll(ff[i].children, n);
        all := all[k := f.(children := children)];
        SpliceNext(fields, pid, ff, i, all);
        i := i + 1;
      }
      assert ff[..i] == ff && ff[i..] == [];
    }

    /** What follows "...": an inline fragment, or the name of a fragment to copy in. */
    ghost function Spreading(s: FieldParser.State): FieldParser.Outcome
      requires FieldParser.InRange(s)
      reads this
    {
      if GraphSyntax.Peek(s.rest, On) then FieldParser.Inline(s.(rest := s.rest[1..])) else FieldParser.Named(frags, s)
    }

    method ParseFragmentFields(st: Stack, fields: seq<Field>) returns (ok: bool, all: seq<Field>)
      requires Valid() && st.Valid() && StackIn(st, fields)
      modifies this`pos, st
      ensures pos >= old(pos) && Valid() && st.Valid()
      ensures Reached(ok, all, st, old(Spreading(Before(st, fields))))
    {
      all := fields;
      var pid := st.Peek();
      if Peek(On) {
        var _ := Next();
        if pid == -1 {
          return false, all;
        }
        assert 0 <= pid < |fields| by {
          assert pid == st.Contents()[|st.Contents()| - 1];
        }
        all := all[pid := all[pid].(ftype := Union)];
        ok, all := ParseNormalFields(st, all);
        if !ok {
          return;
        }
        all := MarkMembersOf(all, pid);
      } else {
        if !PeekName() {
          return false, all;
        }
        var name := Next();
        if name.val !in frags {
          return false, all;
        }
        all := AppendFragment(fields, pid, frags[name.val]);
        ok := true;
      }
    }

    /** One round of the loop; ended is set at the closing brace of the whole selection. */
    method Round(st: Stack, fields: seq<Field>) returns (ok: bool, ended: bool, all: seq<Field>)
      requires Valid() && st.Valid() && StackIn(st, fields)
      modifies this`pos, st
      ensures pos >= old(pos) && Valid() && st.Valid()
      ensures match old(FieldParser.Step(true, frags, Before(st, fields)))
        case Stopped => !ok
        case Done(f, rest) => ok && ended && all == f && Left() == rest
        case More(next) => ok && !ended && Before(st, all) == next && pos > old(pos)
    {
      all, ended := fields, false;
      if Peek(Eof) {
        return false, ended, all;
      }
      if Peek(ObjClose) {
        if st.top == -1 {
          return true, true, all;
        }
        var _ := Next();
        st.Pop();
        return true, ended, all;
      }
      if |fields| >= MAX_FIELDS {
        return false, ended, all;
      }
      ghost var s := Before(st, fields);
      if Peek(Spread) {
        var _ := Next();
        assert Before(st, fields) == s.(rest := s.rest[1..]);
        ok, all := ParseFragmentFields(st, fields);
      } else {
        ok, all := ParseNormalFields(st, fields);
      }
    }

    /** Reads a selection up to its closing brace. */
    method ParseFields() returns (ok: bool, fields: seq<Field>)
      requires Valid()
      modifies this`pos
      ensures pos >= old(pos)
      ensures Matches(ok, fields, FieldParser.ParseFields(frags, old(Left())))
    {
      fields := [];
      if !PeekName() && !Peek(Spread) {
        return false, fields;
      }
      var st := new Stack();
      ghost var run := FieldParser.TheRun(true, frags);
      ghost var expected := FieldParser.ParseFields(frags, Left());
      while true
        invariant Valid() && pos >= old(pos) && st.Valid() && fresh(st) && StackIn(st, fields)
        invariant run(Before(st, fields)) == expected
        decreases |items| - pos
      {
        ghost var s := Before(st, fields);
        assert FieldParser.RunStep(true, frags, run, s);
        var ended;
        ok, ended, fields := Round(st, fields);
        if !ok || ended {
          return;
        }
      }
    }

    /** The name, the type and the opening brace of a definition. */
    method ParseFragmentHead() returns (ok: bool, name: Token)
      requires Valid()
      modifies this`pos
      ensures Valid() && pos >= old(pos)
      ensures ok == FragmentSpread.FragmentHead(old(Left()))
      ensures ok ==> name == old(Left())[0] && Left() == old(Left())[4..] && pos > old(pos)
    {
      name := Eof;
      if !PeekName() {
        return false, name;
      }
      name := Next();
      if !Peek(On) {
        return false, name;
      }
      var _ := Next();
      if !PeekName() {
        return false, name;
      }
      var _ := Next();
      if !Peek(ObjOpen) {
        return false, name;
      }
      var _ := Next();
      assert Left() == old(Left())[4..];
      ok := true;
    }

    /** Reads one fragment definition behind its keyword and registers it. */
    method ParseFragment() returns (ok: bool)
      requires Valid()
      modifies this
      ensures Valid() && pos >= old(pos)
      ensures ok == old(FragmentSpread.DefinitionParses(frags, Left()))
      ensures ok ==> frags == old(frags)[old(Left())[0].val := old(FragmentSpread.Definition(frags, Left())).value]
      ensures ok ==> Left() == old(FragmentSpread.Definition(frags, Left())).rest[1..]
      ensures ok ==> pos > old(pos)
    {
      var name;
      ok, name := ParseFragmentHead();
      if !ok {
        return;
      }
      var fields;
      ok, fields := ParseFields();
      if !ok {
        return;
      }
      if Peek(ObjClose) {
        var _ := Next();
      }
      frags := frags[name.val := fields];
    }

    /** Collects every fragment of the document. */
    method CollectFragments() returns (ok: bool)
      requires Valid()
      modifies this
      ensures Valid()
      ensures ok == old(FragmentSpread.Scan(frags, Left())).Parsed?
      ensures ok ==> frags == old(FragmentSpread.Scan(frags, Left())).value
    {
      while pos + 1 < |items| && !Peek(Eof)
        invariant Valid()
        invariant FragmentSpread.Scan(frags, Left()) == old(FragmentSpread.Scan(frags, Left()))
        decreases |items| - pos
      {
        if FragmentSpread.FragmentWord(items[pos + 1]) {
          var _ := Next();
          ok := ParseFragment();
          if !ok {
            return;
          }
        } else {
          var _ := Next();
        }
      }
      ok := true;
    }
  }

  lemma SpliceOne(fields: seq<Field>, pid: int, h: Header, all: seq<Field>)
    requires -1 <= pid < |fields|
    requires var grown := fields + [Field(|fields|, pid, Plain, h, [])];
      all == if pid == -1 then grown else grown[pid := grown[pid].(children := grown[pid].children + [|fields|])]
    ensures all == Splice(fields, pid, Single(h))
  {
    assert Kids(Single(h), -1) == [0];
    assert Add([0], |fields|) == [|fields|];
    assert Add([], |fields|) == [];
  }

  /** One more field of the fragment in place. */
  lemma SpliceNext(fields: seq<Field>, pid: int, ff: seq<Field>, i: int, all: seq<Field>)
    requires -1 <= pid < |fields| && 0 <= i < |ff|
    requires var n := |fields|;
      var was := Splice(fields, pid, ff[..i]) + ff[i..];
      var placed := was[n + i := Moved(ff[i], i, n, pid)];
      all == if ff[i].parent == -1 && pid != -1
        then placed[pid := placed[pid].(children := placed[pid].children + [n + i])] else placed
    ensures all == Splice(fields, pid, ff[..i + 1]) + ff[i + 1..]
  {
    var right := Splice(fields, pid, ff[..i + 1]) + ff[i + 1..];
    assert ff[..i + 1][..i] == ff[..i];
    var kids := Kids(ff[..i], -1);
    AddAppend(kids, [i], |fields|);
    assert Add([i], |fields|) == [|fields| + i];
    forall k | 0 <= k < |all| ensures all[k] == right[k] {
      if k < |fields| {
        SpliceHead(fields, pid, ff[..i], k);
        SpliceHead(fields, pid, ff[..i + 1], k);
        Regroup(fields[k].children, Add(kids, |fields|), [|fields| + i]);
        assert kids + [] == kids;
      }
    }
  }
}
