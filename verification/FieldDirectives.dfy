/** What `@name(args)` behind a field is parsed to. */
module FieldDirectives {
  import opened Common
  import opened GraphSyntax
  import opened QueryText
  import opened QueryTree

  /** The tokens of arguments in parentheses; none for no arguments. */
  function ParensToks(args: seq<Arg>): seq<Token> {
    if args == [] then [] else [ArgsOpen] + ArgsToks(args) + [ArgsClose]
  }

  /** The tokens of directives, each with its arguments in parentheses when it has any. */
  function DirectivesToks(ds: seq<FieldDirective>): seq<Token> {
    if ds == [] then [] else [Directive, Name(ds[0].name)] + (ParensToks(ds[0].args) + DirectivesToks(ds[1..]))
  }

  predicate CleanDirective(d: FieldDirective) {
    |d.args| < MAX_ARGS && forall a <- d.args :: CleanValue(a)
  }

  /** Neither a directive nor arguments follow. */
  predicate Ends(rest: seq<Token>) {
    !Peek(rest, Directive) && !Peek(rest, ArgsOpen)
  }

  lemma ParensOpen(args: seq<Arg>, rest: seq<Token>)
    requires args != []
    ensures ParensToks(args) + rest == [ArgsOpen] + (ArgsToks(args) + ([ArgsClose] + rest))
  {
    Regrouped([ArgsOpen], ArgsToks(args), [ArgsClose], rest);
  }

  lemma ParsesDirective(d: FieldDirective, rest: seq<Token>)
    requires CleanDirective(d) && !Peek(rest, ArgsOpen)
    ensures ParseDirective([Name(d.name)] + (ParensToks(d.args) + rest)) == Parsed(d, rest)
  {
    if d.args == [] {
      assert [] + rest == rest;
      assert ([Name(d.name)] + rest)[1..] == rest;
    } else {
      ParensOpen(d.args, rest);
      ParsesArgs(d.args, [], rest);
      assert [] + d.args == d.args;
      ArgsFollow(d, ArgsToks(d.args) + ([ArgsClose] + rest), rest);
    }
  }

  lemma ArgsFollow(d: FieldDirective, inside: seq<Token>, rest: seq<Token>)
    requires ParseArgs(inside, []) == Parsed(d.args, rest)
    ensures ParseDirective([Name(d.name)] + ([ArgsOpen] + inside)) == Parsed(d, rest)
  {
    var ts := [Name(d.name)] + ([ArgsOpen] + inside);
    assert ts[1..] == [ArgsOpen] + inside && ts[2..] == inside;
  }

  lemma DirectiveStep(inner: seq<Token>, d: FieldDirective, tail: seq<Token>, acc: seq<FieldDirective>)
    requires ParseDirective(inner) == Parsed(d, tail)
    ensures ParseDirectives([Directive] + inner, acc) == ParseDirectives(tail, acc + [d])
  {
    assert ([Directive] + inner)[1..] == inner;
  }

  lemma DirectivesFront(ds: seq<FieldDirective>, rest: seq<Token>)
    requires ds != []
    ensures DirectivesToks(ds) + rest
         == [Directive] + ([Name(ds[0].name)] + (ParensToks(ds[0].args) + (DirectivesToks(ds[1..]) + rest)))
  {
    FrontOf(Directive, Name(ds[0].name), ParensToks(ds[0].args), DirectivesToks(ds[1..]), rest);
  }

  lemma FrontOf(a: Token, b: Token, c: seq<Token>, d: seq<Token>, e: seq<Token>)
    ensures [a, b] + (c + d) + e == [a] + ([b] + (c + (d + e)))
  {
  }

  /** Directives are parsed to their names and arguments, in order. */
  lemma {:induction false} ParsesDirectives(ds: seq<FieldDirective>, acc: seq<FieldDirective>, rest: seq<Token>)
    requires (forall d <- ds :: CleanDirective(d)) && Ends(rest)
    ensures ParseDirectives(DirectivesToks(ds) + rest, acc) == Parsed(acc + ds, rest)
    decreases |ds|
  {
    if ds == [] {
      assert [] + rest == rest && acc + [] == acc;
    } else {
      var d, tail := ds[0], DirectivesToks(ds[1..]) + rest;
      assert d in ds && forall e <- ds[1..] :: e in ds;
      NoArgsNext(ds[1..], rest);
      ParsesDirective(d, tail);
      DirectiveStep([Name(d.name)] + (ParensToks(d.args) + tail), d, tail, acc);
      DirectivesFront(ds, rest);
      ParsesDirectives(ds[1..], acc + [d], rest);
      MoveFirst(acc, ds);
    }
  }

  lemma NoArgsNext(ds: seq<FieldDirective>, rest: seq<Token>)
    requires Ends(rest)
    ensures !Peek(DirectivesToks(ds) + rest, ArgsOpen)
  {
    if ds == [] {
      assert [] + rest == rest;
    } else {
      assert (DirectivesToks(ds) + rest)[0] == Directive;
    }
  }

  lemma ParsesBehindName(h: Header, behind: seq<Token>, rest: seq<Token>)
    requires CleanHeader(h.(directives := [])) && ParseDirectives(behind, []) == Parsed(h.directives, rest) && !Peek(behind, ArgsOpen)
    ensures ParseTail(TailToks(h) + behind, h.alias, h.name) == Parsed(h, rest)
  {
    if h.args == [] {
      assert TailToks(h) + behind == behind;
    } else {
      ParensOpen(h.args, behind);
      assert forall a <- h.args :: CleanArg(a) && CleanValue(a);
      ParsesArgs(h.args, [], behind);
      assert [] + h.args == h.args;
      TailOfArgs(h, ArgsToks(h.args) + ([ArgsClose] + behind), behind, rest);
    }
  }

  lemma TailOfArgs(h: Header, inside: seq<Token>, behind: seq<Token>, rest: seq<Token>)
    requires ParseArgs(inside, []) == Parsed(h.args, behind) && ParseDirectives(behind, []) == Parsed(h.directives, rest)
    ensures ParseTail([ArgsOpen] + inside, h.alias, h.name) == Parsed(h, rest)
  {
    assert ([ArgsOpen] + inside)[1..] == inside;
  }

  lemma NoColonNext(h: Header, rest: seq<Token>)
    requires Ends(rest) && !Peek(rest, Colon)
    ensures !Peek(TailToks(h) + (DirectivesToks(h.directives) + rest), Colon)
  {
    if h.args == [] && h.directives == [] {
      assert [] + ([] + rest) == rest;
    } else if h.args == [] {
      assert ([] + (DirectivesToks(h.directives) + rest))[0] == Directive;
    }
  }

  /** A field is parsed to its alias, name, arguments and directives. */
  lemma ParsesField(h: Header, rest: seq<Token>)
    requires CleanHeader(h.(directives := [])) && (forall d <- h.directives :: CleanDirective(d)) && Ends(rest) && !Peek(rest, Colon)
    ensures ParseField(HeaderToks(h) + (DirectivesToks(h.directives) + rest)) == Parsed(h, rest)
  {
    var behind := DirectivesToks(h.directives) + rest;
    ParsesDirectives(h.directives, [], rest);
    assert [] + h.directives == h.directives;
    NoArgsNext(h.directives, rest);
    ParsesBehindName(h, behind, rest);
    NoColonNext(h, rest);
    HeaderSplit(h, behind);
    if h.alias == "" {
      NamesPlain(h, TailToks(h) + behind);
    } else {
      NamesAliased(h, TailToks(h) + behind);
    }
  }

  // ---- How many arguments ----

  lemma {:induction false} ArgsTaken(args: seq<Arg>, acc: seq<Arg>, tail: seq<Token>)
    requires (forall a <- args :: CleanValue(a)) && |acc| + |args| <= 25
    ensures ParseArgs(ArgsToks(args) + tail, acc) == ParseArgs(tail, acc + args)
    decreases |args|
  {
    if args == [] {
      assert ArgsToks(args) + tail == tail && acc + args == acc;
    } else {
      var a := args[0];
      assert a in args && CleanValue(a) && forall b <- args[1..] :: b in args;
      ArgsGrouped([Name(a.name), Colon], Toks(a.val), ArgsToks(args[1..]), tail);
      ParsesArg(a, ArgsToks(args[1..]) + tail, acc);
      ArgsTaken(args[1..], acc + [a], tail);
      MoveFirst(acc, args);
    }
  }

  lemma ArgsGrouped(a: seq<Token>, b: seq<Token>, c: seq<Token>, d: seq<Token>)
    ensures a + b + c + d == a + (b + (c + d))
  {
  }

  /** A field with 24 arguments is read; with a 25th it is refused. */
  lemma ArgumentLimit(name: string, args: seq<Arg>, rest: seq<Token>)
    requires forall a <- args :: CleanValue(a)
    requires !Peek(rest, Directive)
    ensures var inside := ArgsToks(args) + ([ArgsClose] + rest);
      && (|args| == 24 ==> ParseField([Name(name), ArgsOpen] + inside) == Parsed(Header(name, "", args, []), rest))
      && (|args| == 25 ==> ParseField([Name(name), ArgsOpen] + inside).Failed?)
  {
    var tail := [ArgsClose] + rest;
    assert [] + args == args;
    if |args| <= 25 {
      ArgsTaken(args, [], tail);
      ArgsEnd(args, rest);
      FieldOfArgs(name, ArgsToks(args) + tail, args, rest);
    }
  }

  lemma ArgsEnd(acc: seq<Arg>, rest: seq<Token>)
    ensures ParseArgs([ArgsClose] + rest, acc) == if |acc| < 25 then Parsed(acc, rest) else Failed
  {
    assert ([ArgsClose] + rest)[1..] == rest;
  }

  lemma FieldOfArgs(name: string, inside: seq<Token>, args: seq<Arg>, rest: seq<Token>)
    requires !Peek(rest, Directive)
    ensures ParseArgs(inside, []).Failed? ==> ParseField([Name(name), ArgsOpen] + inside).Failed?
    ensures ParseArgs(inside, []) == Parsed(args, rest) ==>
      ParseField([Name(name), ArgsOpen] + inside) == Parsed(Header(name, "", args, []), rest)
  {
    var ts := [Name(name), ArgsOpen] + inside;
    assert ts[1..] == [ArgsOpen] + inside && ([ArgsOpen] + inside)[1..] == inside;
  }
}
