/** When a write has a name of its own, and what it is, in terms of the list of writes alone. */
module WriteNames {
  import opened Common
  import opened MutationNames

  // ---- Decimal numbers ----

  function Value(s: string): int {
    if s == "" then 0 else 10 * Value(s[..|s| - 1]) + (s[|s| - 1] as int - '0' as int)
  }

  /** The text is the decimal form of the number, without leading zeros. */
  predicate Decimal(s: string, n: nat) {
    && s != "" && (forall c <- s :: '0' <= c <= '9')
    && Value(s) == n && (s[0] == '0' ==> n == 0 && |s| == 1)
  }

  lemma {:induction false} DecIsDecimal(n: nat)
    ensures Decimal(Dec(n), n)
  {
    var s := Dec(n);
    if n < 10 {
      assert s[..0] == "" && Value("") == 0;
    } else {
      DecIsDecimal(n / 10);
      assert s[..|s| - 1] == Dec(n / 10) && s[|s| - 1] == Digit(n % 10);
      assert s[0] == Dec(n / 10)[0];
    }
  }

  // ---- Names ----

  /** Another write goes to the same table. */
  predicate Shares(ws: seq<Write>, i: nat)
    requires i < |ws|
  {
    exists j :: 0 <= j < |ws| && j != i && ws[j].table == ws[i].table
  }

  lemma TwoDiffer(a: set<nat>, x: nat) returns (y: nat)
    requires |a| > 1
    ensures y in a && y != x
  {
    assert |{x}| == 1;
    if a <= {x} {
      SubsetSize(a, {x});
    }
    y :| y in a && y != x;
  }

  lemma OtherRoot(ws: seq<Write>, table: string, sel: nat) returns (j: nat)
    requires |RootsOf(ws, table)| > 1
    ensures j < |ws| && ws[j].table == table && ws[j].selID != sel
  {
    var s := TwoDiffer(RootsOf(ws, table), sel);
    j :| 0 <= j < |ws| && ws[j].table == table && ws[j].selID == s;
  }

  lemma MultiIsShared(ws: seq<Write>, i: nat)
    requires i < |ws|
    ensures Multi(ws, i) <==> Shares(ws, i)
  {
    if j :| 0 <= j < |ws| && j != i && ws[j].table == ws[i].table {
      SameTableMulti(ws, i, j);
    }
    if |RootsOf(ws, ws[i].table)| > 1 {
      var j := OtherRoot(ws, ws[i].table, ws[i].selID);
    } else if Multi(ws, i) {
      var ids := GroupIds(ws, GroupOf(ws[i]));
      GroupIdsAre(ws, GroupOf(ws[i]));
      assert ids[0] in ids && ids[1] in ids && ids[0] < ids[1];
      var j := if ids[0] == i then ids[1] else ids[0];
      assert GroupOf(ws[j]) == GroupOf(ws[i]);
    }
  }

  /** A write is called like its table, with its position behind an underscore if another write goes to the table. */
  lemma WriteNamed(ws: seq<Write>, i: nat) returns (number: string)
    requires i < |ws|
    ensures Decimal(number, i)
    ensures CteName(ws, i) == if Shares(ws, i) then ws[i].table + "_" + number else ws[i].table
  {
    number := Dec(i);
    DecIsDecimal(i);
    MultiIsShared(ws, i);
  }

  /** A write to the table belongs to another root. */
  predicate RootsShare(ws: seq<Write>, g: Group) {
    exists j :: 0 <= j < |ws| && ws[j].table == g.table && ws[j].selID != g.selID
  }

  /** A root reads its writes to a table back under the table's name, with its select behind two underscores if other roots write there. */
  lemma GroupNamed(ws: seq<Write>, g: Group) returns (number: string)
    requires IsGroup(ws, g)
    ensures Decimal(number, g.selID)
    ensures UnionName(ws, g) == if RootsShare(ws, g) then g.table + "__" + number else g.table
  {
    number := Dec(g.selID);
    DecIsDecimal(g.selID);
    var i :| 0 <= i < |ws| && GroupOf(ws[i]) == g;
    if j :| 0 <= j < |ws| && ws[j].table == g.table && ws[j].selID != g.selID {
      TwoRoots(ws, i, j);
    }
    if |RootsOf(ws, g.table)| > 1 {
      var j := OtherRoot(ws, g.table, g.selID);
    }
  }
}
