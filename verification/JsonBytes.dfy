/** Where the parts of a printed text are in the bytes that a scanner reads. */
module JsonBytes {
  import opened Json

  function Before(b: string, i: nat): char
    requires i < |b|
  {
    if i > 0 then b[i - 1] else b[i]
  }

  /** The bytes from i on start with w. */
  predicate At(b: string, i: nat, w: string) {
    i + |w| <= |b| && forall k {:trigger w[k]} :: 0 <= k < |w| ==> b[i + k] == w[k]
  }

  lemma AtSlice(b: string, i: nat, w: string)
    requires At(b, i, w)
    ensures b[i..i + |w|] == w
  {
  }

  lemma AtSplit(b: string, i: nat, u: string, w: string)
    requires At(b, i, u + w)
    ensures At(b, i, u) && At(b, i + |u|, w)
  {
    forall k | 0 <= k < |u| ensures b[i + k] == u[k] {
      assert (u + w)[k] == u[k];
    }
    forall k | 0 <= k < |w| ensures b[i + |u| + k] == w[k] {
      assert (u + w)[|u| + k] == w[k];
    }
  }

  /** The front of a text that stands there. */
  lemma AtFront(b: string, i: nat, u: string, v: string, w: string)
    requires At(b, i, u + (v + w))
    ensures At(b, i, u + v) && At(b, i + |u| + |v|, w)
  {
    AtSplit(b, i, u, v + w);
    AtSplit(b, i + |u|, v, w);
    forall k | 0 <= k < |u + v| ensures b[i + k] == (u + v)[k] {
      if k < |u| {
        assert u[k] == (u + v)[k];
      } else {
        assert v[k - |u|] == (u + v)[k];
      }
    }
  }

  lemma AtByte(b: string, i: nat, w: string)
    requires At(b, i, w) && w != ""
    ensures b[i] == w[0] && At(b, i + 1, w[1..])
  {
    assert w[0] == b[i + 0];
    forall k | 0 <= k < |w[1..]| ensures b[i + 1 + k] == w[1..][k] {
      assert w[k + 1] == w[1..][k];
    }
  }

  lemma AtLast(b: string, i: nat, w: string)
    requires At(b, i, w) && |w| >= 2
    ensures b[i + |w| - 1] == w[|w| - 1] && b[i + |w| - 2] == w[|w| - 2]
  {
  }

  // ---- What a text is put together from ----

  /** A member, with what follows it. */
  lemma PairText(p: Pair, rest: string)
    ensures PrintPair(p) + rest
         == p.lead + (Quoted(p.key) + (p.gap + (":" + (p.mid + (Print(p.value) + (p.trail + rest))))))
  {
    Regroup(Print(p.value), p.trail, rest);
    Regroup(p.mid, Print(p.value) + p.trail, rest);
    Regroup(":", p.mid + (Print(p.value) + p.trail), rest);
    Regroup(p.gap, ":" + (p.mid + (Print(p.value) + p.trail)), rest);
    Regroup(Quoted(p.key), p.gap + (":" + (p.mid + (Print(p.value) + p.trail))), rest);
    Regroup(p.lead, Quoted(p.key) + (p.gap + (":" + (p.mid + (Print(p.value) + p.trail)))), rest);
  }

  lemma Regroup(a: string, b: string, c: string)
    ensures a + b + c == a + (b + c)
  {
  }

  lemma ItemText(x: Item, rest: string)
    ensures PrintItem(x) + rest == x.lead + (Print(x.value) + (x.trail + rest))
  {
    Regroup(Print(x.value), x.trail, rest);
    Regroup(x.lead, Print(x.value) + x.trail, rest);
  }

  /** What is behind the first of several texts: a comma, or the closing bracket. */
  function Delimiter(n: nat, close: string): string {
    if n > 1 then "," else close
  }

  /** The first of several texts, and the others. */
  lemma FirstAt(b: string, i: nat, ws: seq<string>, close: string)
    requires ws != [] && At(b, i, Separated(ws) + close)
    ensures At(b, i, ws[0] + Delimiter(|ws|, close))
    ensures |ws| > 1 ==> At(b, i + |ws[0]| + 1, Separated(ws[1..]) + close) && |Separated(ws)| == |ws[0]| + 1 + |Separated(ws[1..])|
    ensures |ws| == 1 ==> Separated(ws) == ws[0]
  {
    if |ws| > 1 {
      Regroup(ws[0], "," + Separated(ws[1..]), close);
      Regroup(",", Separated(ws[1..]), close);
      AtFront(b, i, ws[0], ",", Separated(ws[1..]) + close);
    }
  }

  lemma FirstItemAt(b: string, i: nat, items: seq<Item>)
    requires items != [] && At(b, i, PrintItems(items) + "]")
    ensures At(b, i, PrintItem(items[0]) + Delimiter(|items|, "]"))
    ensures |items| > 1 ==> At(b, i + |PrintItem(items[0])| + 1, PrintItems(items[1..]) + "]")
    ensures |PrintItems(items)| == |PrintItem(items[0])| + if |items| > 1 then 1 + |PrintItems(items[1..])| else 0
  {
    FirstAt(b, i, ItemTexts(items), "]");
    ItemTextsFirst(items);
  }

  lemma FirstPairAt(b: string, i: nat, pairs: seq<Pair>)
    requires pairs != [] && At(b, i, PrintPairs(pairs) + "}")
    ensures At(b, i, PrintPair(pairs[0]) + Delimiter(|pairs|, "}"))
    ensures |pairs| > 1 ==> At(b, i + |PrintPair(pairs[0])| + 1, PrintPairs(pairs[1..]) + "}")
    ensures |PrintPairs(pairs)| == |PrintPair(pairs[0])| + if |pairs| > 1 then 1 + |PrintPairs(pairs[1..])| else 0
  {
    FirstAt(b, i, PairTexts(pairs), "}");
    PairTextsFirst(pairs);
  }

  lemma InsideAt(b: string, p: nat, j: Json)
    requires (j.Obj? || j.Arr?) && At(b, p, Print(j))
    ensures At(b, p + 1, Between(j) + (if j.Arr? then "]" else "}")) && |Print(j)| == |Between(j)| + 2
  {
    var open, close := if j.Arr? then "[" else "{", if j.Arr? then "]" else "}";
    Regroup(open, Between(j), close);
    AtSplit(b, p, open, Between(j) + close);
  }

  /** The bytes between the first and the last one. */
  lemma AtMiddle(b: string, i: nat, w: string)
    requires At(b, i, w) && |w| >= 2
    ensures b[i] == w[0] && At(b, i + 1, w[1..|w| - 1])
    ensures b[i + |w| - 1] == w[|w| - 1] && b[i + |w| - 2] == w[|w| - 2]
  {
    assert w[0] == b[i + 0];
    var mid := w[1..|w| - 1];
    forall k | 0 <= k < |mid| ensures b[i + 1 + k] == mid[k] {
      assert w[k + 1] == mid[k];
    }
  }

  lemma BehindValue(trail: string, delim: string)
    requires Blank(trail) && delim in {",", "}", "]"}
    ensures Behind(trail + delim)
  {
    if trail != "" {
      assert trail[0] in trail;
    }
  }

  /** What follows a value: white space and a delimiter. */
  predicate Behind(after: string) {
    after != "" && forall c <- after :: c in {',', '}', ']', ' ', '\t', '\n', '\r'}
  }
}
