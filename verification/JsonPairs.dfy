/**
 What `Get` finds in a JSON text, whatever white space is between its tokens:
 the requested pairs of the tree, each with its exact bytes.
 */
module JsonPairs {
  import opened Common
  import opened Json
  import opened JsonBytes
  import opened JsonGet

  // ---- The pairs of a tree ----

  /** The list is scanned from inside: it opens with an object, and no carriage return is in front of it. */
  predicate IsEntered(items: seq<Item>, blank: string) {
    items != [] && items[0].value.Obj? && '\r' !in blank && '\r' !in items[0].lead
  }

  /** The requested pairs of a value, an object before what it nests. A list counts when it is entered. */
  function Requested(j: Json, keys: seq<string>): seq<Field>
    decreases j, 0
  {
    match j
    case Obj(pairs, _) => OfPairs(pairs, keys)
    case Arr(items, blank) => if IsEntered(items, blank) then OfItems(items, keys) else []
    case _ => []
  }

  function OfPairs(pairs: seq<Pair>, keys: seq<string>): seq<Field>
    decreases pairs, |pairs|
  {
    if pairs == [] then [] else OfPair(pairs[0], keys) + OfPairs(pairs[1..], keys)
  }

  function OfPair(p: Pair, keys: seq<string>): seq<Field>
    decreases p, 1
  {
    (if p.key in keys then [Field(p.key, Print(p.value))] else []) + Requested(p.value, keys)
  }

  /** Items that are scanned one after the other; here every nested list counts. */
  function OfItems(items: seq<Item>, keys: seq<string>): seq<Field>
    decreases items, |items|
  {
    if items == [] then [] else OfItem(items[0].value, keys) + OfItems(items[1..], keys)
  }

  function OfItem(j: Json, keys: seq<string>): seq<Field>
    decreases j, 1
  {
    match j
    case Obj(pairs, _) => OfPairs(pairs, keys)
    case Arr(items, _) => OfItems(items, keys)
    case _ => []
  }

  /** No list that is scanned from inside holds a string: the scan would take it for a key. */
  predicate Scannable(j: Json)
    decreases j, 0
  {
    match j
    case Obj(pairs, _) => forall p <- pairs :: Scannable(p.value)
    case Arr(items, blank) => IsEntered(items, blank) ==> forall x <- items :: ScannableItem(x.value)
    case _ => true
  }

  predicate ScannableItem(j: Json)
    decreases j, 1
  {
    match j
    case Obj(pairs, _) => forall p <- pairs :: Scannable(p.value)
    case Arr(items, _) => forall x <- items :: ScannableItem(x.value)
    case Str(_) => false
    case _ => true
  }

  // ---- Steps of the scan ----

  /** Quiet bytes only change the control state. */
  lemma {:induction false} RunGlide(b: string, keys: seq<string>, run: Scan -> seq<Field>, x: Scan, w: string, prev: char) returns (y: Scan)
    requires IsRun(b, keys, run) && ScanOk(b, x) && At(b, x.i, w) && Glide(x.m, prev, w).Some?
    requires w != "" ==> prev == Before(b, x.i)
    ensures y == x.(i := x.i + |w|, m := Glide(x.m, prev, w).value)
    ensures ScanOk(b, y) && run(x) == run(y)
    decreases |w|
  {
    if w == "" {
      y := x;
    } else {
      AtByte(b, x.i, w);
      var (m, a) := Next(x.m, w[0], prev);
      var z := RunStep(b, keys, run, x, m, a);
      y := RunGlide(b, keys, run, z, w[1..], w[0]);
    }
  }

  /** A scan that stands at byte i, ready for the next key, with the given results. */
  predicate Ready(b: string, x: Scan, i: nat, res: seq<Field>) {
    ScanOk(b, x) && x.i == i && x.m == IDLE && x.res == res
  }

  /** Bytes that are no quotes are skipped where a key may start. */
  lemma {:induction false} RunPlain(b: string, keys: seq<string>, run: Scan -> seq<Field>, x: Scan, w: string) returns (y: Scan)
    requires IsRun(b, keys, run) && Ready(b, x, x.i, x.res) && At(b, x.i, w) && '"' !in w
    ensures Ready(b, y, x.i + |w|, x.res) && run(x) == run(y)
    decreases |w|
  {
    if w == "" {
      y := x;
    } else {
      AtByte(b, x.i, w);
      y := RunStep(b, keys, run, x, IDLE, Quiet);
      y := RunPlain(b, keys, run, y, w[1..]);
    }
  }

  /** White space where a colon or a value is expected is skipped. */
  lemma RunSpace(b: string, keys: seq<string>, run: Scan -> seq<Field>, x: Scan, w: string) returns (y: Scan)
    requires IsRun(b, keys, run) && ScanOk(b, x) && At(b, x.i, w) && Blank(w)
    requires x.m.phase in {Colon, Value} && !x.m.instr && x.m.slash == 0
    ensures y == x.(i := x.i + |w|) && ScanOk(b, y) && run(x) == run(y)
  {
    if w == "" {
      y := x;
    } else {
      GlideSpace(x.m, Before(b, x.i), w);
      y := RunGlide(b, keys, run, x, w, Before(b, x.i));
    }
  }

  const AT_COLON := Control(Colon, 0, false, 0)

  /** From a key's opening quote to its closing quote. */
  lemma RunQuoted(b: string, keys: seq<string>, run: Scan -> seq<Field>, x: Scan, key: string) returns (y: Scan)
    requires IsRun(b, keys, run) && Ready(b, x, x.i, x.res) && At(b, x.i, Quoted(key)) && RawOk(key, false)
    ensures ScanOk(b, y) && run(x) == run(y)
    ensures y.i == x.i + |key| + 2 && y.m == AT_COLON && y.k == key && y.res == x.res
  {
    AtSplit(b, x.i, "\"" + key, "\"");
    AtSplit(b, x.i, "\"", key);
    AtByte(b, x.i, "\"");
    var inKey := Control(KeyClose, 0, true, 0);
    var x1 := RunStep(b, keys, run, x, inKey, BeginKey);
    var slash := GlideRaw(inKey, '"', key);
    var x2 := RunGlide(b, keys, run, x1, key, '"');
    AtByte(b, x2.i, "\"");
    y := RunStep(b, keys, run, x2, AT_COLON, EndKey);
    AtSlice(b, x.i + 1, key);
  }

  /** From a key's opening quote to its value: the key, white space, the colon, white space. */
  lemma RunKey(b: string, keys: seq<string>, run: Scan -> seq<Field>, x: Scan, p: Pair, rest: string) returns (y: Scan)
    requires IsRun(b, keys, run) && Ready(b, x, x.i, x.res) && PairOk(p)
    requires At(b, x.i, Quoted(p.key) + (p.gap + (":" + (p.mid + rest))))
    ensures ScanOk(b, y) && run(x) == run(y) && At(b, y.i, rest)
    ensures y.i == x.i + |Quoted(p.key)| + |p.gap| + 1 + |p.mid| && y.m == AT_VALUE && y.k == p.key && y.res == x.res
  {
    AtSplit(b, x.i, Quoted(p.key), p.gap + (":" + (p.mid + rest)));
    y := RunQuoted(b, keys, run, x, p.key);
    AtSplit(b, y.i, p.gap, ":" + (p.mid + rest));
    y := RunSpace(b, keys, run, y, p.gap);
    AtSplit(b, y.i, ":", p.mid + rest);
    AtByte(b, y.i, ":");
    y := RunStep(b, keys, run, y, AT_VALUE, Quiet);
    AtSplit(b, y.i, p.mid, rest);
    y := RunSpace(b, keys, run, y, p.mid);
  }

  /** The first byte of a value. */
  lemma RunOpen(b: string, keys: seq<string>, run: Scan -> seq<Field>, x: Scan, j: Json) returns (y: Scan)
    requires IsRun(b, keys, run) && ScanOk(b, x) && x.m == AT_VALUE && Valid(j) && At(b, x.i, Print(j))
    ensures |Print(j)| >= 1 && b[x.i] == Print(j)[0] && At(b, x.i + 1, Print(j)[1..])
    ensures y == x.(i := x.i + 1, m := Opened(j), s := x.i) && ScanOk(b, y) && run(x) == run(y)
  {
    ValueOpens(Before(b, x.i), j);
    AtByte(b, x.i, Print(j));
    y := RunStep(b, keys, run, x, Opened(j), BeginValue);
  }

  /** From inside a value to its last byte. */
  lemma RunToLastByte(b: string, keys: seq<string>, run: Scan -> seq<Field>, x: Scan, w: string) returns (y: Scan)
    requires IsRun(b, keys, run) && ScanOk(b, x) && x.m.phase !in {Key, Colon, KeyClose, Value} && Closes(x.m, w)
    requires 1 <= x.i && At(b, x.i - 1, w)
    ensures ScanOk(b, y) && run(x) == run(y) && y == x.(i := x.i + |w| - 2, m := y.m) && y.m.phase == x.m.phase
    ensures 1 <= y.i < |b| && Next(y.m, b[y.i], Before(b, y.i)) == (IDLE, EndValue)
  {
    var mid := w[1..|w| - 1];
    AtMiddle(b, x.i - 1, w);
    y := RunGlide(b, keys, run, x, mid, w[0]);
    GlideKeepsPhase(x.m, w[0], mid);
  }

  /** From inside a value to where the scan goes on after reporting it. */
  lemma RunReported(b: string, keys: seq<string>, run: Scan -> seq<Field>, x: Scan, w: string) returns (y: Scan)
    requires IsRun(b, keys, run) && ScanOk(b, x) && x.m.phase !in {Key, Colon, KeyClose, Value} && Closes(x.m, w)
    requires 1 <= x.i && x.s == x.i - 1 && At(b, x.i - 1, w)
    ensures ScanOk(b, y) && run(x) == run(y) && y.m == IDLE
    ensures y.res == if x.k in keys then x.res + [Field(x.k, w)] else x.res
    ensures y.i == if JumpsBack(b, x) then x.i else x.i - 1 + |w|
  {
    var z := RunToLastByte(b, keys, run, x, w);
    AtSlice(b, x.s, w);
    y := RunStep(b, keys, run, z, IDLE, EndValue);
  }

  /** The result list after the value of the current key has been reported. */
  function Reported(x: Scan, j: Json, keys: seq<string>): seq<Field> {
    if x.k in keys then x.res + [Field(x.k, Print(j))] else x.res
  }

  lemma JumpsAtOpened(b: string, x: Scan, j: Json)
    requires x.m == Opened(j)
    ensures JumpsBack(b, x) == (j.Obj? || (j.Arr? && Enters(b, x.s + 1)))
    ensures x.m.phase !in {Key, Colon, KeyClose, Value}
  {
  }

  /** From a value's first byte to its last one, where the scan reports it with its exact bytes. */
  lemma RunClosedValue(b: string, keys: seq<string>, run: Scan -> seq<Field>, x: Scan, j: Json) returns (y: Scan)
    requires IsRun(b, keys, run) && ScanOk(b, x) && x.m == AT_VALUE && Valid(j) && !j.Num? && At(b, x.i, Print(j))
    ensures ScanOk(b, y) && run(x) == run(y)
    ensures y.m == IDLE && y.res == Reported(x, j, keys)
    ensures y.i == if j.Obj? || (j.Arr? && Enters(b, x.i + 1)) then x.i + 1 else x.i + |Print(j)|
  {
    var x1 := RunOpen(b, keys, run, x, j);
    ValueCloses(j);
    JumpsAtOpened(b, x1, j);
    y := RunReported(b, keys, run, x1, Print(j));
  }

  /** A number, and what follows it. */
  lemma RunNumber(b: string, keys: seq<string>, run: Scan -> seq<Field>, x: Scan, j: Json, after: string) returns (y: Scan)
    requires IsRun(b, keys, run) && ScanOk(b, x) && x.m == AT_VALUE && Valid(j) && j.Num?
    requires At(b, x.i, Print(j)) && At(b, x.i + |Print(j)|, after) && Behind(after)
    ensures Ready(b, y, x.i + |Print(j)| + |after|, Reported(x, j, keys)) && run(x) == run(y)
  {
    var x1 := RunDigits(b, keys, run, x, j);
    AtByte(b, x1.i, after);
    assert after[0] in after;
    NumberCloses(j, after[0], Before(b, x1.i));
    AtSlice(b, x.i, Print(j));
    y := RunStep(b, keys, run, x1, IDLE, EndBefore);
    assert forall c <- after[1..] :: c in after;
    y := RunPlain(b, keys, run, y, after[1..]);
  }

  lemma RunDigits(b: string, keys: seq<string>, run: Scan -> seq<Field>, x: Scan, j: Json) returns (y: Scan)
    requires IsRun(b, keys, run) && ScanOk(b, x) && x.m == AT_VALUE && Valid(j) && j.Num? && At(b, x.i, Print(j))
    ensures y == x.(i := x.i + |Print(j)|, m := Opened(j), s := x.i) && ScanOk(b, y) && run(x) == run(y)
  {
    var w := Print(j);
    y := RunOpen(b, keys, run, x, j);
    NumberCloses(j, ',', ' ');
    y := RunGlide(b, keys, run, y, w[1..], w[0]);
  }

  // ---- The scan of a tree ----

  /** White space that the look behind a list's bracket skips. */
  lemma {:induction false} EntersBehind(b: string, i: nat, w: string)
    requires At(b, i, w) && Blank(w)
    ensures Enters(b, i) == if '\r' in w then false else Enters(b, i + |w|)
    decreases |w|
  {
    if w != "" {
      AtByte(b, i, w);
      assert w[0] in w && forall c <- w[1..] :: c in w;
      assert '\r' in w <==> w[0] == '\r' || '\r' in w[1..];
      if Space(b[i]) {
        EntersBehind(b, i + 1, w[1..]);
      }
    }
  }

  /** A list is entered exactly when it opens with an object and no carriage return is in front of it. */
  lemma ListEntered(b: string, i: nat, items: seq<Item>, blank: string)
    requires Valid(Arr(items, blank)) && At(b, i, blank + (PrintItems(items) + "]"))
    ensures Enters(b, i) == IsEntered(items, blank)
  {
    AtSplit(b, i, blank, PrintItems(items) + "]");
    EntersBehind(b, i, blank);
    var k := i + |blank|;
    if items == [] {
      assert PrintItems(items) == "" && "" + "]" == "]";
      AtByte(b, k, "]");
    } else {
      assert items[0] in items;
      FirstAt(b, k, ItemTexts(items), "]");
      ItemTextsFirst(items);
      FirstByte(b, k, items[0], Delimiter(|items|, "]"));
    }
  }

  lemma FirstByte(b: string, k: nat, x: Item, rest: string)
    requires Blank(x.lead) && Valid(x.value) && At(b, k, PrintItem(x) + rest)
    ensures Enters(b, k) == (x.value.Obj? && '\r' !in x.lead)
  {
    ItemText(x, rest);
    AtSplit(b, k, x.lead, Print(x.value) + (x.trail + rest));
    EntersBehind(b, k, x.lead);
    AtSplit(b, k + |x.lead|, Print(x.value), x.trail + rest);
    ValueOpens(' ', x.value);
    AtByte(b, k + |x.lead|, Print(x.value));
  }

  /** A value in its object and what follows it: it is reported, and scanned from inside when it holds pairs. */
  lemma {:induction false} RunValue(b: string, keys: seq<string>, run: Scan -> seq<Field>, x: Scan, j: Json, after: string) returns (y: Scan)
    requires IsRun(b, keys, run) && ScanOk(b, x) && x.m == AT_VALUE && Valid(j) && Scannable(j)
    requires At(b, x.i, Print(j)) && At(b, x.i + |Print(j)|, after) && Behind(after)
    ensures Ready(b, y, x.i + |Print(j)| + |after|, Reported(x, j, keys) + Requested(j, keys)) && run(x) == run(y)
    decreases j, 1
  {
    if j.Num? {
      y := RunNumber(b, keys, run, x, j, after);
    } else {
      y := RunClosedValue(b, keys, run, x, j);
      if j.Obj? || j.Arr? {
        y := RunInside(b, keys, run, x.i, y, j);
      }
      y := RunPlain(b, keys, run, y, after);
    }
  }

  /** A container that has just been reported, to behind its closing bracket. */
  lemma {:induction false} RunInside(b: string, keys: seq<string>, run: Scan -> seq<Field>, p: nat, x: Scan, j: Json) returns (y: Scan)
    requires IsRun(b, keys, run) && Valid(j) && Scannable(j) && (j.Obj? || j.Arr?) && At(b, p, Print(j))
    requires Ready(b, x, if j.Obj? || Enters(b, p + 1) then p + 1 else p + |Print(j)|, x.res)
    ensures Ready(b, y, p + |Print(j)|, x.res + Requested(j, keys)) && run(x) == run(y)
    decreases j, 0
  {
    var open := if j.Arr? then "[" else "{";
    InsideAt(b, p, j);
    if j.Obj? {
      y := RunObjectBody(b, keys, run, x, j.pairs, j.blank);
    } else {
      BodyText(j);
      ListEntered(b, p + 1, j.items, j.blank);
      y := x;
      if IsEntered(j.items, j.blank) {
        y := RunListBody(b, keys, run, x, j.items, j.blank);
      }
    }
  }

  lemma BodyText(j: Json)
    requires j.Arr?
    ensures Between(j) + "]" == j.blank + (PrintItems(j.items) + "]")
  {
    Regroup(j.blank, PrintItems(j.items), "]");
  }

  /** From behind an object's opening brace to behind its closing one. */
  lemma {:induction false} RunObjectBody(b: string, keys: seq<string>, run: Scan -> seq<Field>, x: Scan, pairs: seq<Pair>, blank: string) returns (y: Scan)
    requires IsRun(b, keys, run) && Ready(b, x, x.i, x.res) && At(b, x.i, (blank + PrintPairs(pairs)) + "}")
    requires Blank(blank) && forall p <- pairs :: PairOk(p) && Valid(p.value) && Scannable(p.value)
    ensures Ready(b, y, x.i + |blank + PrintPairs(pairs)| + 1, x.res + OfPairs(pairs, keys)) && run(x) == run(y)
    decreases pairs, |pairs| + 1
  {
    Regroup(blank, PrintPairs(pairs), "}");
    AtSplit(b, x.i, blank, PrintPairs(pairs) + "}");
    y := RunPlain(b, keys, run, x, blank);
    if pairs == [] {
      assert PrintPairs(pairs) == "" && "" + "}" == "}";
      y := RunPlain(b, keys, run, y, "}");
    } else {
      y := RunPairs(b, keys, run, y, pairs);
    }
  }

  /** A member and the delimiter behind it. */
  lemma {:induction false} RunPair(b: string, keys: seq<string>, run: Scan -> seq<Field>, x: Scan, p: Pair, delim: string) returns (y: Scan)
    requires IsRun(b, keys, run) && Ready(b, x, x.i, x.res) && PairOk(p) && Valid(p.value) && Scannable(p.value)
    requires At(b, x.i, PrintPair(p) + delim) && delim in {",", "}"}
    ensures Ready(b, y, x.i + |PrintPair(p)| + |delim|, x.res + OfPair(p, keys)) && run(x) == run(y)
    decreases p, 0
  {
    var after := p.trail + delim;
    PairText(p, delim);
    AtSplit(b, x.i, p.lead, Quoted(p.key) + (p.gap + (":" + (p.mid + (Print(p.value) + after)))));
    y := RunPlain(b, keys, run, x, p.lead);
    y := RunKey(b, keys, run, y, p, Print(p.value) + after);
    AtSplit(b, y.i, Print(p.value), after);
    BehindValue(p.trail, delim);
    y := RunValue(b, keys, run, y, p.value, after);
    ReportedPair(x.res, p, keys);
  }

  lemma ReportedPair(res: seq<Field>, p: Pair, keys: seq<string>)
    ensures (if p.key in keys then res + [Field(p.key, Print(p.value))] else res) + Requested(p.value, keys) == res + OfPair(p, keys)
  {
  }

  /** The members of an object and its closing brace. */
  lemma {:induction false} RunPairs(b: string, keys: seq<string>, run: Scan -> seq<Field>, x: Scan, pairs: seq<Pair>) returns (y: Scan)
    requires IsRun(b, keys, run) && Ready(b, x, x.i, x.res) && pairs != []
    requires At(b, x.i, PrintPairs(pairs) + "}")
    requires forall p <- pairs :: PairOk(p) && Valid(p.value) && Scannable(p.value)
    ensures Ready(b, y, x.i + |PrintPairs(pairs)| + 1, x.res + OfPairs(pairs, keys)) && run(x) == run(y)
    decreases pairs, |pairs|
  {
    assert pairs[0] in pairs && forall q <- pairs[1..] :: q in pairs;
    FirstPairAt(b, x.i, pairs);
    y := RunPair(b, keys, run, x, pairs[0], Delimiter(|pairs|, "}"));
    FirstReported(x.res, pairs, keys);
    if |pairs| > 1 {
      y := RunPairs(b, keys, run, y, pairs[1..]);
    }
  }

  lemma FirstReported(res: seq<Field>, pairs: seq<Pair>, keys: seq<string>)
    requires pairs != []
    ensures res + OfPairs(pairs, keys) == res + OfPair(pairs[0], keys) + OfPairs(pairs[1..], keys)
    ensures |pairs| == 1 ==> res + OfPairs(pairs, keys) == res + OfPair(pairs[0], keys)
  {
  }

  /** From behind a list's opening bracket to behind its closing one. */
  lemma {:induction false} RunListBody(b: string, keys: seq<string>, run: Scan -> seq<Field>, x: Scan, items: seq<Item>, blank: string) returns (y: Scan)
    requires IsRun(b, keys, run) && Ready(b, x, x.i, x.res) && At(b, x.i, (blank + PrintItems(items)) + "]")
    requires Valid(Arr(items, blank)) && forall i <- items :: ScannableItem(i.value)
    ensures Ready(b, y, x.i + |blank + PrintItems(items)| + 1, x.res + OfItems(items, keys)) && run(x) == run(y)
    decreases items, |items| + 1
  {
    Regroup(blank, PrintItems(items), "]");
    AtSplit(b, x.i, blank, PrintItems(items) + "]");
    y := RunPlain(b, keys, run, x, blank);
    if items == [] {
      assert PrintItems(items) == "" && "" + "]" == "]";
      y := RunPlain(b, keys, run, y, "]");
    } else {
      y := RunItems(b, keys, run, y, items);
    }
  }

  /** The items of a list that is scanned from inside, and its closing bracket. */
  lemma {:induction false} RunItems(b: string, keys: seq<string>, run: Scan -> seq<Field>, x: Scan, items: seq<Item>) returns (y: Scan)
    requires IsRun(b, keys, run) && Ready(b, x, x.i, x.res) && items != []
    requires At(b, x.i, PrintItems(items) + "]")
    requires forall i <- items :: Blank(i.lead) && Valid(i.value) && Blank(i.trail) && ScannableItem(i.value)
    ensures Ready(b, y, x.i + |PrintItems(items)| + 1, x.res + OfItems(items, keys)) && run(x) == run(y)
    decreases items, |items|
  {
    assert items[0] in items && forall q <- items[1..] :: q in items;
    FirstItemAt(b, x.i, items);
    y := RunSpacedItem(b, keys, run, x, items[0], Delimiter(|items|, "]"));
    FirstItemReported(x.res, items, keys);
    if |items| > 1 {
      y := RunItems(b, keys, run, y, items[1..]);
    }
  }

  lemma FirstItemReported(res: seq<Field>, items: seq<Item>, keys: seq<string>)
    requires items != []
    ensures res + OfItems(items, keys) == res + OfItem(items[0].value, keys) + OfItems(items[1..], keys)
    ensures |items| == 1 ==> res + OfItems(items, keys) == res + OfItem(items[0].value, keys)
  {
  }

  /** An item with the white space around it, and the delimiter behind it. */
  lemma {:induction false} RunSpacedItem(b: string, keys: seq<string>, run: Scan -> seq<Field>, x: Scan, item: Item, delim: string) returns (y: Scan)
    requires IsRun(b, keys, run) && Ready(b, x, x.i, x.res) && At(b, x.i, PrintItem(item) + delim) && delim in {",", "]"}
    requires Blank(item.lead) && Valid(item.value) && Blank(item.trail) && ScannableItem(item.value)
    ensures Ready(b, y, x.i + |PrintItem(item)| + |delim|, x.res + OfItem(item.value, keys)) && run(x) == run(y)
    decreases item, 0
  {
    var w := Print(item.value);
    ItemText(item, delim);
    AtSplit(b, x.i, item.lead, w + (item.trail + delim));
    y := RunPlain(b, keys, run, x, item.lead);
    AtSplit(b, y.i, w, item.trail + delim);
    y := RunItem(b, keys, run, y, item.value);
    y := RunPlain(b, keys, run, y, item.trail + delim);
  }

  /** A value where a key may start. */
  lemma {:induction false} RunItem(b: string, keys: seq<string>, run: Scan -> seq<Field>, x: Scan, j: Json) returns (y: Scan)
    requires IsRun(b, keys, run) && Ready(b, x, x.i, x.res) && At(b, x.i, Print(j))
    requires Valid(j) && ScannableItem(j)
    ensures Ready(b, y, x.i + |Print(j)|, x.res + OfItem(j, keys)) && run(x) == run(y)
    decreases j, 1
  {
    if j.Obj? || j.Arr? {
      InsideAt(b, x.i, j);
      AtByte(b, x.i, Print(j));
      y := RunPlain(b, keys, run, x, [Print(j)[0]]);
      if j.Obj? {
        y := RunObjectBody(b, keys, run, y, j.pairs, j.blank);
      } else {
        y := RunListBody(b, keys, run, y, j.items, j.blank);
      }
    } else {
      PlainBytes(j);
      y := RunPlain(b, keys, run, x, Print(j));
    }
  }

  /**
   On every JSON text, whatever white space is between its tokens, the scan reports exactly the requested pairs, each
   with its exact bytes, an object before what it nests, provided no list that is scanned from inside holds a bare string.
   */
  lemma GetPrinted(front: string, j: Json, back: string, keys: seq<string>)
    requires Blank(front) && Valid(j) && ScannableItem(j) && Blank(back)
    ensures JsonGet.Run(front + (Print(j) + back), keys, START) == OfItem(j, keys)
  {
    var b := front + (Print(j) + back);
    var run := TheRun(b, keys);
    assert At(b, 0, b);
    AtSplit(b, 0, front, Print(j) + back);
    var y := RunPlain(b, keys, run, START, front);
    AtSplit(b, y.i, Print(j), back);
    y := RunItem(b, keys, run, y, j);
    y := RunPlain(b, keys, run, y, back);
    assert y.res == OfItem(j, keys);
  }

  // ---- Where the scan goes wrong ----

  /** An item without white space around it. */
  function Bare(j: Json): Item {
    Item("", j, "")
  }

  function StrayList(): Json {
    Arr([Bare(Obj([], "")), Bare(Str("k")), Bare(Str(":1"))], "")
  }

  lemma BareText(j: Json)
    ensures PrintItem(Bare(j)) == Print(j)
  {
  }

  lemma StrayIsValid()
    ensures Valid(StrayList()) && OfItem(StrayList(), ["k"]) == []
  {
    var items := StrayList().items;
    assert items[1..] == [Bare(Str("k")), Bare(Str(":1"))] && items[1..][1..] == [Bare(Str(":1"))];
    assert "k"[1..] == "" && ":1"[1..] == "1" && "1"[1..] == "";
    assert RawOk("1", false) && RawOk("k", false) && RawOk(":1", false);
    assert OfItems(items[1..][1..], ["k"]) == [] && OfItems(items[1..], ["k"]) == [];
  }

  lemma SeparatedThree(a: string, b: string, c: string)
    ensures Separated([a, b, c]) == a + ("," + (b + ("," + c)))
  {
    assert [a, b, c][1..] == [b, c] && [b, c][1..] == [c];
    assert Separated([c]) == c && Separated([b, c]) == b + ("," + c);
  }

  lemma EmptyText()
    ensures Print(Obj([], "")) == "{}"
  {
    assert PairTexts([]) == [];
    assert "{" + ("" + "") + "}" == "{}";
  }

  lemma StrayTexts()
    ensures ItemTexts(StrayList().items) == ["{}", "\"k\"", "\":1\""]
  {
    EmptyText();
    BareText(Obj([], ""));
    BareText(Str("k"));
    BareText(Str(":1"));
    var ws := ItemTexts(StrayList().items);
    assert Quoted("k") == "\"k\"" && Quoted(":1") == "\":1\"";
    assert |ws| == 3 && ws[0] == "{}" && ws[1] == "\"k\"" && ws[2] == "\":1\"";
  }

  lemma StrayText()
    ensures Print(StrayList()) == "[{},\"k\",\":1\"]"
  {
    StrayTexts();
    SeparatedThree("{}", "\"k\"", "\":1\"");
    var s := "{},\"k\",\":1\"";
    assert "{}" + ("," + ("\"k\"" + ("," + "\":1\""))) == s;
    assert PrintItems(StrayList().items) == s;
    assert "[" + ("" + s) + "]" == "[{},\"k\",\":1\"]";
  }

  lemma StrayTail(b: string, keys: seq<string>, run: Scan -> seq<Field>, x: Scan) returns (y: Scan)
    requires IsRun(b, keys, run) && ScanOk(b, x) && x.i == 7 && At(b, 7, ",\":1\"") && keys == ["k"]
    requires x.m == AT_COLON && x.k == "k" && x.res == []
    ensures Ready(b, y, 12, [Field("k", "1")]) && run(x) == run(y)
  {
    var w := ",\":1\"";
    assert w[0] == b[7 + 0] && w[1] == b[7 + 1] && w[2] == b[7 + 2] && w[3] == b[7 + 3] && w[4] == b[7 + 4];
    y := RunStep(b, keys, run, x, AT_COLON, Quiet);
    y := RunStep(b, keys, run, y, Control(Colon, 0, true, 0), Quiet);
    y := RunStep(b, keys, run, y, Control(Value, 0, true, 0), Quiet);
    y := RunStep(b, keys, run, y, Control(NumClose, 0, true, 0), BeginValue);
    y := RunStep(b, keys, run, y, IDLE, EndBefore);
    assert b[10..11] == "1";
  }

  lemma StrayRun(b: string, keys: seq<string>, run: Scan -> seq<Field>) returns (y: Scan)
    requires IsRun(b, keys, run) && b == "[{},\"k\",\":1\"]" && keys == ["k"]
    ensures Ready(b, y, |b|, [Field("k", "1")]) && run(START) == run(y)
  {
    assert b == "[{}," + ("\"k\"" + (",\":1\"" + "]"));
    assert At(b, 0, b);
    AtSplit(b, 0, "[{},", "\"k\"" + (",\":1\"" + "]"));
    AtSplit(b, 4, "\"k\"", ",\":1\"" + "]");
    AtSplit(b, 7, ",\":1\"", "]");
    assert RawOk("k", false) && Quoted("k") == "\"k\"";
    y := RunPlain(b, keys, run, START, "[{},");
    y := RunQuoted(b, keys, run, y, "k");
    y := StrayTail(b, keys, run, y);
    y := RunPlain(b, keys, run, y, "]");
  }

  /**
   The proviso is needed: in a list that opens with an object, a string that
   starts with a colon makes the scan report a pair that is not in the tree.
   */
  lemma StrayStringMisread()
    ensures var j := StrayList();
      && Valid(j) && OfItem(j, ["k"]) == []
      && JsonGet.Run(Print(j), ["k"], START) == [Field("k", "1")]
  {
    var b := "[{},\"k\",\":1\"]";
    StrayIsValid();
    StrayText();
    var run := TheRun(b, ["k"]);
    var x := StrayRun(b, ["k"], run);
  }

  /** An object with a list of one object with one pair. */
  function Listed(blank: string): Json {
    Obj([Pair("", "a", "", "", Arr([Bare(Inner())], blank), "")], "")
  }

  /** And a carriage return behind the list's bracket hides what the list holds, which a newline does not. */
  lemma ReturnHidesList()
    ensures JsonGet.Run(Print(Listed("\r")), ["k"], START) == []
    ensures JsonGet.Run(Print(Listed("\n")), ["k"], START) == [Field("k", "1")]
  {
    ListedPairs("\r");
    ListedPairs("\n");
  }

  lemma ListedPairs(blank: string)
    requires |blank| == 1 && Blank(blank)
    ensures JsonGet.Run(Print(Listed(blank)), ["k"], START) == if blank[0] == '\r' then [] else [Field("k", "1")]
  {
    var j := Listed(blank);
    ListedValid(blank);
    GetPrinted("", j, "", ["k"]);
    assert "" + (Print(j) + "") == Print(j);
    var list := j.pairs[0].value;
    InnerPairs();
    assert list.items[1..] == [] && j.pairs[1..] == [];
    assert OfItems(list.items, ["k"]) == [Field("k", "1")];
    assert '\r' in blank <==> blank[0] == '\r';
    assert Requested(list, ["k"]) == if blank[0] == '\r' then [] else [Field("k", "1")];
    assert OfPair(j.pairs[0], ["k"]) == Requested(list, ["k"]);
    assert OfPairs(j.pairs, ["k"]) == Requested(list, ["k"]);
  }

  function Inner(): Json {
    Obj([Pair("", "k", "", "", Num("1"), "")], "")
  }

  lemma InnerPairs()
    ensures OfItem(Inner(), ["k"]) == [Field("k", "1")] && OfItem(Inner(), ["k"]) + [] == [Field("k", "1")]
  {
    var p := Inner().pairs[0];
    assert Inner().pairs[1..] == [];
    assert OfPair(p, ["k"]) == [Field("k", "1")];
  }

  lemma ListedValid(blank: string)
    requires Blank(blank)
    ensures Valid(Listed(blank)) && ScannableItem(Listed(blank))
  {
    assert RawOk("a", false) && RawOk("k", false);
    assert SkipDigits("1") == "" && Number("1");
    assert Valid(Inner()) && ScannableItem(Inner());
    var list := Listed(blank).pairs[0].value;
    assert Valid(list) && Scannable(list);
  }
}
