/**
 What `FilterAliased` writes for a JSON text, whatever white space is between
 its tokens: the objects with the requested pairs only, renamed.
 */
module JsonKept {
  import opened Common
  import opened Json
  import opened JsonBytes
  import opened JsonFilter

  // ---- Raw newlines and tabs ----

  predicate NoRaw(s: string) {
    forall c <- s :: !RawSpace(c)
  }

  /** Strings and keys hold no raw newline or tab (RFC 8259 wants them escaped there). */
  predicate Escaped(j: Json) {
    match j
    case Str(raw) => NoRaw(raw)
    case Arr(items, _) => forall x <- items :: Escaped(x.value)
    case Obj(pairs, _) => forall p <- pairs :: NoRaw(p.key) && Escaped(p.value)
    case _ => true
  }

  /** The same text without newlines and tabs between its tokens. */
  function Tidy(j: Json): Json
    decreases j, 0
  {
    match j
    case Arr(items, blank) => Arr(TidyItems(items), Cleaned(blank))
    case Obj(pairs, blank) => Obj(TidyPairs(pairs), Cleaned(blank))
    case _ => j
  }

  function TidyItem(x: Item): Item
    decreases x, 1
  {
    Item(Cleaned(x.lead), Tidy(x.value), Cleaned(x.trail))
  }

  function TidyItems(items: seq<Item>): (r: seq<Item>)
    ensures |r| == |items|
    decreases items, 2
  {
    seq(|items|, i requires 0 <= i < |items| => TidyItem(items[i]))
  }

  function TidyPair(p: Pair): Pair
    decreases p, 1
  {
    Pair(Cleaned(p.lead), p.key, Cleaned(p.gap), Cleaned(p.mid), Tidy(p.value), Cleaned(p.trail))
  }

  function TidyPairs(pairs: seq<Pair>): (r: seq<Pair>)
    ensures |r| == |pairs|
    decreases pairs, 2
  {
    seq(|pairs|, i requires 0 <= i < |pairs| => TidyPair(pairs[i]))
  }

  lemma CleanedTwo(u: string, w: string, u': string, w': string)
    requires Cleaned(u) == u' && Cleaned(w) == w'
    ensures Cleaned(u + w) == u' + w'
  {
    CleanedAppend(u, w);
  }

  lemma CleanedQuoted(s: string)
    requires NoRaw(s)
    ensures Cleaned(Quoted(s)) == Quoted(s)
  {
    CleanedSame(Quoted(s));
  }

  function CleanedAll(ws: seq<string>): (r: seq<string>)
    ensures |r| == |ws|
  {
    seq(|ws|, i requires 0 <= i < |ws| => Cleaned(ws[i]))
  }

  lemma {:induction false} CleanedSeparated(ws: seq<string>)
    ensures Cleaned(Separated(ws)) == Separated(CleanedAll(ws))
  {
    if |ws| > 1 {
      CleanedSeparated(ws[1..]);
      assert CleanedAll(ws)[1..] == CleanedAll(ws[1..]);
      CleanedSame(",");
      CleanedTwo(",", Separated(ws[1..]), ",", Separated(CleanedAll(ws[1..])));
      CleanedTwo(ws[0], "," + Separated(ws[1..]), Cleaned(ws[0]), "," + Separated(CleanedAll(ws[1..])));
    }
  }

  /** Without raw newlines and tabs the text is that of the tidied tree. */
  lemma {:induction false} CleanedPrint(j: Json)
    requires Valid(j) && Escaped(j)
    ensures Cleaned(Print(j)) == Print(Tidy(j))
    decreases j, 0
  {
    match j
    case Str(raw) => CleanedQuoted(raw);
    case Arr(items, blank) =>
      CleanedItems(items);
      CleanedContainer("[", blank, PrintItems(items), "]", PrintItems(TidyItems(items)));
    case Obj(pairs, blank) =>
      CleanedPairs(pairs);
      CleanedContainer("{", blank, PrintPairs(pairs), "}", PrintPairs(TidyPairs(pairs)));
    case _ =>
      PlainClean(j);
      CleanedSame(Print(j));
  }

  lemma PlainClean(j: Json)
    requires Valid(j) && (j.Nul? || j.Bool? || j.Num?)
    ensures NoRaw(Print(j))
  {
    if j.Num? {
      NumberBytes(j.text);
    } else if j.Bool? {
      var t, l := j.text, Lower(j.text);
      if l == "true" {
        assert l[0] == 't' && l[1] == 'r' && l[2] == 'u' && l[3] == 'e' && |t| == 4;
      } else {
        assert l[0] == 'f' && l[1] == 'a' && l[2] == 'l' && l[3] == 's' && l[4] == 'e' && |t| == 5;
      }
    }
  }

  lemma CleanedContainer(open: string, blank: string, body: string, close: string, body': string)
    requires NoRaw(open) && NoRaw(close) && Cleaned(body) == body'
    ensures Cleaned(open + (blank + body) + close) == open + (Cleaned(blank) + body') + close
  {
    CleanedSame(open);
    CleanedSame(close);
    CleanedTwo(blank, body, Cleaned(blank), body');
    CleanedTwo(open, blank + body, open, Cleaned(blank) + body');
    CleanedTwo(open + (blank + body), close, open + (Cleaned(blank) + body'), close);
  }

  lemma {:induction false} CleanedItems(items: seq<Item>)
    requires forall x <- items :: Blank(x.lead) && Valid(x.value) && Blank(x.trail) && Escaped(x.value)
    ensures Cleaned(PrintItems(items)) == PrintItems(TidyItems(items))
    decreases items, 1
  {
    var ws := ItemTexts(items);
    CleanedSeparated(ws);
    forall i | 0 <= i < |items| ensures Cleaned(ws[i]) == PrintItem(TidyItem(items[i])) {
      assert items[i] in items;
      CleanedPrint(items[i].value);
      CleanedItem(items[i]);
    }
    assert CleanedAll(ws) == ItemTexts(TidyItems(items));
  }

  lemma CleanedItem(x: Item)
    requires Cleaned(Print(x.value)) == Print(Tidy(x.value))
    ensures Cleaned(PrintItem(x)) == PrintItem(TidyItem(x))
  {
    CleanedTwo(Print(x.value), x.trail, Print(Tidy(x.value)), Cleaned(x.trail));
    CleanedTwo(x.lead, Print(x.value) + x.trail, Cleaned(x.lead), Print(Tidy(x.value)) + Cleaned(x.trail));
  }

  lemma {:induction false} CleanedPairs(pairs: seq<Pair>)
    requires forall p <- pairs :: PairOk(p) && Valid(p.value) && NoRaw(p.key) && Escaped(p.value)
    ensures Cleaned(PrintPairs(pairs)) == PrintPairs(TidyPairs(pairs))
    decreases pairs, 1
  {
    var ws := PairTexts(pairs);
    CleanedSeparated(ws);
    forall i | 0 <= i < |pairs| ensures Cleaned(ws[i]) == PrintPair(TidyPair(pairs[i])) {
      assert pairs[i] in pairs;
      CleanedPrint(pairs[i].value);
      CleanedPair(pairs[i]);
    }
    assert CleanedAll(ws) == PairTexts(TidyPairs(pairs));
  }

  /** What is behind a key: the colon, the value, and the white space around them. */
  function BehindKey(p: Pair): string {
    p.gap + (":" + (p.mid + Print(p.value)))
  }

  lemma CleanedBehind(p: Pair)
    requires Cleaned(Print(p.value)) == Print(Tidy(p.value))
    ensures Cleaned(BehindKey(p)) == Cleaned(p.gap) + (":" + (Cleaned(p.mid) + Print(Tidy(p.value))))
  {
    var v, v' := Print(p.value), Print(Tidy(p.value));
    CleanedSame(":");
    CleanedTwo(p.mid, v, Cleaned(p.mid), v');
    CleanedTwo(":", p.mid + v, ":", Cleaned(p.mid) + v');
    CleanedTwo(p.gap, ":" + (p.mid + v), Cleaned(p.gap), ":" + (Cleaned(p.mid) + v'));
  }

  lemma CleanedPair(p: Pair)
    requires NoRaw(p.key) && Cleaned(Print(p.value)) == Print(Tidy(p.value))
    ensures Cleaned(PrintPair(p)) == PrintPair(TidyPair(p))
  {
    var v, v', trail := Print(p.value), Print(Tidy(p.value)), Cleaned(p.trail);
    var gap, mid := Cleaned(p.gap), Cleaned(p.mid);
    CleanedSame(":");
    CleanedQuoted(p.key);
    CleanedTwo(v, p.trail, v', trail);
    CleanedTwo(p.mid, v + p.trail, mid, v' + trail);
    CleanedTwo(":", p.mid + (v + p.trail), ":", mid + (v' + trail));
    CleanedTwo(p.gap, ":" + (p.mid + (v + p.trail)), gap, ":" + (mid + (v' + trail)));
    CleanedTwo(Quoted(p.key), p.gap + (":" + (p.mid + (v + p.trail))), Quoted(p.key), gap + (":" + (mid + (v' + trail))));
    CleanedTwo(p.lead, Quoted(p.key) + (p.gap + (":" + (p.mid + (v + p.trail)))),
               Cleaned(p.lead), Quoted(p.key) + (gap + (":" + (mid + (v' + trail)))));
  }

  // ---- The kept tree ----

  function OutName(f: FilterField): string {
    if Renames(f) then f.alias else f.key
  }

  /** The pair as it is written under a name: without white space around it, and without newlines and tabs inside. */
  function Kept(p: Pair, name: string): Pair {
    Pair("", name, Cleaned(p.gap), Cleaned(p.mid), Tidy(p.value), "")
  }

  /** One source pair, once for every requested field with its key, in request order. */
  function KeepPair(p: Pair, fields: seq<FilterField>): seq<Pair> {
    if fields == [] then []
    else (if fields[0].key == p.key then [Kept(p, OutName(fields[0]))] else []) + KeepPair(p, fields[1..])
  }

  function KeepPairs(pairs: seq<Pair>, fields: seq<FilterField>): seq<Pair> {
    if pairs == [] then [] else KeepPair(pairs[0], fields) + KeepPairs(pairs[1..], fields)
  }

  /** The same structure with the kept pairs only. What is not at the top of it is untouched. */
  function Keep(j: Json, fields: seq<FilterField>): Json
    requires j.Obj? || (j.Arr? && forall o <- j.items :: o.value.Obj?)
  {
    match j
    case Obj(pairs, _) => Obj(KeepPairs(pairs, fields), "")
    case Arr(items, _) =>
      Arr(seq(|items|, i requires 0 <= i < |items| => Item("", Obj(KeepPairs(items[i].value.pairs, fields), ""), "")), "")
  }

  /** The source bytes of a pair, from the quote of its key to the last byte of its value. */
  function Source(p: Pair): string {
    Quoted(p.key) + BehindKey(p)
  }

  predicate Clean(p: Pair) {
    PairOk(p) && Valid(p.value) && NoRaw(p.key) && Escaped(p.value)
  }

  /** What a requested field writes for a source pair is the pair under its output name. */
  lemma WrittenOne(p: Pair, f: FilterField)
    requires f.key == p.key && Clean(p)
    ensures |p.key| + 2 <= |Source(p)| && Written(f, p.key, Source(p)) == PrintPair(Kept(p, OutName(f)))
  {
    CleanedPrint(p.value);
    CleanedBehind(p);
    CleanedQuoted(p.key);
    CleanedTwo(Quoted(p.key), BehindKey(p), Quoted(p.key), Cleaned(BehindKey(p)));
    assert Source(p)[|p.key| + 2..] == BehindKey(p);
    KeptText(p, OutName(f));
  }

  lemma KeptText(p: Pair, name: string)
    ensures PrintPair(Kept(p, name)) == Quoted(name) + (Cleaned(p.gap) + (":" + (Cleaned(p.mid) + Print(Tidy(p.value)))))
  {
    var v := Print(Tidy(p.value));
    assert v + "" == v;
    var w := Quoted(name) + (Cleaned(p.gap) + (":" + (Cleaned(p.mid) + v)));
    assert "" + w == w;
  }

  lemma KeptTexts(p: Pair, ps: seq<Pair>)
    ensures PairTexts([p] + ps) == [PrintPair(p)] + PairTexts(ps)
  {
  }

  lemma {:induction false} WrittenIsKept(p: Pair, fields: seq<FilterField>)
    requires Clean(p)
    ensures |p.key| + 2 <= |Source(p)| && AllWritten(fields, p.key, Source(p)) == PairTexts(KeepPair(p, fields))
    decreases |fields|
  {
    assert |Source(p)| == |p.key| + 2 + |BehindKey(p)|;
    if fields != [] {
      WrittenIsKept(p, fields[1..]);
      if fields[0].key == p.key {
        WrittenOne(p, fields[0]);
        KeptTexts(Kept(p, OutName(fields[0])), KeepPair(p, fields[1..]));
      }
    }
  }

  /** Texts that are written one by one behind others are the same as all of them with commas between them. */
  lemma {:induction false} SeparatedOne(a: seq<string>, w: string)
    ensures Separated(a + [w]) == Separated(a) + ((if a == [] then "" else ",") + w)
  {
    if a == [] {
      assert a + [w] == [w] && "" + ("" + w) == w;
    } else if |a| == 1 {
      assert (a + [w])[1..] == [w] && (a + [w])[0] == a[0];
    } else {
      assert (a + [w])[1..] == a[1..] + [w];
      SeparatedOne(a[1..], w);
      Regroup(a[0], "," + Separated(a[1..]), "," + w);
      Regroup(",", Separated(a[1..]), "," + w);
    }
  }

  lemma {:induction false} SeparatedJoined(a: seq<string>, c: seq<string>)
    ensures Separated(a + c) == Separated(a) + Joined(|a|, c)
    decreases |c|
  {
    if c == [] {
      assert a + c == a;
    } else {
      assert a + c == (a + [c[0]]) + c[1..];
      SeparatedJoined(a + [c[0]], c[1..]);
      SeparatedOne(a, c[0]);
      Regroup(Separated(a), (if a == [] then "" else ",") + c[0], Joined(|a| + 1, c[1..]));
    }
  }

  lemma KeptAppend(done: seq<Pair>, more: seq<Pair>)
    ensures PrintPairs(done + more) == PrintPairs(done) + Joined(|done|, PairTexts(more))
  {
    assert PairTexts(done + more) == PairTexts(done) + PairTexts(more);
    SeparatedJoined(PairTexts(done), PairTexts(more));
  }

  // ---- Steps of the pass ----

  /** Outside of the places where keys start, quiet bytes only change the control state. */
  lemma {:induction false} RunGlide(b: string, fields: seq<FilterField>, run: Pass -> string, x: Pass, w: string, prev: char) returns (y: Pass)
    requires IsRun(b, fields, run) && PassOk(b, x) && At(b, x.i, w) && Glide(x.m, prev, w).Some?
    requires x.m.phase != Key && (x.m.phase in {Colon, Value} ==> Blank(w) && !x.m.instr && x.m.slash == 0)
    requires w != "" ==> prev == Before(b, x.i)
    ensures y == x.(i := x.i + |w|, m := Glide(x.m, prev, w).value)
    ensures PassOk(b, y) && run(x) == run(y)
    decreases |w|
  {
    if w == "" {
      y := x;
    } else {
      AtByte(b, x.i, w);
      assert w[0] in w && forall c <- w[1..] :: c in w;
      var (m, a) := Next(x.m, w[0], prev);
      var z := RunStep(b, fields, run, x, m, a);
      y := RunGlide(b, fields, run, z, w[1..], w[0]);
    }
  }

  /** White space where a colon or a value is expected is skipped. */
  lemma RunSpace(b: string, fields: seq<FilterField>, run: Pass -> string, x: Pass, w: string) returns (y: Pass)
    requires IsRun(b, fields, run) && PassOk(b, x) && At(b, x.i, w) && Blank(w)
    requires x.m.phase in {Colon, Value} && !x.m.instr && x.m.slash == 0
    ensures y == x.(i := x.i + |w|) && PassOk(b, y) && run(x) == run(y)
  {
    if w == "" {
      y := x;
    } else {
      GlideSpace(x.m, Before(b, x.i), w);
      y := RunGlide(b, fields, run, x, w, Before(b, x.i));
    }
  }

  /** Nothing that is written, and nothing that opens a key. */
  predicate Skipped(w: string) {
    forall c <- w :: c != '"' && c != '[' && c != '{'
  }

  /** Where a key may start, other bytes than quotes and opening brackets are skipped. */
  lemma {:induction false} RunPlain(b: string, fields: seq<FilterField>, run: Pass -> string, x: Pass, w: string) returns (y: Pass)
    requires IsRun(b, fields, run) && PassOk(b, x) && x.m == IDLE.(slash := x.m.slash) && At(b, x.i, w) && Skipped(w)
    ensures y == x.(i := x.i + |w|, m := if w == "" then x.m else IDLE) && PassOk(b, y) && run(x) == run(y)
    decreases |w|
  {
    if w == "" {
      y := x;
    } else {
      AtByte(b, x.i, w);
      assert w[0] in w && forall c <- w[1..] :: c in w;
      y := RunStep(b, fields, run, x, IDLE, Quiet);
      y := RunPlain(b, fields, run, y, w[1..]);
    }
  }

  const AT_COLON := Control(Colon, 0, false, 0)

  /** From a key's opening quote to its closing quote. */
  lemma RunQuoted(b: string, fields: seq<FilterField>, run: Pass -> string, x: Pass, key: string) returns (y: Pass)
    requires IsRun(b, fields, run) && PassOk(b, x) && x.m == IDLE && RawOk(key, false) && At(b, x.i, Quoted(key))
    ensures y == x.(i := x.i + |key| + 2, m := AT_COLON, s := x.i, k := key) && PassOk(b, y) && run(x) == run(y)
  {
    AtSplit(b, x.i, "\"" + key, "\"");
    AtSplit(b, x.i, "\"", key);
    AtByte(b, x.i, "\"");
    var inKey := Control(KeyClose, 0, true, 0);
    var x1 := RunStep(b, fields, run, x, inKey, BeginKey);
    var slash := GlideRaw(inKey, '"', key);
    var x2 := RunGlide(b, fields, run, x1, key, '"');
    AtByte(b, x2.i, "\"");
    AtSlice(b, x.i + 1, key);
    y := RunStep(b, fields, run, x2, AT_COLON, EndKey);
  }

  /** From a key's opening quote to its value: the key, white space, the colon, white space. */
  lemma RunKey(b: string, fields: seq<FilterField>, run: Pass -> string, x: Pass, p: Pair, rest: string) returns (y: Pass)
    requires IsRun(b, fields, run) && PassOk(b, x) && x.m == IDLE && PairOk(p)
    requires At(b, x.i, Quoted(p.key) + (p.gap + (":" + (p.mid + rest))))
    ensures y == x.(i := x.i + |Quoted(p.key)| + |p.gap| + 1 + |p.mid|, m := AT_VALUE, s := x.i, k := p.key)
    ensures PassOk(b, y) && run(x) == run(y) && At(b, y.i, rest)
  {
    AtSplit(b, x.i, Quoted(p.key), p.gap + (":" + (p.mid + rest)));
    y := RunQuoted(b, fields, run, x, p.key);
    AtSplit(b, y.i, p.gap, ":" + (p.mid + rest));
    y := RunSpace(b, fields, run, y, p.gap);
    AtSplit(b, y.i, ":", p.mid + rest);
    AtByte(b, y.i, ":");
    y := RunStep(b, fields, run, y, AT_VALUE, Quiet);
    AtSplit(b, y.i, p.mid, rest);
    y := RunSpace(b, fields, run, y, p.mid);
  }

  /** The pass after the pair from `x.s` to byte e has been written. */
  predicate PairWritten(fields: seq<FilterField>, x: Pass, y: Pass, cb: string)
    requires |x.k| + 2 <= |cb|
  {
    var texts := AllWritten(fields, x.k, cb);
    y == x.(i := y.i, m := IDLE, out := x.out + Joined(x.field, texts), field := x.field + |texts|)
  }

  /** The first byte of a value. */
  lemma RunOpen(b: string, fields: seq<FilterField>, run: Pass -> string, x: Pass, j: Json) returns (y: Pass)
    requires IsRun(b, fields, run) && PassOk(b, x) && x.m == AT_VALUE && Valid(j) && At(b, x.i, Print(j))
    ensures |Print(j)| >= 1 && b[x.i] == Print(j)[0] && At(b, x.i + 1, Print(j)[1..])
    ensures y == x.(i := x.i + 1, m := Opened(j)) && PassOk(b, y) && run(x) == run(y)
  {
    ValueOpens(Before(b, x.i), j);
    AtByte(b, x.i, Print(j));
    y := RunStep(b, fields, run, x, Opened(j), BeginValue);
  }

  /** From inside a value to its last byte. */
  lemma RunToLastByte(b: string, fields: seq<FilterField>, run: Pass -> string, x: Pass, w: string) returns (y: Pass)
    requires IsRun(b, fields, run) && PassOk(b, x) && x.m.phase !in {Key, Colon, KeyClose, Value} && Closes(x.m, w)
    requires 1 <= x.i && At(b, x.i - 1, w)
    ensures PassOk(b, y) && run(x) == run(y) && y == x.(i := x.i + |w| - 2, m := y.m) && y.m.phase == x.m.phase
    ensures 1 <= y.i < |b| && Next(y.m, b[y.i], Before(b, y.i)) == (IDLE, EndValue)
  {
    var mid := w[1..|w| - 1];
    AtMiddle(b, x.i - 1, w);
    y := RunGlide(b, fields, run, x, mid, w[0]);
    GlideKeepsPhase(x.m, w[0], mid);
  }

  /** The last byte of a value. */
  lemma RunEnd(b: string, fields: seq<FilterField>, run: Pass -> string, x: Pass, cb: string) returns (y: Pass)
    requires IsRun(b, fields, run) && PassOk(b, x) && x.i < |b| && x.m.phase !in {Key, Colon, KeyClose, Value}
    requires Next(x.m, b[x.i], Before(b, x.i)) == (IDLE, EndValue)
    requires At(b, x.s, cb) && x.s + |cb| == x.i + 1
    ensures |x.k| + 2 <= |cb| && y.i == x.i + 1 && PassOk(b, y) && run(x) == run(y)
    ensures y.m == IDLE.(slash := y.m.slash) && PairWritten(fields, x, y.(m := IDLE), cb)
  {
    AtSlice(b, x.s, cb);
    y := RunStep(b, fields, run, x, IDLE, EndValue);
    NothingJoined(x.field, x.out);
  }

  lemma NothingJoined(n: nat, out: string)
    ensures out + Joined(n, []) == out
  {
  }

  lemma RunClosedValue(b: string, fields: seq<FilterField>, run: Pass -> string, x: Pass, j: Json, cb: string) returns (y: Pass)
    requires IsRun(b, fields, run) && PassOk(b, x) && x.m == AT_VALUE && Valid(j) && !j.Num?
    requires At(b, x.i, Print(j)) && x.s + |cb| == x.i + |Print(j)| && At(b, x.s, cb)
    ensures |x.k| + 2 <= |cb| && y.i == x.i + |Print(j)| && PassOk(b, y) && run(x) == run(y)
    ensures y.m == IDLE.(slash := y.m.slash) && PairWritten(fields, x, y.(m := IDLE), cb)
  {
    var x1 := RunOpen(b, fields, run, x, j);
    ValueCloses(j);
    var x2 := RunToLastByte(b, fields, run, x1, Print(j));
    y := RunEnd(b, fields, run, x2, cb);
  }

  lemma RunDigits(b: string, fields: seq<FilterField>, run: Pass -> string, x: Pass, j: Json) returns (y: Pass)
    requires IsRun(b, fields, run) && PassOk(b, x) && x.m == AT_VALUE && Valid(j) && j.Num? && At(b, x.i, Print(j))
    ensures y == x.(i := x.i + |Print(j)|, m := Opened(j)) && PassOk(b, y) && run(x) == run(y)
  {
    var w := Print(j);
    y := RunOpen(b, fields, run, x, j);
    NumberCloses(j, ',', ' ');
    y := RunGlide(b, fields, run, y, w[1..], w[0]);
  }

  /** A number and the byte that ends it. */
  lemma RunNumber(b: string, fields: seq<FilterField>, run: Pass -> string, x: Pass, j: Json, c: char, cb: string) returns (y: Pass)
    requires IsRun(b, fields, run) && PassOk(b, x) && x.m == AT_VALUE && Valid(j) && j.Num? && At(b, x.i, Print(j))
    requires x.i + |Print(j)| < |b| && b[x.i + |Print(j)|] == c && c in {',', '}', ']', ' ', '\t', '\n', '\r'}
    requires x.s + |cb| == x.i + |Print(j)| && At(b, x.s, cb)
    ensures |x.k| + 2 <= |cb| && y.i == x.i + |Print(j)| + 1 && PassOk(b, y) && run(x) == run(y)
    ensures PairWritten(fields, x, y, cb)
  {
    var x1 := RunDigits(b, fields, run, x, j);
    NumberCloses(j, c, Before(b, x1.i));
    AtSlice(b, x.s, cb);
    y := RunStep(b, fields, run, x1, IDLE, EndBefore);
    NothingJoined(x.field, x.out);
  }

  /** A value and what follows it: its pair is written once per requested field. */
  lemma RunValue(b: string, fields: seq<FilterField>, run: Pass -> string, x: Pass, j: Json, after: string, cb: string) returns (y: Pass)
    requires IsRun(b, fields, run) && PassOk(b, x) && x.m == AT_VALUE && Valid(j)
    requires At(b, x.i, Print(j)) && At(b, x.i + |Print(j)|, after) && Behind(after)
    requires x.s + |cb| == x.i + |Print(j)| && At(b, x.s, cb)
    ensures |x.k| + 2 <= |cb| && y.i == x.i + |Print(j)| + |after| && PassOk(b, y) && run(x) == run(y)
    ensures PairWritten(fields, x, y, cb)
  {
    if j.Num? {
      AtByte(b, x.i + |Print(j)|, after);
      assert after[0] in after && forall c <- after[1..] :: c in after;
      y := RunNumber(b, fields, run, x, j, after[0], cb);
      y := RunPlain(b, fields, run, y, after[1..]);
    } else {
      y := RunClosedValue(b, fields, run, x, j, cb);
      y := RunPlain(b, fields, run, y, after);
    }
  }

  // ---- The pass over a tree ----

  lemma SourceAt(b: string, i: nat, p: Pair, after: string)
    requires At(b, i, Quoted(p.key) + (p.gap + (":" + (p.mid + (Print(p.value) + after)))))
    ensures At(b, i, Source(p)) && |Source(p)| == |Quoted(p.key)| + |p.gap| + 1 + |p.mid| + |Print(p.value)|
    ensures |p.key| + 2 <= |Source(p)|
  {
    var v := Print(p.value);
    Regroup(p.mid, v, after);
    Regroup(":", p.mid + v, after);
    Regroup(p.gap, ":" + (p.mid + v), after);
    AtFront(b, i, Quoted(p.key), BehindKey(p), after);
  }

  /** A member and the delimiter behind it. */
  lemma RunPair(b: string, fields: seq<FilterField>, run: Pass -> string, x: Pass, p: Pair, delim: string) returns (y: Pass, s: nat)
    requires IsRun(b, fields, run) && PassOk(b, x) && x.m == IDLE && Clean(p)
    requires At(b, x.i, PrintPair(p) + delim) && delim in {",", "}"}
    ensures |p.key| + 2 <= |Source(p)| && y.i == x.i + |PrintPair(p)| + |delim| && PassOk(b, y) && run(x) == run(y)
    ensures PairWritten(fields, x.(s := s, k := p.key), y, Source(p))
  {
    var after := p.trail + delim;
    PairText(p, delim);
    AtSplit(b, x.i, p.lead, Quoted(p.key) + (p.gap + (":" + (p.mid + (Print(p.value) + after)))));
    y := RunPlain(b, fields, run, x, p.lead);
    s := y.i;
    SourceAt(b, s, p, after);
    y := RunKey(b, fields, run, y, p, Print(p.value) + after);
    AtSplit(b, y.i, Print(p.value), after);
    BehindValue(p.trail, delim);
    y := RunValue(b, fields, run, y, p.value, after, Source(p));
  }

  /** Inside an object, whose kept pairs so far are `done`, with `base` written before them. */
  predicate InObject(b: string, x: Pass, base: string, done: seq<Pair>) {
    PassOk(b, x) && x.m == IDLE && x.out == base + PrintPairs(done) && x.field == |done|
  }

  lemma RunMember(b: string, fields: seq<FilterField>, run: Pass -> string, x: Pass, p: Pair, delim: string, base: string, done: seq<Pair>)
    returns (y: Pass)
    requires IsRun(b, fields, run) && InObject(b, x, base, done) && Clean(p)
    requires At(b, x.i, PrintPair(p) + delim) && delim in {",", "}"}
    ensures InObject(b, y, base, done + KeepPair(p, fields)) && run(x) == run(y)
    ensures y.i == x.i + |PrintPair(p)| + |delim| && y.item == x.item && y.isList == x.isList
  {
    var s;
    y, s := RunPair(b, fields, run, x, p, delim);
    WrittenIsKept(p, fields);
    KeptAppend(done, KeepPair(p, fields));
    Regroup(base, PrintPairs(done), Joined(|done|, PairTexts(KeepPair(p, fields))));
  }

  lemma KeepsFirst(done: seq<Pair>, pairs: seq<Pair>, fields: seq<FilterField>)
    requires pairs != []
    ensures done + KeepPairs(pairs, fields) == done + KeepPair(pairs[0], fields) + KeepPairs(pairs[1..], fields)
    ensures |pairs| == 1 ==> done + KeepPairs(pairs, fields) == done + KeepPair(pairs[0], fields)
  {
    var first, others := KeepPair(pairs[0], fields), KeepPairs(pairs[1..], fields);
    assert KeepPairs(pairs, fields) == first + others;
    assert done + (first + others) == done + first + others;
  }

  /** The members of an object and its closing brace. */
  lemma {:induction false} RunPairs(b: string, fields: seq<FilterField>, run: Pass -> string, x: Pass, pairs: seq<Pair>, base: string, done: seq<Pair>)
    returns (y: Pass)
    requires IsRun(b, fields, run) && InObject(b, x, base, done) && pairs != [] && forall p <- pairs :: Clean(p)
    requires At(b, x.i, PrintPairs(pairs) + "}")
    ensures InObject(b, y, base, done + KeepPairs(pairs, fields)) && run(x) == run(y)
    ensures y.i == x.i + |PrintPairs(pairs)| + 1 && y.item == x.item && y.isList == x.isList
    decreases |pairs|
  {
    assert pairs[0] in pairs && forall q <- pairs[1..] :: q in pairs;
    FirstPairAt(b, x.i, pairs);
    y := RunMember(b, fields, run, x, pairs[0], Delimiter(|pairs|, "}"), base, done);
    if |pairs| > 1 {
      y := RunPairs(b, fields, run, y, pairs[1..], base, done + KeepPair(pairs[0], fields));
    }
    KeepsFirst(done, pairs, fields);
  }

  /** From behind an object's opening brace to behind its closing one. */
  lemma RunBody(b: string, fields: seq<FilterField>, run: Pass -> string, x: Pass, pairs: seq<Pair>, blank: string, base: string) returns (y: Pass)
    requires IsRun(b, fields, run) && InObject(b, x, base, []) && Blank(blank) && forall p <- pairs :: Clean(p)
    requires At(b, x.i, (blank + PrintPairs(pairs)) + "}")
    ensures InObject(b, y, base, KeepPairs(pairs, fields)) && run(x) == run(y)
    ensures y.i == x.i + |blank + PrintPairs(pairs)| + 1 && y.item == x.item && y.isList == x.isList
  {
    Regroup(blank, PrintPairs(pairs), "}");
    AtSplit(b, x.i, blank, PrintPairs(pairs) + "}");
    y := RunPlain(b, fields, run, x, blank);
    if pairs == [] {
      assert PrintPairs(pairs) == "" && "" + "}" == "}";
      y := RunPlain(b, fields, run, y, "}");
    } else {
      y := RunPairs(b, fields, run, y, pairs, base, []);
      assert [] + KeepPairs(pairs, fields) == KeepPairs(pairs, fields);
    }
  }

  /** Between objects: with the brace that is still to come, the output is the print of the objects done. */
  predicate BetweenObjects(b: string, x: Pass, done: seq<string>) {
    && PassOk(b, x) && x.m == IDLE && x.item == |done|
    && x.out + (if done == [] then "" else "}") == (if x.isList then "[" else "") + Separated(done)
  }

  /** What is written for an object. */
  function ObjectText(pairs: seq<Pair>, fields: seq<FilterField>): string {
    "{" + PrintPairs(KeepPairs(pairs, fields)) + "}"
  }

  /** A whole object where a key may start. */
  lemma RunObject(b: string, fields: seq<FilterField>, run: Pass -> string, x: Pass, j: Json, done: seq<string>) returns (y: Pass)
    requires IsRun(b, fields, run) && BetweenObjects(b, x, done) && j.Obj? && Blank(j.blank) && forall p <- j.pairs :: Clean(p)
    requires At(b, x.i, Print(j))
    ensures BetweenObjects(b, y, done + [ObjectText(j.pairs, fields)]) && run(x) == run(y)
    ensures y.i == x.i + |Print(j)| && y.isList == x.isList
  {
    InsideAt(b, x.i, j);
    AtByte(b, x.i, Print(j));
    var z := RunStep(b, fields, run, x, IDLE, Quiet);
    assert z.out == x.out + (if done == [] then "{" else "},{");
    assert InObject(b, z, z.out, []) by {
      assert PairTexts([]) == [] && PrintPairs([]) == "" && z.out + "" == z.out;
    }
    y := RunBody(b, fields, run, z, j.pairs, j.blank, z.out);
    ObjectWritten(if x.isList then "[" else "", x.out, done, PrintPairs(KeepPairs(j.pairs, fields)), y.out);
  }

  lemma ObjectWritten(pre: string, before: string, done: seq<string>, body: string, out: string)
    requires before + (if done == [] then "" else "}") == pre + Separated(done)
    requires out == before + (if done == [] then "{" else "},{") + body
    ensures out + "}" == pre + Separated(done + ["{" + body + "}"])
  {
    var text := "{" + body + "}";
    SeparatedOne(done, text);
    if done == [] {
      assert before == before + "" == pre + "";
      assert out + "}" == before + text;
      assert Separated(done + [text]) == "" + ("" + text) == text;
    } else {
      assert out + "}" == (before + "}") + ("," + text);
      Regroup(pre, Separated(done), "," + text);
    }
  }

  function ObjectTexts(items: seq<Item>, fields: seq<FilterField>): (r: seq<string>)
    requires forall o <- items :: o.value.Obj?
    ensures |r| == |items|
  {
    seq(|items|, i requires 0 <= i < |items| => ObjectText(items[i].value.pairs, fields))
  }

  predicate CleanObject(o: Item) {
    Blank(o.lead) && Blank(o.trail) && o.value.Obj? && Blank(o.value.blank) && forall p <- o.value.pairs :: Clean(p)
  }

  /** An object with the white space around it, and the delimiter behind it. */
  lemma RunSpacedObject(b: string, fields: seq<FilterField>, run: Pass -> string, x: Pass, o: Item, delim: string, done: seq<string>) returns (y: Pass)
    requires IsRun(b, fields, run) && BetweenObjects(b, x, done) && CleanObject(o)
    requires At(b, x.i, PrintItem(o) + delim) && delim in {",", "]"}
    ensures BetweenObjects(b, y, done + [ObjectText(o.value.pairs, fields)]) && run(x) == run(y)
    ensures y.i == x.i + |PrintItem(o)| + |delim| && y.isList == x.isList
  {
    var w := Print(o.value);
    ItemText(o, delim);
    AtSplit(b, x.i, o.lead, w + (o.trail + delim));
    y := RunPlain(b, fields, run, x, o.lead);
    AtSplit(b, y.i, w, o.trail + delim);
    y := RunObject(b, fields, run, y, o.value, done);
    y := RunPlain(b, fields, run, y, o.trail + delim);
  }

  lemma TextsFirst(done: seq<string>, items: seq<Item>, fields: seq<FilterField>)
    requires items != [] && forall o <- items :: o.value.Obj?
    ensures done + ObjectTexts(items, fields) == done + [ObjectText(items[0].value.pairs, fields)] + ObjectTexts(items[1..], fields)
    ensures |items| == 1 ==> done + ObjectTexts(items, fields) == done + [ObjectText(items[0].value.pairs, fields)]
  {
  }

  lemma {:induction false} RunObjects(b: string, fields: seq<FilterField>, run: Pass -> string, x: Pass, items: seq<Item>, done: seq<string>) returns (y: Pass)
    requires IsRun(b, fields, run) && BetweenObjects(b, x, done) && items != [] && forall o <- items :: o.value.Obj? && CleanObject(o)
    requires At(b, x.i, PrintItems(items) + "]")
    ensures BetweenObjects(b, y, done + ObjectTexts(items, fields)) && run(x) == run(y)
    ensures y.i == x.i + |PrintItems(items)| + 1 && y.isList == x.isList
    decreases |items|
  {
    assert items[0] in items && forall q <- items[1..] :: q in items;
    FirstItemAt(b, x.i, items);
    y := RunSpacedObject(b, fields, run, x, items[0], Delimiter(|items|, "]"), done);
    TextsFirst(done, items, fields);
    if |items| > 1 {
      y := RunObjects(b, fields, run, y, items[1..], done + [ObjectText(items[0].value.pairs, fields)]);
    }
  }

  /**
   An object, whatever white space is between its tokens, comes out as the print of the object with the kept pairs:
   once per requested field, in request order, renamed, without raw newlines and tabs.
   */
  lemma FilterPrintedObject(front: string, j: Json, back: string, fields: seq<FilterField>)
    requires Blank(front) && Blank(back) && j.Obj? && Valid(j) && Escaped(j)
    ensures JsonFilter.Run(front + (Print(j) + back), fields, START) == Print(Keep(j, fields))
  {
    var b := front + (Print(j) + back);
    var run := TheRun(b, fields);
    assert At(b, 0, b);
    AtSplit(b, 0, front, Print(j) + back);
    var x := RunPlain(b, fields, run, START, front);
    AtSplit(b, x.i, Print(j), back);
    x := RunObject(b, fields, run, x, j, []);
    x := RunPlain(b, fields, run, x, back);
    ObjectClosed(x, j, fields);
  }

  lemma ObjectClosed(x: Pass, j: Json, fields: seq<FilterField>)
    requires j.Obj? && !x.isList && x.item == 1 && x.out + "}" == "" + Separated([] + [ObjectText(j.pairs, fields)])
    ensures JsonFilter.Close(x) == Print(Keep(j, fields))
  {
    var body, text := PrintPairs(KeepPairs(j.pairs, fields)), ObjectText(j.pairs, fields);
    assert [] + [text] == [text] && Separated([text]) == text && "" + text == text;
    assert JsonFilter.Close(x) == x.out + "}" + "";
    assert "" + body == body;
  }

  lemma KeptItems(items: seq<Item>, blank: string, fields: seq<FilterField>)
    requires forall o <- items :: o.value.Obj?
    ensures Print(Keep(Arr(items, blank), fields)) == "[" + Separated(ObjectTexts(items, fields)) + "]"
  {
    var kept := Keep(Arr(items, blank), fields).items;
    forall i | 0 <= i < |items| ensures PrintItem(kept[i]) == ObjectText(items[i].value.pairs, fields) {
      var body := PrintPairs(KeepPairs(items[i].value.pairs, fields));
      assert "" + body == body;
      var text := ObjectText(items[i].value.pairs, fields);
      assert "" + (text + "") == text;
    }
    assert ItemTexts(kept) == ObjectTexts(items, fields);
    var s := Separated(ItemTexts(kept));
    assert "" + s == s;
  }

  /** And so does a list of objects. */
  lemma FilterPrintedList(front: string, j: Json, back: string, fields: seq<FilterField>)
    requires Blank(front) && Blank(back) && j.Arr? && Valid(j) && Escaped(j) && forall o <- j.items :: o.value.Obj?
    ensures JsonFilter.Run(front + (Print(j) + back), fields, START) == Print(Keep(j, fields))
  {
    var b := front + (Print(j) + back);
    var run := TheRun(b, fields);
    assert At(b, 0, b);
    AtSplit(b, 0, front, Print(j) + back);
    var x := RunPlain(b, fields, run, START, front);
    AtSplit(b, x.i, Print(j), back);
    x := RunList(b, fields, run, x, j);
    x := RunPlain(b, fields, run, x, back);
    KeptItems(j.items, j.blank, fields);
    ListClosed(x, ObjectTexts(j.items, fields));
  }

  lemma ListClosed(x: Pass, done: seq<string>)
    requires x.isList && x.item == |done| && x.out + (if done == [] then "" else "}") == "[" + Separated(done)
    ensures JsonFilter.Close(x) == "[" + Separated(done) + "]"
  {
  }

  lemma RunList(b: string, fields: seq<FilterField>, run: Pass -> string, x: Pass, j: Json) returns (y: Pass)
    requires IsRun(b, fields, run) && j.Arr? && Valid(j) && Escaped(j) && forall o <- j.items :: o.value.Obj?
    requires x == START.(i := x.i, m := x.m) && x.m == IDLE && PassOk(b, x) && At(b, x.i, Print(j))
    ensures PassOk(b, y) && run(x) == run(y) && y.i == x.i + |Print(j)| && y.m == IDLE
    ensures y.isList && y.item == |j.items| && BetweenObjects(b, y, ObjectTexts(j.items, fields))
  {
    InsideAt(b, x.i, j);
    AtByte(b, x.i, Print(j));
    y := RunStep(b, fields, run, x, IDLE, Quiet);
    assert y.out == "[" && y.isList && BetweenObjects(b, y, []);
    Regroup(j.blank, PrintItems(j.items), "]");
    AtSplit(b, y.i, j.blank, PrintItems(j.items) + "]");
    y := RunPlain(b, fields, run, y, j.blank);
    if j.items == [] {
      assert PrintItems(j.items) == "" && "" + "]" == "]";
      y := RunPlain(b, fields, run, y, "]");
    } else {
      forall o | o in j.items ensures CleanObject(o) {
      }
      y := RunObjects(b, fields, run, y, j.items, []);
      assert [] + ObjectTexts(j.items, fields) == ObjectTexts(j.items, fields);
    }
  }

  // ---- The same tree ----

  /** The tree without any white space. */
  function Plain(j: Json): Json
    decreases j, 0
  {
    match j
    case Arr(items, _) => Arr(PlainItems(items), "")
    case Obj(pairs, _) => Obj(PlainPairs(pairs), "")
    case _ => j
  }

  function PlainItem(x: Item): Item
    decreases x, 1
  {
    Item("", Plain(x.value), "")
  }

  function PlainItems(items: seq<Item>): (r: seq<Item>)
    ensures |r| == |items|
    decreases items, 2
  {
    seq(|items|, i requires 0 <= i < |items| => PlainItem(items[i]))
  }

  function PlainPair(p: Pair): Pair
    decreases p, 1
  {
    Pair("", p.key, "", "", Plain(p.value), "")
  }

  function PlainPairs(pairs: seq<Pair>): (r: seq<Pair>)
    ensures |r| == |pairs|
    decreases pairs, 2
  {
    seq(|pairs|, i requires 0 <= i < |pairs| => PlainPair(pairs[i]))
  }

  /** Taking out newlines and tabs changes the tree as little as taking out all white space first. */
  lemma {:induction false} TidyIsSame(j: Json)
    ensures Plain(Tidy(j)) == Plain(j) && Tidy(Plain(j)) == Plain(j)
    decreases j
  {
    if j.Arr? {
      forall i | 0 <= i < |j.items|
        ensures PlainItem(TidyItem(j.items[i])) == PlainItem(j.items[i]) == TidyItem(PlainItem(j.items[i]))
      {
        TidyIsSame(j.items[i].value);
      }
      assert PlainItems(TidyItems(j.items)) == PlainItems(j.items) == TidyItems(PlainItems(j.items));
    } else if j.Obj? {
      forall i | 0 <= i < |j.pairs|
        ensures PlainPair(TidyPair(j.pairs[i])) == PlainPair(j.pairs[i]) == TidyPair(PlainPair(j.pairs[i]))
      {
        TidyIsSame(j.pairs[i].value);
      }
      assert PlainPairs(TidyPairs(j.pairs)) == PlainPairs(j.pairs) == TidyPairs(PlainPairs(j.pairs));
    }
  }

  lemma {:induction false} KeepPairSame(p: Pair, fields: seq<FilterField>)
    ensures PlainPairs(KeepPair(p, fields)) == KeepPair(PlainPair(p), fields)
  {
    if fields != [] {
      KeepPairSame(p, fields[1..]);
      TidyIsSame(p.value);
      PlainAppend(if fields[0].key == p.key then [Kept(p, OutName(fields[0]))] else [], KeepPair(p, fields[1..]));
    }
  }

  lemma PlainAppend(a: seq<Pair>, c: seq<Pair>)
    ensures PlainPairs(a + c) == PlainPairs(a) + PlainPairs(c)
  {
  }

  /** Filtering keeps and renames the same pairs of the same tree, whatever white space is in the text. */
  lemma {:induction false} KeepIsOfTree(pairs: seq<Pair>, fields: seq<FilterField>)
    ensures PlainPairs(KeepPairs(pairs, fields)) == KeepPairs(PlainPairs(pairs), fields)
  {
    if pairs != [] {
      KeepPairSame(pairs[0], fields);
      KeepIsOfTree(pairs[1..], fields);
      PlainAppend(KeepPair(pairs[0], fields), KeepPairs(pairs[1..], fields));
      assert PlainPairs(pairs)[1..] == PlainPairs(pairs[1..]);
    }
  }
}
