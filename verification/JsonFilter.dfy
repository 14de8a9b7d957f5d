/**
 `FilterAliased`: one pass over the bytes that keeps the requested pairs of an
 object, or of every object of a list, and renames them.
 */
module JsonFilter {
  import opened Common
  import opened Json
  import opened JsonBytes

  /** A pair to keep: the key to match, and the name to write instead of it, if any. */
  datatype FilterField = FilterField(key: string, alias: string)

  /** The state of the pass: position, control, key start, key, output, and what has been written of it. */
  datatype Pass = Pass(i: nat, m: Control, s: nat, k: string, out: string, isList: bool, item: nat, field: nat)

  const START := Pass(0, IDLE, 0, "", "", false, 0, 0)

  predicate PassOk(b: string, x: Pass) {
    && x.i <= |b|
    && (match x.m.phase
        case Key => true
        case KeyClose => x.s < x.i
        case Colon => x.s + |x.k| + 2 <= x.i
        case Value => x.s + |x.k| + 3 <= x.i
        case _ => x.s + |x.k| + 4 <= x.i)
  }

  // ---- What is written ----

  predicate RawSpace(c: char) {
    c == '\n' || c == '\t'
  }

  /** The bytes without raw newlines and tabs. */
  function Cleaned(s: string): string {
    if s == "" then "" else (if RawSpace(s[0]) then "" else [s[0]]) + Cleaned(s[1..])
  }

  predicate Renames(f: FilterField) {
    f.alias != "" && f.alias != f.key
  }

  /** What one requested field writes for the source pair `cb` with key `k`. */
  function Written(f: FilterField, k: string, cb: string): string
    requires |k| + 2 <= |cb|
  {
    if Renames(f) then "\"" + f.alias + "\"" + Cleaned(cb[|k| + 2..]) else Cleaned(cb)
  }

  /** What every requested field with key `k` writes, in request order. */
  function AllWritten(fields: seq<FilterField>, k: string, cb: string): seq<string>
    requires |k| + 2 <= |cb|
  {
    if fields == [] then []
    else (if fields[0].key == k then [Written(fields[0], k, cb)] else []) + AllWritten(fields[1..], k, cb)
  }

  /** The texts separated by commas, when n have been written before them. */
  function Joined(n: nat, texts: seq<string>): string
    decreases |texts|
  {
    if texts == [] then "" else (if n != 0 then "," else "") + texts[0] + Joined(n + 1, texts[1..])
  }

  lemma {:induction false} JoinedAppend(n: nat, a: seq<string>, c: seq<string>)
    ensures Joined(n, a + c) == Joined(n, a) + Joined(n + |a|, c)
    decreases |a|
  {
    if a == [] {
      assert a + c == c;
    } else {
      assert (a + c)[1..] == a[1..] + c;
      JoinedAppend(n + 1, a[1..], c);
    }
  }

  lemma JoinedOne(n: nat, a: seq<string>, text: string)
    ensures Joined(n, a + [text]) == Joined(n, a) + ((if n + |a| != 0 then "," else "") + text)
  {
    JoinedAppend(n, a, [text]);
    assert [text][1..] == [];
  }

  lemma {:induction false} AllWrittenAppend(f: seq<FilterField>, g: seq<FilterField>, k: string, cb: string)
    requires |k| + 2 <= |cb|
    ensures AllWritten(f + g, k, cb) == AllWritten(f, k, cb) + AllWritten(g, k, cb)
  {
    if f == [] {
      assert f + g == g;
    } else {
      assert (f + g)[1..] == f[1..] + g;
      AllWrittenAppend(f[1..], g, k, cb);
    }
  }

  lemma NextWritten(fields: seq<FilterField>, i: nat, k: string, cb: string)
    requires |k| + 2 <= |cb| && i < |fields|
    ensures var before := AllWritten(fields[..i], k, cb);
      AllWritten(fields[..i + 1], k, cb)
      == if fields[i].key == k then before + [Written(fields[i], k, cb)] else before
  {
    assert fields[..i + 1] == fields[..i] + [fields[i]];
    AllWrittenAppend(fields[..i], [fields[i]], k, cb);
    assert AllWritten([fields[i]][1..], k, cb) == [];
  }

  lemma {:induction false} CleanedAppend(u: string, w: string)
    ensures Cleaned(u + w) == Cleaned(u) + Cleaned(w)
  {
    if u == "" {
      assert u + w == w;
    } else {
      assert (u + w)[1..] == u[1..] + w;
      CleanedAppend(u[1..], w);
    }
  }

  lemma {:induction false} CleanedSame(s: string)
    requires forall c <- s :: !RawSpace(c)
    ensures Cleaned(s) == s
  {
    if s != "" {
      assert s[0] in s;
      CleanedSame(s[1..]);
    }
  }

  /** A stretch without raw newlines and tabs, and the one that ends it. */
  lemma CleanedEnd(cb: string, sk: nat)
    requires sk <= |cb| && forall c <- cb[sk..] :: !RawSpace(c)
    ensures Cleaned(cb) == Cleaned(cb[..sk]) + cb[sk..]
  {
    assert cb[..sk] + cb[sk..] == cb;
    CleanedBefore(cb[..sk], cb[sk..]);
  }

  lemma CleanedBefore(u: string, w: string)
    requires forall c <- w :: !RawSpace(c)
    ensures Cleaned(u + w) == Cleaned(u) + w
  {
    CleanedAppend(u, w);
    CleanedSame(w);
  }

  lemma CleanedStretch(cb: string, sk: nat, i: nat)
    requires sk <= i < |cb| && RawSpace(cb[i]) && forall c <- cb[sk..i] :: !RawSpace(c)
    ensures Cleaned(cb[..i + 1]) == Cleaned(cb[..sk]) + cb[sk..i]
  {
    assert cb[..i + 1] == cb[..sk] + (cb[sk..i] + [cb[i]]);
    CleanedAppend(cb[..sk], cb[sk..i] + [cb[i]]);
    CleanedAppend(cb[sk..i], [cb[i]]);
    CleanedSame(cb[sk..i]);
    assert Cleaned([cb[i]]) == "" + Cleaned([cb[i]][1..]);
  }

  /** Writes the bytes in stretches, each one up to the next raw newline or tab. */
  method WritePairCleaned(w: string, cb: string) returns (r: string)
    ensures r == w + Cleaned(cb)
  {
    r := w;
    var sk := 0;
    for i := 0 to |cb|
      invariant sk <= i
      invariant r == w + Cleaned(cb[..sk])
      invariant forall c <- cb[sk..i] :: !RawSpace(c)
    {
      if RawSpace(cb[i]) {
        r := r + cb[sk..i];
        CleanedStretch(cb, sk, i);
        sk := i + 1;
      } else {
        assert cb[sk..i + 1] == cb[sk..i] + [cb[i]];
      }
    }
    assert cb[sk..|cb|] == cb[sk..];
    CleanedEnd(cb, sk);
    if sk > 0 && sk < |cb| {
      return r + cb[sk..];
    }
    if sk == 0 {
      AllClean(cb, r, w);
      return r + cb;
    }
  }

  lemma AllClean(cb: string, r: string, w: string)
    requires Cleaned(cb) == Cleaned(cb[..0]) + cb[0..] && r == w + Cleaned(cb[..0])
    ensures r + cb == w + Cleaned(cb)
  {
    assert cb[..0] == "" && cb[0..] == cb;
  }

  // ---- The pass ----

  /** A bracket where a key may start opens the list, or the next object. */
  function Punctuate(x: Pass, c: char): Pass {
    if c == '[' then x.(out := if x.isList then x.out else x.out + "[", isList := true)
    else if c == '{' then x.(out := x.out + if x.item == 0 then "{" else "},{", field := 0, item := x.item + 1)
    else x
  }

  /** The pair from the key's quote up to byte e is over. */
  function Emit(b: string, fields: seq<FilterField>, x: Pass, m: Control, e: nat): Pass
    requires e < |b| && x.s + |x.k| + 2 <= e
  {
    var texts := AllWritten(fields, x.k, b[x.s..e + 1]);
    if texts == [] then x.(m := m.(slash := x.m.slash))
    else x.(m := m, out := x.out + Joined(x.field, texts), field := x.field + |texts|)
  }

  /** One iteration of the pass. */
  function Step(b: string, fields: seq<FilterField>, x: Pass): (y: Pass)
    requires PassOk(b, x) && x.i < |b|
    ensures PassOk(b, y) && y.i == x.i + 1
  {
    var (m, a) := Next(x.m, b[x.i], Before(b, x.i));
    var z := if x.m.phase == Key then Punctuate(x, b[x.i]) else x;
    Act(b, fields, z, m, a).(i := x.i + 1)
  }

  predicate Fits(b: string, x: Pass, a: Action) {
    && x.i < |b|
    && match a
       case EndKey => x.s < x.i
       case EndBefore => x.s + |x.k| + 4 <= x.i
       case EndValue => x.s + |x.k| + 4 <= x.i
       case _ => true
  }

  function Act(b: string, fields: seq<FilterField>, x: Pass, m: Control, a: Action): Pass
    requires Fits(b, x, a)
  {
    match a
    case BeginKey => x.(m := m, s := x.i)
    case EndKey => x.(m := m, k := b[x.s + 1..x.i])
    case EndBefore => Emit(b, fields, x, m, x.i - 1)
    case EndValue => Emit(b, fields, x, m, x.i)
    case _ => x.(m := m)
  }

  function Close(x: Pass): string {
    x.out + (if x.item != 0 then "}" else "") + if x.isList then "]" else ""
  }

  /** The whole pass, and the brackets that close what it opened. */
  function Run(b: string, fields: seq<FilterField>, x: Pass): string
    requires PassOk(b, x)
    decreases |b| - x.i
  {
    if x.i >= |b| then Close(x) else Run(b, fields, Step(b, fields, x))
  }

  /** `run` gives the result of the pass from every state. */
  ghost predicate IsRun(b: string, fields: seq<FilterField>, run: Pass -> string) {
    forall x {:trigger Step(b, fields, x)} | PassOk(b, x) && x.i < |b| :: run(x) == run(Step(b, fields, x))
  }

  lemma TheRun(b: string, fields: seq<FilterField>) returns (run: Pass -> string)
    ensures IsRun(b, fields, run) && run(START) == Run(b, fields, START)
    ensures forall x {:trigger run(x)} | PassOk(b, x) && x.i >= |b| :: run(x) == Close(x)
  {
    run := x => if PassOk(b, x) then Run(b, fields, x) else "";
  }

  /** A step whose meaning is known. */
  lemma RunStep(b: string, fields: seq<FilterField>, run: Pass -> string, x: Pass, m: Control, a: Action) returns (y: Pass)
    requires IsRun(b, fields, run) && PassOk(b, x) && x.i < |b|
    requires Next(x.m, b[x.i], Before(b, x.i)) == (m, a)
    ensures PassOk(b, y) && run(x) == run(y)
    ensures var z := if x.m.phase == Key then Punctuate(x, b[x.i]) else x;
      Fits(b, z, a) && y == Act(b, fields, z, m, a).(i := x.i + 1)
  {
    y := Step(b, fields, x);
  }

  /** A bracket where a key may start: the list's opening, or the next object's after the one before. */
  method WriteBracket(c: char, out: string, inList: bool, items: nat, fields: nat, ghost x: Pass)
    returns (w: string, isList: bool, item: nat, field: nat)
    requires x.out == out && x.isList == inList && x.item == items && x.field == fields
    ensures x.(out := w, isList := isList, item := item, field := field) == Punctuate(x, c)
  {
    w, isList, item, field := out, inList, items, fields;
    if c == '[' {
      if !isList {
        w := w + "[";
      }
      isList := true;
    } else if c == '{' {
      if item == 0 {
        w := w + "{";
      } else {
        w := w + "},{";
      }
      field := 0;
      item := item + 1;
    }
  }

  /** Writes one pair under the name of one requested field. */
  method WriteOne(f: FilterField, k: string, cb: string, out: string, n: nat) returns (w: string)
    requires |k| + 2 <= |cb|
    ensures w == out + ((if n != 0 then "," else "") + Written(f, k, cb))
  {
    w := out;
    if n != 0 {
      w := w + ",";
    }
    if f.alias != "" && f.alias != f.key {
      w := w + "\"";
      w := w + f.alias;
      w := w + "\"";
      w := WritePairCleaned(w, cb[|k| + 2..]);
    } else {
      w := WritePairCleaned(w, cb);
    }
  }

  /** Writes one pair once for every requested field with its key. */
  method EmitPair(fields: seq<FilterField>, k: string, cb: string, out: string, field: nat)
    returns (w: string, n: nat)
    requires |k| + 2 <= |cb|
    ensures w == out + Joined(field, AllWritten(fields, k, cb))
    ensures n == field + |AllWritten(fields, k, cb)|
  {
    w, n := out, field;
    for fi := 0 to |fields|
      invariant w == out + Joined(field, AllWritten(fields[..fi], k, cb))
      invariant n == field + |AllWritten(fields[..fi], k, cb)|
    {
      var f := fields[fi];
      ghost var texts := AllWritten(fields[..fi], k, cb);
      NextWritten(fields, fi, k, cb);
      if f.key == k {
        JoinedOne(field, texts, Written(f, k, cb));
        w := WriteOne(f, k, cb, w, n);
        n := n + 1;
      }
    }
    assert fields[..|fields|] == fields;
  }

  /** What the byte at i means for the pair being read: its key starts or ends, or the pair is over. */
  method Record(b: string, fields: seq<FilterField>, i: nat, a: Action, next: Control, slash: nat,
                keyStart: nat, key: string, out: string, written: nat, ghost z: Pass)
    returns (s: nat, k: string, w: string, field: nat, m: Control)
    requires z.i == i && z.m.slash == slash && z.s == keyStart && z.k == key && z.out == out && z.field == written
    requires Fits(b, z, a)
    ensures z.(m := m, s := s, k := k, out := w, field := field) == Act(b, fields, z, next, a)
  {
    s, k, w, field, m := keyStart, key, out, written, next;
    if a.BeginKey? {
      s := i;
    } else if a.EndKey? {
      k := b[s + 1..i];
    } else if a.EndBefore? || a.EndValue? {
      var e := if a.EndValue? then i else i - 1;
      w, field := EmitPair(fields, k, b[s..e + 1], w, field);
      if field == written {
        // No requested field has the key: the backslash count is not reset.
        m := m.(slash := slash);
      }
    }
  }

  method FilterAliased(b: string, fields: seq<FilterField>) returns (w: string)
    ensures w == Run(b, fields, START)
  {
    w := "";
    var isList := false;
    var item: nat, field: nat, s: nat := 0, 0, 0;
    var k := "";
    var m := IDLE;
    ghost var run := TheRun(b, fields);
    var i := 0;
    while i < |b|
      invariant PassOk(b, Pass(i, m, s, k, w, isList, item, field))
      invariant run(Pass(i, m, s, k, w, isList, item, field)) == run(START)
    {
      ghost var x := Pass(i, m, s, k, w, isList, item, field);
      var (m', a) := Next(m, b[i], Before(b, i));
      ghost var y := RunStep(b, fields, run, x, m', a);
      if m.phase == Key {
        w, isList, item, field := WriteBracket(b[i], w, isList, item, field, x);
      }
      ghost var z := Pass(i, m, s, k, w, isList, item, field);
      s, k, w, field, m := Record(b, fields, i, a, m', m.slash, s, k, w, field, z);
      i := i + 1;
      assert Pass(i, m, s, k, w, isList, item, field) == y;
    }
    if item != 0 {
      w := w + "}";
    }
    if isList {
      w := w + "]";
    }
  }
}
