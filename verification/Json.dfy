/**
 JSON texts, with whatever white space is between their tokens, and the control
 automaton that the byte scanners `Get` and `FilterAliased` share.
 */
module Json {
  import opened Common

  /**
   A JSON text as a tree that keeps the white space of the text: what is behind an opening bracket, around an item, and
   in front of, inside and behind a member.
   */
  datatype Json =
    | Nul
    | Bool(text: string)
    | Num(text: string)
    | Str(raw: string)
    | Arr(items: seq<Item>, blank: string)
    | Obj(pairs: seq<Pair>, blank: string)

  datatype Item = Item(lead: string, value: Json, trail: string)

  /** A member of an object: white space, key, white space, colon, white space, value, white space. */
  datatype Pair = Pair(lead: string, key: string, gap: string, mid: string, value: Json, trail: string)

  /** White space (RFC 8259, section 2). */
  predicate Blank(s: string) {
    forall c <- s :: c == ' ' || c == '\t' || c == '\n' || c == '\r'
  }

  /** Raw string bytes: every quote is escaped and no escape is cut off (RFC 8259, section 7). */
  predicate RawOk(s: string, escaped: bool) {
    if s == "" then !escaped
    else if escaped then RawOk(s[1..], false)
    else s[0] != '"' && RawOk(s[1..], s[0] == '\\')
  }

  predicate Digit(c: char) {
    '0' <= c <= '9'
  }

  function SkipDigits(s: string): string {
    if s != "" && Digit(s[0]) then SkipDigits(s[1..]) else s
  }

  predicate StartsWithDigit(s: string) {
    s != "" && Digit(s[0])
  }

  function SkipSign(s: string, signs: set<char>): string {
    if s != "" && s[0] in signs then s[1..] else s
  }

  /** Sign, digits, fraction and exponent (RFC 8259, section 6). */
  predicate Number(s: string) {
    var digits := SkipSign(s, {'-'});
    StartsWithDigit(digits) && Fraction(SkipDigits(digits))
  }

  predicate Fraction(s: string) {
    Exponent(s) || (s != "" && s[0] == '.' && StartsWithDigit(s[1..]) && Exponent(SkipDigits(s[1..])))
  }

  predicate Exponent(s: string) {
    s == "" || (s[0] in {'e', 'E'} && var digits := SkipSign(s[1..], {'+', '-'}); StartsWithDigit(digits) && SkipDigits(digits) == "")
  }

  /** true or false, in any case. */
  predicate Truth(s: string) {
    Lower(s) == "true" || Lower(s) == "false"
  }

  predicate Valid(j: Json) {
    match j
    case Nul => true
    case Bool(t) => Truth(t)
    case Num(t) => Number(t)
    case Str(raw) => RawOk(raw, false)
    case Arr(items, blank) => Blank(blank) && forall x <- items :: Blank(x.lead) && Valid(x.value) && Blank(x.trail)
    case Obj(pairs, blank) => Blank(blank) && forall p <- pairs :: PairOk(p) && Valid(p.value)
  }

  predicate PairOk(p: Pair) {
    RawOk(p.key, false) && Blank(p.lead) && Blank(p.gap) && Blank(p.mid) && Blank(p.trail)
  }

  function Quoted(s: string): string {
    "\"" + s + "\""
  }

  function Print(j: Json): string
    decreases j, 0
  {
    match j
    case Nul => "null"
    case Bool(t) => t
    case Num(t) => t
    case Str(raw) => Quoted(raw)
    case Arr(items, blank) => "[" + (blank + PrintItems(items)) + "]"
    case Obj(pairs, blank) => "{" + (blank + PrintPairs(pairs)) + "}"
  }

  function PrintItem(x: Item): string
    decreases x, 1
  {
    x.lead + (Print(x.value) + x.trail)
  }

  function ItemTexts(items: seq<Item>): (r: seq<string>)
    ensures |r| == |items|
    decreases items, 2
  {
    seq(|items|, i requires 0 <= i < |items| => PrintItem(items[i]))
  }

  function PrintItems(items: seq<Item>): string
    decreases items, 3
  {
    Separated(ItemTexts(items))
  }

  function PrintPair(p: Pair): string
    decreases p, 1
  {
    p.lead + (Quoted(p.key) + (p.gap + (":" + (p.mid + (Print(p.value) + p.trail)))))
  }

  function PairTexts(pairs: seq<Pair>): (r: seq<string>)
    ensures |r| == |pairs|
    decreases pairs, 2
  {
    seq(|pairs|, i requires 0 <= i < |pairs| => PrintPair(pairs[i]))
  }

  function PrintPairs(pairs: seq<Pair>): string
    decreases pairs, 3
  {
    Separated(PairTexts(pairs))
  }

  /** The texts with commas between them. */
  function Separated(ws: seq<string>): string {
    if ws == [] then "" else if |ws| == 1 then ws[0] else ws[0] + ("," + Separated(ws[1..]))
  }

  lemma PairTextsFirst(pairs: seq<Pair>)
    requires pairs != []
    ensures PairTexts(pairs)[0] == PrintPair(pairs[0]) && PairTexts(pairs)[1..] == PairTexts(pairs[1..])
  {
  }

  lemma ItemTextsFirst(items: seq<Item>)
    requires items != []
    ensures ItemTexts(items)[0] == PrintItem(items[0]) && ItemTexts(items)[1..] == ItemTexts(items[1..])
  {
  }

  // ---- The control automaton ----

  datatype Phase =
    | Key | KeyClose | Colon | Value | StringClose | NullClose | ListClose | ObjClose | BoolClose | NumClose

  /** The control state of a scan: what it expects, its bracket depth, whether it is in a string, its backslashes. */
  datatype Control = Control(phase: Phase, d: int, instr: bool, slash: nat)

  const IDLE := Control(Key, 0, false, 0)

  /** What a byte means for the scan: `EndBefore` says that the value ended with the byte before. */
  datatype Action = Quiet | BeginKey | EndKey | BeginValue | EndValue | EndBefore

  predicate IsNumByte(c: char) {
    '0' <= c <= '9' || c in {'.', 'e', 'E', '+', '-'}
  }

  predicate Even(n: nat) {
    n % 2 == 0
  }

  predicate Nesting(e: Phase) {
    e == ObjClose || e == ListClose
  }

  function Next(m: Control, c: char, prev: char): (Control, Action) {
    if m.instr && c == '\\' then (m.(slash := m.slash + 1), Quiet)
    else
      var instr := if c == '"' && Even(m.slash) then !m.instr else m.instr;
      var d :=
        if Nesting(m.phase) && !instr then
          if c == '{' || c == '[' then m.d + 1 else if c == '}' || c == ']' then m.d - 1 else m.d
        else m.d;
      var quiet := (Control(m.phase, d, instr, 0), Quiet);
      match m.phase
      case Key => if c == '"' then (Control(KeyClose, d, instr, 0), BeginKey) else quiet
      case KeyClose => if c == '"' && Even(m.slash) then (Control(Colon, d, instr, 0), EndKey) else quiet
      case Colon => if c == ':' then (Control(Value, d, instr, 0), Quiet) else quiet
      case Value =>
        if c == '"' then (Control(StringClose, d, instr, 0), BeginValue)
        else if c == '[' then (Control(ListClose, d + 1, instr, 0), BeginValue)
        else if c == '{' then (Control(ObjClose, d + 1, instr, 0), BeginValue)
        else if c == '-' || '0' <= c <= '9' then (Control(NumClose, d, instr, 0), BeginValue)
        else if c in {'f', 'F', 't', 'T'} then (Control(BoolClose, d, instr, 0), BeginValue)
        else if c == 'n' then (Control(NullClose, d, instr, 0), BeginValue)
        else quiet
      case StringClose => if c == '"' && Even(m.slash) then (Control(Key, d, instr, 0), EndValue) else quiet
      case ListClose => if d == 0 && c == ']' then (Control(Key, d, instr, 0), EndValue) else quiet
      case ObjClose => if d == 0 && c == '}' then (Control(Key, d, instr, 0), EndValue) else quiet
      case NumClose => if !IsNumByte(c) then (Control(Key, d, instr, 0), EndBefore) else quiet
      case BoolClose => if c == 'e' || c == 'E' then (Control(Key, d, instr, 0), EndValue) else quiet
      case NullClose => if prev == 'l' && c == 'l' then (Control(Key, d, instr, 0), EndValue) else quiet
  }

  /** The control state after the bytes of w, when all of them are quiet. */
  function Glide(m: Control, prev: char, w: string): Option<Control>
    decreases |w|
  {
    if w == "" then Some(m)
    else
      var (m', a) := Next(m, w[0], prev);
      if a == Quiet then Glide(m', w[0], w[1..]) else None
  }

  function Last(prev: char, w: string): char {
    if w == "" then prev else w[|w| - 1]
  }

  lemma {:induction false} GlideAppend(m: Control, prev: char, u: string, w: string)
    requires Glide(m, prev, u).Some?
    ensures Glide(m, prev, u + w) == Glide(Glide(m, prev, u).value, Last(prev, u), w)
    decreases |u|
  {
    if u == "" {
      assert u + w == w;
    } else {
      var (m', _) := Next(m, u[0], prev);
      assert (u + w)[1..] == u[1..] + w;
      GlideAppend(m', u[0], u[1..], w);
    }
  }

  /** Inside a value, quiet bytes leave the phase as it is. */
  lemma {:induction false} GlideKeepsPhase(m: Control, prev: char, w: string)
    requires Glide(m, prev, w).Some? && m.phase !in {Key, Colon, KeyClose, Value}
    ensures Glide(m, prev, w).value.phase == m.phase
    decreases |w|
  {
    if w != "" {
      var (m', _) := Next(m, w[0], prev);
      GlideKeepsPhase(m', w[0], w[1..]);
    }
  }

  lemma GlideByte(m: Control, prev: char, c: char)
    ensures var (m', a) := Next(m, c, prev);
      Glide(m, prev, [c]) == if a == Quiet then Some(m') else None
  {
    var (m', _) := Next(m, c, prev);
    assert [c][1..] == "";
    assert Glide(m', c, "") == Some(m');
  }

  /** Inside a string, raw bytes leave everything as it is except the backslash count, which ends even. */
  lemma {:induction false} GlideRaw(m: Control, prev: char, raw: string) returns (slash: nat)
    requires m.instr && ((Nesting(m.phase) && m.d >= 1) || m.phase == KeyClose || m.phase == StringClose)
    requires RawOk(raw, !Even(m.slash))
    ensures Even(slash) && Glide(m, prev, raw) == Some(m.(slash := slash))
    decreases |raw|
  {
    if raw == "" {
      slash := m.slash;
    } else {
      var (m', _) := Next(m, raw[0], prev);
      assert m' == m.(slash := if raw[0] == '\\' then m.slash + 1 else 0);
      slash := GlideRaw(m', raw[0], raw[1..]);
    }
  }

  /** Inside a container, a string is skipped. */
  lemma GlideString(m: Control, prev: char, raw: string)
    requires Nesting(m.phase) && !m.instr && m.slash == 0 && m.d >= 1 && RawOk(raw, false)
    ensures Glide(m, prev, "\"" + raw + "\"") == Some(m)
  {
    var open := m.(instr := true);
    GlideByte(m, prev, '"');
    GlideAppend(m, prev, "\"", raw);
    var slash := GlideRaw(open, '"', raw);
    GlideAppend(m, prev, "\"" + raw, "\"");
    GlideByte(open.(slash := slash), Last(prev, "\"" + raw), '"');
  }

  /** Inside a container, bytes that are neither quotes nor brackets are skipped. */
  lemma {:induction false} GlidePlain(m: Control, prev: char, w: string)
    requires Nesting(m.phase) && !m.instr && m.slash == 0
    requires forall c <- w :: c !in {'"', '{', '[', '}', ']', '\\'}
    ensures Glide(m, prev, w) == Some(m)
    decreases |w|
  {
    if w != "" {
      assert w[0] in w && forall c <- w[1..] :: c in w;
      GlidePlain(m, w[0], w[1..]);
    }
  }

  /** Inside a container at depth d >= 1, a bracketed body between matching brackets is skipped. */
  lemma GlideBracketed(m: Control, prev: char, open: char, body: string, close: char)
    requires Nesting(m.phase) && !m.instr && m.slash == 0 && m.d >= 1
    requires (open == '[' && close == ']') || (open == '{' && close == '}')
    requires Glide(m.(d := m.d + 1), open, body) == Some(m.(d := m.d + 1))
    ensures Glide(m, prev, [open] + body + [close]) == Some(m)
  {
    GlideByte(m, prev, open);
    GlideAppend(m, prev, [open], body);
    GlideAppend(m, prev, [open] + body, [close]);
    GlideByte(m.(d := m.d + 1), Last(prev, [open] + body), close);
  }

  /** Inside a container, white space is skipped. */
  lemma GlideBlank(m: Control, prev: char, w: string)
    requires Nesting(m.phase) && !m.instr && m.slash == 0 && Blank(w)
    ensures Glide(m, prev, w) == Some(m)
  {
    GlidePlain(m, prev, w);
  }

  /** White space where a colon or a value is expected is skipped. */
  lemma {:induction false} GlideSpace(m: Control, prev: char, w: string)
    requires m.phase in {Colon, Value} && !m.instr && m.slash == 0 && Blank(w)
    ensures Glide(m, prev, w) == Some(m)
    decreases |w|
  {
    if w != "" {
      assert w[0] in w && forall c <- w[1..] :: c in w;
      GlideSpace(m, w[0], w[1..]);
    }
  }

  /** Two texts that are skipped are skipped one after the other. */
  lemma GlideBoth(m: Control, prev: char, u: string, w: string)
    requires Glide(m, prev, u) == Some(m) && Glide(m, Last(prev, u), w) == Some(m)
    ensures Glide(m, prev, u + w) == Some(m)
  {
    GlideAppend(m, prev, u, w);
  }

  lemma PlainBytes(j: Json)
    requires Valid(j) && (j.Nul? || j.Bool? || j.Num?)
    ensures forall c <- Print(j) :: c !in {'"', '{', '[', '}', ']', '\\'}
  {
    if j.Num? {
      NumberBytes(j.text);
    } else if j.Bool? {
      TruthBytes(j.text);
    }
  }

  /** Inside a container, a whole value is skipped and the depth is what it was. */
  lemma {:induction false} GlideValue(m: Control, prev: char, j: Json)
    requires Nesting(m.phase) && !m.instr && m.slash == 0 && m.d >= 1 && Valid(j)
    ensures Glide(m, prev, Print(j)) == Some(m)
    decreases j, 0
  {
    match j
    case Str(raw) => GlideString(m, prev, raw);
    case Arr(items, blank) =>
      GlideInside(m.(d := m.d + 1), '[', j);
      GlideBracketed(m, prev, '[', blank + PrintItems(items), ']');
    case Obj(pairs, blank) =>
      GlideInside(m.(d := m.d + 1), '{', j);
      GlideBracketed(m, prev, '{', blank + PrintPairs(pairs), '}');
    case _ =>
      PlainBytes(j);
      GlidePlain(m, prev, Print(j));
  }

  /** What is between the brackets of a container. */
  function Between(j: Json): string
    requires j.Arr? || j.Obj?
  {
    j.blank + if j.Arr? then PrintItems(j.items) else PrintPairs(j.pairs)
  }

  lemma {:induction false} GlideInside(m: Control, prev: char, j: Json)
    requires Nesting(m.phase) && !m.instr && m.slash == 0 && m.d >= 1 && Valid(j) && (j.Arr? || j.Obj?)
    ensures Glide(m, prev, Between(j)) == Some(m)
    decreases j, 0, 0
  {
    GlideBlank(m, prev, j.blank);
    if j.Arr? {
      GlideItems(m, Last(prev, j.blank), j.items);
      GlideBoth(m, prev, j.blank, PrintItems(j.items));
    } else {
      GlidePairs(m, Last(prev, j.blank), j.pairs);
      GlideBoth(m, prev, j.blank, PrintPairs(j.pairs));
    }
  }

  lemma {:induction false} GlideItem(m: Control, prev: char, x: Item)
    requires Nesting(m.phase) && !m.instr && m.slash == 0 && m.d >= 1 && Blank(x.lead) && Valid(x.value) && Blank(x.trail)
    ensures Glide(m, prev, PrintItem(x)) == Some(m)
    decreases x, 1
  {
    var w := Print(x.value);
    var p := Last(prev, x.lead);
    GlideBlank(m, prev, x.lead);
    GlideValue(m, p, x.value);
    GlideBlank(m, Last(p, w), x.trail);
    GlideBoth(m, p, w, x.trail);
    GlideBoth(m, prev, x.lead, w + x.trail);
  }

  /** Texts that are skipped are skipped with commas between them. */
  lemma {:induction false} GlideSeparated(m: Control, prev: char, ws: seq<string>)
    requires Nesting(m.phase) && !m.instr && m.slash == 0
    requires forall i, p {:trigger Glide(m, p, ws[i])} :: 0 <= i < |ws| ==> Glide(m, p, ws[i]) == Some(m)
    ensures Glide(m, prev, Separated(ws)) == Some(m)
    decreases |ws|
  {
    if |ws| > 1 {
      GlideSeparated(m, ',', ws[1..]);
      GlideComma(m, prev, ws[0], Separated(ws[1..]));
    }
  }

  lemma {:induction false} GlideItems(m: Control, prev: char, items: seq<Item>)
    requires Nesting(m.phase) && !m.instr && m.slash == 0 && m.d >= 1
    requires forall x <- items :: Blank(x.lead) && Valid(x.value) && Blank(x.trail)
    ensures Glide(m, prev, PrintItems(items)) == Some(m)
    decreases items, 2
  {
    var ws := ItemTexts(items);
    forall i, p {:trigger Glide(m, p, ws[i])} | 0 <= i < |ws| ensures Glide(m, p, ws[i]) == Some(m) {
      assert items[i] in items;
      GlideItem(m, p, items[i]);
    }
    GlideSeparated(m, prev, ws);
  }

  lemma {:induction false} GlidePair(m: Control, prev: char, p: Pair)
    requires Nesting(m.phase) && !m.instr && m.slash == 0 && m.d >= 1 && PairOk(p) && Valid(p.value)
    ensures Glide(m, prev, PrintPair(p)) == Some(m)
    decreases p, 1
  {
    var w, key := Print(p.value), Quoted(p.key);
    var a := Last(prev, p.lead);
    var b := Last(a, key);
    var c := Last(b, p.gap);
    var d := Last(':', p.mid);
    GlideBlank(m, prev, p.lead);
    GlideString(m, a, p.key);
    GlideBlank(m, b, p.gap);
    GlideByte(m, c, ':');
    GlideBlank(m, ':', p.mid);
    GlideValue(m, d, p.value);
    GlideBlank(m, Last(d, w), p.trail);
    GlideBoth(m, d, w, p.trail);
    GlideBoth(m, ':', p.mid, w + p.trail);
    GlideBoth(m, c, ":", p.mid + (w + p.trail));
    GlideBoth(m, b, p.gap, ":" + (p.mid + (w + p.trail)));
    GlideBoth(m, a, key, p.gap + (":" + (p.mid + (w + p.trail))));
    GlideBoth(m, prev, p.lead, key + (p.gap + (":" + (p.mid + (w + p.trail)))));
  }

  lemma {:induction false} GlidePairs(m: Control, prev: char, pairs: seq<Pair>)
    requires Nesting(m.phase) && !m.instr && m.slash == 0 && m.d >= 1
    requires forall p <- pairs :: PairOk(p) && Valid(p.value)
    ensures Glide(m, prev, PrintPairs(pairs)) == Some(m)
    decreases pairs, 2
  {
    var ws := PairTexts(pairs);
    forall i, p {:trigger Glide(m, p, ws[i])} | 0 <= i < |ws| ensures Glide(m, p, ws[i]) == Some(m) {
      assert pairs[i] in pairs;
      GlidePair(m, p, pairs[i]);
    }
    GlideSeparated(m, prev, ws);
  }

  lemma GlideComma(m: Control, prev: char, u: string, w: string)
    requires Nesting(m.phase) && !m.instr && m.slash == 0
    requires Glide(m, prev, u) == Some(m)
    ensures Glide(m, prev, u + ("," + w)) == Glide(m, ',', w)
  {
    GlideAppend(m, prev, u, "," + w);
    GlideByte(m, Last(prev, u), ',');
    GlideAppend(m, Last(prev, u), ",", w);
  }

  // ---- Numbers and truth values ----

  predicate NumBytes(s: string) {
    forall c <- s :: IsNumByte(c)
  }

  lemma {:induction false} DigitsSkipped(s: string)
    ensures NumBytes(SkipDigits(s)) ==> NumBytes(s)
  {
    if s != "" && Digit(s[0]) {
      DigitsSkipped(s[1..]);
      assert s == [s[0]] + s[1..];
    }
  }

  lemma SignSkipped(s: string, signs: set<char>)
    requires signs <= {'+', '-'}
    ensures NumBytes(SkipSign(s, signs)) ==> NumBytes(s)
  {
    if s != "" && s[0] in signs {
      assert s == [s[0]] + s[1..];
    }
  }

  lemma ExponentBytes(s: string)
    requires Exponent(s)
    ensures NumBytes(s)
  {
    if s != "" {
      DigitsSkipped(SkipSign(s[1..], {'+', '-'}));
      SignSkipped(s[1..], {'+', '-'});
      assert s == [s[0]] + s[1..];
    }
  }

  lemma FractionBytes(s: string)
    requires Fraction(s)
    ensures NumBytes(s)
  {
    if Exponent(s) {
      ExponentBytes(s);
    } else {
      ExponentBytes(SkipDigits(s[1..]));
      DigitsSkipped(s[1..]);
      assert s == [s[0]] + s[1..];
    }
  }

  /** A number starts with a sign or a digit and has number bytes only. */
  lemma NumberBytes(s: string)
    requires Number(s)
    ensures s != "" && (s[0] == '-' || Digit(s[0])) && forall c <- s :: IsNumByte(c)
  {
    var digits := SkipSign(s, {'-'});
    FractionBytes(SkipDigits(digits));
    DigitsSkipped(digits);
    SignSkipped(s, {'-'});
  }

  /** A truth value starts with t or f, and ends with its only e. */
  lemma TruthBytes(s: string)
    requires Truth(s)
    ensures |s| >= 2 && s[0] in {'t', 'T', 'f', 'F'} && s[|s| - 1] in {'e', 'E'}
    ensures forall i | 0 <= i < |s| - 1 :: s[i] !in {'e', 'E'}
    ensures forall c <- s :: c !in {'"', '{', '[', '}', ']', '\\'}
  {
    var l := Lower(s);
    assert |l| == |s|;
    if l == "true" {
      assert l[0] == 't' && l[1] == 'r' && l[2] == 'u' && l[3] == 'e';
    } else {
      assert l[0] == 'f' && l[1] == 'a' && l[2] == 'l' && l[3] == 's' && l[4] == 'e';
    }
  }

  // ---- Where a value ends ----

  const AT_VALUE := Control(Value, 0, false, 0)

  /** The scan sees w as a value: its first byte begins it, quiet bytes follow, and its last byte ends it. */
  predicate Closes(m: Control, w: string) {
    && |w| >= 2
    && Glide(m, w[0], w[1..|w| - 1]).Some?
    && Next(Glide(m, w[0], w[1..|w| - 1]).value, w[|w| - 1], w[|w| - 2]) == (IDLE, EndValue)
  }

  /** The control state inside a value, after its first byte. */
  function Opened(j: Json): Control {
    match j
    case Num(_) => Control(NumClose, 0, false, 0)
    case Str(_) => Control(StringClose, 0, true, 0)
    case Arr(_, _) => Control(ListClose, 1, false, 0)
    case Obj(_, _) => Control(ObjClose, 1, false, 0)
    case Nul => Control(NullClose, 0, false, 0)
    case Bool(_) => Control(BoolClose, 0, false, 0)
  }

  lemma ValueOpens(prev: char, j: Json)
    requires Valid(j)
    ensures |Print(j)| >= 1 && Next(AT_VALUE, Print(j)[0], prev) == (Opened(j), BeginValue)
  {
    if j.Num? {
      NumberBytes(j.text);
    } else if j.Bool? {
      TruthBytes(j.text);
    }
  }

  lemma BracketedCloses(j: Json, open: char, body: string, close: char)
    requires (j.Arr? && close == ']') || (j.Obj? && close == '}')
    requires Glide(Opened(j), open, body) == Some(Opened(j))
    ensures Closes(Opened(j), [open] + body + [close])
  {
    var w := [open] + body + [close];
    assert w[1..|w| - 1] == body;
  }

  lemma StringCloses(raw: string)
    requires RawOk(raw, false)
    ensures Closes(Opened(Str(raw)), Quoted(raw))
  {
    var w := Quoted(raw);
    assert w[1..|w| - 1] == raw;
    var slash := GlideRaw(Opened(Str(raw)), '"', raw);
  }

  lemma NullCloses()
    ensures Closes(Opened(Nul), Print(Nul))
  {
    var m, w := Opened(Nul), "null";
    assert w[1..3] == [w[1], w[2]];
    GlideTwo(m, w[0], w[1], w[2]);
  }

  /** Inside a truth value, everything up to its e is skipped. */
  lemma {:induction false} GlideTruth(m: Control, prev: char, w: string)
    requires m.phase == BoolClose && !m.instr && m.slash == 0
    requires forall c <- w :: c !in {'e', 'E', '"', '\\'}
    ensures Glide(m, prev, w) == Some(m)
    decreases |w|
  {
    if w != "" {
      assert w[0] in w && forall c <- w[1..] :: c in w;
      GlideTruth(m, w[0], w[1..]);
    }
  }

  lemma TruthCloses(t: string)
    requires Truth(t)
    ensures Closes(Opened(Bool(t)), t)
  {
    TruthBytes(t);
    var mid := t[1..|t| - 1];
    forall c | c in mid ensures c !in {'e', 'E', '"', '\\'} {
      var i :| 0 <= i < |mid| && mid[i] == c;
      assert t[i + 1] == c && c in t;
    }
    GlideTruth(Opened(Bool(t)), t[0], mid);
  }

  /** A printed value other than a number is closed by its own last byte. */
  lemma ValueCloses(j: Json)
    requires Valid(j) && !j.Num?
    ensures Closes(Opened(j), Print(j))
  {
    match j
    case Str(raw) => StringCloses(raw);
    case Arr(items, blank) =>
      GlideInside(Opened(j), '[', j);
      BracketedCloses(j, '[', blank + PrintItems(items), ']');
    case Obj(pairs, blank) =>
      GlideInside(Opened(j), '{', j);
      BracketedCloses(j, '{', blank + PrintPairs(pairs), '}');
    case Nul => NullCloses();
    case Bool(t) => TruthCloses(t);
  }

  /** A number is closed by the first byte behind it that is none of a number. */
  lemma NumberCloses(j: Json, after: char, prev: char)
    requires Valid(j) && j.Num? && after in {',', '}', ']', ' ', '\t', '\n', '\r'}
    ensures j.text != "" && Glide(Opened(j), j.text[0], j.text[1..]) == Some(Opened(j))
    ensures Next(Opened(j), after, prev) == (IDLE, EndBefore)
  {
    NumberBytes(j.text);
    assert forall c <- j.text[1..] :: c in j.text;
    GlideNumber(Opened(j), j.text[0], j.text[1..]);
  }

  lemma GlideTwo(m: Control, prev: char, a: char, b: char)
    requires Next(m, a, prev) == (m, Quiet) && Next(m, b, a) == (m, Quiet)
    ensures Glide(m, prev, [a, b]) == Some(m)
  {
    assert [a, b] == [a] + [b];
    GlideByte(m, prev, a);
    GlideAppend(m, prev, [a], [b]);
    GlideByte(m, a, b);
  }

  lemma {:induction false} GlideNumber(m: Control, prev: char, w: string)
    requires m.phase == NumClose && !m.instr && m.slash == 0 && forall c <- w :: IsNumByte(c)
    ensures Glide(m, prev, w) == Some(m)
    decreases |w|
  {
    if w != "" {
      assert w[0] in w && forall c <- w[1..] :: c in w;
      GlideNumber(m, w[0], w[1..]);
    }
  }
}
