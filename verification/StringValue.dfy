/**
 String literals of a query, byte by byte: finding the closing quote, undoing
 escapes, and which values survive being printed with only their quotes escaped.
 */
module StringValue {

  function HexDigit(c: char): int {
    if '0' <= c <= '9' then c as int - '0' as int
    else if 'a' <= c <= 'f' then c as int - 'a' as int + 10
    else if 'A' <= c <= 'F' then c as int - 'A' as int + 10
    else -1
  }

  /** The value of four hexadecimal digits in front, or -1. */
  function Hex4(s: string): (r: int)
    ensures -1 <= r < 0x10000
  {
    if |s| < 4 || HexDigit(s[0]) < 0 || HexDigit(s[1]) < 0 || HexDigit(s[2]) < 0 || HexDigit(s[3]) < 0 then -1
    else HexDigit(s[0]) * 4096 + HexDigit(s[1]) * 256 + HexDigit(s[2]) * 16 + HexDigit(s[3])
  }

  /** The bytes of a code point below 0x10000; surrogates become the replacement character. */
  function Utf8(r: int): (s: string)
    requires 0 <= r < 0x10000
    ensures 1 <= |s| <= 3
  {
    if r < 0x80 then [r as char]
    else if r < 0x800 then [(0xC0 + r / 64) as char, (0x80 + r % 64) as char]
    else if 0xD800 <= r < 0xE000 then [0xEF as char, 0xBF as char, 0xBD as char]
    else [(0xE0 + r / 4096) as char, (0x80 + r / 64 % 64) as char, (0x80 + r % 64) as char]
  }

  /** What a backslash followed by s stands for and how much of s it takes; 0 if it stands for itself. */
  function EscapeOf(s: string): (r: (string, nat))
    requires s != []
    ensures r.1 <= |s| && |r.0| <= r.1
    ensures r.1 == 0 ==> r.0 == []
  {
    match s[0]
    case '"' => ("\"", 1)
    case '\\' => ("\\", 1)
    case '/' => ("/", 1)
    case '\'' => ("'", 1)
    case 'b' => ("\U{08}", 1)
    case 'f' => ("\U{0c}", 1)
    case 'n' => ("\n", 1)
    case 'r' => ("\r", 1)
    case 't' => ("\t", 1)
    case 'u' => if Hex4(s[1..]) >= 0 then (Utf8(Hex4(s[1..])), 5) else ([], 0)
    case _ => ([], 0)
  }

  /** Resolves escapes; a backslash that begins none is kept with the byte behind it. */
  function Unescape(s: string): string {
    if s == [] then []
    else if s[0] != '\\' || |s| == 1 then [s[0]] + Unescape(s[1..])
    else
      var e := EscapeOf(s[1..]);
      if e.1 == 0 then s[..2] + Unescape(s[2..]) else e.0 + Unescape(s[1 + e.1..])
  }

  /** The switch over the byte behind a backslash. */
  method DecodeEscape(value: string, i: nat) returns (bytes: string, taken: nat)
    requires i < |value|
    ensures (bytes, taken) == EscapeOf(value[i..])
  {
    var c := value[i];
    if c == '"' || c == '\\' || c == '/' || c == '\'' {
      return [c], 1;
    } else if c == 'b' {
      return "\U{08}", 1;
    } else if c == 'f' {
      return "\U{0c}", 1;
    } else if c == 'n' {
      return "\n", 1;
    } else if c == 'r' {
      return "\r", 1;
    } else if c == 't' {
      return "\t", 1;
    } else if c == 'u' {
      assert value[i..][1..] == value[i + 1..];
      if i + 4 < |value| {
        HexPrefix(value[i + 1..]);
        assert value[i + 1..][..4] == value[i + 1..i + 5];
        var r := Hex4(value[i + 1..i + 5]);
        if r >= 0 {
          return Utf8(r), 5;
        }
      }
    }
    return [], 0;
  }

  method UnescapeValue(value: string) returns (out: string)
    ensures out == Unescape(value)
  {
    if '\\' !in value {
      UnescapePlain(value);
      return value;
    }
    out := [];
    var i := 0;
    ghost var left := TheRest(value);
    while i < |value|
      invariant 0 <= i <= |value|
      invariant out + left(i) == left(0)
    {
      assert UnescapeStep(value, left, i);
      if value[i] != '\\' || i + 1 >= |value| {
        Chunk(out, [value[i]], left(i + 1));
        out := out + [value[i]];
        i := i + 1;
        continue;
      }
      i := i + 1;
      var bytes, taken := DecodeEscape(value, i);
      if taken == 0 {
        Chunk(out, ['\\', value[i]], left(i + 1));
        out := out + ['\\', value[i]];
        i := i + 1;
      } else {
        Chunk(out, bytes, left(i + taken));
        out := out + bytes;
        i := i + taken;
      }
    }
  }

  lemma Chunk(a: string, b: string, c: string)
    ensures (a + b) + c == a + (b + c)
  {
  }

  /** left(i) is what is still to come at i. */
  ghost predicate UnescapeStep(s: string, left: int -> string, i: int)
    requires 0 <= i < |s|
  {
    if s[i] != '\\' || i + 1 == |s| then left(i) == [s[i]] + left(i + 1)
    else
      var e := EscapeOf(s[i + 1..]);
      left(i) == if e.1 == 0 then ['\\', s[i + 1]] + left(i + 2) else e.0 + left(i + 1 + e.1)
  }

  lemma TheRest(s: string) returns (left: int -> string)
    ensures left(0) == Unescape(s) && left(|s|) == []
    ensures forall i {:trigger UnescapeStep(s, left, i)} :: 0 <= i < |s| ==> UnescapeStep(s, left, i)
  {
    left := i => if 0 <= i <= |s| then Unescape(s[i..]) else [];
    assert s[0..] == s && s[|s|..] == [];
    forall i | 0 <= i < |s| ensures UnescapeStep(s, left, i) {
      RestStep(s, left, i);
    }
  }

  lemma RestStep(s: string, left: int -> string, i: nat)
    requires i < |s| && forall k {:trigger left(k)} :: 0 <= k <= |s| ==> left(k) == Unescape(s[k..])
    ensures UnescapeStep(s, left, i)
  {
    UnescapeAt(s, i);
    assert left(i) == Unescape(s[i..]);
    if s[i] != '\\' || i + 1 == |s| {
      assert left(i + 1) == Unescape(s[i + 1..]);
    } else {
      var e := EscapeOf(s[i + 1..]);
      assert left(i + 2) == Unescape(s[i + 2..]);
      assert left(i + 1 + e.1) == Unescape(s[i + 1 + e.1..]);
    }
  }

  lemma UnescapeAt(s: string, i: nat)
    requires i < |s|
    ensures s[i] != '\\' || i + 1 == |s| ==> Unescape(s[i..]) == [s[i]] + Unescape(s[i + 1..])
    ensures s[i] == '\\' && i + 1 < |s| ==> var e := EscapeOf(s[i + 1..]);
      Unescape(s[i..]) ==
        if e.1 == 0 then ['\\', s[i + 1]] + Unescape(s[i + 2..]) else e.0 + Unescape(s[i + 1 + e.1..])
  {
    var t := s[i..];
    assert t[1..] == s[i + 1..];
    if s[i] == '\\' && i + 1 < |s| {
      var e := EscapeOf(t[1..]);
      assert t[2..] == s[i + 2..];
      assert t[..2] == ['\\', s[i + 1]];
      assert t[1 + e.1..] == s[i + 1 + e.1..];
    }
  }

  lemma HexPrefix(s: string)
    requires |s| >= 4
    ensures Hex4(s) == Hex4(s[..4])
  {
  }

  lemma {:induction false} UnescapePlain(s: string)
    requires '\\' !in s
    ensures Unescape(s) == s
  {
    if s != [] {
      UnescapePlain(s[1..]);
    }
  }

  // ---- Finding the closing quote ----

  /** The index of the first quote q that no backslash stands directly in front of, or -1. */
  function FindClose(s: string, q: char, escaped: bool): (r: int)
    ensures -1 <= r < |s|
    ensures r >= 0 ==> s[r] == q
  {
    if s == [] then -1
    else if s[0] != '\\' && !escaped && s[0] == q then 0
    else
      var r := FindClose(s[1..], q, s[0] == '\\');
      if r < 0 then -1 else r + 1
  }

  /** Position i holds the quote q, with no backslash directly in front; `escaped` stands for one in front of s. */
  predicate ClosesAt(s: string, q: char, escaped: bool, i: int) {
    0 <= i < |s| && s[i] == q && if i == 0 then !escaped else s[i - 1] != '\\'
  }

  /** It is the first such position, and -1 says that there is none. */
  lemma {:induction false} CloseIsFirst(s: string, q: char, escaped: bool)
    requires q != '\\'
    ensures var k := FindClose(s, q, escaped);
      if k >= 0 then ClosesAt(s, q, escaped, k) && forall i | 0 <= i < k :: !ClosesAt(s, q, escaped, i)
      else forall i | 0 <= i < |s| :: !ClosesAt(s, q, escaped, i)
  {
    if s != [] && !(s[0] != '\\' && !escaped && s[0] == q) {
      var t, esc := s[1..], s[0] == '\\';
      CloseIsFirst(t, q, esc);
      forall i | 0 < i < |s| ensures ClosesAt(s, q, escaped, i) == ClosesAt(t, q, esc, i - 1) {
        assert i > 1 ==> t[i - 2] == s[i - 1];
      }
    }
  }

  // ---- Printing ----

  function EscapeQuotes(v: string): string {
    if v == [] then []
    else (if v[0] == '"' then "\\\"" else [v[0]]) + EscapeQuotes(v[1..])
  }

  /** A backslash in front of s is no escape once the quotes in s are escaped. */
  predicate HarmlessBefore(s: string) {
    s != [] && (s[0] == '"' || EscapeOf(s).1 == 0)
  }

  /** Every backslash is followed by something that makes no escape with it. */
  predicate Survives(v: string) {
    forall i {:trigger v[i]} :: 0 <= i < |v| && v[i] == '\\' ==> HarmlessBefore(v[i + 1..])
  }

  lemma SurvivesTail(v: string)
    requires v != []
    ensures Survives(v) == (Survives(v[1..]) && (v[0] == '\\' ==> HarmlessBefore(v[1..])))
  {
    var t := v[1..];
    if Survives(v) {
      forall i {:trigger t[i]} | 0 <= i < |t| && t[i] == '\\' ensures HarmlessBefore(t[i + 1..]) {
        assert v[i + 1] == '\\';
        assert t[i + 1..] == v[i + 2..];
      }
    }
    if Survives(t) {
      forall i {:trigger v[i]} | 0 < i < |v| && v[i] == '\\' ensures HarmlessBefore(v[i + 1..]) {
        assert t[i - 1] == '\\';
        assert t[i..] == v[i + 1..];
      }
    }
  }

  // ---- Which values survive ----

  lemma EscapedFront(v: string)
    requires v != [] && v[0] != '"'
    ensures EscapeQuotes(v) == [v[0]] + EscapeQuotes(v[1..])
    ensures EscapeQuotes(v)[1..] == EscapeQuotes(v[1..])
  {
  }

  /** Escaping quotes keeps the first n bytes of v, none of them a quote. */
  lemma {:induction false} EscapedPrefix(v: string, n: nat)
    requires n <= |v| && '"' !in v[..n]
    ensures EscapeQuotes(v) == v[..n] + EscapeQuotes(v[n..])
    decreases n
  {
    if n > 0 {
      assert v[0] == v[..n][0];
      EscapedFront(v);
      assert v[1..][..n - 1] == v[..n][1..];
      EscapedPrefix(v[1..], n - 1);
      assert v[1..][n - 1..] == v[n..];
      assert [v[0]] + v[1..][..n - 1] == v[..n];
    } else {
      assert v[n..] == v;
    }
  }

  /** How many of the first n bytes stand in front of the first quote. */
  function Unquoted(v: string, n: nat): (k: nat)
    ensures k <= n && k <= |v| && '"' !in v[..k]
    ensures k < n && k < |v| ==> v[k] == '"'
    decreases n
  {
    if n == 0 || v == [] || v[0] == '"' then 0
    else
      var k := Unquoted(v[1..], n - 1);
      assert v[..k + 1] == [v[0]] + v[1..][..k];
      k + 1
  }

  /** The escape that a backslash in front makes is the same in the printed text. */
  lemma EscapedHex(v: string)
    ensures Hex4(EscapeQuotes(v)) == Hex4(v)
    ensures Hex4(v) >= 0 ==> EscapeQuotes(v) == v[..4] + EscapeQuotes(v[4..])
  {
    var k := Unquoted(v, 4);
    EscapedPrefix(v, k);
    if k == 4 {
      HexPrefix(v);
      HexPrefix(EscapeQuotes(v));
    } else if k < |v| {
      assert EscapeQuotes(v[k..])[0] == '\\';
      assert EscapeQuotes(v)[k] == '\\';
      BadHex(v, k);
      BadHex(EscapeQuotes(v), k);
    }
  }

  lemma BadHex(s: string, k: nat)
    requires k < 4 && k < |s| && HexDigit(s[k]) < 0
    ensures Hex4(s) == -1
  {
  }

  lemma Skip(a: string, b: string)
    ensures (a + b)[|a|..] == b
  {
  }

  lemma EscapedEscape(t: string)
    requires t != [] && t[0] != '"'
    ensures EscapeQuotes(t) != [] && EscapeOf(EscapeQuotes(t)) == EscapeOf(t)
  {
    EscapedFront(t);
    EscapedHex(t[1..]);
  }

  lemma EscapedSkip(t: string)
    requires t != [] && t[0] != '"'
    ensures EscapeOf(t).1 <= |EscapeQuotes(t)|
    ensures EscapeOf(t).1 > 0 ==> EscapeQuotes(t)[EscapeOf(t).1..] == EscapeQuotes(t[EscapeOf(t).1..])
  {
    EscapedFront(t);
    EscapedEscape(t);
    if EscapeOf(t).1 == 5 {
      var r := t[1..];
      EscapedHex(r);
      var rest := EscapeQuotes(r[4..]);
      assert EscapeQuotes(t) == ([t[0]] + r[..4]) + rest;
      Skip([t[0]] + r[..4], rest);
      assert r[4..] == t[5..];
    }
  }

  predicate EndsInBackslash(v: string) {
    v != [] && v[|v| - 1] == '\\'
  }

  lemma QuotePrints(v: string)
    requires v != [] && v[0] == '"'
    ensures Unescape(EscapeQuotes(v)) == ['"'] + Unescape(EscapeQuotes(v[1..]))
  {
    var p := EscapeQuotes(v);
    assert p == ['\\', '"'] + EscapeQuotes(v[1..]);
    UnescapeAt(p, 0);
    assert p[0..] == p && p[2..] == EscapeQuotes(v[1..]);
  }

  lemma PlainPrints(v: string)
    requires v != [] && v[0] != '"' && v[0] != '\\'
    ensures Unescape(EscapeQuotes(v)) == [v[0]] + Unescape(EscapeQuotes(v[1..]))
  {
    EscapedFront(v);
    var p := EscapeQuotes(v);
    UnescapeAt(p, 0);
    assert p[0..] == p;
  }

  lemma UnescapeBackslash(q: string)
    requires q != []
    ensures var e := EscapeOf(q);
      Unescape(['\\'] + q) == if e.1 == 0 then ['\\', q[0]] + Unescape(q[1..]) else e.0 + Unescape(q[e.1..])
  {
    var p := ['\\'] + q;
    var e := EscapeOf(q);
    assert p[1..] == q && p[2..] == q[1..] && p[..2] == ['\\', q[0]] && p[1 + e.1..] == q[e.1..];
  }

  lemma UnescapeByte(c: char, q: string)
    requires c != '\\'
    ensures Unescape([c] + q) == [c] + Unescape(q)
  {
    assert ([c] + q)[1..] == q;
  }

  lemma UnescapeBackslashQuote(tail: string)
    ensures Unescape(['\\'] + (['\\'] + (['"'] + tail))) == ['\\', '"'] + Unescape(tail)
  {
    UnescapeByte('"', tail);
    UnescapeBackslash(['\\'] + (['"'] + tail));
    assert (['\\'] + (['"'] + tail))[1..] == ['"'] + tail;
  }

  lemma EscapedQuote(v: string)
    requires v != [] && v[0] == '"'
    ensures EscapeQuotes(v) == ['\\'] + (['"'] + EscapeQuotes(v[1..]))
  {
  }

  /** A backslash in front of a quote: it is read as an escaped backslash, then the quote by itself. */
  lemma BackslashQuotePrints(v: string)
    requires |v| > 1 && v[0] == '\\' && v[1] == '"'
    ensures Unescape(EscapeQuotes(v)) == ['\\', '"'] + Unescape(EscapeQuotes(v[2..]))
  {
    EscapedFront(v);
    EscapedQuote(v[1..]);
    assert v[1..][1..] == v[2..];
    UnescapeBackslashQuote(EscapeQuotes(v[2..]));
  }

  lemma BackslashPrints(v: string)
    requires |v| > 1 && v[0] == '\\' && v[1] != '"'
    ensures var e := EscapeOf(v[1..]);
      Unescape(EscapeQuotes(v)) ==
        if e.1 == 0 then ['\\', v[1]] + Unescape(EscapeQuotes(v[2..])) else e.0 + Unescape(EscapeQuotes(v[1 + e.1..]))
  {
    var t := v[1..];
    EscapedFront(v);
    EscapedFront(t);
    EscapedEscape(t);
    EscapedSkip(t);
    UnescapeBackslash(EscapeQuotes(t));
    assert t[1..] == v[2..];
    assert t[EscapeOf(t).1..] == v[1 + EscapeOf(t).1..];
  }

  lemma SameTail(c: char, u: string, v: string)
    requires v != []
    ensures [c] + u == v <==> c == v[0] && u == v[1..]
  {
    assert ([c] + u)[1..] == u;
    assert [v[0]] + v[1..] == v;
  }

  /** What a value reads back as, and whether it survives. */
  predicate ReadsBack(v: string) {
    && |Unescape(EscapeQuotes(v))| <= |v|
    && (Survives(v) <==> Unescape(EscapeQuotes(v)) == v && !EndsInBackslash(v))
  }

  lemma PlainCase(v: string)
    requires v != [] && v[0] != '\\' && ReadsBack(v[1..])
    ensures ReadsBack(v)
  {
    SurvivesTail(v);
    SameTail(v[0], Unescape(EscapeQuotes(v[1..])), v);
    if v[0] == '"' {
      QuotePrints(v);
    } else {
      PlainPrints(v);
    }
  }

  lemma BackslashQuoteCase(v: string)
    requires |v| > 1 && v[0] == '\\' && v[1] == '"' && ReadsBack(v[1..]) && ReadsBack(v[2..])
    ensures ReadsBack(v)
  {
    var t := v[1..];
    SurvivesTail(v);
    SurvivesTail(t);
    assert t[1..] == v[2..];
    BackslashQuotePrints(v);
    SameAfterTwo(v, Unescape(EscapeQuotes(v[2..])));
  }

  lemma SameAfterTwo(v: string, u: string)
    requires |v| > 1
    ensures [v[0], v[1]] + u == v <==> u == v[2..]
  {
    assert ([v[0], v[1]] + u)[2..] == u;
    assert [v[0], v[1]] + v[2..] == v;
  }

  lemma BackslashCase(v: string)
    requires |v| > 1 && v[0] == '\\' && v[1] != '"'
    requires ReadsBack(v[2..]) && ReadsBack(v[1 + EscapeOf(v[1..]).1..])
    ensures ReadsBack(v)
  {
    var t := v[1..];
    SurvivesTail(v);
    SurvivesTail(t);
    assert t[1..] == v[2..];
    BackslashPrints(v);
    if EscapeOf(t).1 == 0 {
      SameAfterTwo(v, Unescape(EscapeQuotes(v[2..])));
    }
  }

  /** Printing and unescaping gives the value back exactly when no backslash of it begins an escape. */
  lemma {:induction false} PrintedUnescapes(v: string)
    ensures |Unescape(EscapeQuotes(v))| <= |v|
    ensures Survives(v) <==> Unescape(EscapeQuotes(v)) == v && !EndsInBackslash(v)
    decreases |v|
  {
    if v != [] {
      PrintedUnescapes(v[1..]);
      if v[0] != '\\' {
        PlainCase(v);
      } else if |v| > 1 {
        PrintedUnescapes(v[2..]);
        if v[1] == '"' {
          BackslashQuoteCase(v);
        } else {
          PrintedUnescapes(v[1 + EscapeOf(v[1..]).1..]);
          BackslashCase(v);
        }
      } else {
        assert v == ['\\'];
      }
    }
  }

  lemma {:induction false} EscapedLength(v: string)
    ensures |EscapeQuotes(v)| >= |v|
    ensures v != [] ==> EscapeQuotes(v) != [] && EscapeQuotes(v)[|EscapeQuotes(v)| - 1] == v[|v| - 1]
  {
    if v != [] {
      EscapedLength(v[1..]);
    }
  }

  /** The scanner stops at the closing quote unless the value ends in a backslash, which swallows it. */
  lemma {:induction false} CloseFound(v: string, rest: string, escaped: bool)
    ensures FindClose(EscapeQuotes(v) + "\"" + rest, '"', escaped) ==
      if (if v == [] then escaped else EndsInBackslash(v))
      then (var r := FindClose(rest, '"', false); if r < 0 then -1 else |EscapeQuotes(v)| + 1 + r)
      else |EscapeQuotes(v)|
    decreases |v|
  {
    var s := EscapeQuotes(v) + "\"" + rest;
    if v == [] {
      assert s[0] == '"' && s[1..] == rest;
    } else {
      var t := v[1..];
      if v[0] == '"' {
        assert s == ['\\', '"'] + (EscapeQuotes(t) + "\"" + rest);
        CloseFound(t, rest, false);
        assert s[1..] == ['"'] + (EscapeQuotes(t) + "\"" + rest);
        assert s[1..][1..] == EscapeQuotes(t) + "\"" + rest;
      } else {
        EscapedFront(v);
        CloseFound(t, rest, v[0] == '\\');
        assert s[1..] == EscapeQuotes(t) + "\"" + rest;
      }
    }
  }
}
