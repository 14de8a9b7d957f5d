/** What an escape in a string literal stands for, one by one. */
module Escapes {
  import opened StringValue

  /** The byte that the letter behind a backslash stands for. */
  const LETTERS := map[
    '"' := '"', '\'' := '\'', '\\' := '\\', '/' := '/',
    'b' := '\U{08}', 't' := '\U{09}', 'n' := '\U{0a}', 'f' := '\U{0c}', 'r' := '\U{0d}']

  lemma LetterEscape(c: char, w: string)
    requires c in LETTERS
    ensures Unescape("\\" + [c] + w) == [LETTERS[c]] + Unescape(w)
  {
    var s := "\\" + [c] + w;
    assert s[1..] == [c] + w && s[2..] == w;
  }

  /** Any other letter than these and u is kept, with its backslash. */
  lemma OtherKept(c: char, w: string)
    requires c !in LETTERS && c != 'u'
    ensures Unescape("\\" + [c] + w) == "\\" + [c] + Unescape(w)
  {
    var s := "\\" + [c] + w;
    assert s[1..] == [c] + w && s[2..] == w && s[..2] == "\\" + [c];
  }

  /** A byte that is no backslash stands for itself, and so does a backslash at the end. */
  lemma PlainKept(c: char, w: string)
    requires c != '\\' || w == ""
    ensures Unescape([c] + w) == [c] + Unescape(w)
  {
    assert ([c] + w)[1..] == w;
  }

  // ---- Code points ----

  /** The digit in either case. */
  predicate SpellsDigit(c: char, d: nat) {
    d < 16 && (c == "0123456789abcdef"[d] || c == "0123456789ABCDEF"[d])
  }

  lemma DigitIs(c: char, d: nat)
    requires SpellsDigit(c, d)
    ensures HexDigit(c) == d
  {
    assert "0123456789abcdef"[d] == if d < 10 then ('0' as int + d) as char else ('a' as int + d - 10) as char;
    assert "0123456789ABCDEF"[d] == if d < 10 then ('0' as int + d) as char else ('A' as int + d - 10) as char;
  }

  /** A byte that continues a code point (RFC 3629, section 3). */
  predicate Continues(c: char) {
    0x80 <= c as int < 0xC0
  }

  /** The bytes are those of the code point; a surrogate has those of U+FFFD. */
  predicate Encodes(s: string, r: nat) {
    if r < 0x80 then |s| == 1 && s[0] as int == r
    else if r < 0x800 then
      |s| == 2 && Continues(s[1]) && (s[0] as int - 0xC0) * 64 + (s[1] as int - 0x80) == r
    else if 0xD800 <= r < 0xE000 then s == ['\U{EF}', '\U{BF}', '\U{BD}']
    else
      |s| == 3 && Continues(s[1]) && Continues(s[2])
      && (s[0] as int - 0xE0) * 4096 + (s[1] as int - 0x80) * 64 + (s[2] as int - 0x80) == r
  }

  lemma CodePointEncoded(r: nat)
    requires r < 0x10000
    ensures Encodes(Utf8(r), r)
  {
    assert r == r / 4096 * 4096 + r / 64 % 64 * 64 + r % 64 by {
      assert r / 64 == r / 64 / 64 * 64 + r / 64 % 64;
      assert r / 64 / 64 == r / 4096;
    }
  }

  /** A backslash, u and four hexadecimal digits stand for the bytes of the code point with that number. */
  lemma CodePointEscape(c: string, d: seq<nat>, w: string) returns (bytes: string)
    requires |c| == |d| == 4 && SpellsDigit(c[0], d[0]) && SpellsDigit(c[1], d[1]) && SpellsDigit(c[2], d[2]) && SpellsDigit(c[3], d[3])
    ensures Encodes(bytes, d[0] * 4096 + d[1] * 256 + d[2] * 16 + d[3])
    ensures Unescape("\\u" + c + w) == bytes + Unescape(w)
  {
    DigitIs(c[0], d[0]);
    DigitIs(c[1], d[1]);
    DigitIs(c[2], d[2]);
    DigitIs(c[3], d[3]);
    var r := d[0] * 4096 + d[1] * 256 + d[2] * 16 + d[3];
    CodePointEncoded(r);
    bytes := Utf8(r);
    CodePointTaken(c, w, r);
  }

  lemma CodePointTaken(c: string, w: string, r: nat)
    requires |c| == 4 && Hex4(c) == r
    ensures Unescape("\\u" + c + w) == Utf8(r) + Unescape(w)
  {
    var s := "\\u" + c + w;
    var t := s[1..];
    assert t == "u" + c + w && t[1..] == c + w && s[6..] == w;
    assert Hex4(c + w) == Hex4(c);
    assert EscapeOf(t) == (Utf8(r), 5);
  }

  predicate FourDigits(w: string) {
    |w| >= 4 && HexDigit(w[0]) >= 0 && HexDigit(w[1]) >= 0 && HexDigit(w[2]) >= 0 && HexDigit(w[3]) >= 0
  }

  /** Without four hexadecimal digits behind it, the u is kept with its backslash. */
  lemma ShortCodePointKept(s: string)
    requires |s| >= 2 && s[0] == '\\' && s[1] == 'u' && !FourDigits(s[2..])
    ensures Unescape(s) == s[..2] + Unescape(s[2..])
  {
    assert s[1..][1..] == s[2..];
    assert EscapeOf(s[1..]).1 == 0;
  }

  /** A byte is a hexadecimal digit exactly if it spells one. */
  lemma DigitsAre(c: char)
    ensures HexDigit(c) >= 0 ==> SpellsDigit(c, HexDigit(c))
  {
    var d := HexDigit(c);
    if d >= 0 {
      assert "0123456789abcdef"[d] == if d < 10 then ('0' as int + d) as char else ('a' as int + d - 10) as char;
      assert "0123456789ABCDEF"[d] == if d < 10 then ('0' as int + d) as char else ('A' as int + d - 10) as char;
    }
  }
}
