/**
 Reading and writing JSON strings, and picking the models out of a server's reply.
 */
module JsonText {
  import opened Text
  import opened Json
  import opened JsonScan

  // ---- Escaping ----

  function HexDigit(n: nat): char
    requires n < 16
  {
    if n < 10 then '0' + n as char else 'a' + (n - 10) as char
  }

  predicate IsControl(c: char) {
    c as int < 0x20 || c as int == 0x7f
  }

  /** One character as it stands between the quotes. */
  function EscapeChar(c: char): string {
    if c == '"' then "\\\""
    else if c == '\\' then "\\\\"
    else if c == '\n' then "\\n"
    else if c == '\r' then "\\r"
    else if c == '\t' then "\\t"
    else if IsControl(c) then "\\u00" + [HexDigit(c as int / 16), HexDigit(c as int % 16)]
    else [c]
  }

  function JsonEscape(text: string): string {
    if text == "" then "" else EscapeChar(text[0]) + JsonEscape(text[1..])
  }

  method Escape(text: string) returns (out: string)
    ensures out == JsonEscape(text)
  {
    out := "";
    for p := 0 to |text|
      invariant out + JsonEscape(text[p..]) == JsonEscape(text)
    {
      assert text[p..][1..] == text[p + 1..];
      Assoc(out, EscapeChar(text[p]), JsonEscape(text[p + 1..]));
      out := out + EscapeChar(text[p]);
    }
    assert out + "" == out;
  }

  /**
   Escaping goes character by character: the quote, the backslash and the three usual
   breaks by name, other control characters by number, all others as they are.
   */
  lemma {:induction false} EscapeSays(x: string, y: string, c: char)
    ensures JsonEscape(x + y) == JsonEscape(x) + JsonEscape(y)
    ensures JsonEscape([c]) ==
            if c == '"' then "\\\"" else if c == '\\' then "\\\\" else if c as int == 10 then "\\n"
            else if c as int == 13 then "\\r" else if c as int == 9 then "\\t"
            else if c as int < 32 || c as int == 127 then
              "\\u00" + ["0123456789abcdef"[c as int / 16], "0123456789abcdef"[c as int % 16]]
            else [c]
  {
    assert [c][1..] == "" && EscapeChar(c) + "" == EscapeChar(c);
    HexDigitSays(c as int % 16);
    if c as int < 256 {
      HexDigitSays(c as int / 16);
    }
    if x == "" {
      assert x + y == y;
    } else {
      assert (x + y)[1..] == x[1..] + y;
      Assoc(EscapeChar(x[0]), JsonEscape(x[1..]), JsonEscape(y));
      EscapeSays(x[1..], y, c);
    }
  }

  lemma HexDigitSays(d: nat)
    requires d < 16
    ensures HexDigit(d) == "0123456789abcdef"[d]
  {
    assert d < 10 ==> "0123456789abcdef"[d] as int == '0' as int + d;
    assert d >= 10 ==> "0123456789abcdef"[d] as int == 'a' as int + d - 10;
  }

  // ---- Reading ----

  function HexOf(c: char): (n: int)
    ensures -1 <= n < 16
  {
    if '0' <= c <= '9' then c as int - '0' as int
    else if 'a' <= c <= 'f' then c as int - 'a' as int + 10
    else if 'A' <= c <= 'F' then c as int - 'A' as int + 10
    else -1
  }

  /** The number the leading hexadecimal digits spell. */
  function HexValue(s: string, sofar: nat): nat {
    if s == "" || HexOf(s[0]) < 0 then sofar else HexValue(s[1..], 16 * sofar + HexOf(s[0]))
  }

  lemma {:induction false} HexValueBound(s: string, sofar: nat, bound: nat)
    requires sofar < bound
    ensures HexValue(s, sofar) < Shifted(bound, |s|)
  {
    ShiftGrows(bound, |s|);
    if s != "" && HexOf(s[0]) >= 0 {
      HexValueBound(s[1..], 16 * sofar + HexOf(s[0]), 16 * bound);
    }
  }

  /** `n` with `digits` hexadecimal digits' room added. */
  function Shifted(n: nat, digits: nat): nat
    decreases digits
  {
    if digits == 0 then n else Shifted(16 * n, digits - 1)
  }

  lemma {:induction false} ShiftGrows(n: nat, digits: nat)
    ensures Shifted(n, digits) >= n
    decreases digits
  {
    if digits > 0 {
      ShiftGrows(16 * n, digits - 1);
    }
  }

  /** A `\u` escape's character; half a surrogate pair or a NUL becomes the replacement character. */
  function HexChar(hex: string): char
    requires |hex| == 4
  {
    HexValueBound(hex, 0, 1);
    assert Shifted(1, 4) == 0x1_0000;
    var v := HexValue(hex, 0);
    if 0xD800 <= v <= 0xDFFF || v == 0 then '\U{FFFD}' else v as char
  }

  function Unescaped(c: char): char {
    if c == 'n' then '\n'
    else if c == 't' then '\t'
    else if c == 'r' then '\r'
    else if c == 'b' then 8 as char
    else if c == 'f' then 12 as char
    else c
  }

  /** What has been read when the closing quote, the end or the cap is reached. */
  function ReadBody(p: string, out: string): string
    decreases |p|
  {
    if p == "" || p[0] == '"' || ByteSize(out) > MAX_STRING then out
    else if p[0] != '\\' then ReadBody(p[1..], out + [p[0]])
    else if |p| == 1 then out
    else if p[1] == 'u' then (if |p| < 6 then out else ReadBody(p[6..], out + [HexChar(p[2..6])]))
    else ReadBody(p[2..], out + [Unescaped(p[1])])
  }

  function ReadString(p: string): Option<string> {
    if p == "" || p[0] != '"' then None else Some(CutBytes(ReadBody(p[1..], ""), MAX_STRING))
  }

  method ReadJsonString(start: string) returns (read: Option<string>)
    ensures read == ReadString(start)
  {
    if start == "" || start[0] != '"' {
      return None;
    }
    var p, out := start[1..], "";
    while p != "" && p[0] != '"'
      invariant ReadBody(p, out) == ReadBody(start[1..], "")
      decreases |p|
    {
      if ByteSize(out) > MAX_STRING {
        break;
      }
      if p[0] != '\\' {
        out, p := out + [p[0]], p[1..];
      } else if |p| == 1 {
        p := "";
      } else if p[1] == 'u' {
        if |p| < 6 {
          p := "";
        } else {
          out, p := out + [HexChar(p[2..6])], p[6..];
        }
      } else {
        out, p := out + [Unescaped(p[1])], p[2..];
      }
    }
    return Some(CutBytes(out, MAX_STRING));
  }

  // ---- What is written is read back ----

  lemma HexRoundTrip(c: char)
    requires IsControl(c) && c as int != 0
    ensures HexChar(['0', '0', HexDigit(c as int / 16), HexDigit(c as int % 16)]) == c
  {
    var hi, lo := c as int / 16, c as int % 16;
    var s := ['0', '0', HexDigit(hi), HexDigit(lo)];
    assert HexOf(HexDigit(hi)) == hi && HexOf(HexDigit(lo)) == lo;
    assert s[1..] == ['0', HexDigit(hi), HexDigit(lo)] && s[2..] == [HexDigit(hi), HexDigit(lo)];
    assert s[3..] == [HexDigit(lo)] && s[4..] == "";
    assert s[1..][1..] == s[2..] && s[2..][1..] == s[3..] && s[3..][1..] == s[4..];
    assert HexValue(s[4..], 16 * hi + lo) == c as int;
    assert HexValue(s[3..], hi) == c as int;
    assert HexValue(s[2..], 0) == c as int;
    assert HexValue(s[1..], 0) == c as int;
  }

  /** Any four hexadecimal digits are one character, the most significant first; none for NUL or half a pair. */
  lemma HexCharIs(a: char, b: char, c: char, d: char)
    requires HexOf(a) >= 0 && HexOf(b) >= 0 && HexOf(c) >= 0 && HexOf(d) >= 0
    ensures var v := 4096 * HexOf(a) + 256 * HexOf(b) + 16 * HexOf(c) + HexOf(d);
            HexChar([a, b, c, d]) as int == if v == 0 || 0xD800 <= v < 0xE000 then 0xFFFD else v
  {
    HexStep(a, [b, c, d], 0);
    HexStep(b, [c, d], HexOf(a));
    HexStep(c, [d], 16 * HexOf(a) + HexOf(b));
    HexStep(d, [], 256 * HexOf(a) + 16 * HexOf(b) + HexOf(c));
  }

  lemma HexStep(c: char, rest: string, sofar: nat)
    requires HexOf(c) >= 0
    ensures HexValue([c] + rest, sofar) == HexValue(rest, 16 * sofar + HexOf(c))
    ensures [c] + rest == if |rest| == 3 then [c, rest[0], rest[1], rest[2]]
                          else if |rest| == 2 then [c, rest[0], rest[1]] else [c] + rest
  {
  }

  /** The escapes of section 7 of RFC 8259, and the character itself behind any other backslash. */
  lemma EscapesMean(c: char)
    ensures Unescaped(c) as int ==
            if c == 'b' then 8 else if c == 'f' then 12 else if c == 'n' then 10 else if c == 'r' then 13
            else if c == 't' then 9 else c as int
  {
  }

  lemma ReadOther(c: char, rest: string, out: string)
    requires c != '"' && c != '\\' && ByteSize(out) <= MAX_STRING
    ensures ReadBody([c] + rest, out) == ReadBody(rest, out + [c])
  {
    assert ([c] + rest)[1..] == rest;
  }

  lemma ReadEscaped(c: char, rest: string, out: string)
    requires c != 'u' && ByteSize(out) <= MAX_STRING
    ensures ReadBody(['\\', c] + rest, out) == ReadBody(rest, out + [Unescaped(c)])
  {
    assert (['\\', c] + rest)[2..] == rest;
  }

  lemma ReadHex(hex: string, rest: string, out: string)
    requires |hex| == 4 && ByteSize(out) <= MAX_STRING
    ensures ReadBody("\\u" + (hex + rest), out) == ReadBody(rest, out + [HexChar(hex)])
  {
    var p := "\\u" + (hex + rest);
    assert p[0] == '\\' && p[1] == 'u' && p[2..6] == hex && p[6..] == rest;
  }

  /** The three shapes of an escaped character. */
  lemma EscapeShapes(c: char)
    ensures var e := EscapeChar(c);
            if IsControl(c) && c != '\n' && c != '\r' && c != '\t' then
              e == "\\u" + ['0', '0', HexDigit(c as int / 16), HexDigit(c as int % 16)]
            else if |e| == 2 then e == ['\\', e[1]] && e[1] != 'u' && Unescaped(e[1]) == c
            else e == [c] && c != '"' && c != '\\'
  {
  }

  lemma EscapedCharReads(c: char, rest: string, out: string)
    requires c as int != 0 && ByteSize(out) <= MAX_STRING
    ensures ReadBody(EscapeChar(c) + rest, out) == ReadBody(rest, out + [c])
  {
    EscapeShapes(c);
    hide HexChar, HexDigit, EscapeChar, Unescaped, IsControl;
    if IsControl(c) && c != '\n' && c != '\r' && c != '\t' {
      HexRoundTrip(c);
      var hex := ['0', '0', EscapeChar(c)[4], EscapeChar(c)[5]];
      assert EscapeChar(c) + rest == "\\u" + (hex + rest);
      ReadHex(hex, rest, out);
    } else if |EscapeChar(c)| == 2 {
      ReadEscaped(EscapeChar(c)[1], rest, out);
    } else {
      ReadOther(c, rest, out);
    }
  }

  lemma GoodPlain(c: char, rest: string)
    requires GoodBody(rest) && c != '"' && c != '\\'
    ensures GoodBody([c] + rest)
  {
    assert ([c] + rest)[1..] == rest;
  }

  lemma GoodEscape(c: char, rest: string)
    requires GoodBody(rest)
    ensures GoodBody(['\\', c] + rest)
  {
    assert (['\\', c] + rest)[2..] == rest;
  }

  lemma GoodHex(hi: char, lo: char, rest: string)
    requires GoodBody(rest) && hi != '"' && hi != '\\' && lo != '"' && lo != '\\'
    ensures GoodBody(['\\', 'u', '0', '0', hi, lo] + rest)
  {
    GoodPlain(lo, rest);
    GoodPlain(hi, [lo] + rest);
    GoodPlain('0', [hi] + ([lo] + rest));
    GoodPlain('0', ['0'] + ([hi] + ([lo] + rest)));
    GoodEscape('u', ['0'] + (['0'] + ([hi] + ([lo] + rest))));
    assert ['\\', 'u', '0', '0', hi, lo] + rest == ['\\', 'u'] + (['0'] + (['0'] + ([hi] + ([lo] + rest))));
  }

  lemma EscapeCharIsGood(c: char, rest: string)
    requires GoodBody(rest)
    ensures GoodBody(EscapeChar(c) + rest)
  {
    if IsControl(c) && c != '\n' && c != '\r' && c != '\t' {
      var hi, lo := HexDigit(c as int / 16), HexDigit(c as int % 16);
      GoodHex(hi, lo, rest);
      assert EscapeChar(c) == ['\\', 'u', '0', '0', hi, lo];
    } else if |EscapeChar(c)| == 2 {
      GoodEscape(EscapeChar(c)[1], rest);
      assert EscapeChar(c) == ['\\', EscapeChar(c)[1]];
    } else {
      GoodPlain(c, rest);
    }
  }

  lemma {:induction false} EscapeIsGood(text: string)
    ensures GoodBody(JsonEscape(text))
  {
    if text != "" {
      EscapeIsGood(text[1..]);
      EscapeCharIsGood(text[0], JsonEscape(text[1..]));
    }
  }

  lemma EscapedStep(text: string, rest: string, out: string)
    requires text != "" && text[0] as int != 0 && ByteSize(out) <= MAX_STRING
    ensures ReadBody(JsonEscape(text) + rest, out) == ReadBody(JsonEscape(text[1..]) + rest, out + [text[0]])
  {
    hide EscapeChar;
    Assoc(EscapeChar(text[0]), JsonEscape(text[1..]), rest);
    EscapedCharReads(text[0], JsonEscape(text[1..]) + rest, out);
  }

  lemma ReadStops(text: string, rest: string, out: string)
    requires rest != "" && rest[0] == '"' && (text == "" || ByteSize(out) > MAX_STRING)
    ensures ReadBody(JsonEscape(text) + rest, out) == out
  {
    assert JsonEscape("") + rest == rest;
  }

  /** Reading goes on until the text ends or the cap is passed. */
  lemma {:induction false} EscapedReads(text: string, rest: string, out: string) returns (k: nat)
    requires forall c | c in text :: c as int != 0
    requires rest != "" && rest[0] == '"'
    ensures k <= |text| && ReadBody(JsonEscape(text) + rest, out) == out + text[..k]
    ensures k < |text| ==> ByteSize(out + text[..k]) > MAX_STRING
    decreases |text|
  {
    if text == "" || ByteSize(out) > MAX_STRING {
      k := 0;
      ReadStops(text, rest, out);
      assert out + text[..0] == out;
    } else {
      assert text[0] in text && forall c | c in text[1..] :: c in text;
      EscapedStep(text, rest, out);
      var j := EscapedReads(text[1..], rest, out + [text[0]]);
      k := j + 1;
      assert text[..k] == [text[0]] + text[1..][..j];
      Assoc(out, [text[0]], text[1..][..j]);
    }
  }

  /** Cutting looks no further than the cut. */
  lemma {:induction false} CutOfPrefix(s: string, k: nat, max: nat)
    requires k <= |s| && (k < |s| ==> ByteSize(s[..k]) > max)
    ensures CutBytes(s[..k], max) == CutBytes(s, max)
  {
    if k == |s| {
      assert s[..k] == s;
    } else if k > 0 && CharSize(s[0]) <= max {
      assert s[..k][1..] == s[1..][..k - 1];
      CutOfPrefix(s[1..], k - 1, max - CharSize(s[0]));
    } else if k > 0 {
      assert s[..k][0] == s[0];
    }
  }

  /**
   A quoted, escaped text reads back as itself, cut at the cap; up to the cap it
   is the same text.  The scanner that skips strings stops at the same quote.
   */
  lemma EscapeRoundTrip(text: string, rest: string)
    requires forall c | c in text :: c as int != 0
    ensures ReadString(Quote(JsonEscape(text)) + rest) == Some(CutBytes(text, MAX_STRING))
    ensures ByteSize(text) <= MAX_STRING ==> ReadString(Quote(JsonEscape(text)) + rest) == Some(text)
    ensures SkipString(Quote(JsonEscape(text)) + rest) == Some(rest)
  {
    EscapeIsGood(text);
    StringEnds(JsonEscape(text), rest);
    QuoteTail(JsonEscape(text), rest);
    var k := EscapedReads(text, "\"" + rest, "");
    assert "" + text[..k] == text[..k];
    CutOfPrefix(text, k, MAX_STRING);
    CutBytesIsLongest(text, MAX_STRING);
  }
}
