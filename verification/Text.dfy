/**
 Texts and the few library calls the components share.

 A text is a sequence of characters and never holds a NUL, which ends a string
 in the original; sizes that the original counts in bytes are UTF-8 sizes here.
 */
module Text {

  datatype Option<+T> = None | Some(value: T)

  const CR := '\r'
  const LF := '\n'
  const TAB := '\t'

  // ---- Concatenation and lines ----

  lemma Assoc<T>(x: seq<T>, y: seq<T>, z: seq<T>)
    ensures x + y + z == x + (y + z)
  {
  }

  function Concat(parts: seq<string>): string {
    if parts == [] then "" else parts[0] + Concat(parts[1..])
  }

  lemma {:induction false} ConcatAppend(xs: seq<string>, ys: seq<string>)
    ensures Concat(xs + ys) == Concat(xs) + Concat(ys)
  {
    if xs == [] {
      assert xs + ys == ys;
    } else {
      assert (xs + ys)[1..] == xs[1..] + ys;
      ConcatAppend(xs[1..], ys);
    }
  }

  lemma ConcatSnoc(xs: seq<string>, y: string)
    ensures Concat(xs + [y]) == Concat(xs) + y
  {
    ConcatAppend(xs, [y]);
    assert [y][1..] == [];
  }

  /** Every line with its newline. */
  function Unlines(lines: seq<string>): string {
    if lines == [] then "" else lines[0] + [LF] + Unlines(lines[1..])
  }

  lemma {:induction false} UnlinesAppend(xs: seq<string>, ys: seq<string>)
    ensures Unlines(xs + ys) == Unlines(xs) + Unlines(ys)
  {
    if xs == [] {
      assert xs + ys == ys;
    } else {
      assert (xs + ys)[1..] == xs[1..] + ys;
      UnlinesAppend(xs[1..], ys);
    }
  }

  // ---- Splitting at a separator ----

  /** The first place of `sep` in `s`, or its length. */
  function Find(s: string, sep: char): (k: nat)
    ensures k <= |s| && sep !in s[..k] && (k < |s| ==> s[k] == sep)
  {
    if s == "" || s[0] == sep then 0
    else
      var k := Find(s[1..], sep);
      assert s[..1 + k] == [s[0]] + s[1..][..k];
      1 + k
  }

  lemma {:induction false} FindAt(line: string, sep: char, rest: string)
    requires sep !in line
    ensures Find(line + [sep] + rest, sep) == |line|
    ensures Find(line, sep) == |line|
  {
    if line != "" {
      assert line[0] in line;
      assert (line + [sep] + rest)[1..] == line[1..] + [sep] + rest;
      FindAt(line[1..], sep, rest);
    }
  }

  /** The pieces between separators; an empty text is one empty piece. */
  function Split(s: string, sep: char): (parts: seq<string>)
    ensures |parts| >= 1
    decreases |s|
  {
    var k := Find(s, sep);
    if k == |s| then [s] else [s[..k]] + Split(s[k + 1..], sep)
  }

  /** The same, but at most `limit` pieces: the last one keeps the rest unsplit. */
  function SplitAtMost(s: string, sep: char, limit: nat): (parts: seq<string>)
    requires limit >= 1
    ensures 1 <= |parts| <= limit
    decreases limit
  {
    var k := Find(s, sep);
    if limit == 1 || k == |s| then [s] else [s[..k]] + SplitAtMost(s[k + 1..], sep, limit - 1)
  }

  lemma SplitLine(line: string, sep: char, rest: string)
    requires sep !in line
    ensures Split(line + [sep] + rest, sep) == [line] + Split(rest, sep)
    ensures Split(line, sep) == [line]
  {
    FindAt(line, sep, rest);
    var s := line + [sep] + rest;
    assert s[..|line|] == line && s[|line| + 1..] == rest;
  }

  lemma SplitAtMostLine(line: string, sep: char, rest: string, limit: nat)
    requires sep !in line && limit > 1
    ensures SplitAtMost(line + [sep] + rest, sep, limit) == [line] + SplitAtMost(rest, sep, limit - 1)
  {
    FindAt(line, sep, rest);
    var s := line + [sep] + rest;
    assert s[..|line|] == line && s[|line| + 1..] == rest;
  }

  lemma {:induction false} SplitUnlines(lines: seq<string>, last: string)
    requires LF !in last && forall l | l in lines :: LF !in l
    ensures Split(Unlines(lines) + last, LF) == lines + [last]
  {
    if lines == [] {
      assert "" + last == last;
      SplitLine(last, LF, "");
    } else {
      var rest := lines[1..];
      assert lines[0] in lines && lines + [last] == [lines[0]] + (rest + [last]);
      SplitUnlines(rest, last);
      SplitLine(lines[0], LF, Unlines(rest) + last);
      Assoc(lines[0] + [LF], Unlines(rest), last);
    }
  }

  lemma {:induction false} SplitHasNoSeparator(s: string, sep: char)
    ensures forall part | part in Split(s, sep) :: sep !in part
    decreases |s|
  {
    var k := Find(s, sep);
    assert s[..|s|] == s;
    if k < |s| {
      SplitHasNoSeparator(s[k + 1..], sep);
    }
  }

  /** The pieces after one more character: a new piece after a separator, a longer last piece otherwise. */
  function Extended(parts: seq<string>, sep: char, c: char): seq<string>
    requires parts != []
  {
    if c == sep then parts + [""] else parts[..|parts| - 1] + [parts[|parts| - 1] + [c]]
  }

  lemma SplitSnocPiece(s: string, sep: char, c: char)
    requires sep !in s
    ensures Split(s + [c], sep) == Extended([s], sep, c)
  {
    if c == sep {
      SplitLine(s, sep, "");
      SplitLine("", sep, "");
      assert s + [sep] + "" == s + [c];
    } else {
      SplitLine(s + [c], sep, "");
    }
  }

  lemma SplitSnocLine(line: string, rest: string, sep: char, c: char)
    requires sep !in line
    requires Split(rest + [c], sep) == Extended(Split(rest, sep), sep, c)
    ensures Split(line + [sep] + (rest + [c]), sep) == Extended(Split(line + [sep] + rest, sep), sep, c)
  {
    hide Extended;
    SplitLine(line, sep, rest);
    SplitLine(line, sep, rest + [c]);
    ExtendedCons(line, Split(rest, sep), sep, c);
  }

  lemma {:induction false} SplitSnoc(s: string, sep: char, c: char)
    ensures Split(s + [c], sep) == Extended(Split(s, sep), sep, c)
    decreases |s|
  {
    hide Extended;
    var k := Find(s, sep);
    if k == |s| {
      assert s[..k] == s;
      SplitSnocPiece(s, sep, c);
    } else {
      var line, rest := s[..k], s[k + 1..];
      SplitSnoc(rest, sep, c);
      SplitSnocLine(line, rest, sep, c);
      assert s == line + [sep] + rest && s + [c] == line + [sep] + (rest + [c]);
    }
  }

  lemma ExtendedCons(line: string, parts: seq<string>, sep: char, c: char)
    requires parts != []
    ensures Extended([line] + parts, sep, c) == [line] + Extended(parts, sep, c)
  {
  }

  // ---- UTF-8 sizes ----

  function CharSize(c: char): (n: nat)
    ensures 1 <= n <= 4
  {
    if c as int < 0x80 then 1 else if c as int < 0x800 then 2 else if c as int < 0x1_0000 then 3 else 4
  }

  function ByteSize(s: string): nat {
    if s == "" then 0 else CharSize(s[0]) + ByteSize(s[1..])
  }

  lemma {:induction false} ByteSizeAppend(s: string, t: string)
    ensures ByteSize(s + t) == ByteSize(s) + ByteSize(t)
  {
    if s == "" {
      assert s + t == t;
    } else {
      assert (s + t)[1..] == s[1..] + t;
      ByteSizeAppend(s[1..], t);
    }
  }

  /** `s` cut to at most `max` bytes, on a character boundary. */
  function CutBytes(s: string, max: nat): string {
    if s == "" || CharSize(s[0]) > max then "" else [s[0]] + CutBytes(s[1..], max - CharSize(s[0]))
  }

  lemma {:induction false} CutBytesIsLongest(s: string, max: nat)
    ensures CutBytes(s, max) <= s && ByteSize(CutBytes(s, max)) <= max
    ensures forall k | |CutBytes(s, max)| < k <= |s| :: ByteSize(s[..k]) > max
    ensures ByteSize(s) <= max ==> CutBytes(s, max) == s
  {
    if s != "" && CharSize(s[0]) <= max {
      var rest := CutBytes(s[1..], max - CharSize(s[0]));
      CutBytesIsLongest(s[1..], max - CharSize(s[0]));
      assert CutBytes(s, max)[1..] == rest;
      assert s == [s[0]] + s[1..];
      forall k | |rest| + 1 < k <= |s| ensures ByteSize(s[..k]) > max {
        assert s[..k][1..] == s[1..][..k - 1];
      }
    } else if s != "" {
      forall k | 0 < k <= |s| ensures ByteSize(s[..k]) > max {
        assert s[..k][0] == s[0];
      }
    }
  }

  // ---- Decimal numbers ----

  predicate IsDigit(c: char) {
    '0' <= c <= '9'
  }

  predicate AllDigits(s: string) {
    forall c | c in s :: IsDigit(c)
  }

  function Digits(n: nat): (s: string)
    ensures s != "" && AllDigits(s)
  {
    if n < 10 then ['0' + n as char] else Digits(n / 10) + ['0' + (n % 10) as char]
  }

  function DigitsValue(s: string): nat
    requires AllDigits(s)
  {
    assert s != "" ==> s[|s| - 1] in s;
    if s == "" then 0 else 10 * DigitsValue(s[..|s| - 1]) + (s[|s| - 1] as int - '0' as int)
  }

  lemma {:induction false} DigitsRoundTrip(n: nat)
    ensures DigitsValue(Digits(n)) == n
  {
    var s := Digits(n);
    assert |s| == 1 ==> s[..|s| - 1] == "";
    if n >= 10 {
      DigitsRoundTrip(n / 10);
      assert s[..|s| - 1] == Digits(n / 10);
    }
  }
}
