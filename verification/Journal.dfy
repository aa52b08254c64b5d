/**
 The activity journal: one line a sample, each starting with its time, cut back
 now and then to what is young enough and fits.
 */
module Journal {
  import opened Text

  const MAX_EPOCH: nat := 0x7fff_ffff_ffff_ffff

  // ---- Lines ----

  /** The lines of a journal: what follows the last newline counts only when it is not empty. */
  function Records(text: string): seq<string> {
    var parts := Split(text, LF);
    if parts[|parts| - 1] == "" then parts[..|parts| - 1] else parts
  }

  function DigitRun(s: string): (n: nat)
    ensures n <= |s| && AllDigits(s[..n]) && (n < |s| ==> !IsDigit(s[n]))
  {
    if s == "" || !IsDigit(s[0]) then 0
    else
      assert s[..1 + DigitRun(s[1..])] == [s[0]] + s[1..][..DigitRun(s[1..])];
      1 + DigitRun(s[1..])
  }

  /** The time a line starts with, up to its first comma; a torn line has none. */
  function Epoch(line: string): Option<nat> {
    var n := DigitRun(line);
    if n == 0 || n == |line| || line[n] != ',' then None
    else if DigitsValue(line[..n]) > MAX_EPOCH then Some(MAX_EPOCH)
    else Some(DigitsValue(line[..n]))
  }

  /** The line is a time in digits, a comma and the rest. */
  ghost predicate Stamped(line: string, time: string, rest: string) {
    time != "" && AllDigits(time) && line == time + ("," + rest)
  }

  /** The line has a time, and that is young enough once it is brought into 64 bits. */
  ghost predicate IsFresh(line: string, cutoff: int) {
    exists time, rest | Stamped(line, time, rest) ::
      (if DigitsValue(time) > 9_223_372_036_854_775_807 then 9_223_372_036_854_775_807 else DigitsValue(time)) >= cutoff
  }

  ghost function Fresh(lines: seq<string>, cutoff: int): seq<string> {
    if lines == [] then []
    else if IsFresh(lines[0], cutoff) then [lines[0]] + Fresh(lines[1..], cutoff)
    else Fresh(lines[1..], cutoff)
  }

  /** The bytes of the lines, each with its newline. */
  function Total(lines: seq<string>): nat {
    if lines == [] then 0 else ByteSize(lines[0]) + 1 + Total(lines[1..])
  }

  function Fitting(lines: seq<string>, maxBytes: nat): (kept: seq<string>)
    ensures |kept| <= |lines|
  {
    if Total(lines) <= maxBytes then lines else Fitting(lines[1..], maxBytes)
  }

  ghost function Kept(text: string, cutoff: int, maxBytes: nat): seq<string> {
    Fitting(Fresh(Records(text), cutoff), maxBytes)
  }

  /** The file after a prune: untouched when every line stays. */
  ghost function Pruned(text: string, cutoff: int, maxBytes: nat): string {
    var kept := Kept(text, cutoff, maxBytes);
    if |kept| == |Records(text)| then text else Unlines(kept)
  }

  // ---- The prune ----

  class Journal {
    /** The file's text, or None when there is no file. */
    var file: Option<string>

    method Prune(now: int, maxAge: int, maxBytes: nat) returns (rewritten: bool)
      modifies this
      ensures old(file).None? ==> file.None? && !rewritten
      ensures old(file).Some? ==> file == Some(Pruned(old(file.value), now - maxAge, maxBytes))
      ensures rewritten <==> old(file).Some? &&
                             |Kept(old(file.value), now - maxAge, maxBytes)| < |Records(old(file.value))|
    {
      hide Records;
      if file.None? {
        return false;
      }
      var text := file.value;
      var keep, keptBytes, stale := KeepFresh(text, now - maxAge);
      var first := DropOldest(keep, keptBytes, maxBytes);
      KeptAreRecords(text, now - maxAge, maxBytes);
      if !stale && first == 0 {
        assert keep[0..] == keep;
        return false;
      }
      var out := JoinLines(keep[first..]);
      file := Some(out);
      return true;
    }
  }

  /** The fresh lines, their bytes, and whether there were others. */
  method KeepFresh(text: string, cutoff: int) returns (keep: seq<string>, keptBytes: nat, dropped: bool)
    ensures keep == Fresh(Records(text), cutoff) && keptBytes == Total(keep)
    ensures |keep| <= |Records(text)| && (dropped <==> |keep| < |Records(text)|)
  {
    hide IsFresh, Split;
    var lines := Split(text, LF);
    ghost var records := Records(text);
    keep, keptBytes, dropped := [], 0, false;
    var i := 0;
    assert [] + Fresh(records, cutoff) == Fresh(records, cutoff) && records[0..] == records;
    while i < |lines|
      invariant i <= |records| <= |lines|
      invariant keep + Fresh(records[i..], cutoff) == Fresh(records, cutoff)
      invariant keptBytes == Total(keep)
      invariant |keep| <= i && (dropped <==> |keep| < i)
    {
      if lines[i] == "" && i + 1 == |lines| {
        break;
      }
      ghost var rest := records[i + 1..];
      assert lines[i] == records[i] && records[i..] == [records[i]] + rest;
      var young := LineIsFresh(lines[i], cutoff);
      if young {
        Assoc(keep, [lines[i]], Fresh(rest, cutoff));
        TotalSnoc(keep, lines[i]);
        keep := keep + [lines[i]];
        keptBytes := keptBytes + ByteSize(lines[i]) + 1;
      } else {
        dropped := true;
      }
      i := i + 1;
    }
    assert i == |records| && records[i..] == [];
    assert keep + [] == keep;
  }

  /** The oldest lines to drop until the rest fits. */
  method DropOldest(keep: seq<string>, bytes: nat, maxBytes: nat) returns (first: nat)
    requires bytes == Total(keep)
    ensures first <= |keep| && keep[first..] == Fitting(keep, maxBytes)
  {
    first := 0;
    var keptBytes := bytes;
    assert keep[0..] == keep;
    while keptBytes > maxBytes && first < |keep|
      invariant first <= |keep|
      invariant keptBytes == Total(keep[first..])
      invariant Fitting(keep[first..], maxBytes) == Fitting(keep, maxBytes)
    {
      assert keep[first..][1..] == keep[first + 1..];
      keptBytes := keptBytes - (ByteSize(keep[first]) + 1);
      first := first + 1;
    }
  }

  method JoinLines(lines: seq<string>) returns (out: string)
    ensures out == Unlines(lines)
  {
    out := "";
    assert lines[0..] == lines && "" + Unlines(lines) == Unlines(lines);
    for j := 0 to |lines|
      invariant out + Unlines(lines[j..]) == Unlines(lines)
    {
      assert lines[j..][1..] == lines[j + 1..];
      Assoc(out, lines[j] + [LF], Unlines(lines[j + 1..]));
      out := out + (lines[j] + [LF]);
    }
    assert out + [] == out;
  }

  method LineIsFresh(line: string, cutoff: int) returns (young: bool)
    ensures young == IsFresh(line, cutoff)
  {
    var epoch := Epoch(line);
    FreshByEpoch(line, cutoff);
    return epoch.Some? && epoch.value >= cutoff;
  }

  lemma {:induction false} TotalSnoc(lines: seq<string>, line: string)
    ensures Total(lines + [line]) == Total(lines) + ByteSize(line) + 1
  {
    if lines == [] {
      assert [line][1..] == [];
    } else {
      assert (lines + [line])[1..] == lines[1..] + [line];
      TotalSnoc(lines[1..], line);
    }
  }

  // ---- The time of a line ----

  lemma {:induction false} DigitsEnd(time: string, rest: string)
    requires AllDigits(time) && (rest == "" || !IsDigit(rest[0]))
    ensures DigitRun(time + rest) == |time|
  {
    if time == "" {
      assert time + rest == rest;
    } else {
      assert time[0] in time && (time + rest)[1..] == time[1..] + rest;
      DigitsEnd(time[1..], rest);
    }
  }

  /** The time that is read is the number in front of the comma, cut to 64 bits; a line of another form has none. */
  lemma EpochReads(line: string)
    ensures forall time, rest | Stamped(line, time, rest) ::
              Epoch(line) == Some(if DigitsValue(time) > MAX_EPOCH then MAX_EPOCH else DigitsValue(time))
    ensures Epoch(line).Some? <==> exists time, rest :: Stamped(line, time, rest)
  {
    forall time, rest | Stamped(line, time, rest) ensures DigitRun(line) == |time| && line[..|time|] == time {
      DigitsEnd(time, "," + rest);
    }
    var n := DigitRun(line);
    if Epoch(line).Some? {
      assert line == line[..n] + ("," + line[n + 1..]);
      assert Stamped(line, line[..n], line[n + 1..]);
    }
  }

  lemma FreshByEpoch(line: string, cutoff: int)
    ensures IsFresh(line, cutoff) <==> Epoch(line).Some? && Epoch(line).value >= cutoff
  {
    EpochReads(line);
    hide Epoch, Stamped;
    if Epoch(line).Some? {
      var time, rest :| Stamped(line, time, rest);
    }
  }

  // ---- What is left ----

  /** What fits is the longest end of the list that does. */
  lemma {:induction false} FittingIsLongest(lines: seq<string>, maxBytes: nat)
    ensures var kept := Fitting(lines, maxBytes);
            var k := |lines| - |kept|;
            && kept == lines[k..] && Total(kept) <= maxBytes
            && forall j | 0 <= j < k :: Total(lines[j..]) > maxBytes
  {
    if Total(lines) > maxBytes {
      FittingIsLongest(lines[1..], maxBytes);
      var k := |lines| - |Fitting(lines, maxBytes)|;
      assert lines[1..][k - 1..] == lines[k..];
      forall j | 0 <= j < k ensures Total(lines[j..]) > maxBytes {
        if j == 0 {
          assert lines[0..] == lines;
        } else {
          assert lines[1..][j - 1..] == lines[j..];
        }
      }
    }
  }

  lemma {:induction false} FreshAreLines(lines: seq<string>, cutoff: int)
    ensures |Fresh(lines, cutoff)| <= |lines|
    ensures forall l :: l in Fresh(lines, cutoff) <==> l in lines && IsFresh(l, cutoff)
    ensures |Fresh(lines, cutoff)| == |lines| <==> Fresh(lines, cutoff) == lines
  {
    hide IsFresh;
    if lines != [] {
      FreshAreLines(lines[1..], cutoff);
      assert lines == [lines[0]] + lines[1..];
    }
  }

  lemma RecordsAreLines(text: string)
    ensures forall l | l in Records(text) :: LF !in l
  {
    SplitHasNoSeparator(text, LF);
  }

  /** A text is its records, each with its newline, and a last one that may lack it. */
  lemma RecordsOfUnlines(lines: seq<string>, last: string)
    requires LF !in last && forall l | l in lines :: LF !in l
    ensures Records(Unlines(lines) + last) == lines + if last == "" then [] else [last]
  {
    SplitUnlines(lines, last);
    assert (lines + [last])[..|lines|] == lines;
  }

  lemma KeptAreRecords(text: string, cutoff: int, maxBytes: nat)
    ensures |Kept(text, cutoff, maxBytes)| <= |Records(text)|
    ensures forall l | l in Kept(text, cutoff, maxBytes) :: l in Records(text) && IsFresh(l, cutoff)
    ensures |Kept(text, cutoff, maxBytes)| == |Records(text)| ==> Kept(text, cutoff, maxBytes) == Records(text)
  {
    hide Records, IsFresh;
    var young := Fresh(Records(text), cutoff);
    FreshAreLines(Records(text), cutoff);
    FittingIsLongest(young, maxBytes);
    assert young[0..] == young;
  }

  /**
   A pruned journal holds exactly the longest end of its fresh, well-formed lines
   that fits, in order; a file without a line to drop is left as it was.
   */
  lemma PruneKeepsLongest(text: string, cutoff: int, maxBytes: nat) returns (k: nat)
    ensures var young := Fresh(Records(text), cutoff);
            && k <= |young| && Records(Pruned(text, cutoff, maxBytes)) == young[k..]
            && Total(young[k..]) <= maxBytes && (forall j | 0 <= j < k :: Total(young[j..]) > maxBytes)
            && Pruned(text, cutoff, maxBytes) == if young[k..] == Records(text) then text else Unlines(young[k..])
  {
    hide IsFresh, Records;
    var young := Fresh(Records(text), cutoff);
    k := |young| - |Fitting(young, maxBytes)|;
    FittingIsLongest(young, maxBytes);
    KeptAreRecords(text, cutoff, maxBytes);
    PruneKeepsFitting(text, cutoff, maxBytes);
  }

  lemma PruneKeepsFitting(text: string, cutoff: int, maxBytes: nat)
    ensures Records(Pruned(text, cutoff, maxBytes)) == Fitting(Fresh(Records(text), cutoff), maxBytes)
  {
    hide IsFresh, Records;
    KeptAreRecords(text, cutoff, maxBytes);
    RecordsAreLines(text);
    RecordsOfUnlines(Kept(text, cutoff, maxBytes), "");
    assert Unlines(Kept(text, cutoff, maxBytes)) + "" == Unlines(Kept(text, cutoff, maxBytes));
    assert Kept(text, cutoff, maxBytes) + [] == Kept(text, cutoff, maxBytes);
  }

  lemma {:induction false} FreshOfFresh(lines: seq<string>, early: int, late: int)
    requires early <= late
    ensures Fresh(Fresh(lines, early), late) == Fresh(lines, late)
  {
    hide Epoch, Stamped;
    if lines != [] {
      FreshOfFresh(lines[1..], early, late);
    }
  }

  lemma {:induction false} AllFresh(lines: seq<string>, cutoff: int)
    requires forall l | l in lines :: IsFresh(l, cutoff)
    ensures Fresh(lines, cutoff) == lines
  {
    hide IsFresh;
    if lines != [] {
      AllFresh(lines[1..], cutoff);
      assert lines[0] in lines;
    }
  }

  /** Pruning again at the same time drops nothing. */
  lemma PruneAgain(text: string, cutoff: int, maxBytes: nat)
    ensures Pruned(Pruned(text, cutoff, maxBytes), cutoff, maxBytes) == Pruned(text, cutoff, maxBytes)
    ensures var once := Pruned(text, cutoff, maxBytes); Kept(once, cutoff, maxBytes) == Records(once)
  {
    hide IsFresh, Records;
    var kept := Kept(text, cutoff, maxBytes);
    PruneKeepsFitting(text, cutoff, maxBytes);
    KeptAreRecords(text, cutoff, maxBytes);
    AllFresh(kept, cutoff);
    FittingIsLongest(Fresh(Records(text), cutoff), maxBytes);
  }

  // ---- Pruning early ----

  /** The lines' times never go back. */
  ghost predicate InOrder(lines: seq<string>) {
    && (forall l | l in lines :: Epoch(l).Some?)
    && forall i, j | 0 <= i < j < |lines| :: Epoch(lines[i]).value <= Epoch(lines[j]).value
  }

  lemma {:induction false} EarlyFitting(lines: seq<string>, late: int, maxBytes: nat)
    requires InOrder(lines)
    ensures Fitting(Fresh(Fitting(lines, maxBytes), late), maxBytes) == Fitting(Fresh(lines, late), maxBytes)
  {
    hide Epoch;
    hide IsFresh;
    if Total(lines) > maxBytes {
      EarlyFitting(lines[1..], late, maxBytes);
      forall i | 0 <= i < |lines| ensures IsFresh(lines[i], late) <==> Epoch(lines[i]).value >= late {
        assert lines[i] in lines;
        FreshByEpoch(lines[i], late);
      }
      if IsFresh(lines[0], late) {
        assert forall i | 0 <= i < |lines| :: lines[i] in lines && IsFresh(lines[i], late);
        AllFresh(lines, late);
        AllFresh(lines[1..], late);
      }
    }
  }

  /**
   When the fresh lines are in order of time, a prune now does not change what a
   later prune leaves; the size limit can never have cost a line that it keeps.
   */
  lemma PruneEarly(text: string, early: int, late: int, maxBytes: nat)
    requires early <= late && InOrder(Fresh(Records(text), early))
    ensures Records(Pruned(Pruned(text, early, maxBytes), late, maxBytes)) == Records(Pruned(text, late, maxBytes))
  {
    hide Pruned, Records, InOrder;
    PruneKeepsFitting(text, early, maxBytes);
    PruneKeepsFitting(text, late, maxBytes);
    PruneKeepsFitting(Pruned(text, early, maxBytes), late, maxBytes);
    FreshOfFresh(Records(text), early, late);
    EarlyFitting(Fresh(Records(text), early), late, maxBytes);
  }

  // ---- The size of the file ----

  lemma {:induction false} SplitTotal(text: string)
    ensures Total(Split(text, LF)) == ByteSize(text) + 1
    decreases |text|
  {
    var k := Find(text, LF);
    assert text[..|text|] == text;
    if k < |text| {
      SplitTotal(text[k + 1..]);
      assert text == text[..k] + ([LF] + text[k + 1..]);
      ByteSizeAppend(text[..k], [LF] + text[k + 1..]);
    }
  }

  lemma {:induction false} UnlinesTotal(lines: seq<string>)
    ensures ByteSize(Unlines(lines)) == Total(lines)
  {
    if lines != [] {
      UnlinesTotal(lines[1..]);
      Assoc(lines[0], [LF], Unlines(lines[1..]));
      ByteSizeAppend(lines[0], [LF] + Unlines(lines[1..]));
    }
  }

  lemma RecordsTotal(text: string)
    ensures ByteSize(text) <= Total(Records(text)) <= ByteSize(text) + 1
  {
    hide Split;
    var parts := Split(text, LF);
    SplitTotal(text);
    if parts[|parts| - 1] == "" {
      assert parts == parts[..|parts| - 1] + [""];
      TotalSnoc(parts[..|parts| - 1], "");
    }
  }

  /** A pruned journal never exceeds the limit, whether or not it was rewritten. */
  lemma PruneFits(text: string, cutoff: int, maxBytes: nat)
    ensures ByteSize(Pruned(text, cutoff, maxBytes)) <= maxBytes
  {
    hide IsFresh, Records;
    KeptAreRecords(text, cutoff, maxBytes);
    FittingIsLongest(Fresh(Records(text), cutoff), maxBytes);
    RecordsTotal(text);
    UnlinesTotal(Kept(text, cutoff, maxBytes));
  }
}
