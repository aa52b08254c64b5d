/**
 The devservices state file: `id.key=value` lines whose ids may hold dots.
 */
module StateFile {
  import opened Text

  const MAX_INT := 0x7fff_ffff
  const MAX_INT64 := 0x7fff_ffff_ffff_ffff
  const MIN_INT64 := -0x8000_0000_0000_0000
  const MAX_UINT64 := 0xffff_ffff_ffff_ffff

  /** The most lines the reader takes apart; the last piece keeps the rest of the file. */
  const MAX_LINES := 4096

  // The two comment lines are put together from short pieces, whose characters the
  // verifier can still look up; it gives up on a literal of a whole line.

  function FirstComment(): string {
    "# gowl devservices: " + "processes this widget " + "started, so a " + "restarted gowl"
  }

  function SecondComment(): string {
    "# can still see " + "and stop them.  " + "Written by the bar; " + "edits are lost."
  }

  function Header(): (lines: seq<string>)
    ensures |lines| == 2
  {
    [FirstComment(), SecondComment()]
  }

  /** One process the widget started. */
  datatype Run = Run(id: string, pid: int, pgid: int, starttime: nat, started: int)

  predicate IdChar(c: char) {
    'a' <= c <= 'z' || 'A' <= c <= 'Z' || '0' <= c <= '9' || c == '_' || c == '.' || c == '-'
  }

  predicate ValidId(id: string) {
    0 < |id| <= 64 && id != "." && id != ".." && forall c | c in id :: IdChar(c)
  }

  /** A service id, or `task:` and a task id. */
  predicate ValidRunId(id: string) {
    if "task:" <= id then ValidId(id[5..]) else ValidId(id)
  }

  // ---- Numbers ----

  function FormatInt(n: int): string {
    if n < 0 then "-" + Digits(-n) else Digits(n)
  }

  predicate IsBlank(c: char) {
    c == ' ' || 9 <= c as int <= 13
  }

  /** The number a text spells from its first character to its last: blanks, a sign, digits. */
  function ScanInt(s: string): Option<int> {
    if s == "" then None
    else if IsBlank(s[0]) then ScanInt(s[1..])
    else if s[0] == '-' then ScanDigits(s[1..], -1)
    else if s[0] == '+' then ScanDigits(s[1..], 1)
    else ScanDigits(s, 1)
  }

  function ScanDigits(s: string, sign: int): Option<int> {
    if s != "" && AllDigits(s) then Some(sign * DigitsValue(s)) else None
  }

  function Clamp(v: int, lo: int, hi: int): int {
    if v < lo then lo else if v > hi then hi else v
  }

  lemma ScanDigitsOf(n: nat)
    ensures ScanInt(Digits(n)) == Some(n)
  {
    DigitsRoundTrip(n);
    assert Digits(n)[0] in Digits(n);
  }

  /** What a number looks like: blanks, at most one sign, and digits to the end. */
  ghost predicate Spells(s: string, blanks: string, sign: string, digits: string) {
    && (forall c | c in blanks :: c == ' ' || 9 <= c as int <= 13)
    && (sign == "" || sign == "+" || sign == "-")
    && digits != "" && AllDigits(digits) && s == blanks + (sign + digits)
  }

  /** The number that is read is the one that is spelt. */
  lemma {:induction false} ScanIntSays(s: string, blanks: string, sign: string, digits: string)
    requires Spells(s, blanks, sign, digits)
    ensures var n: int := DigitsValue(digits); ScanInt(s) == Some(if sign == "-" then -n else n)
    decreases |blanks|
  {
    if blanks == "" {
      assert s == sign + digits;
      SignedReads(sign, digits);
    } else {
      assert blanks[0] in blanks && s[1..] == blanks[1..] + (sign + digits);
      assert forall c | c in blanks[1..] :: c in blanks;
      ScanIntSays(s[1..], blanks[1..], sign, digits);
    }
  }

  lemma SignedReads(sign: string, digits: string)
    requires (sign == "" || sign == "+" || sign == "-") && digits != "" && AllDigits(digits)
    ensures var n: int := DigitsValue(digits); ScanInt(sign + digits) == Some(if sign == "-" then -n else n)
  {
    assert digits[0] in digits;
    assert sign == "" ==> sign + digits == digits;
    assert (sign + digits)[|sign|..] == digits;
  }

  /** And a text that spells none is refused. */
  lemma {:induction false} ScanIntSpells(s: string) returns (blanks: string, sign: string, digits: string)
    requires ScanInt(s).Some?
    ensures Spells(s, blanks, sign, digits)
  {
    if IsBlank(s[0]) {
      blanks, sign, digits := ScanIntSpells(s[1..]);
      blanks := [s[0]] + blanks;
    } else if s[0] == '-' || s[0] == '+' {
      blanks, sign, digits := "", [s[0]], s[1..];
    } else {
      blanks, sign, digits := "", "", s;
    }
  }

  /** A number is written as it is read. */
  lemma FormatIntReads(n: int)
    ensures ScanInt(FormatInt(n)) == Some(n)
  {
    if n < 0 {
      DigitsRoundTrip(-n);
      assert FormatInt(n)[1..] == Digits(-n);
    } else {
      ScanDigitsOf(n);
    }
  }

  // ---- Writing ----

  /** What the writer does not skip. */
  predicate Writable(r: Run) {
    ValidRunId(r.id) && r.pid > 0
  }

  function Line(id: string, key: string, value: string): string {
    id + "." + key + "=" + value
  }

  function RunLines(r: Run): (lines: seq<string>)
    ensures |lines| == 4
  {
    [Line(r.id, "pid", FormatInt(r.pid)), Line(r.id, "pgid", FormatInt(r.pgid)),
     Line(r.id, "starttime", Digits(r.starttime)), Line(r.id, "started", FormatInt(r.started))]
  }

  function LinesOf(runs: seq<Run>): seq<string> {
    if runs == [] then []
    else
      var r := runs[|runs| - 1];
      LinesOf(runs[..|runs| - 1]) + (if Writable(r) then RunLines(r) else [])
  }

  function StateText(runs: seq<Run>): string {
    Unlines(Header() + LinesOf(runs))
  }

  /** Each run with a usable id and a process adds its four lines, any other none. */
  lemma LinesSay(runs: seq<Run>, r: Run)
    ensures LinesOf(runs + [r]) == LinesOf(runs) +
            if ValidRunId(r.id) && r.pid >= 1 then
              [r.id + ".pid=" + FormatInt(r.pid), r.id + ".pgid=" + FormatInt(r.pgid),
               r.id + ".starttime=" + Digits(r.starttime), r.id + ".started=" + FormatInt(r.started)]
            else []
  {
    hide FormatInt, Digits, ValidRunId;
    assert (runs + [r])[..|runs|] == runs;
    LineSays(r.id, "pid", ".pid=", FormatInt(r.pid));
    LineSays(r.id, "pgid", ".pgid=", FormatInt(r.pgid));
    LineSays(r.id, "starttime", ".starttime=", Digits(r.starttime));
    LineSays(r.id, "started", ".started=", FormatInt(r.started));
  }

  lemma LineSays(id: string, key: string, joint: string, value: string)
    requires joint == "." + key + "="
    ensures Line(id, key, value) == id + joint + value
  {
  }

  method StateToText(runs: seq<Run>) returns (out: string)
    ensures out == StateText(runs)
  {
    hide RunLines, Writable;
    out := Unlines(Header());
    assert Header() + [] == Header();
    for i := 0 to |runs|
      invariant out == Unlines(Header() + LinesOf(runs[..i]))
    {
      assert runs[..i + 1][..i] == runs[..i];
      var lines := LinesOf(runs[..i]);
      if Writable(runs[i]) {
        Assoc(Header(), lines, RunLines(runs[i]));
        UnlinesAppend(Header() + lines, RunLines(runs[i]));
        out := out + Unlines(RunLines(runs[i]));
      } else {
        assert lines + [] == lines;
      }
    }
    assert runs[..|runs|] == runs;
  }

  // ---- Reading ----

  /** One assignment: the id before the last dot of the key, what follows that dot, and the value. */
  datatype Entry = Entry(id: string, rest: string, value: string)

  function LastDot(s: string): (k: Option<nat>)
    ensures k.Some? ==> k.value < |s| && s[k.value] == '.'
  {
    if s == "" then None else if s[|s| - 1] == '.' then Some(|s| - 1) else LastDot(s[..|s| - 1])
  }

  function ParseEntry(line: string): Option<Entry> {
    if line == "" || line[0] == '#' then None
    else
      var eq := Find(line, '=');
      if eq == |line| then None
      else
        var dot := LastDot(line[..eq]);
        if dot.None? || !ValidRunId(line[..dot.value]) then None
        else
          var value := line[eq + 1..];
          var v := ScanInt(value);
          if v.None? || v.value < 0 then None
          else Some(Entry(line[..dot.value], line[dot.value + 1..], value))
  }

  predicate HasRun(runs: seq<Run>, id: string) {
    exists i | 0 <= i < |runs| :: runs[i].id == id
  }

  function FindRun(runs: seq<Run>, id: string): (i: nat)
    ensures i <= |runs| && (i < |runs| ==> runs[i].id == id)
    ensures forall k | 0 <= k < i :: runs[k].id != id
  {
    if runs == [] || runs[0].id == id then 0 else 1 + FindRun(runs[1..], id)
  }

  function Assign(r: Run, e: Entry): Run {
    var n := ScanInt(e.value);
    var v := if n.Some? then n.value else 0;
    if "pid=" <= e.rest then r.(pid := Clamp(v, MIN_INT64, MAX_INT))
    else if "pgid=" <= e.rest then r.(pgid := Clamp(v, MIN_INT64, MAX_INT))
    else if "starttime=" <= e.rest then r.(starttime := Clamp(v, 0, MAX_UINT64))
    else if "started=" <= e.rest then r.(started := Clamp(v, MIN_INT64, MAX_INT64))
    else r
  }

  /** The run of that id, made if it is new, with the field set. */
  function Applied(runs: seq<Run>, e: Entry): seq<Run> {
    var i := FindRun(runs, e.id);
    var all := if i == |runs| then runs + [Run(e.id, 0, 0, 0, 0)] else runs;
    all[i := Assign(all[i], e)]
  }

  function ReadLine(runs: seq<Run>, line: string): seq<Run> {
    var e := ParseEntry(line);
    if e.Some? then Applied(runs, e.value) else runs
  }

  function ReadLines(lines: seq<string>): seq<Run> {
    if lines == [] then [] else ReadLine(ReadLines(lines[..|lines| - 1]), lines[|lines| - 1])
  }

  /** A run the widget may signal. */
  predicate Complete(r: Run) {
    r.pid > 1 && r.pgid > 1 && r.starttime > 0
  }

  function KeepComplete(runs: seq<Run>): seq<Run> {
    if runs == [] then []
    else KeepComplete(runs[..|runs| - 1]) + (if Complete(runs[|runs| - 1]) then [runs[|runs| - 1]] else [])
  }

  function ReadState(text: string): seq<Run> {
    KeepComplete(ReadLines(SplitAtMost(text, LF, MAX_LINES)))
  }

  method KeepSafe(runs: seq<Run>) returns (out: seq<Run>)
    ensures out == KeepComplete(runs)
  {
    out := [];
    for i := 0 to |runs|
      invariant out == KeepComplete(runs[..i])
    {
      assert runs[..i + 1][..i] == runs[..i];
      if Complete(runs[i]) {
        out := out + [runs[i]];
      }
    }
    assert runs[..|runs|] == runs;
  }

  method ApplyEntry(before: seq<Run>, e: Entry) returns (runs: seq<Run>)
    ensures runs == Applied(before, e)
  {
    hide Assign;
    runs := before;
    var at := FindRun(runs, e.id);
    if at == |runs| {
      runs := runs + [Run(e.id, 0, 0, 0, 0)];
    }
    runs := runs[at := Assign(runs[at], e)];
  }

  method StateFromText(text: string) returns (out: seq<Run>)
    ensures out == ReadState(text)
  {
    hide ParseEntry, Applied;
    var lines := SplitAtMost(text, LF, MAX_LINES);
    var runs: seq<Run> := [];
    for i := 0 to |lines|
      invariant runs == ReadLines(lines[..i])
    {
      assert lines[..i + 1][..i] == lines[..i];
      var e := ParseEntry(lines[i]);
      if e.Some? {
        runs := ApplyEntry(runs, e.value);
      }
    }
    assert lines[..|lines|] == lines;
    out := KeepSafe(runs);
  }

  // ---- Whatever the text, only safe runs come back ----

  ghost predicate DistinctRuns(runs: seq<Run>) {
    forall i, j | 0 <= i < j < |runs| :: runs[i].id != runs[j].id
  }

  /** The fields fit the widths they are kept in. */
  predicate Fits(r: Run) {
    && 0 <= r.pid <= MAX_INT && 0 <= r.pgid <= MAX_INT && r.starttime <= MAX_UINT64 && 0 <= r.started <= MAX_INT64
  }

  ghost predicate ValidRuns(runs: seq<Run>) {
    DistinctRuns(runs) && forall i | 0 <= i < |runs| :: ValidRunId(runs[i].id) && Fits(runs[i])
  }

  ghost predicate ValidEntry(e: Entry) {
    ValidRunId(e.id) && ScanInt(e.value).Some? && ScanInt(e.value).value >= 0
  }

  lemma AssignFits(r: Run, e: Entry)
    requires ValidEntry(e) && Fits(r)
    ensures Assign(r, e).id == r.id && Fits(Assign(r, e))
  {
    hide ValidRunId;
  }

  lemma AppliedIsValid(runs: seq<Run>, e: Entry)
    requires ValidRuns(runs) && ValidEntry(e)
    ensures ValidRuns(Applied(runs, e))
  {
    hide ValidRunId, Assign;
    var i := FindRun(runs, e.id);
    AssignFits(if i == |runs| then Run(e.id, 0, 0, 0, 0) else runs[i], e);
  }

  lemma EntriesAreValid(line: string)
    ensures ParseEntry(line).Some? ==> ValidEntry(ParseEntry(line).value)
  {
    hide ValidRunId, ScanInt;
  }

  lemma ReadLineIsValid(runs: seq<Run>, line: string)
    requires ValidRuns(runs)
    ensures ValidRuns(ReadLine(runs, line))
  {
    hide ValidEntry, ParseEntry, Applied, ValidRuns;
    EntriesAreValid(line);
    if ParseEntry(line).Some? {
      AppliedIsValid(runs, ParseEntry(line).value);
    }
  }

  lemma {:induction false} ReadLinesAreValid(lines: seq<string>)
    ensures ValidRuns(ReadLines(lines))
  {
    if lines != [] {
      ReadLinesAreValid(lines[..|lines| - 1]);
      ReadLineIsValid(ReadLines(lines[..|lines| - 1]), lines[|lines| - 1]);
    }
  }

  lemma NothingValid()
    ensures ValidRuns([])
  {
  }

  lemma ValidSnoc(runs: seq<Run>, r: Run)
    requires ValidRuns(runs) && ValidRunId(r.id) && Fits(r) && forall k | k in runs :: k.id != r.id
    ensures ValidRuns(runs + [r])
  {
    hide ValidRunId, Fits;
  }

  lemma ValidInit(runs: seq<Run>)
    requires ValidRuns(runs) && runs != []
    ensures var init, last := runs[..|runs| - 1], runs[|runs| - 1];
            && runs == init + [last] && ValidRuns(init) && ValidRunId(last.id) && Fits(last)
            && forall r | r in init :: r.id != last.id
  {
    hide ValidRunId, Fits;
  }

  lemma {:induction false} KeepCompleteKeeps(runs: seq<Run>)
    requires ValidRuns(runs)
    ensures var kept := KeepComplete(runs);
            ValidRuns(kept) && forall r :: r in kept <==> r in runs && Complete(r)
  {
    hide ValidRunId, ValidRuns, Fits, Complete;
    if runs == [] {
      NothingValid();
    } else {
      var init, last := runs[..|runs| - 1], runs[|runs| - 1];
      ValidInit(runs);
      KeepCompleteKeeps(init);
      var kept := KeepComplete(init);
      assert forall k | k in kept :: k in init && k.id != last.id;
      assert kept + [] == kept;
      if Complete(last) {
        ValidSnoc(kept, last);
      }
    }
  }

  /** A run the widget would keep: valid, signalable, and within the widths of its fields. */
  ghost predicate GoodRun(r: Run) {
    ValidRunId(r.id) && r.pid > 1 && r.pgid > 1 && r.starttime > 0 && Fits(r)
  }

  ghost predicate GoodRuns(runs: seq<Run>) {
    DistinctRuns(runs) && forall i | 0 <= i < |runs| :: GoodRun(runs[i])
  }

  /** Any text at all gives runs that are safe to signal, no id twice. */
  lemma AnyTextIsSafe(text: string)
    ensures GoodRuns(ReadState(text))
  {
    hide ValidRunId, Fits;
    var lines := SplitAtMost(text, LF, MAX_LINES);
    ReadLinesAreValid(lines);
    KeepCompleteKeeps(ReadLines(lines));
    assert forall i | 0 <= i < |ReadState(text)| :: ReadState(text)[i] in ReadState(text);
  }

  // ---- What was written comes back ----

  lemma {:induction false} LastDotIs(id: string, key: string)
    requires '.' !in key
    ensures LastDot(id + "." + key) == Some(|id|)
    decreases |key|
  {
    var s := id + "." + key;
    if key == "" {
      assert s[|s| - 1] == '.';
    } else {
      assert s[|s| - 1] == key[|key| - 1] && key[|key| - 1] in key;
      assert s[..|s| - 1] == id + "." + key[..|key| - 1];
      LastDotIs(id, key[..|key| - 1]);
    }
  }

  lemma IdsAreClean(id: string)
    requires ValidRunId(id)
    ensures id != "" && id[0] != '#' && '=' !in id && LF !in id
  {
    if "task:" <= id {
      assert id == "task:" + id[5..];
    } else {
      assert id[0] in id;
    }
  }

  lemma EqualsAt(id: string, key: string, value: string)
    requires '=' !in id && '=' !in key
    ensures Find(Line(id, key, value), '=') == |id| + 1 + |key|
  {
    var front := id + "." + key;
    assert Line(id, key, value) == front + ['='] + value;
    FindAt(front, '=', value);
  }

  /** A line of a valid id reads as its assignment, when its value is a number. */
  lemma LineReads(id: string, key: string, value: string)
    requires ValidRunId(id) && '=' !in key && '.' !in key
    ensures ParseEntry(Line(id, key, value)) ==
      if ScanInt(value).Some? && ScanInt(value).value >= 0 then Some(Entry(id, key + "=" + value, value)) else None
  {
    hide ValidRunId, ScanInt;
    var line, eq := Line(id, key, value), |id| + 1 + |key|;
    IdsAreClean(id);
    EqualsAt(id, key, value);
    LastDotIs(id, key);
    assert line[..eq] == id + "." + key && line[eq + 1..] == value;
    assert line[..|id|] == id && line[|id| + 1..] == key + "=" + value;
    assert line[0] == id[0];
  }

  lemma NumberLineReads(runs: seq<Run>, id: string, key: string, n: nat)
    requires ValidRunId(id) && '=' !in key && '.' !in key
    ensures ReadLine(runs, Line(id, key, Digits(n))) == Applied(runs, Entry(id, key + "=" + Digits(n), Digits(n)))
  {
    hide ValidRunId, Applied, ParseEntry;
    ScanDigitsOf(n);
    LineReads(id, key, Digits(n));
  }

  lemma AppliedLast(runs: seq<Run>, r: Run, e: Entry)
    requires !HasRun(runs, e.id) && r.id == e.id
    ensures Applied(runs + [r], e) == runs + [Assign(r, e)]
  {
    hide Assign;
    var all := runs + [r];
    assert forall k | 0 <= k < |runs| :: all[k] == runs[k];
    assert all[|runs|] == r;
    assert FindRun(all, e.id) == |runs|;
  }

  lemma KeysDiffer(d: string)
    ensures "pid" + "=" + d == "pid=" + d && "pgid" + "=" + d == "pgid=" + d
    ensures "starttime" + "=" + d == "starttime=" + d && "started" + "=" + d == "started=" + d
    ensures !("pid=" <= "pgid=" + d) && !("pid=" <= "starttime=" + d) && !("pgid=" <= "starttime=" + d)
    ensures !("pid=" <= "started=" + d) && !("pgid=" <= "started=" + d) && !("starttime=" <= "started=" + d)
  {
    assert ("pgid=" + d)[1] == 'g' && ("starttime=" + d)[0] == 's' && ("started=" + d)[0] == 's';
    assert ("started=" + d)[5] == 'e';
  }

  /** Each key sets its own field. */
  lemma AssignKeys(r: Run, n: nat)
    ensures var d := Digits(n);
            && Assign(r, Entry(r.id, "pid" + "=" + d, d)) == r.(pid := Clamp(n, MIN_INT64, MAX_INT))
            && Assign(r, Entry(r.id, "pgid" + "=" + d, d)) == r.(pgid := Clamp(n, MIN_INT64, MAX_INT))
            && Assign(r, Entry(r.id, "starttime" + "=" + d, d)) == r.(starttime := Clamp(n, 0, MAX_UINT64))
            && Assign(r, Entry(r.id, "started" + "=" + d, d)) == r.(started := Clamp(n, MIN_INT64, MAX_INT64))
  {
    hide ScanInt, Clamp;
    ScanDigitsOf(n);
    KeysDiffer(Digits(n));
  }

  /** The state after the first line of a new run: only its pid is known. */
  function PidOnly(r: Run): Run {
    Run(r.id, r.pid, 0, 0, 0)
  }

  lemma FirstLineReads(runs: seq<Run>, r: Run)
    requires GoodRun(r) && !HasRun(runs, r.id)
    ensures ReadLine(runs, RunLines(r)[0]) == runs + [PidOnly(r)]
  {
    hide ReadLine, ValidRunId, ScanInt, Assign;
    NumberLineReads(runs, r.id, "pid", r.pid);
    AssignKeys(Run(r.id, 0, 0, 0, 0), r.pid);
  }

  /** A further line of the run being read sets its field. */
  lemma NextLineReads(runs: seq<Run>, r: Run, key: string, n: nat)
    requires ValidRunId(r.id) && !HasRun(runs, r.id) && '=' !in key && '.' !in key
    ensures ReadLine(runs + [r], Line(r.id, key, Digits(n))) ==
      runs + [Assign(r, Entry(r.id, key + "=" + Digits(n), Digits(n)))]
  {
    hide ReadLine, ValidRunId, ScanInt, Assign, Applied;
    NumberLineReads(runs + [r], r.id, key, n);
    AppliedLast(runs, r, Entry(r.id, key + "=" + Digits(n), Digits(n)));
  }

  lemma OtherLinesRead(runs: seq<Run>, r: Run)
    requires GoodRun(r) && !HasRun(runs, r.id)
    ensures var one := runs + [PidOnly(r)];
            var two := ReadLine(one, RunLines(r)[1]);
            var three := ReadLine(two, RunLines(r)[2]);
            ReadLine(three, RunLines(r)[3]) == runs + [r]
  {
    hide ReadLine, ValidRunId, ScanInt, Assign, Line;
    var r1 := PidOnly(r);
    var r2 := r1.(pgid := r.pgid);
    var r3 := r2.(starttime := r.starttime);
    NextLineReads(runs, r1, "pgid", r.pgid);
    AssignKeys(r1, r.pgid);
    NextLineReads(runs, r2, "starttime", r.starttime);
    AssignKeys(r2, r.starttime);
    NextLineReads(runs, r3, "started", r.started);
    AssignKeys(r3, r.started);
  }

  lemma {:induction false} LinesOfGoodRuns(runs: seq<Run>)
    requires GoodRuns(runs)
    ensures |LinesOf(runs)| == 4 * |runs|
    ensures forall l | l in LinesOf(runs) :: LF !in l
  {
    if runs != [] {
      var init, r := runs[..|runs| - 1], runs[|runs| - 1];
      LinesOfGoodRuns(init);
      RunLinesAreClean(r);
      assert forall l | l in LinesOf(runs) :: l in LinesOf(init) || l in RunLines(r);
    }
  }

  lemma RunLinesAreClean(r: Run)
    requires GoodRun(r)
    ensures forall l | l in RunLines(r) :: LF !in l
  {
    hide ValidRunId;
    IdsAreClean(r.id);
  }

  lemma RunReads(lines: seq<string>, runs: seq<Run>, r: Run)
    requires ReadLines(lines) == runs && GoodRun(r) && !HasRun(runs, r.id)
    ensures ReadLines(lines + RunLines(r)) == runs + [r]
  {
    hide RunLines, ReadLine, GoodRun;
    FirstLineReads(runs, r);
    OtherLinesRead(runs, r);
    ReadFourMore(lines, RunLines(r));
  }

  /** The lines of good runs read as those runs. */
  lemma {:induction false} WrittenLinesRead(runs: seq<Run>)
    requires GoodRuns(runs)
    ensures ReadLines(Header() + LinesOf(runs)) == runs
  {
    hide RunLines, GoodRun, Writable, Header;
    if runs == [] {
      HeaderReads();
      assert Header() + [] == Header();
    } else {
      var init, r := runs[..|runs| - 1], runs[|runs| - 1];
      GoodLast(runs);
      WrittenLinesRead(init);
      RunReads(Header() + LinesOf(init), init, r);
      Assoc(Header(), LinesOf(init), RunLines(r));
      assert runs == init + [r];
    }
  }

  lemma GoodLast(runs: seq<Run>)
    requires GoodRuns(runs) && runs != []
    ensures var init, r := runs[..|runs| - 1], runs[|runs| - 1];
            GoodRuns(init) && GoodRun(r) && Writable(r) && !HasRun(init, r.id)
  {
    hide ValidRunId;
  }

  lemma ReadOneMore(lines: seq<string>, line: string)
    ensures ReadLines(lines + [line]) == ReadLine(ReadLines(lines), line)
  {
    assert (lines + [line])[..|lines|] == lines;
  }

  lemma ReadFourMore(lines: seq<string>, more: seq<string>)
    requires |more| == 4
    ensures ReadLines(lines + more) ==
      ReadLine(ReadLine(ReadLine(ReadLine(ReadLines(lines), more[0]), more[1]), more[2]), more[3])
  {
    hide ReadLine;
    ReadOneMore(lines, more[0]);
    ReadOneMore(lines + [more[0]], more[1]);
    ReadOneMore(lines + [more[0]] + [more[1]], more[2]);
    ReadOneMore(lines + [more[0]] + [more[1]] + [more[2]], more[3]);
    assert lines + more == lines + [more[0]] + [more[1]] + [more[2]] + [more[3]];
  }

  lemma CommentReads(runs: seq<Run>, line: string)
    requires line != "" && line[0] == '#'
    ensures ReadLine(runs, line) == runs
  {
  }

  predicate IsComment(line: string) {
    line != "" && line[0] == '#' && LF !in line
  }

  lemma FirstIsComment()
    ensures IsComment(FirstComment())
  {
  }

  lemma SecondIsComment()
    ensures IsComment(SecondComment())
  {
  }

  lemma HeaderIsComments()
    ensures forall l | l in Header() :: IsComment(l)
  {
    hide FirstComment, SecondComment, IsComment;
    FirstIsComment();
    SecondIsComment();
  }

  lemma HeaderReads()
    ensures ReadLines(Header()) == []
  {
    hide FirstComment, SecondComment, ReadLine;
    HeaderIsComments();
    assert FirstComment() in Header() && SecondComment() in Header();
    CommentReads([], FirstComment());
    CommentReads([], SecondComment());
    ReadOneMore([], FirstComment());
    ReadOneMore([FirstComment()], SecondComment());
    assert [] + [FirstComment()] == [FirstComment()];
    assert [FirstComment()] + [SecondComment()] == Header();
  }

  // ---- The limit on lines ----

  const MAX_RUNS := 1023

  /** What splitting at newlines gives, of a text made of lines. */
  function Pieces(lines: seq<string>, limit: nat): seq<string>
    requires limit >= 1
  {
    if |lines| < limit then lines + [""] else lines[..limit - 1] + [Unlines(lines[limit - 1..])]
  }

  lemma PiecesCons(line: string, rest: seq<string>, limit: nat)
    requires limit > 1
    ensures Pieces([line] + rest, limit) == [line] + Pieces(rest, limit - 1)
  {
    var lines := [line] + rest;
    if |lines| >= limit {
      assert lines[limit - 1..] == rest[limit - 2..];
      assert lines[..limit - 1] == [line] + rest[..limit - 2];
    }
  }

  lemma PiecesEnd(lines: seq<string>)
    ensures SplitAtMost("", LF, 1) == [""] && Pieces([], 1) == [""]
    ensures forall limit | limit > 1 :: SplitAtMost("", LF, limit) == Pieces([], limit)
    ensures lines != [] ==> SplitAtMost(Unlines(lines), LF, 1) == Pieces(lines, 1)
  {
    assert Find("", LF) == 0;
    assert lines[..0] == [] && lines[0..] == lines;
  }

  lemma {:induction false} SplitAtMostUnlines(lines: seq<string>, limit: nat)
    requires limit >= 1 && forall l | l in lines :: LF !in l
    ensures SplitAtMost(Unlines(lines), LF, limit) == Pieces(lines, limit)
    decreases |lines|
  {
    hide Pieces;
    if lines == [] || limit == 1 {
      PiecesEnd(lines);
    } else {
      var first, rest := lines[0], lines[1..];
      assert first in lines && lines == [first] + rest;
      SplitAtMostUnlines(rest, limit - 1);
      PiecesCons(first, rest, limit);
      SplitAtMostLine(first, LF, Unlines(rest), limit);
    }
  }

  lemma {:induction false} AllKept(runs: seq<Run>)
    requires forall i | 0 <= i < |runs| :: Complete(runs[i])
    ensures KeepComplete(runs) == runs
  {
    if runs != [] {
      AllKept(runs[..|runs| - 1]);
    }
  }

  /** A piece that swallowed further lines is no number, so it says nothing. */
  lemma SwallowedLineReads(runs: seq<Run>, id: string, key: string, n: nat, tail: string)
    requires ValidRunId(id) && '=' !in key && '.' !in key
    ensures ReadLine(runs, Line(id, key, Digits(n)) + [LF] + tail) == runs
  {
    hide ValidRunId, ScanInt;
    var value := Digits(n) + [LF] + tail;
    NoNumber(n, tail);
    LineReads(id, key, value);
    assert Line(id, key, Digits(n)) + [LF] + tail == Line(id, key, value);
  }

  lemma NoNumber(n: nat, tail: string)
    ensures ScanInt(Digits(n) + [LF] + tail) == None
  {
    var d := Digits(n);
    var s := d + [LF] + tail;
    assert d[0] in d && s[0] == d[0] && s[|d|] == LF && s[|d|] in s;
  }

  lemma {:induction false} LinesOfPrefix(runs: seq<Run>, n: nat)
    requires n <= |runs| && GoodRuns(runs)
    ensures LinesOf(runs[..n]) <= LinesOf(runs) && GoodRuns(runs[..n])
    ensures |LinesOf(runs[..n])| == 4 * n
    ensures n < |runs| ==> LinesOf(runs[..n]) + RunLines(runs[n]) <= LinesOf(runs)
    decreases |runs|
  {
    hide RunLines, GoodRun, Writable;
    LinesOfGoodRuns(runs[..n]);
    if n == |runs| {
      assert runs[..n] == runs;
    } else {
      var init := runs[..|runs| - 1];
      GoodLast(runs);
      if n == |init| {
        assert runs[..n] == init;
      } else {
        LinesOfPrefix(init, n);
        assert init[..n] == runs[..n] && init[n] == runs[n];
      }
    }
  }

  lemma AllLinesAreClean(runs: seq<Run>)
    requires GoodRuns(runs)
    ensures |Header() + LinesOf(runs)| == 2 + 4 * |runs|
    ensures forall l | l in Header() + LinesOf(runs) :: LF !in l
  {
    hide FirstComment, SecondComment, GoodRuns;
    LinesOfGoodRuns(runs);
    HeaderIsComments();
  }

  /** What the writer writes, the reader reads back: all of it, up to the 1023 runs its line limit allows. */
  lemma RoundTrip(runs: seq<Run>)
    requires GoodRuns(runs)
    ensures ReadState(StateText(runs)) == if |runs| <= MAX_RUNS then runs else runs[..MAX_RUNS]
  {
    hide ReadLine, GoodRuns, Header;
    var lines := Header() + LinesOf(runs);
    AllLinesAreClean(runs);
    SplitAtMostUnlines(lines, MAX_LINES);
    if |runs| <= MAX_RUNS {
      WrittenLinesRead(runs);
      ReadOneMore(lines, "");
      EmptyLineReads(runs);
      KeptWhole(runs);
    } else {
      TooManyRuns(runs);
    }
  }

  lemma EmptyLineReads(runs: seq<Run>)
    ensures ReadLine(runs, "") == runs
  {
  }

  lemma KeptWhole(runs: seq<Run>)
    requires GoodRuns(runs)
    ensures KeepComplete(runs) == runs
  {
    hide ValidRunId;
    AllKept(runs);
  }

  /** Past the limit the next run's lines are cut after its pid, and an incomplete run is dropped. */
  lemma TooManyRuns(runs: seq<Run>)
    requires GoodRuns(runs) && |runs| > MAX_RUNS
    ensures var lines := Header() + LinesOf(runs);
            |lines| >= MAX_LINES &&
            KeepComplete(ReadLines(lines[..MAX_LINES - 1] + [Unlines(lines[MAX_LINES - 1..])])) == runs[..MAX_RUNS]
  {
    hide ReadLine, GoodRun, Line;
    var lines, front, r := Header() + LinesOf(runs), runs[..MAX_RUNS], runs[MAX_RUNS];
    LinesOfPrefix(runs, MAX_RUNS);
    var whole := Header() + LinesOf(front);
    assert lines[..MAX_LINES - 1] == whole + [RunLines(r)[0]];
    assert lines[MAX_LINES - 1] == RunLines(r)[1];
    WrittenLinesRead(front);
    ReadOneMore(whole, RunLines(r)[0]);
    NextIsNew(runs, MAX_RUNS);
    FirstLineReads(front, r);
    var last := Unlines(lines[MAX_LINES - 1..]);
    ReadOneMore(whole + [RunLines(r)[0]], last);
    SwallowedLineReads(front + [PidOnly(r)], r.id, "pgid", r.pgid, Unlines(lines[MAX_LINES - 1..][1..]));
    KeptWhole(front);
    assert (front + [PidOnly(r)])[..MAX_RUNS] == front;
  }

  lemma NextIsNew(runs: seq<Run>, n: nat)
    requires GoodRuns(runs) && n < |runs|
    ensures GoodRun(runs[n]) && !HasRun(runs[..n], runs[n].id) && ValidRunId(runs[n].id) && runs[n].pgid > 1
  {
    hide ValidRunId;
  }

  /** Exactly the lists of good runs within the limit survive being written and read back. */
  lemma RoundTripExactly(runs: seq<Run>)
    ensures ReadState(StateText(runs)) == runs <==> GoodRuns(runs) && |runs| <= MAX_RUNS
  {
    hide ReadState, StateText, GoodRuns;
    AnyTextIsSafe(StateText(runs));
    if GoodRuns(runs) {
      RoundTrip(runs);
    }
  }
}
