/**
 The line diff: the word diff rebuilt as two sides of marked lines, matched line
 by line, with every changed block as removals then additions, and long unchanged
 runs folded into gaps.
 */
module LineDiff {
  import opened Text
  import opened WordDiff

  // ---- One side as marked lines ----

  /** A character of one side, and whether the word diff changed it. */
  datatype Marked = Marked(c: char, changed: bool)

  function Mark(text: string, changed: bool): (m: seq<Marked>)
    ensures |m| == |text|
  {
    seq(|text|, i requires 0 <= i < |text| => Marked(text[i], changed))
  }

  function Chars(m: seq<Marked>): (s: string)
    ensures |s| == |m|
  {
    seq(|m|, i requires 0 <= i < |m| => m[i].c)
  }

  /** The side of `want`, character by character. */
  function MarkedSide(ops: seq<Op>, want: Kind): seq<Marked> {
    if ops == [] then []
    else
      var op := ops[|ops| - 1];
      MarkedSide(ops[..|ops| - 1], want) + (if Shows(op, want) then Mark(op.text, op.kind == want) else [])
  }

  /** Finished lines, and the one still open. */
  datatype Cut = Cut(lines: seq<seq<Marked>>, open: seq<Marked>)

  function CutLines(m: seq<Marked>): Cut {
    if m == [] then Cut([], [])
    else
      var c, last := CutLines(m[..|m| - 1]), m[|m| - 1];
      if last.c == LF then Cut(c.lines + [c.open], []) else Cut(c.lines, c.open + [last])
  }

  /** The lines of a side; a final newline opens no further line, an empty side is one line. */
  function Lines(m: seq<Marked>): (lines: seq<seq<Marked>>)
    ensures |lines| >= 1
  {
    var c := CutLines(m);
    if c.open != [] || c.lines == [] then c.lines + [c.open] else c.lines
  }

  ghost predicate Untouched(m: seq<Marked>) {
    forall k | 0 <= k < |m| :: !m[k].changed
  }

  /** A line without its newline, and the stretches of it that changed, as (start, end) offsets. */
  datatype SideLine = SideLine(text: string, spans: seq<(nat, nat)>)

  ghost predicate Covered(spans: seq<(nat, nat)>, k: nat) {
    exists s | 0 <= s < |spans| :: spans[s].0 <= k < spans[s].1
  }

  /** The spans are non-empty, in order, inside the line, and cover exactly what changed. */
  ghost predicate Represents(l: SideLine, m: seq<Marked>) {
    && l.text == Chars(m)
    && (forall s | 0 <= s < |l.spans| :: l.spans[s].0 < l.spans[s].1 <= |m|)
    && (forall s | 0 <= s < |l.spans| - 1 :: l.spans[s].1 <= l.spans[s + 1].0)
    && (forall k | 0 <= k < |m| :: m[k].changed <==> Covered(l.spans, k))
  }

  ghost predicate AllRepresent(lines: seq<SideLine>, ms: seq<seq<Marked>>) {
    |lines| == |ms| && forall i | 0 <= i < |ms| :: Represents(lines[i], ms[i])
  }

  lemma {:induction false} CutAppend(m: seq<Marked>, piece: seq<Marked>)
    requires forall k | 0 <= k < |piece| :: piece[k].c != LF
    ensures CutLines(m + piece) == Cut(CutLines(m).lines, CutLines(m).open + piece)
    decreases |piece|
  {
    if piece == [] {
      assert m + piece == m;
    } else {
      var init := piece[..|piece| - 1];
      assert (m + piece)[..|m + piece| - 1] == m + init;
      CutAppend(m, init);
    }
  }

  /** `piece` added to an open line. */
  function Grown(l: SideLine, piece: string, changed: bool): SideLine {
    SideLine(l.text + piece,
             if changed && piece != "" then l.spans + [(|l.text|, |l.text| + |piece|)] else l.spans)
  }

  lemma GrownCovers(l: SideLine, m: seq<Marked>, piece: string, changed: bool, k: nat)
    requires Represents(l, m) && k < |m| + |piece|
    ensures Covered(Grown(l, piece, changed).spans, k) <==> if k < |m| then Covered(l.spans, k) else changed
  {
    var spans := Grown(l, piece, changed).spans;
    if Covered(l.spans, k) {
      var s :| 0 <= s < |l.spans| && l.spans[s].0 <= k < l.spans[s].1;
      assert spans[s] == l.spans[s];
    }
    if changed && k >= |m| {
      assert spans[|l.spans|] == (|l.text|, |l.text| + |piece|);
    }
  }

  lemma GrownLine(l: SideLine, m: seq<Marked>, piece: string, changed: bool)
    requires Represents(l, m)
    ensures Represents(Grown(l, piece, changed), m + Mark(piece, changed))
  {
    hide Covered;
    var grown := m + Mark(piece, changed);
    forall k | 0 <= k < |grown| ensures grown[k].changed <==> Covered(Grown(l, piece, changed).spans, k) {
      GrownCovers(l, m, piece, changed, k);
    }
  }

  /** The lines built so far stand for what has been read. */
  ghost predicate Tracks(lines: seq<SideLine>, cur: SideLine, m: seq<Marked>) {
    AllRepresent(lines, CutLines(m).lines) && Represents(cur, CutLines(m).open)
  }

  lemma TracksPiece(lines: seq<SideLine>, cur: SideLine, m: seq<Marked>, piece: string, changed: bool)
    requires Tracks(lines, cur, m) && LF !in piece
    ensures Tracks(lines, Grown(cur, piece, changed), m + Mark(piece, changed))
  {
    hide Represents, Grown;
    CutAppend(m, Mark(piece, changed));
    GrownLine(cur, CutLines(m).open, piece, changed);
  }

  lemma TracksNewline(lines: seq<SideLine>, cur: SideLine, m: seq<Marked>, changed: bool)
    requires Tracks(lines, cur, m)
    ensures Tracks(lines + [cur], SideLine("", []), m + Mark([LF], changed))
  {
    assert Mark([LF], changed) == [Marked(LF, changed)];
  }

  lemma TracksEnd(lines: seq<SideLine>, cur: SideLine, m: seq<Marked>)
    requires Tracks(lines, cur, m)
    ensures AllRepresent(if cur.text != "" || cur.spans != [] || lines == [] then lines + [cur] else lines, Lines(m))
  {
    assert cur.spans != [] ==> cur.spans[0].1 <= |CutLines(m).open|;
  }

  lemma MarkedStep(ops: seq<Op>, i: nat, want: Kind)
    requires i < |ops|
    ensures MarkedSide(ops[..i + 1], want) ==
      MarkedSide(ops[..i], want) + if Shows(ops[i], want) then Mark(ops[i].text, ops[i].kind == want) else []
  {
    assert ops[..i + 1][..i] == ops[..i];
  }

  lemma MarkSplit(text: string, i: nat, j: nat, changed: bool)
    requires i <= j <= |text|
    ensures Mark(text[..j], changed) == Mark(text[..i], changed) + Mark(text[i..j], changed)
  {
  }

  /** Rebuilds one side from the ops and cuts it at newlines; a newline is never part of a span. */
  method SideLines(ops: seq<Op>, want: Kind) returns (lines: seq<SideLine>)
    requires want != Equal
    ensures AllRepresent(lines, Lines(MarkedSide(ops, want)))
  {
    lines := [];
    var cur := SideLine("", []);
    for i := 0 to |ops|
      invariant Tracks(lines, cur, MarkedSide(ops[..i], want))
    {
      hide Tracks;
      var op := ops[i];
      MarkedStep(ops, i, want);
      if Shows(op, want) {
        lines, cur := AppendOp(lines, cur, op.text, op.kind == want, MarkedSide(ops[..i], want));
      } else {
        assert MarkedSide(ops[..i], want) + [] == MarkedSide(ops[..i], want);
      }
    }
    assert ops[..|ops|] == ops;
    TracksEnd(lines, cur, MarkedSide(ops, want));
    if cur.text != "" || cur.spans != [] || lines == [] {
      lines := lines + [cur];
    }
  }

  method AppendOp(before: seq<SideLine>, open: SideLine, text: string, changed: bool, ghost m: seq<Marked>)
    returns (lines: seq<SideLine>, cur: SideLine)
    requires Tracks(before, open, m)
    ensures Tracks(lines, cur, m + Mark(text, changed))
  {
    hide Tracks;
    lines, cur := before, open;
    var p := 0;
    assert m + Mark(text[..0], changed) == m;
    while p < |text|
      invariant p <= |text|
      invariant Tracks(lines, cur, m + Mark(text[..p], changed))
    {
      var nl := p + Find(text[p..], LF);
      var piece := text[p..nl];
      assert piece == text[p..][..nl - p];
      ghost var here := m + Mark(text[..p], changed);
      TracksPiece(lines, cur, here, piece, changed);
      cur := Grown(cur, piece, changed);
      MarkSplit(text, p, nl, changed);
      Assoc(m, Mark(text[..p], changed), Mark(piece, changed));
      if nl == |text| {
        p := nl;
      } else {
        assert text[nl..nl + 1] == [LF];
        TracksNewline(lines, cur, m + Mark(text[..nl], changed), changed);
        MarkSplit(text, nl, nl + 1, changed);
        Assoc(m, Mark(text[..nl], changed), Mark([LF], changed));
        lines := lines + [cur];
        cur := SideLine("", []);
        p := nl + 1;
      }
    }
    assert text[..p] == text;
  }

  // ---- What the sides are ----

  lemma {:induction false} SideIsItsText(ops: seq<Op>, want: Kind)
    ensures Chars(MarkedSide(ops, want)) == SideText(ops, want)
  {
    if ops != [] {
      var init, op := ops[..|ops| - 1], ops[|ops| - 1];
      SideIsItsText(init, want);
      assert ops == init + [op];
      SideSnoc(init, op);
      assert Chars(Mark(op.text, op.kind == want)) == op.text;
    }
  }

  /** What a side keeps unmarked. */
  function Unmarked(m: seq<Marked>): string {
    if m == [] then ""
    else Unmarked(m[..|m| - 1]) + if m[|m| - 1].changed then "" else [m[|m| - 1].c]
  }

  lemma {:induction false} UnmarkedAppend(m: seq<Marked>, text: string, changed: bool)
    ensures Unmarked(m + Mark(text, changed)) == Unmarked(m) + if changed then "" else text
    decreases |text|
  {
    var piece := Mark(text, changed);
    if text == "" {
      assert m + piece == m;
    } else {
      var init := text[..|text| - 1];
      assert (m + piece)[..|m + piece| - 1] == m + Mark(init, changed);
      UnmarkedAppend(m, init, changed);
      assert text == init + [text[|text| - 1]];
    }
  }

  /** What is not marked is the kept text, on either side. */
  lemma {:induction false} UnmarkedIsKept(ops: seq<Op>, want: Kind)
    requires want != Equal
    ensures Unmarked(MarkedSide(ops, want)) == SideText(ops, Equal)
  {
    if ops != [] {
      var init, op := ops[..|ops| - 1], ops[|ops| - 1];
      UnmarkedIsKept(init, want);
      assert ops == init + [op];
      SideSnoc(init, op);
      UnmarkedAppend(MarkedSide(init, want), op.text, op.kind == want);
      assert MarkedSide(init, want) + [] == MarkedSide(init, want);
    }
  }

  function WithoutNewlines(s: string): string {
    if s == "" then ""
    else WithoutNewlines(s[..|s| - 1]) + if s[|s| - 1] == LF then "" else [s[|s| - 1]]
  }

  /** What the spans leave of the first `n` characters of a line. */
  ghost function OutsideOf(l: SideLine, n: nat): string
    requires n <= |l.text|
  {
    if n == 0 then "" else OutsideOf(l, n - 1) + if Covered(l.spans, n - 1) then "" else [l.text[n - 1]]
  }

  /** What the spans leave of all the lines. */
  ghost function OutsideSpans(lines: seq<SideLine>): string {
    if lines == [] then ""
    else
      var l := lines[|lines| - 1];
      OutsideSpans(lines[..|lines| - 1]) + OutsideOf(l, |l.text|)
  }

  function UnmarkedLines(lines: seq<seq<Marked>>): string {
    if lines == [] then "" else UnmarkedLines(lines[..|lines| - 1]) + Unmarked(lines[|lines| - 1])
  }

  lemma {:induction false} OutsideIsUnmarked(l: SideLine, m: seq<Marked>, n: nat)
    requires Represents(l, m) && n <= |m|
    ensures OutsideOf(l, n) == Unmarked(m[..n])
  {
    hide Covered;
    if n > 0 {
      OutsideIsUnmarked(l, m, n - 1);
      assert m[..n][..n - 1] == m[..n - 1];
    }
  }

  lemma {:induction false} OutsideLines(lines: seq<SideLine>, ms: seq<seq<Marked>>)
    requires AllRepresent(lines, ms)
    ensures OutsideSpans(lines) == UnmarkedLines(ms)
  {
    hide Represents;
    if ms != [] {
      OutsideLines(lines[..|lines| - 1], ms[..|ms| - 1]);
      var l, m := lines[|lines| - 1], ms[|ms| - 1];
      assert Represents(l, m);
      SameLength(l, m);
      OutsideIsUnmarked(l, m, |m|);
      assert m[..|m|] == m;
    }
  }

  lemma SameLength(l: SideLine, m: seq<Marked>)
    requires Represents(l, m)
    ensures |l.text| == |m|
  {
  }

  lemma UnmarkedSnoc(m: seq<Marked>, last: Marked)
    ensures Unmarked(m + [last]) == Unmarked(m) + if last.changed then "" else [last.c]
  {
    assert (m + [last])[..|m|] == m;
  }

  lemma WithoutNewlinesSnoc(s: string, c: char)
    ensures WithoutNewlines(s + [c]) == WithoutNewlines(s) + if c == LF then "" else [c]
  {
    assert (s + [c])[..|s|] == s;
  }

  /** What a cut keeps unmarked, line by line. */
  function UnmarkedCut(c: Cut): string {
    UnmarkedLines(c.lines) + Unmarked(c.open)
  }

  lemma CutUnmarkedStep(c: Cut, last: Marked)
    ensures UnmarkedCut(if last.c == LF then Cut(c.lines + [c.open], []) else Cut(c.lines, c.open + [last])) ==
            UnmarkedCut(c) + if last.c == LF || last.changed then "" else [last.c]
  {
    if last.c == LF {
      assert (c.lines + [c.open])[..|c.lines|] == c.lines;
      assert UnmarkedLines(c.lines + [c.open]) + "" == UnmarkedLines(c.lines + [c.open]);
      assert UnmarkedCut(c) + "" == UnmarkedCut(c);
    } else {
      UnmarkedSnoc(c.open, last);
      Assoc(UnmarkedLines(c.lines), Unmarked(c.open), if last.changed then "" else [last.c]);
    }
  }

  /** Cutting at newlines drops just the newlines. */
  lemma {:induction false} CutKeepsUnmarked(m: seq<Marked>)
    ensures UnmarkedCut(CutLines(m)) == WithoutNewlines(Unmarked(m))
  {
    hide UnmarkedCut;
    if m == [] {
      NothingCut();
    } else {
      var init, last := m[..|m| - 1], m[|m| - 1];
      CutKeepsUnmarked(init);
      CutUnmarkedStep(CutLines(init), last);
      if last.changed {
        assert Unmarked(init) + "" == Unmarked(init);
        assert UnmarkedCut(CutLines(init)) + "" == UnmarkedCut(CutLines(init));
      } else {
        WithoutNewlinesSnoc(Unmarked(init), last.c);
      }
    }
  }

  lemma NothingCut()
    ensures UnmarkedCut(Cut([], [])) == ""
  {
  }

  /**
   Outside the spans both sides read the same: the kept text, without the newlines
   that end the lines, and nothing else.
   */
  lemma OutsideSpansIsKept(ops: seq<Op>, want: Kind, lines: seq<SideLine>)
    requires want != Equal && AllRepresent(lines, Lines(MarkedSide(ops, want)))
    ensures OutsideSpans(lines) == WithoutNewlines(SideText(ops, Equal))
  {
    hide AllRepresent;
    var m := MarkedSide(ops, want);
    var c := CutLines(m);
    OutsideLines(lines, Lines(m));
    CutKeepsUnmarked(m);
    UnmarkedIsKept(ops, want);
    assert (c.lines + [c.open])[..|c.lines|] == c.lines;
    assert UnmarkedLines(c.lines) + "" == UnmarkedLines(c.lines);
  }

  /** The lines of a text: its pieces between newlines, less an empty last one. */
  function TextLines(s: string): seq<string> {
    var parts := Split(s, LF);
    if |parts| > 1 && parts[|parts| - 1] == "" then parts[..|parts| - 1] else parts
  }

  function Texts(lines: seq<seq<Marked>>): (t: seq<string>)
    ensures |t| == |lines|
  {
    seq(|lines|, i requires 0 <= i < |lines| => Chars(lines[i]))
  }

  lemma {:induction false} CutIsSplit(m: seq<Marked>)
    ensures Split(Chars(m), LF) == CutText(CutLines(m))
  {
    if m == [] {
      assert Find("", LF) == 0;
    } else {
      var init, last := m[..|m| - 1], m[|m| - 1];
      CutIsSplit(init);
      CutTextStep(CutLines(init), last);
      hide CutText, Extended, Chars;
      assert Chars(m) == Chars(init) + [last.c] by { CharsSnoc(m); }
      SplitSnoc(Chars(init), LF, last.c);
    }
  }

  lemma CharsSnoc(m: seq<Marked>)
    requires m != []
    ensures Chars(m) == Chars(m[..|m| - 1]) + [m[|m| - 1].c]
  {
  }

  /** The texts of the lines of a cut, the open one last. */
  function CutText(c: Cut): (parts: seq<string>)
    ensures parts != []
  {
    Texts(c.lines) + [Chars(c.open)]
  }

  lemma CutTextStep(c: Cut, last: Marked)
    ensures CutText(if last.c == LF then Cut(c.lines + [c.open], []) else Cut(c.lines, c.open + [last])) ==
            Extended(CutText(c), LF, last.c)
  {
    assert Texts(c.lines + [c.open]) == Texts(c.lines) + [Chars(c.open)];
    assert Chars(c.open + [last]) == Chars(c.open) + [last.c];
    assert CutText(c)[..|c.lines|] == Texts(c.lines);
  }

  /** The lines that are compared are the lines of the two texts. */
  lemma LinesAreTheTexts(ops: seq<Op>, want: Kind)
    ensures Texts(Lines(MarkedSide(ops, want))) == TextLines(SideText(ops, want))
  {
    var m := MarkedSide(ops, want);
    SideIsItsText(ops, want);
    CutIsSplit(m);
    var parts, c := Split(Chars(m), LF), CutLines(m);
    assert parts[..|parts| - 1] == Texts(c.lines);
    assert Texts(c.lines + [c.open]) == Texts(c.lines) + [Chars(c.open)];
  }
}
