/**
 When the rewrite widget shows no difference: what an empty line diff says about
 the two texts.
 */
module EmptyDiff {
  import opened Text
  import opened Tokenizer
  import opened WordDiff
  import opened LineDiff
  import opened LineRows
  import opened LineFold

  /** A newline after `c` would join the run that `c` is in. */
  predicate Joins(u: Unicode, c: char) {
    u.Classify(c) == u.Classify(LF) && u.Classify(LF) != Other
  }

  /** `longer` is `text` with one final newline, which starts a token and ends the text's only unfinished line. */
  predicate NewlineOnly(u: Unicode, text: string, longer: string) {
    && longer == text + [LF]
    && (text == "" || (text[|text| - 1] != LF && !Joins(u, text[|text| - 1])))
  }

  predicate LooksSame(u: Unicode, before: string, after: string) {
    before == after || NewlineOnly(u, before, after) || NewlineOnly(u, after, before)
  }

  // ---- Diffs of token lists that differ in their last token only ----

  lemma {:induction false} HeadOfCommon(ts: seq<string>, x: seq<string>, y: seq<string>)
    requires x == [] || y == [] || x[0] != y[0]
    ensures HeadLength(ts + x, ts + y) == |ts|
  {
    if ts == [] {
      assert ts + x == x && ts + y == y;
    } else {
      assert (ts + x)[1..] == ts[1..] + x && (ts + y)[1..] == ts[1..] + y;
      HeadOfCommon(ts[1..], x, y);
    }
  }

  /** At most one token on each side, and not the same one. */
  predicate Apart(x: seq<string>, y: seq<string>) {
    |x| <= 1 && |y| <= 1 && (x != [] && y != [] ==> x[0] != y[0])
  }

  lemma MiddleApart(x: seq<string>, y: seq<string>)
    requires Apart(x, y)
    ensures Middle(x, y) == All(Delete, x) + All(Insert, y)
  {
    if Fits(|x|, |y|) {
      assert x[1..] == [] && y[1..] == [];
      assert TokenLcs([], y) == 0 && TokenLcs(x, []) == 0;
      assert Walk(x, y) == [Op(Delete, x[0])] + Walk([], y);
      assert All(Delete, x) == [Op(Delete, x[0])];
    }
  }

  lemma RawApart(ts: seq<string>, x: seq<string>, y: seq<string>)
    requires Apart(x, y)
    ensures Raw(ts + x, ts + y) == All(Equal, ts) + (All(Delete, x) + All(Insert, y))
  {
    hide Middle;
    HeadOfCommon(ts, x, y);
    assert (ts + x)[|ts|..] == x && (ts + y)[|ts|..] == y;
    assert TailLength(x, y) == 0 == TailAfter(ts + x, ts + y, |ts|);
    assert Trimmed(ts + x, ts + y) == Trim(ts, x, y, []);
    MiddleApart(x, y);
    assert All(Equal, []) == [] && Middle(x, y) + [] == Middle(x, y);
  }

  /** Kept tokens at the start only fill the first buffer. */
  lemma {:induction false} KeptFirst(u: Unicode, ts: seq<string>, more: seq<Op>, n: nat)
    requires n <= |ts|
    ensures Buffered(u, All(Equal, ts) + more, n) == Buffers([], Concat(ts[..n]), "", "")
  {
    if n > 0 {
      KeptFirst(u, ts, more, n - 1);
      assert ts[..n] == ts[..n - 1] + [ts[n - 1]];
      ConcatSnoc(ts[..n - 1], ts[n - 1]);
    }
  }

  function Changes(x: seq<string>, y: seq<string>): seq<Op> {
    All(Delete, x) + All(Insert, y)
  }

  /** The ops of a diff that keeps `kept`, removes `gone` and adds `came`. */
  function ThreeOps(kept: string, gone: string, came: string): seq<Op> {
    Closed(Closed(Closed([], Equal, kept), Delete, gone), Insert, came)
  }

  lemma DeleteStep(u: Unicode, raw: seq<Op>, i: nat, kept: string)
    requires i < |raw| && raw[i].kind == Delete && Buffered(u, raw, i) == Buffers([], kept, "", "")
    ensures Buffered(u, raw, i + 1) == Buffers(Closed([], Equal, kept), "", raw[i].text, "")
  {
    assert "" + raw[i].text == raw[i].text;
  }

  lemma InsertStep(u: Unicode, raw: seq<Op>, i: nat, b: Buffers)
    requires i < |raw| && raw[i].kind == Insert && Buffered(u, raw, i) == b && b.ins == ""
    ensures Buffered(u, raw, i + 1) == Buffers(Closed(b.out, Equal, b.eq), "", b.del, raw[i].text)
  {
    assert "" + raw[i].text == raw[i].text;
  }

  lemma NothingClosed(ops: seq<Op>, kind: Kind)
    ensures Closed(ops, kind, "") == ops
  {
  }

  lemma OneText(x: seq<string>)
    requires |x| <= 1
    ensures Concat(x) == if x == [] then "" else x[0]
  {
    assert x != [] ==> x[1..] == [];
  }

  /** The buffers once the kept tokens and at most one deletion are in. */
  lemma UpToDelete(u: Unicode, ts: seq<string>, x: seq<string>, y: seq<string>)
    requires |x| <= 1
    ensures Buffered(u, All(Equal, ts) + Changes(x, y), |ts| + |x|) ==
            if x == [] then Buffers([], Concat(ts), "", "") else Buffers(Closed([], Equal, Concat(ts)), "", x[0], "")
  {
    hide Step, Buffered, Closed;
    var raw := All(Equal, ts) + Changes(x, y);
    KeptFirst(u, ts, Changes(x, y), |ts|);
    assert ts[..|ts|] == ts;
    if x != [] {
      assert raw[|ts|] == Op(Delete, x[0]);
      DeleteStep(u, raw, |ts|, Concat(ts));
    }
  }

  lemma GroupedApart(u: Unicode, ts: seq<string>, x: seq<string>, y: seq<string>)
    requires Apart(x, y)
    ensures Grouped(u, All(Equal, ts) + Changes(x, y)) == ThreeOps(Concat(ts), Concat(x), Concat(y))
  {
    hide Step, Buffered, Closed;
    var raw, n := All(Equal, ts) + Changes(x, y), |ts| + |x|;
    UpToDelete(u, ts, x, y);
    OneText(x);
    OneText(y);
    var one := Closed([], Equal, Concat(ts));
    NothingClosed(one, Equal);
    NothingClosed(one, Delete);
    if y != [] {
      assert raw[n] == Op(Insert, y[0]);
      InsertStep(u, raw, n, Buffered(u, raw, n));
      assert |raw| == n + 1;
    } else {
      assert |raw| == n;
    }
  }

  lemma ClosedMarks(ops: seq<Op>, kind: Kind, text: string, want: Kind)
    ensures MarkedSide(Closed(ops, kind, text), want) ==
            MarkedSide(ops, want) + if Shows(Op(kind, text), want) then Mark(text, kind == want) else []
  {
    if text == "" {
      assert Mark(text, kind == want) == [] && MarkedSide(ops, want) + [] == MarkedSide(ops, want);
    } else {
      assert (ops + [Op(kind, text)])[..|ops|] == ops;
    }
  }

  lemma ThreeOpsMarks(kept: string, gone: string, came: string)
    ensures MarkedSide(ThreeOps(kept, gone, came), Delete) == Mark(kept, false) + Mark(gone, true)
    ensures MarkedSide(ThreeOps(kept, gone, came), Insert) == Mark(kept, false) + Mark(came, true)
  {
    hide MarkedSide, Closed;
    var one := Closed([], Equal, kept);
    var two := Closed(one, Delete, gone);
    forall want | want in {Delete, Insert}
      ensures MarkedSide(ThreeOps(kept, gone, came), want) ==
              Mark(kept, false) + Mark(if want == Delete then gone else came, true)
    {
      ClosedMarks([], Equal, kept, want);
      ClosedMarks(one, Delete, gone, want);
      ClosedMarks(two, Insert, came, want);
      NoMarks(want);
      assert [] + Mark(kept, false) == Mark(kept, false);
      assert MarkedSide(one, want) + [] == MarkedSide(one, want);
      assert MarkedSide(two, want) + [] == MarkedSide(two, want);
    }
  }

  lemma NoMarks(want: Kind)
    ensures MarkedSide([], want) == []
  {
  }

  /** What the diff of two such token lists marks. */
  lemma MarksApart(u: Unicode, ts: seq<string>, x: seq<string>, y: seq<string>)
    requires Apart(x, y)
    ensures var ops := Grouped(u, Raw(ts + x, ts + y));
            && MarkedSide(ops, Delete) == Mark(Concat(ts), false) + Mark(Concat(x), true)
            && MarkedSide(ops, Insert) == Mark(Concat(ts), false) + Mark(Concat(y), true)
  {
    hide Grouped, Raw, ThreeOps;
    RawApart(ts, x, y);
    GroupedApart(u, ts, x, y);
    ThreeOpsMarks(Concat(ts), Concat(x), Concat(y));
  }

  // ---- The tokens of a text with a final newline ----

  lemma LastOfConcat(ts: seq<string>)
    requires ts != [] && ts[|ts| - 1] != ""
    ensures var t, s := ts[|ts| - 1], Concat(ts); s != "" && s[|s| - 1] == t[|t| - 1]
  {
    assert ts == ts[..|ts| - 1] + [ts[|ts| - 1]];
    ConcatSnoc(ts[..|ts| - 1], ts[|ts| - 1]);
  }

  lemma LastToken(u: Unicode, ts: seq<string>)
    requires Runs(u, ts) && ts != []
    ensures var t, s := ts[|ts| - 1], Concat(ts);
            s != "" && t != "" && s[|s| - 1] == t[|t| - 1] && u.Classify(t[0]) == u.Classify(s[|s| - 1])
  {
    assert IsToken(u, ts[|ts| - 1]);
    LastOfConcat(ts);
  }

  /** A newline that joins nothing is a token of its own. */
  lemma NewlineAlone(u: Unicode, ts: seq<string>)
    requires Runs(u, ts)
    requires var s := Concat(ts); s == "" || !Joins(u, s[|s| - 1])
    ensures Runs(u, ts + [[LF]]) && Concat(ts + [[LF]]) == Concat(ts) + [LF]
  {
    ConcatSnoc(ts, [LF]);
    if ts != [] {
      LastToken(u, ts);
      assert Ends(u, ts[|ts| - 1], [LF]);
    }
  }

  lemma LongerToken(u: Unicode, t: string)
    requires IsToken(u, t) && Joins(u, t[|t| - 1])
    ensures IsToken(u, t + [LF])
  {
  }

  /** A newline that joins makes the last token longer. */
  lemma NewlineJoined(u: Unicode, ts: seq<string>)
    requires Runs(u, ts) && ts != []
    requires var s := Concat(ts); s != "" && Joins(u, s[|s| - 1])
    ensures var init, t := ts[..|ts| - 1], ts[|ts| - 1];
            && ts == init + [t] && t != ""
            && Runs(u, init + [t + [LF]]) && Concat(init + [t + [LF]]) == Concat(ts) + [LF]
  {
    hide IsToken, Joins;
    var init, t := ts[..|ts| - 1], ts[|ts| - 1];
    assert ts == init + [t];
    LastToken(u, ts);
    LongerToken(u, t);
    LastTokenReplaced(u, init, t, t + [LF]);
    JoinedText(init, t);
  }

  lemma JoinedText(init: seq<string>, t: string)
    ensures Concat(init + [t + [LF]]) == Concat(init + [t]) + [LF]
  {
    ConcatSnoc(init, t);
    ConcatSnoc(init, t + [LF]);
    Assoc(Concat(init), t, [LF]);
  }

  // ---- The lines of a text and of a longer one ----

  lemma OnePiece(s: string)
    requires Find(s, LF) == |s|
    ensures Split(s, LF) == [s]
  {
  }

  lemma FirstPiece(s: string)
    requires Find(s, LF) < |s|
    ensures var k := Find(s, LF); Split(s, LF) == [s[..k]] + Split(s[k + 1..], LF)
  {
  }

  lemma CutAround(s: string, k: nat)
    requires k < |s|
    ensures s == s[..k] + ([s[k]] + s[k + 1..])
  {
  }

  lemma {:induction false} SplitTells(s: string, t: string)
    requires Split(s, LF) == Split(t, LF)
    ensures s == t
    decreases |s|
  {
    var p, q := Split(s, LF), Split(t, LF);
    if Find(s, LF) < |s| && Find(t, LF) < |t| {
      var x, y := s[Find(s, LF) + 1..], t[Find(t, LF) + 1..];
      FirstPiece(s);
      FirstPiece(t);
      assert p[0] == q[0] && p[1..] == Split(x, LF) && q[1..] == Split(y, LF);
      SplitTells(x, y);
      CutAround(s, Find(s, LF));
      CutAround(t, Find(t, LF));
    } else {
      PieceCount(s);
      PieceCount(t);
      OnePiece(s);
      OnePiece(t);
      assert p[0] == s && q[0] == t;
    }
  }

  lemma PieceCount(s: string)
    ensures |Split(s, LF)| == 1 <==> Find(s, LF) == |s|
  {
  }

  /** A final newline finishes the last line. */
  lemma LinesOfNewline(s: string)
    ensures Split(s + [LF], LF) == Split(s, LF) + [""] && TextLines(s + [LF]) == Split(s, LF)
  {
    SplitSnoc(s, LF, LF);
    assert (Split(s, LF) + [""])[..|Split(s, LF)|] == Split(s, LF);
  }

  /** Texts of the same lines differ by a final newline at most. */
  lemma SameLinesText(s: string, t: string)
    requires TextLines(s) == TextLines(t)
    ensures s == t || t == s + [LF] || s == t + [LF]
  {
    hide Split;
    var p, q := Split(s, LF), Split(t, LF);
    LinesOfNewline(s);
    LinesOfNewline(t);
    assert p[..|p| - 1] + [p[|p| - 1]] == p && q[..|q| - 1] + [q[|q| - 1]] == q;
    if p == q {
      SplitTells(s, t);
    } else if p + [""] == q {
      SplitTells(s + [LF], t);
    } else {
      assert q + [""] == p;
      SplitTells(t + [LF], s);
    }
  }

  /** A second newline in a row opens one more line. */
  lemma BlankLineShows(s: string)
    requires s != "" && s[|s| - 1] == LF
    ensures TextLines(s + [LF]) != TextLines(s)
  {
    var init := s[..|s| - 1];
    assert s == init + [LF];
    LinesOfNewline(init);
    LinesOfNewline(s);
    assert |Split(s, LF)| == |Split(init, LF)| + 1;
  }

  // ---- Lines with and without marks ----

  lemma {:induction false} UntouchedLines(m: seq<Marked>)
    requires Untouched(m)
    ensures forall i | 0 <= i < |CutLines(m).lines| :: Untouched(CutLines(m).lines[i])
    ensures Untouched(CutLines(m).open)
  {
    if m != [] {
      UntouchedLines(m[..|m| - 1]);
    }
  }

  /** A newline behind an unfinished line, or behind nothing, changes no line, marked or not. */
  lemma NewlineHidden(m: seq<Marked>, changed: bool)
    requires m == [] || m[|m| - 1].c != LF
    ensures Lines(m + [Marked(LF, changed)]) == Lines(m)
  {
    assert (m + [Marked(LF, changed)])[..|m|] == m;
    assert m != [] ==> CutLines(m).open != [];
  }

  /** A marked character that is no newline is seen. */
  lemma MarkSeen(m: seq<Marked>)
    requires m != [] && m[|m| - 1].c != LF && m[|m| - 1].changed
    ensures exists i :: 0 <= i < |Lines(m)| && !Untouched(Lines(m)[i])
  {
    var open := CutLines(m).open;
    assert open[|open| - 1] == m[|m| - 1];
    assert Lines(m)[|Lines(m)| - 1] == open;
  }

  lemma KeptLines(text: string)
    ensures forall i | 0 <= i < |Lines(Mark(text, false))| :: Untouched(Lines(Mark(text, false))[i])
  {
    UntouchedLines(Mark(text, false));
  }

  // ---- When nothing is shown ----

  /** The marked lines the line diff compares. */
  ghost predicate NothingToShow(u: Unicode, a: seq<string>, b: seq<string>) {
    var ops := Grouped(u, Raw(a, b));
    Unchanged(Lines(MarkedSide(ops, Delete)), Lines(MarkedSide(ops, Insert)))
  }

  lemma SameTokens(u: Unicode, a: seq<string>)
    ensures NothingToShow(u, a, a)
  {
    hide Grouped, Raw;
    MarksApart(u, a, [], []);
    assert a + [] == a;
    assert Mark("", true) == [] && Mark(Concat(a), false) + [] == Mark(Concat(a), false);
    KeptLines(Concat(a));
  }

  lemma NewlineUnseen(u: Unicode, a: seq<string>)
    requires Concat(a) == "" || Concat(a)[|Concat(a)| - 1] != LF
    ensures NothingToShow(u, a, a + [[LF]]) && NothingToShow(u, a + [[LF]], a)
  {
    hide Grouped, Raw, Lines, Mark;
    var m := Mark(Concat(a), false);
    MarksApart(u, a, [], [[LF]]);
    MarksApart(u, a, [[LF]], []);
    OneText([[LF]]);
    MarkNewline();
    assert a + [] == a && m + [] == m;
    assert Lines(m + [Marked(LF, true)]) == Lines(m) by { UnfinishedMarks(Concat(a)); }
    KeptLines(Concat(a));
  }

  lemma MarkNewline()
    ensures Mark("", true) == [] && Mark([LF], true) == [Marked(LF, true)]
  {
  }

  lemma UnfinishedMarks(s: string)
    requires s == "" || s[|s| - 1] != LF
    ensures Lines(Mark(s, false) + [Marked(LF, true)]) == Lines(Mark(s, false))
  {
    NewlineHidden(Mark(s, false), true);
  }

  lemma JoinedSeen(u: Unicode, init: seq<string>, t: string)
    requires t != "" && t[|t| - 1] != LF
    ensures !NothingToShow(u, init + [t], init + [t + [LF]]) && !NothingToShow(u, init + [t + [LF]], init + [t])
  {
    hide Grouped, Raw, Lines;
    MarksApart(u, init, [t], [t + [LF]]);
    MarksApart(u, init, [t + [LF]], [t]);
    assert [t][1..] == [] && Concat([t]) == t;
    MarkSeen(Mark(Concat(init), false) + Mark(t, true));
  }

  /** A final newline is not shown exactly when it starts a token behind an unfinished line. */
  lemma FinalNewline(u: Unicode, a: seq<string>, b: seq<string>)
    requires Runs(u, a) && Runs(u, b) && Concat(b) == Concat(a) + [LF]
    requires TextLines(Concat(a)) == TextLines(Concat(b))
    ensures NothingToShow(u, a, b) <==> NewlineOnly(u, Concat(a), Concat(b))
    ensures NothingToShow(u, b, a) <==> NewlineOnly(u, Concat(a), Concat(b))
  {
    hide NothingToShow, Runs, TextLines;
    var s := Concat(a);
    if s != "" && s[|s| - 1] == LF {
      BlankLineShows(s);
    } else if s != "" && Joins(u, s[|s| - 1]) {
      LastTokenOf(u, a);
      NewlineJoined(u, a);
      var init, t := a[..|a| - 1], a[|a| - 1];
      RunsAreUnique(u, b, init + [t + [LF]]);
      JoinedSeen(u, init, t);
    } else {
      NewlineAlone(u, a);
      RunsAreUnique(u, b, a + [[LF]]);
      NewlineUnseen(u, a);
    }
  }

  lemma LastTokenOf(u: Unicode, a: seq<string>)
    requires Runs(u, a) && Concat(a) != ""
    ensures a != [] && a[|a| - 1] != "" && a[|a| - 1][|a[|a| - 1]| - 1] == Concat(a)[|Concat(a)| - 1]
  {
    LastToken(u, a);
  }

  /** The lines compared are the lines of the two texts. */
  lemma ComparedLines(u: Unicode, a: seq<string>, b: seq<string>)
    requires Runs(u, a) && Runs(u, b)
    ensures var ops := Grouped(u, Raw(a, b));
            && Texts(Lines(MarkedSide(ops, Delete))) == TextLines(Concat(a))
            && Texts(Lines(MarkedSide(ops, Insert))) == TextLines(Concat(b))
  {
    hide Grouped, Raw, Lines, TextLines;
    var raw := Raw(a, b);
    RawSides(a, b);
    TokensAreNotEmpty(u, raw);
    GroupedMeansTheSame(u, raw);
    LinesAreTheTexts(Grouped(u, raw), Delete);
    LinesAreTheTexts(Grouped(u, raw), Insert);
  }

  /**
   The line diff of two texts has nothing to show exactly when they are the same,
   or differ by one final newline that joins no token and follows an unfinished
   line or nothing.
   */
  lemma NothingMeansLooksSame(u: Unicode, a: seq<string>, b: seq<string>)
    requires Runs(u, a) && Runs(u, b)
    ensures NothingToShow(u, a, b) <==> LooksSame(u, Concat(a), Concat(b))
  {
    var s, t := Concat(a), Concat(b);
    ComparedLines(u, a, b);
    hide NothingToShow, Runs, TextLines, NewlineOnly;
    assert NothingToShow(u, a, b) ==> TextLines(s) == TextLines(t) by { SameTexts(u, a, b); }
    NewlineOnlyLines(u, s, t);
    NewlineOnlyLines(u, t, s);
    if TextLines(s) == TextLines(t) {
      SameLinesText(s, t);
      if s == t {
        RunsAreUnique(u, a, b);
        SameTokens(u, a);
      } else if t == s + [LF] {
        FinalNewline(u, a, b);
        assert !NewlineOnly(u, t, s) by { NewlineOnlyLonger(u, t, s); }
      } else {
        FinalNewline(u, b, a);
        assert !NewlineOnly(u, s, t) by { NewlineOnlyLonger(u, s, t); }
      }
    }
  }

  lemma SameTexts(u: Unicode, a: seq<string>, b: seq<string>)
    requires Runs(u, a) && Runs(u, b)
    ensures NothingToShow(u, a, b) ==> TextLines(Concat(a)) == TextLines(Concat(b))
  {
    ComparedLines(u, a, b);
  }

  lemma NewlineOnlyLonger(u: Unicode, s: string, t: string)
    ensures NewlineOnly(u, s, t) ==> |t| == |s| + 1
  {
  }

  lemma NewlineOnlyLines(u: Unicode, s: string, t: string)
    ensures NewlineOnly(u, s, t) ==> TextLines(s) == TextLines(t)
  {
    if NewlineOnly(u, s, t) {
      LinesOfNewline(s);
      UnfinishedLines(s);
    }
  }

  lemma UnfinishedLines(s: string)
    requires s == "" || s[|s| - 1] != LF
    ensures TextLines(s) == Split(s, LF)
  {
    if s != "" {
      var init := s[..|s| - 1];
      assert s == init + [s[|s| - 1]];
      SplitSnoc(init, LF, s[|s| - 1]);
    }
  }

  /** The two diffs in a row, as the preview makes them. */
  method ShowDiff(u: Unicode, before: string, after: string, context: nat) returns (rows: seq<Row>)
    ensures rows == [] <==>
      TableFits(|TextLines(before)|, |TextLines(after)|) && LooksSame(u, before, after)
  {
    var ops, a, b := Diff(u, before, after);
    ghost var full;
    rows, full := DiffLines(ops, context);
    hide TableFits, TextLines, LooksSame, Runs, MarkedSide, Unchanged, Matched, AllRepresent, Compared, NormalForm, NoStrandedSpace, Refold;
    TextsTell(u, a, b);
  }

  lemma TextsTell(u: Unicode, a: seq<string>, b: seq<string>)
    requires Runs(u, a) && Runs(u, b)
    ensures var ops := Grouped(u, Raw(a, b));
            && |Lines(MarkedSide(ops, Delete))| == |TextLines(Concat(a))|
            && |Lines(MarkedSide(ops, Insert))| == |TextLines(Concat(b))|
            && (Unchanged(Lines(MarkedSide(ops, Delete)), Lines(MarkedSide(ops, Insert))) <==>
                  LooksSame(u, Concat(a), Concat(b)))
  {
    ComparedLines(u, a, b);
    NothingMeansLooksSame(u, a, b);
    hide TextLines, LooksSame, Runs, MarkedSide, Unchanged, Grouped, Raw;
  }

  /** A final newline behind some character goes unseen exactly when that is no newline and no part of its run. */
  lemma NewlineAfter(u: Unicode, s: string, c: char)
    ensures LooksSame(u, s + [c], s + [c] + [LF]) <==> c != LF && !Joins(u, c)
  {
    hide Joins;
    assert |s + [c] + [LF]| == |s + [c]| + 1;
    NewlineOnlyLonger(u, s + [c] + [LF], s + [c]);
  }

  /**
   The newline added to "a " shows, since it makes one token with the space; the
   one added to "a" does not.
   */
  lemma SpaceThenNewline(u: Unicode, a: seq<string>, b: seq<string>, x: seq<string>, y: seq<string>)
    requires u.Classify('a') == Word && u.Classify(' ') == u.Classify(LF) == Space
    requires Runs(u, a) && Concat(a) == "a" + [' '] && Runs(u, b) && Concat(b) == "a" + [' '] + [LF]
    requires Runs(u, x) && Concat(x) == "" + ['a'] && Runs(u, y) && Concat(y) == "" + ['a'] + [LF]
    ensures !NothingToShow(u, a, b) && NothingToShow(u, x, y)
  {
    NothingMeansLooksSame(u, a, b);
    NothingMeansLooksSame(u, x, y);
    NewlineAfter(u, "a", ' ');
    NewlineAfter(u, "", 'a');
    hide NothingToShow, Runs, LooksSame;
  }
}
