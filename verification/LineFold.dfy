/**
 Folding long unchanged runs into gaps, and the whole line diff.
 */
module LineFold {
  import opened Text
  import opened WordDiff
  import opened LineDiff
  import opened LineRows

  /** The first place from `i` on that is not context. */
  function RunEnd(rows: seq<Row>, i: nat): (e: nat)
    requires i <= |rows|
    ensures i <= e <= |rows|
    ensures forall k | i <= k < e :: rows[k].Context?
    ensures e < |rows| ==> !rows[e].Context?
    decreases |rows| - i
  {
    if i < |rows| && rows[i].Context? then RunEnd(rows, i + 1) else i
  }

  function KeepHead(start: nat, context: nat): nat {
    if start == 0 then 0 else context
  }

  function KeepTail(end: nat, size: nat, context: nat): nat {
    if end == size then 0 else context
  }

  /** One run, folded when that saves more than one line. */
  function FoldRun(run: seq<Row>, head: nat, tail: nat): seq<Row> {
    if head + tail + 1 >= |run| then run
    else run[..head] + [Gap(|run| - head - tail)] + run[|run| - tail..]
  }

  /** The rows from `i` on, folded. */
  function Fold(rows: seq<Row>, i: nat, context: nat): seq<Row>
    requires i <= |rows|
    decreases |rows| - i
  {
    if i == |rows| then []
    else if !rows[i].Context? then [rows[i]] + Fold(rows, i + 1, context)
    else
      var e := RunEnd(rows, i);
      FoldRun(rows[i..e], KeepHead(i, context), KeepTail(e, |rows|, context)) + Fold(rows, e, context)
  }

  lemma FoldStep(rows: seq<Row>, i: nat, context: nat, out: seq<Row>, more: seq<Row>, e: nat)
    requires i < e <= |rows|
    requires Fold(rows, i, context) == more + Fold(rows, e, context)
    ensures out + Fold(rows, i, context) == out + more + Fold(rows, e, context)
  {
    Assoc(out, more, Fold(rows, e, context));
  }

  method RunAt(rows: seq<Row>, i: nat) returns (e: nat)
    requires i <= |rows|
    ensures e == RunEnd(rows, i)
  {
    e := i;
    while e < |rows| && rows[e].Context?
      invariant i <= e <= |rows| && RunEnd(rows, e) == RunEnd(rows, i)
    {
      e := e + 1;
    }
  }

  /** One run onto the rows: whole, or its ends around a gap. */
  method PushRun(before: seq<Row>, run: seq<Row>, head: nat, tail: nat) returns (out: seq<Row>)
    ensures out == before + FoldRun(run, head, tail)
  {
    if head + tail + 1 >= |run| {
      out := before + run;
    } else {
      out := before + run[..head];
      out := out + [Gap(|run| - head - tail)];
      out := out + run[|run| - tail..];
    }
  }

  method FoldRows(rows: seq<Row>, context: nat) returns (out: seq<Row>)
    ensures out == Fold(rows, 0, context)
  {
    hide FoldRun;
    out := [];
    var i := 0;
    while i < |rows|
      invariant i <= |rows|
      invariant out + Fold(rows, i, context) == Fold(rows, 0, context)
    {
      if !rows[i].Context? {
        FoldStep(rows, i, context, out, [rows[i]], i + 1);
        out := out + [rows[i]];
        i := i + 1;
      } else {
        var e := RunAt(rows, i);
        var head, tail := if i == 0 then 0 else context, if e == |rows| then 0 else context;
        FoldStep(rows, i, context, out, FoldRun(rows[i..e], head, tail), e);
        out := PushRun(out, rows[i..e], head, tail);
        i := e;
      }
    }
    assert out + [] == out;
  }

  /** `out` becomes `full` again when every gap is opened into the context lines it stands for. */
  ghost predicate Unfolds(out: seq<Row>, full: seq<Row>) {
    if out == [] then full == []
    else match out[0]
      case Gap(n) =>
        && 2 <= n <= |full| && (forall k | 0 <= k < n :: full[k].Context?) && Unfolds(out[1..], full[n..])
      case _ => full != [] && out[0] == full[0] && Unfolds(out[1..], full[1..])
  }

  lemma {:induction false} UnfoldsShown(shown: seq<Row>, out: seq<Row>, full: seq<Row>)
    requires NoGaps(shown) && Unfolds(out, full)
    ensures Unfolds(shown + out, shown + full)
  {
    if shown == [] {
      assert shown + out == out && shown + full == full;
    } else {
      UnfoldsShown(shown[1..], out, full);
      assert (shown + out)[1..] == shown[1..] + out && (shown + full)[1..] == shown[1..] + full;
    }
  }

  /** A folded run: what is kept before the gap, the gap, and what comes after. */
  lemma GapParts(run: seq<Row>, head: nat, tail: nat, out: seq<Row>)
    requires head + tail + 1 < |run|
    ensures FoldRun(run, head, tail) + out ==
      run[..head] + ([Gap(|run| - head - tail)] + (run[|run| - tail..] + out))
  {
  }

  lemma RunParts(run: seq<Row>, head: nat, tail: nat, full: seq<Row>)
    requires head + tail <= |run|
    ensures run + full == run[..head] + (run[head..] + full)
    ensures (run[head..] + full)[|run| - head - tail..] == run[|run| - tail..] + full
  {
  }

  lemma UnfoldsGap(n: nat, out: seq<Row>, full: seq<Row>)
    requires 2 <= n <= |full| && (forall k | 0 <= k < n :: full[k].Context?) && Unfolds(out, full[n..])
    ensures Unfolds([Gap(n)] + out, full)
  {
    assert ([Gap(n)] + out)[1..] == out;
  }

  lemma UnfoldsRun(run: seq<Row>, head: nat, tail: nat, out: seq<Row>, full: seq<Row>)
    requires (forall k | 0 <= k < |run| :: run[k].Context?) && Unfolds(out, full)
    ensures Unfolds(FoldRun(run, head, tail) + out, run + full)
  {
    if head + tail + 1 >= |run| {
      UnfoldsShown(run, out, full);
    } else {
      var n, last := |run| - head - tail, run[|run| - tail..];
      GapParts(run, head, tail, out);
      RunParts(run, head, tail, full);
      UnfoldsShown(last, out, full);
      UnfoldsGap(n, last + out, run[head..] + full);
      hide FoldRun;
      UnfoldsShown(run[..head], [Gap(n)] + (last + out), run[head..] + full);
    }
  }

  /** Folding keeps every row in order; a gap stands for at least two context lines. */
  lemma {:induction false} FoldUnfolds(rows: seq<Row>, i: nat, context: nat)
    requires i <= |rows| && NoGaps(rows)
    ensures Unfolds(Fold(rows, i, context), rows[i..])
    decreases |rows| - i
  {
    if i == |rows| {
    } else if !rows[i].Context? {
      FoldUnfolds(rows, i + 1, context);
      UnfoldsShown([rows[i]], Fold(rows, i + 1, context), rows[i + 1..]);
      assert [rows[i]] + rows[i + 1..] == rows[i..];
    } else {
      var e := RunEnd(rows, i);
      FoldUnfolds(rows, e, context);
      UnfoldsRun(rows[i..e], KeepHead(i, context), KeepTail(e, |rows|, context), Fold(rows, e, context), rows[e..]);
      assert rows[i..e] + rows[e..] == rows[i..];
    }
  }

  /** The lines that gaps stand for. */
  function Skipped(rows: seq<Row>): nat {
    if rows == [] then 0 else (if rows[0].Gap? then rows[0].skipped else 0) + Skipped(rows[1..])
  }

  /** The rows that say something changed. */
  function Changes(rows: seq<Row>): seq<Row> {
    if rows == [] then []
    else (if rows[0].Removed? || rows[0].Added? then [rows[0]] else []) + Changes(rows[1..])
  }

  lemma {:induction false} ContextRun(full: seq<Row>, n: nat)
    requires n <= |full| && forall k | 0 <= k < n :: full[k].Context?
    ensures Changes(full) == Changes(full[n..])
    ensures |RowLines(full, Equal)| == n + |RowLines(full[n..], Equal)|
  {
    if n > 0 {
      ContextRun(full[1..], n - 1);
      assert full[1..][n - 1..] == full[n..];
    }
  }

  /** What opening the gaps again means for the counts. */
  lemma {:induction false} UnfoldsCounts(out: seq<Row>, full: seq<Row>)
    requires Unfolds(out, full)
    ensures Changes(out) == Changes(full)
    ensures |RowLines(out, Equal)| + Skipped(out) == |RowLines(full, Equal)|
    ensures forall row | row in out && row.Gap? :: row.skipped >= 2
    ensures out == [] <==> full == []
  {
    if out != [] {
      if out[0].Gap? {
        ContextRun(full, out[0].skipped);
        UnfoldsCounts(out[1..], full[out[0].skipped..]);
      } else {
        UnfoldsCounts(out[1..], full[1..]);
      }
      assert forall row | row in out :: row == out[0] || row in out[1..];
    }
  }

  /** Whether a gap of `out` swallows place `p` of what `out` unfolds to. */
  predicate Hidden(out: seq<Row>, p: nat) {
    if out == [] then false
    else match out[0]
      case Gap(n) => p < n || Hidden(out[1..], p - n)
      case _ => p > 0 && Hidden(out[1..], p - 1)
  }

  /** A context row with no change within `context` rows of it. */
  ghost predicate Far(rows: seq<Row>, context: nat, p: int) {
    && 0 <= p < |rows| && rows[p].Context?
    && forall q | 0 <= q < |rows| && !rows[q].Context? :: q + context < p || p + context < q
  }

  /** Which rows folding should hide: those far from every change, unless there is only one in a row. */
  ghost predicate Hides(rows: seq<Row>, context: nat, p: int) {
    Far(rows, context, p) && (Far(rows, context, p - 1) || Far(rows, context, p + 1))
  }

  lemma {:induction false} HiddenAfter(shown: seq<Row>, out: seq<Row>, p: nat)
    requires NoGaps(shown)
    ensures Hidden(shown + out, p) <==> p >= |shown| && Hidden(out, p - |shown|)
  {
    if shown == [] {
      assert shown + out == out;
    } else {
      assert (shown + out)[1..] == shown[1..] + out;
      if p > 0 {
        HiddenAfter(shown[1..], out, p - 1);
      }
    }
  }

  lemma HiddenInRun(run: seq<Row>, head: nat, tail: nat, out: seq<Row>, p: nat)
    requires forall k | 0 <= k < |run| :: run[k].Context?
    ensures Hidden(FoldRun(run, head, tail) + out, p) <==>
      if p < |run| then head + tail + 1 < |run| && head <= p < |run| - tail else Hidden(out, p - |run|)
  {
    if head + tail + 1 >= |run| {
      HiddenAfter(run, out, p);
    } else {
      var n, last := |run| - head - tail, run[|run| - tail..];
      var inner := [Gap(n)] + (last + out);
      assert run[..head] + inner == FoldRun(run, head, tail) + out;
      HiddenAfter(run[..head], inner, p);
      if p >= head + n {
        assert inner[1..] == last + out;
        HiddenAfter(last, out, p - head - n);
      }
    }
  }

  /** Which places of a run of context rows are far from every change. */
  lemma FarInRun(rows: seq<Row>, i: nat, context: nat, p: int)
    requires i < |rows| && rows[i].Context? && (i > 0 ==> !rows[i - 1].Context?)
    requires i <= p < RunEnd(rows, i)
    ensures Far(rows, context, p) <==>
      var e := RunEnd(rows, i);
      i + KeepHead(i, context) <= p < e - KeepTail(e, |rows|, context)
  {
    var e := RunEnd(rows, i);
    assert forall q | i <= q < e :: rows[q].Context?;
    if i > 0 && p < i + context {
      assert !rows[i - 1].Context?;
    }
    if e < |rows| && p >= e - context {
      assert !rows[e].Context?;
    }
  }

  lemma RunHides(rows: seq<Row>, i: nat, context: nat, p: int)
    requires i < |rows| && rows[i].Context? && (i > 0 ==> !rows[i - 1].Context?)
    requires i <= p < RunEnd(rows, i)
    ensures Hides(rows, context, p) <==>
      var e := RunEnd(rows, i);
      var head, tail := KeepHead(i, context), KeepTail(e, |rows|, context);
      head + tail + 1 < e - i && i + head <= p < e - tail
  {
    FarInRun(rows, i, context, p);
    if p > i {
      FarInRun(rows, i, context, p - 1);
    }
    if p + 1 < RunEnd(rows, i) {
      FarInRun(rows, i, context, p + 1);
    }
  }

  lemma {:induction false} FoldHides(rows: seq<Row>, i: nat, context: nat, p: nat)
    requires i <= p < |rows| && NoGaps(rows)
    requires i > 0 && rows[i].Context? ==> !rows[i - 1].Context?
    ensures Hidden(Fold(rows, i, context), p - i) <==> Hides(rows, context, p)
    decreases |rows| - i
  {
    hide Hides, FoldRun;
    if !rows[i].Context? {
      HiddenAfter([rows[i]], Fold(rows, i + 1, context), p - i);
      if p > i {
        FoldHides(rows, i + 1, context, p);
      } else {
        ChangesStay(rows, context, p);
      }
    } else {
      var e := RunEnd(rows, i);
      var head, tail := KeepHead(i, context), KeepTail(e, |rows|, context);
      HiddenInRun(rows[i..e], head, tail, Fold(rows, e, context), p - i);
      if p < e {
        RunHides(rows, i, context, p);
      } else {
        FoldHides(rows, e, context, p);
      }
    }
  }

  lemma ChangesStay(rows: seq<Row>, context: nat, p: nat)
    requires p < |rows| && !rows[p].Context?
    ensures !Hides(rows, context, p)
  {
  }

  /** Folding hides exactly the rows it should. */
  lemma FoldHidesExactly(rows: seq<Row>, context: nat)
    requires NoGaps(rows)
    ensures Unfolds(Fold(rows, 0, context), rows)
    ensures forall p | 0 <= p < |rows| :: Hidden(Fold(rows, 0, context), p) <==> Hides(rows, context, p)
  {
    FoldUnfolds(rows, 0, context);
    assert rows[0..] == rows;
    forall p | 0 <= p < |rows| ensures Hidden(Fold(rows, 0, context), p) <==> Hides(rows, context, p) {
      FoldHides(rows, 0, context, p);
    }
  }

  // ---- The whole line diff ----

  /** The two sides have the same lines and no line has a changed character. */
  ghost predicate Unchanged(x: seq<seq<Marked>>, y: seq<seq<Marked>>) {
    x == y && forall i | 0 <= i < |x| :: Untouched(x[i])
  }

  /** The line diff, with the matched rows behind the folded ones. */
  method DiffLines(ops: seq<Op>, context: nat) returns (out: seq<Row>, ghost full: seq<Row>)
    ensures AllRepresent(RowLines(full, Delete), Lines(MarkedSide(ops, Delete)))
    ensures AllRepresent(RowLines(full, Insert), Lines(MarkedSide(ops, Insert)))
    ensures Matched(RowLines(full, Delete), RowLines(full, Insert),
                    |RowLines(full, Delete)|, |RowLines(full, Insert)|, full)
    ensures AnyChange(full) ==> out == Fold(full, 0, context)
    ensures !AnyChange(full) ==> out == []
    ensures out == [] <==>
      var x, y := Lines(MarkedSide(ops, Delete)), Lines(MarkedSide(ops, Insert));
      TableFits(|x|, |y|) && Unchanged(x, y)
  {
    var a := SideLines(ops, Delete);
    var b := SideLines(ops, Insert);
    var rows, anyChange := MatchLines(a, b);
    full := rows;
    hide TableFits, Matched, AllRepresent, Unchanged, AnyChange;
    RowsMean(a, b, Lines(MarkedSide(ops, Delete)), Lines(MarkedSide(ops, Insert)), full, context);
    if !anyChange {
      out := [];
      return;
    }
    out := FoldRows(rows, context);
  }

  lemma RowsMean(a: seq<SideLine>, b: seq<SideLine>, x: seq<seq<Marked>>, y: seq<seq<Marked>>, rows: seq<Row>, context: nat)
    requires Matched(a, b, |a|, |b|, rows)
    requires AllRepresent(a, x) && AllRepresent(b, y) && |x| >= 1 && |y| >= 1
    ensures RowLines(rows, Delete) == a && RowLines(rows, Insert) == b
    ensures !AnyChange(rows) <==> TableFits(|x|, |y|) && Unchanged(x, y)
    ensures Fold(rows, 0, context) == [] <==> rows == []
    ensures AnyChange(rows) ==> rows != []
  {
    MatchedCompares(a, b, rows);
    NoRowsMeansUnchanged(a, b, x, y, rows);
    FoldUnfolds(rows, 0, context);
    assert rows[0..] == rows;
    hide Compares, Unchanged, AllRepresent;
    UnfoldsCounts(Fold(rows, 0, context), rows);
  }

  lemma {:induction false} ContextOnly(rows: seq<Row>)
    requires NoGaps(rows)
    ensures |rows| + |RowLines(rows, Equal)| == |RowLines(rows, Delete)| + |RowLines(rows, Insert)|
    ensures !AnyChange(rows) <==> |RowLines(rows, Equal)| == |rows|
    ensures |RowLines(rows, Equal)| <= |rows|
    ensures !AnyChange(rows) ==> RowLines(rows, Delete) == RowLines(rows, Insert) == RowLines(rows, Equal)
  {
    if rows != [] {
      ContextOnly(rows[1..]);
      ChangeSnoc([rows[0]], rows[1..]);
      assert [rows[0]] + rows[1..] == rows;
      assert [rows[0]][0] == rows[0];
    }
  }

  lemma {:induction false} SameLinesLcs(a: seq<SideLine>)
    requires forall l | l in a :: Plain(l)
    ensures LineLcs(a, a) == |a|
  {
    if a != [] {
      assert a[0] in a;
      SameLinesLcs(a[1..]);
    }
  }

  lemma PlainIsUntouched(l: SideLine, m: seq<Marked>)
    requires Represents(l, m)
    ensures Plain(l) <==> Untouched(m)
  {
    if !Plain(l) {
      var k := l.spans[0].0;
      assert Covered(l.spans, k);
    }
  }

  lemma UnchangedLines(a: seq<SideLine>, b: seq<SideLine>, x: seq<seq<Marked>>, y: seq<seq<Marked>>)
    requires AllRepresent(a, x) && AllRepresent(b, y)
    ensures a == b && (forall i | 0 <= i < |a| :: Plain(a[i])) <==> Unchanged(x, y)
  {
    forall i | 0 <= i < |a| ensures Plain(a[i]) <==> Untouched(x[i]) {
      PlainIsUntouched(a[i], x[i]);
    }
    if a == b && forall i | 0 <= i < |a| :: Plain(a[i]) {
      forall i | 0 <= i < |x| ensures x[i] == y[i] {
        PlainIsUntouched(b[i], y[i]);
        SameMarks(x[i], y[i]);
      }
    }
    if Unchanged(x, y) {
      forall i | 0 <= i < |a| ensures a[i] == b[i] {
        PlainIsUntouched(a[i], x[i]);
        PlainIsUntouched(b[i], y[i]);
      }
    }
  }

  lemma SameMarks(x: seq<Marked>, y: seq<Marked>)
    requires Untouched(x) && Untouched(y) && Chars(x) == Chars(y)
    ensures x == y
  {
    assert forall k | 0 <= k < |x| :: x[k].c == Chars(x)[k] && y[k].c == Chars(y)[k];
  }

  /** What all the rows hold of the lines compared. */
  ghost predicate Compares(a: seq<SideLine>, b: seq<SideLine>, rows: seq<Row>) {
    && RowLines(rows, Delete) == a && RowLines(rows, Insert) == b && NoGaps(rows)
    && (forall l | l in RowLines(rows, Equal) :: Plain(l))
    && (TableFits(|a|, |b|) ==> |RowLines(rows, Equal)| == LineLcs(a, b))
    && (!TableFits(|a|, |b|) ==> rows == Block(a, b))
  }

  lemma MatchedCompares(a: seq<SideLine>, b: seq<SideLine>, rows: seq<Row>)
    requires Matched(a, b, |a|, |b|, rows) && |a| >= 1 && |b| >= 1
    ensures Compares(a, b, rows)
  {
    hide LineLcs;
    MatchedIsBest(a, b, rows);
    LineLcsStep(a, b, |a|, |b|);
  }

  /** Nothing to show, in terms of the lines compared. */
  lemma NoChangeMeansSame(a: seq<SideLine>, b: seq<SideLine>, rows: seq<Row>)
    requires |a| >= 1 && |b| >= 1 && Compares(a, b, rows)
    ensures !AnyChange(rows) <==> TableFits(|a|, |b|) && a == b && forall i | 0 <= i < |a| :: Plain(a[i])
  {
    hide LineLcs;
    ContextOnly(rows);
    assert !TableFits(|a|, |b|) ==> rows[0] == Removed(a[0]);
    if a == b && forall i | 0 <= i < |a| :: Plain(a[i]) {
      SameLinesLcs(a);
    }
  }

  lemma NoRowsMeansUnchanged(a: seq<SideLine>, b: seq<SideLine>, x: seq<seq<Marked>>, y: seq<seq<Marked>>, rows: seq<Row>)
    requires AllRepresent(a, x) && AllRepresent(b, y) && |x| >= 1 && |y| >= 1
    requires Compares(a, b, rows)
    ensures !AnyChange(rows) <==> TableFits(|x|, |y|) && Unchanged(x, y)
  {
    hide Compares, Unchanged;
    NoChangeMeansSame(a, b, rows);
    UnchangedLines(a, b, x, y);
  }
}
