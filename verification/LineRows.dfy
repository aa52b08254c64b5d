/**
 Matching the two sides' lines into rows, and folding long unchanged runs.
 */
module LineRows {
  import opened Text
  import opened Lcs
  import opened WordDiff
  import opened LineDiff

  /** One row of the unified diff; a gap stands for `skipped` unchanged lines. */
  datatype Row = Context(line: SideLine) | Removed(line: SideLine) | Added(line: SideLine) | Gap(skipped: nat)

  /** A line with a changed span is never the same as another, even if its text is. */
  function Plain(l: SideLine): bool {
    l.spans == []
  }

  predicate Same(x: SideLine, y: SideLine) {
    x.spans == [] && y.spans == [] && x.text == y.text
  }

  function LineLcs(a: seq<SideLine>, b: seq<SideLine>): nat {
    LcsLength(a, b, Plain)
  }

  /** Past a million cells every line is simply replaced. */
  predicate TableFits(n: nat, m: nat) {
    (n + 1) * (m + 1) <= 1_000_000
  }

  predicate OnSide(row: Row, want: Kind) {
    row.Context? || (row.Removed? && want == Delete) || (row.Added? && want == Insert)
  }

  /** The lines of one side among the rows: old for `Delete`, new for `Insert`, context for `Equal`. */
  function RowLines(rows: seq<Row>, want: Kind): seq<SideLine> {
    if rows == [] then []
    else (if OnSide(rows[0], want) then [rows[0].line] else []) + RowLines(rows[1..], want)
  }

  lemma {:induction false} RowLinesAppend(xs: seq<Row>, ys: seq<Row>)
    ensures forall want :: RowLines(xs + ys, want) == RowLines(xs, want) + RowLines(ys, want)
  {
    if xs == [] {
      assert xs + ys == ys;
    } else {
      assert (xs + ys)[1..] == xs[1..] + ys;
      RowLinesAppend(xs[1..], ys);
    }
  }

  lemma RowLinesSnoc(rows: seq<Row>, row: Row)
    ensures forall want :: RowLines(rows + [row], want) == RowLines(rows, want) + if OnSide(row, want) then [row.line] else []
  {
    RowLinesAppend(rows, [row]);
    assert [row][1..] == [];
    assert forall want :: RowLines([row], want) == if OnSide(row, want) then [row.line] else [];
  }

  /** Within a changed block every removal comes before every addition. */
  ghost predicate RemovalsFirst(rows: seq<Row>) {
    forall i, j | 0 <= i && j == i + 1 < |rows| :: !(rows[i].Added? && rows[j].Removed?)
  }

  ghost predicate AnyChange(rows: seq<Row>) {
    exists i | 0 <= i < |rows| :: rows[i].Removed? || rows[i].Added?
  }

  ghost predicate NoGaps(rows: seq<Row>) {
    forall i | 0 <= i < |rows| :: !rows[i].Gap?
  }

  // ---- Matching ----

  method LineTable(a: seq<SideLine>, b: seq<SideLine>) returns (table: array2<nat>)
    ensures fresh(table) && table.Length0 == |a| + 1 && table.Length1 == |b| + 1
    ensures forall i, j | 0 <= i <= |a| && 0 <= j <= |b| :: table[i, j] == LineLcs(a[i..], b[j..])
  {
    table := FillTable(a, b, Plain);
  }

  lemma LineLcsStep(a: seq<SideLine>, b: seq<SideLine>, i: nat, j: nat)
    requires i <= |a| && j <= |b|
    ensures i == |a| || j == |b| ==> LineLcs(a[i..], b[j..]) == 0
    ensures i < |a| && j < |b| ==>
      LineLcs(a[i..], b[j..]) ==
        if Same(a[i], b[j]) then 1 + LineLcs(a[i + 1..], b[j + 1..])
        else Max(LineLcs(a[i + 1..], b[j..]), LineLcs(a[i..], b[j + 1..]))
  {
    if i < |a| && j < |b| {
      assert a[i..][1..] == a[i + 1..] && b[j..][1..] == b[j + 1..];
      assert Same(a[i], b[j]) <==> Match(a[i], b[j], Plain);
    }
  }

  /** Old line `r` has no counterpart in the best alignments of the lines from (r, j) on that do without it. */
  ghost predicate Spare(a: seq<SideLine>, b: seq<SideLine>, r: nat, j: nat)
    requires r < |a| && j <= |b|
  {
    LineLcs(a[r + 1..], b[j..]) == LineLcs(a[r..], b[j..])
  }

  /**
   From (i, j) old lines are passed while they can be spared and do not stand at new
   line `j` themselves; new lines are passed only to find the first old line that
   cannot be spared, or when no old line is left.
   */
  ghost predicate OldFirst(a: seq<SideLine>, b: seq<SideLine>, i: nat, j: nat, di: nat, dj: nat) {
    && i <= di <= |a| && j <= dj <= |b|
    && (forall r: nat | i <= r < di :: Spare(a, b, r, j) && (j < |b| ==> !Same(a[r], b[j])))
    && (dj > j && di < |a| ==> !Spare(a, b, di, j))
    && (forall s: nat | j <= s < dj && di < |a| :: !Same(a[di], b[s]))
  }

  lemma StillNeeded(a: seq<SideLine>, b: seq<SideLine>, r: nat, j: nat)
    requires r <= |a| && j < |b|
    ensures r < |a| && LineLcs(a[r + 1..], b[j..]) < LineLcs(a[r..], b[j + 1..]) ==> !Spare(a, b, r, j + 1)
  {
    if r < |a| {
      assert b[j..][1..] == b[j + 1..];
      LcsDrop(a[r + 1..], b[j..], Plain);
    }
  }

  /** Where the changed block that starts at (i, j) ends: at the next pair worth keeping, or at the end. */
  method BlockEnd(a: seq<SideLine>, b: seq<SideLine>, table: array2<nat>, i: nat, j: nat) returns (di: nat, dj: nat)
    requires i <= |a| && j <= |b|
    requires table.Length0 == |a| + 1 && table.Length1 == |b| + 1
    requires forall r, s | 0 <= r <= |a| && 0 <= s <= |b| :: table[r, s] == LineLcs(a[r..], b[s..])
    ensures i <= di <= |a| && j <= dj <= |b|
    ensures LineLcs(a[di..], b[dj..]) == LineLcs(a[i..], b[j..])
    ensures (di == |a| && dj == |b|) || (di < |a| && dj < |b| && Same(a[di], b[dj]))
    ensures OldFirst(a, b, i, j, di, dj)
  {
    hide LineLcs;
    di, dj := i, j;
    while di < |a| || dj < |b|
      invariant i <= di <= |a| && j <= dj <= |b|
      invariant OldFirst(a, b, i, j, di, dj) && (dj > j && di < |a| ==> !Spare(a, b, di, dj))
      invariant LineLcs(a[di..], b[dj..]) == LineLcs(a[i..], b[j..])
      decreases |a| - di + |b| - dj
    {
      LineLcsStep(a, b, di, dj);
      if di < |a| && dj < |b| && Same(a[di], b[dj]) && table[di, dj] == table[di + 1, dj + 1] + 1 {
        return;
      }
      if dj >= |b| || (di < |a| && table[di + 1, dj] >= table[di, dj + 1]) {
        LineLcsStep(a, b, di + 1, dj);
        di := di + 1;
      } else {
        LineLcsStep(a, b, di, dj + 1);
        StillNeeded(a, b, di, dj);
        dj := dj + 1;
      }
    }
  }

  method Push(before: seq<Row>, removed: bool, lines: seq<SideLine>) returns (rows: seq<Row>)
    ensures rows == before + Rows(removed, lines)
  {
    rows := before;
    for i := 0 to |lines|
      invariant rows == before + Rows(removed, lines)[..i]
    {
      rows := rows + [if removed then Removed(lines[i]) else Added(lines[i])];
    }
  }

  function Rows(removed: bool, lines: seq<SideLine>): (rows: seq<Row>)
    ensures |rows| == |lines|
  {
    seq(|lines|, i requires 0 <= i < |lines| => if removed then Removed(lines[i]) else Added(lines[i]))
  }

  lemma {:induction false} RowsLines(removed: bool, lines: seq<SideLine>)
    ensures forall want ::
      RowLines(Rows(removed, lines), want) == if want == (if removed then Delete else Insert) then lines else []
  {
    if lines != [] {
      assert Rows(removed, lines)[1..] == Rows(removed, lines[1..]);
      RowsLines(removed, lines[1..]);
    }
  }

  /** A changed block: the old lines, then the new ones. */
  function Block(a: seq<SideLine>, b: seq<SideLine>): seq<Row> {
    Rows(true, a) + Rows(false, b)
  }

  lemma BlockLines(rows: seq<Row>, a: seq<SideLine>, b: seq<SideLine>)
    ensures RowLines(rows + Block(a, b), Delete) == RowLines(rows, Delete) + a
    ensures RowLines(rows + Block(a, b), Insert) == RowLines(rows, Insert) + b
    ensures RowLines(rows + Block(a, b), Equal) == RowLines(rows, Equal)
  {
    RowLinesAppend(rows, Block(a, b));
    RowLinesAppend(Rows(true, a), Rows(false, b));
    RowsLines(true, a);
    RowsLines(false, b);
  }

  /** What the rows built up to (i, j) hold. */
  ghost predicate Matched(a: seq<SideLine>, b: seq<SideLine>, i: nat, j: nat, rows: seq<Row>)
    requires i <= |a| && j <= |b|
  {
    && RowLines(rows, Delete) == a[..i] && RowLines(rows, Insert) == b[..j]
    && (forall l | l in RowLines(rows, Equal) :: Plain(l))
    && NoGaps(rows) && RemovalsFirst(rows)
    && (TableFits(|a|, |b|) ==> |RowLines(rows, Equal)| + LineLcs(a[i..], b[j..]) == LineLcs(a, b))
    && (!TableFits(|a|, |b|) ==> (i == j == 0 && rows == []) || (i == |a| && j == |b| && rows == Block(a, b)))
    && (rows != [] && rows[|rows| - 1].Added? ==>
          (i == |a| && j == |b|) || (TableFits(|a|, |b|) && i < |a| && j < |b| && Same(a[i], b[j])))
  }

  lemma MatchedContext(a: seq<SideLine>, b: seq<SideLine>, i: nat, j: nat, rows: seq<Row>)
    requires i < |a| && j < |b| && Same(a[i], b[j]) && TableFits(|a|, |b|) && Matched(a, b, i, j, rows)
    ensures Matched(a, b, i + 1, j + 1, rows + [Context(a[i])])
  {
    hide LineLcs;
    RowLinesSnoc(rows, Context(a[i]));
    LineLcsStep(a, b, i, j);
    assert a[..i + 1] == a[..i] + [a[i]] && b[..j + 1] == b[..j] + [b[j]];
  }

  lemma BlockOrder(rows: seq<Row>, a: seq<SideLine>, b: seq<SideLine>)
    requires NoGaps(rows) && RemovalsFirst(rows)
    requires rows != [] ==> !rows[|rows| - 1].Added?
    ensures NoGaps(rows + Block(a, b)) && RemovalsFirst(rows + Block(a, b))
  {
  }

  lemma MatchedBlock(a: seq<SideLine>, b: seq<SideLine>, i: nat, j: nat, rows: seq<Row>, di: nat, dj: nat)
    requires i <= di <= |a| && j <= dj <= |b| && (i < di || j < dj) && Matched(a, b, i, j, rows)
    requires rows != [] ==> !rows[|rows| - 1].Added?
    requires if TableFits(|a|, |b|)
             then LineLcs(a[di..], b[dj..]) == LineLcs(a[i..], b[j..]) &&
                  ((di == |a| && dj == |b|) || (di < |a| && dj < |b| && Same(a[di], b[dj])))
             else di == |a| && dj == |b|
    ensures Matched(a, b, di, dj, rows + Block(a[i..di], b[j..dj]))
  {
    hide LineLcs, Block, NoGaps, RemovalsFirst;
    BlockLines(rows, a[i..di], b[j..dj]);
    BlockOrder(rows, a[i..di], b[j..dj]);
    assert a[..di] == a[..i] + a[i..di] && b[..dj] == b[..j] + b[j..dj];
    if !TableFits(|a|, |b|) {
      assert a[0..|a|] == a && b[0..|b|] == b;
    }
  }

  /** The rows before folding. */
  method MatchLines(a: seq<SideLine>, b: seq<SideLine>) returns (full: seq<Row>, anyChange: bool)
    ensures Matched(a, b, |a|, |b|, full)
    ensures anyChange <==> AnyChange(full)
  {
    hide Matched, LineLcs;
    var fits := TableFits(|a|, |b|);
    var table := new nat[0, 0];
    if fits {
      table := LineTable(a, b);
    }
    full, anyChange := [], false;
    var i, j := 0, 0;
    MatchedNothing(a, b);
    while i < |a| || j < |b|
      invariant i <= |a| && j <= |b|
      invariant fits ==> table.Length0 == |a| + 1 && table.Length1 == |b| + 1
      invariant fits ==> forall r, s | 0 <= r <= |a| && 0 <= s <= |b| :: table[r, s] == LineLcs(a[r..], b[s..])
      invariant Matched(a, b, i, j, full)
      invariant anyChange <==> AnyChange(full)
      decreases |a| - i + |b| - j
    {
      if fits && i < |a| && j < |b| && Same(a[i], b[j]) {
        MatchedContext(a, b, i, j, full);
        ChangeSnoc(full, [Context(a[i])]);
        full := full + [Context(a[i])];
        i, j := i + 1, j + 1;
        continue;
      }
      var di, dj := |a|, |b|;
      if fits {
        di, dj := BlockEnd(a, b, table, i, j);
      }
      MatchedLast(a, b, i, j, full);
      MatchedBlock(a, b, i, j, full, di, dj);
      ghost var block := Block(a[i..di], b[j..dj]);
      ChangeSnoc(full, block);
      assert block[0] == if i < di then Removed(a[i]) else Added(b[j]);
      Assoc(full, Rows(true, a[i..di]), Rows(false, b[j..dj]));
      full := Push(full, true, a[i..di]);
      full := Push(full, false, b[j..dj]);
      i, j := di, dj;
      anyChange := true;
    }
  }

  lemma MatchedNothing(a: seq<SideLine>, b: seq<SideLine>)
    ensures Matched(a, b, 0, 0, []) && !AnyChange([])
  {
    assert a[0..] == a && b[0..] == b;
  }

  lemma MatchedLast(a: seq<SideLine>, b: seq<SideLine>, i: nat, j: nat, rows: seq<Row>)
    requires i <= |a| && j <= |b| && Matched(a, b, i, j, rows)
    requires !(TableFits(|a|, |b|) && i < |a| && j < |b| && Same(a[i], b[j]))
    ensures rows != [] && rows[|rows| - 1].Added? ==> i == |a| && j == |b|
  {
  }

  lemma ChangeSnoc(rows: seq<Row>, more: seq<Row>)
    ensures AnyChange(rows + more) <==> AnyChange(rows) || AnyChange(more)
  {
    assert forall i | 0 <= i < |rows| :: (rows + more)[i] == rows[i];
    assert forall i | 0 <= i < |more| :: (rows + more)[|rows| + i] == more[i];
  }

  /** One row in front: kept on both sides if it is context, on one side or none otherwise. */
  lemma CommonCons(row: Row, kept: seq<SideLine>, was: seq<SideLine>, now: seq<SideLine>)
    requires Common(kept, was, now, Plain) && (row.Context? ==> Plain(row.line))
    ensures row.Context? ==> Common([row.line] + kept, [row.line] + was, [row.line] + now, Plain)
    ensures row.Removed? ==> Common(kept, [row.line] + was, now, Plain)
    ensures row.Added? ==> Common(kept, was, [row.line] + now, Plain)
  {
    if !row.Gap? {
      var l := row.line;
      assert ([l] + kept)[1..] == kept && ([l] + was)[1..] == was && ([l] + now)[1..] == now;
      SubseqSkip(kept, was, l);
      SubseqSkip(kept, now, l);
    }
  }

  lemma {:induction false} ContextIsCommon(rows: seq<Row>)
    requires forall l | l in RowLines(rows, Equal) :: Plain(l)
    ensures Common(RowLines(rows, Equal), RowLines(rows, Delete), RowLines(rows, Insert), Plain)
  {
    hide Plain;
    if rows == [] {
    } else {
      hide Common;
      var rest, row := rows[1..], rows[0];
      var kept, was, now := RowLines(rest, Equal), RowLines(rest, Delete), RowLines(rest, Insert);
      assert [] + kept == kept && [] + was == was && [] + now == now;
      assert forall l | l in kept :: l in RowLines(rows, Equal);
      ContextIsCommon(rest);
      assert row.Context? ==> row.line in RowLines(rows, Equal);
      CommonCons(row, kept, was, now);
    }
  }

  /**
   The finished rows spell out both sides in order, and their context is a
   longest common subsequence of the lines whenever the table has at most a million
   cells; past that every old line is removed and every new one added.
   */
  lemma MatchedIsBest(a: seq<SideLine>, b: seq<SideLine>, rows: seq<Row>)
    requires Matched(a, b, |a|, |b|, rows)
    ensures RowLines(rows, Delete) == a && RowLines(rows, Insert) == b
    ensures Common(RowLines(rows, Equal), a, b, Plain)
    ensures (|a| + 1) * (|b| + 1) <= 1_000_000 ==> Longest(RowLines(rows, Equal), a, b, Plain)
    ensures (|a| + 1) * (|b| + 1) > 1_000_000 ==> rows == Block(a, b)
  {
    MatchedAll(a, b, rows);
    ContextIsCommon(rows);
    hide Matched, Common, LineLcs, RowLines;
    if (|a| + 1) * (|b| + 1) <= 1_000_000 {
      assert TableFits(|a|, |b|);
      assert LineLcs(a, b) == LcsLength(a, b, Plain) by { LineLcsIs(a, b); }
      LcsIsLongest(RowLines(rows, Equal), a, b, Plain);
    }
  }

  lemma LineLcsIs(a: seq<SideLine>, b: seq<SideLine>)
    ensures LineLcs(a, b) == LcsLength(a, b, Plain)
  {
  }

  lemma MatchedAll(a: seq<SideLine>, b: seq<SideLine>, rows: seq<Row>)
    requires Matched(a, b, |a|, |b|, rows)
    ensures RowLines(rows, Delete) == a && RowLines(rows, Insert) == b
    ensures forall l | l in RowLines(rows, Equal) :: Plain(l)
    ensures if TableFits(|a|, |b|) then |RowLines(rows, Equal)| == LineLcs(a, b) else rows == [] || rows == Block(a, b)
    ensures !TableFits(|a|, |b|) ==> a != [] || b != []
  {
    assert a[..|a|] == a && b[..|b|] == b;
    LineLcsStep(a, b, |a|, |b|);
    hide LineLcs;
  }
}
