/**
 The word diff: common head and tail, a table for the middle, a greedy walk, and
 the grouping pass that puts deletions first and folds white space into changes.
 */
module WordDiff {
  import opened Text
  import opened Tokenizer
  import opened Lcs

  datatype Kind = Equal | Delete | Insert

  /** One token's verdict, or one grouped stretch of text. */
  datatype Op = Op(kind: Kind, text: string)

  /** The largest middle compared word by word, in table cells. */
  const MAX_CELLS := 1_000_000

  /** What one side keeps: `Delete` the old texts, `Insert` the new, `Equal` the common ones. */
  function Side(ops: seq<Op>, want: Kind): seq<string> {
    if ops == [] then []
    else (if Shows(ops[0], want) then [ops[0].text] else []) + Side(ops[1..], want)
  }

  function SideText(ops: seq<Op>, want: Kind): string {
    Concat(Side(ops, want))
  }

  lemma {:induction false} SideAppend(xs: seq<Op>, ys: seq<Op>)
    ensures forall want :: Side(xs + ys, want) == Side(xs, want) + Side(ys, want)
  {
    if xs == [] {
      assert xs + ys == ys;
    } else {
      assert (xs + ys)[1..] == xs[1..] + ys;
      SideAppend(xs[1..], ys);
    }
  }

  lemma SideTextAppend(xs: seq<Op>, ys: seq<Op>)
    ensures forall want :: SideText(xs + ys, want) == SideText(xs, want) + SideText(ys, want)
  {
    SideAppend(xs, ys);
    forall want ensures SideText(xs + ys, want) == SideText(xs, want) + SideText(ys, want) {
      ConcatAppend(Side(xs, want), Side(ys, want));
    }
  }

  predicate Shows(op: Op, want: Kind) {
    op.kind == Equal || op.kind == want
  }

  lemma SideSnoc(xs: seq<Op>, op: Op)
    ensures forall want :: Side(xs + [op], want) == Side(xs, want) + if Shows(op, want) then [op.text] else []
    ensures forall want :: SideText(xs + [op], want) == SideText(xs, want) + if Shows(op, want) then op.text else ""
  {
    SideAppend(xs, [op]);
    SideTextAppend(xs, [op]);
    assert [op][1..] == [] && [op.text][1..] == [];
    assert Concat([op.text]) == op.text;
    assert forall want :: Side([op], want) == if Shows(op, want) then [op.text] else [];
  }

  // ---- The raw verdicts ----

  function Always(token: string): bool {
    true
  }

  function All(kind: Kind, tokens: seq<string>): (ops: seq<Op>)
    ensures |ops| == |tokens|
  {
    seq(|tokens|, i requires 0 <= i < |tokens| => Op(kind, tokens[i]))
  }

  /** How many tokens the two sides start with alike. */
  function HeadLength(a: seq<string>, b: seq<string>): (h: nat)
    ensures h <= |a| && h <= |b|
  {
    if a == [] || b == [] || a[0] != b[0] then 0 else 1 + HeadLength(a[1..], b[1..])
  }

  /** How many tokens the two sides end with alike. */
  function TailLength(a: seq<string>, b: seq<string>): (t: nat)
    ensures t <= |a| && t <= |b|
  {
    if a == [] || b == [] || a[|a| - 1] != b[|b| - 1] then 0 else 1 + TailLength(a[..|a| - 1], b[..|b| - 1])
  }

  lemma {:induction false} HeadIsCommon(a: seq<string>, b: seq<string>)
    ensures a[..HeadLength(a, b)] == b[..HeadLength(a, b)]
  {
    if a != [] && b != [] && a[0] == b[0] {
      var h := HeadLength(a[1..], b[1..]);
      HeadIsCommon(a[1..], b[1..]);
      assert a[..h + 1] == [a[0]] + a[1..][..h] && b[..h + 1] == [b[0]] + b[1..][..h];
    }
  }

  lemma {:induction false} TailIsCommon(a: seq<string>, b: seq<string>)
    ensures a[|a| - TailLength(a, b)..] == b[|b| - TailLength(a, b)..]
  {
    if a != [] && b != [] && a[|a| - 1] == b[|b| - 1] {
      var x, y := a[..|a| - 1], b[..|b| - 1];
      var t := TailLength(x, y);
      TailIsCommon(x, y);
      assert a[|a| - 1 - t..] == x[|x| - t..] + [a[|a| - 1]];
      assert b[|b| - 1 - t..] == y[|y| - t..] + [b[|b| - 1]];
    }
  }

  /** How many tokens two token sequences have in common at best. */
  function TokenLcs(a: seq<string>, b: seq<string>): nat {
    LcsLength(a, b, Always)
  }

  /** The greedy walk: an equal pair is kept, otherwise the better neighbour wins and a tie deletes. */
  function Walk(a: seq<string>, b: seq<string>): seq<Op>
    decreases |a| + |b|
  {
    if a == [] then All(Insert, b)
    else if b == [] then All(Delete, a)
    else if a[0] == b[0] then [Op(Equal, a[0])] + Walk(a[1..], b[1..])
    else if TokenLcs(a[1..], b) >= TokenLcs(a, b[1..]) then [Op(Delete, a[0])] + Walk(a[1..], b)
    else [Op(Insert, b[0])] + Walk(a, b[1..])
  }

  predicate Fits(n: nat, m: nat) {
    n > 0 && m > 0 && (n + 1) * (m + 1) <= MAX_CELLS
  }

  function Middle(a: seq<string>, b: seq<string>): seq<Op> {
    if Fits(|a|, |b|) then Walk(a, b) else All(Delete, a) + All(Insert, b)
  }

  /** Two token sequences as a common head, what differs, and a common tail. */
  datatype Trim = Trim(head: seq<string>, a: seq<string>, b: seq<string>, tail: seq<string>)

  function CutAt(a: seq<string>, b: seq<string>, h: nat, t: nat): Trim
    requires h + t <= |a| && h + t <= |b|
  {
    Trim(a[..h], a[h..|a| - t], b[h..|b| - t], a[|a| - t..])
  }

  /** How many tokens the two sides end with alike behind their first `h`. */
  function TailAfter(a: seq<string>, b: seq<string>, h: nat): (t: nat)
    requires h <= |a| && h <= |b|
    ensures h + t <= |a| && h + t <= |b|
  {
    TailLength(a[h..], b[h..])
  }

  function Trimmed(a: seq<string>, b: seq<string>): Trim {
    var h := HeadLength(a, b);
    CutAt(a, b, h, TailAfter(a, b, h))
  }

  /** Two sides with `h` tokens in common at the start and `t` others in common at the end. */
  ghost predicate SameEnds(a: seq<string>, b: seq<string>, h: nat, t: nat) {
    h + t <= |a| && h + t <= |b| && a[..h] == b[..h] && a[|a| - t..] == b[|b| - t..]
  }

  /** `h` is the longest common head, and `t` the longest common tail behind it. */
  ghost predicate WholeEnds(a: seq<string>, b: seq<string>, h: nat, t: nat) {
    && SameEnds(a, b, h, t)
    && (h < |a| && h < |b| ==> a[h] != b[h])
    && (h + t < |a| && h + t < |b| ==> a[|a| - 1 - t] != b[|b| - 1 - t])
  }

  lemma {:induction false} HeadStops(a: seq<string>, b: seq<string>)
    ensures var h := HeadLength(a, b); h < |a| && h < |b| ==> a[h] != b[h]
  {
    if a != [] && b != [] && a[0] == b[0] {
      HeadStops(a[1..], b[1..]);
    }
  }

  lemma {:induction false} TailStops(a: seq<string>, b: seq<string>)
    ensures var t := TailLength(a, b); t < |a| && t < |b| ==> a[|a| - 1 - t] != b[|b| - 1 - t]
  {
    if a != [] && b != [] && a[|a| - 1] == b[|b| - 1] {
      TailStops(a[..|a| - 1], b[..|b| - 1]);
    }
  }

  /** Where the trimming cuts: behind the longest common head, and before the longest common tail of the rest. */
  lemma TrimmedAt(a: seq<string>, b: seq<string>) returns (h: nat, t: nat)
    ensures WholeEnds(a, b, h, t) && Trimmed(a, b) == CutAt(a, b, h, t)
  {
    h := HeadLength(a, b);
    HeadIsCommon(a, b);
    HeadStops(a, b);
    hide HeadLength;
    t := TailAfter(a, b, h);
    TailAfterIsWhole(a, b, h);
    hide TailAfter;
  }

  lemma TailAfterIsWhole(a: seq<string>, b: seq<string>, h: nat)
    requires h <= |a| && h <= |b|
    ensures var t := TailAfter(a, b, h);
            && a[|a| - t..] == b[|b| - t..]
            && (h + t < |a| && h + t < |b| ==> a[|a| - 1 - t] != b[|b| - 1 - t])
  {
    var x, y := a[h..], b[h..];
    TailIsCommon(x, y);
    TailStops(x, y);
    hide TailLength;
    BehindHead(a, b, h, TailLength(x, y));
  }

  lemma BehindHead(a: seq<string>, b: seq<string>, h: nat, t: nat)
    requires h + t <= |a| && h + t <= |b| && a[h..][|a| - h - t..] == b[h..][|b| - h - t..]
    requires h + t < |a| && h + t < |b| ==> a[h..][|a| - h - 1 - t] != b[h..][|b| - h - 1 - t]
    ensures a[|a| - t..] == b[|b| - t..]
    ensures h + t < |a| && h + t < |b| ==> a[|a| - 1 - t] != b[|b| - 1 - t]
  {
    EndOfRest(a, h, t);
    EndOfRest(b, h, t);
  }

  lemma EndOfRest(a: seq<string>, head: nat, t: nat)
    requires head + t <= |a|
    ensures a[head..][|a| - head - t..] == a[|a| - t..]
  {
  }

  lemma CutParts(a: seq<string>, b: seq<string>, h: nat, t: nat)
    requires SameEnds(a, b, h, t)
    ensures var c := CutAt(a, b, h, t); a == c.head + (c.a + c.tail) && b == c.head + (c.b + c.tail)
  {
  }

  lemma TrimmedParts(a: seq<string>, b: seq<string>)
    ensures var c := Trimmed(a, b); a == c.head + (c.a + c.tail) && b == c.head + (c.b + c.tail)
  {
    var h, t := TrimmedAt(a, b);
    CutParts(a, b, h, t);
  }

  /** Everything the diff knows before grouping. */
  function Raw(a: seq<string>, b: seq<string>): seq<Op> {
    var t := Trimmed(a, b);
    All(Equal, t.head) + (Middle(t.a, t.b) + All(Equal, t.tail))
  }

  method HeadOf(a: seq<string>, b: seq<string>) returns (head: nat)
    ensures head == HeadLength(a, b)
  {
    head := 0;
    while head < |a| && head < |b| && a[head] == b[head]
      invariant head <= |a| && head <= |b|
      invariant HeadLength(a, b) == head + HeadLength(a[head..], b[head..])
    {
      assert a[head..][1..] == a[head + 1..] && b[head..][1..] == b[head + 1..];
      head := head + 1;
    }
  }

  /** One more token off the end of both sides. */
  lemma TailStep(a: seq<string>, b: seq<string>, head: nat, tail: nat)
    requires head + tail < |a| && head + tail < |b| && a[|a| - 1 - tail] == b[|b| - 1 - tail]
    ensures TailLength(a[head..|a| - tail], b[head..|b| - tail])
         == 1 + TailLength(a[head..|a| - tail - 1], b[head..|b| - tail - 1])
  {
    var x, y := a[head..|a| - tail], b[head..|b| - tail];
    assert x[..|x| - 1] == a[head..|a| - tail - 1] && y[..|y| - 1] == b[head..|b| - tail - 1];
  }

  lemma TailEnd(a: seq<string>, b: seq<string>, head: nat, tail: nat)
    requires head + tail <= |a| && head + tail <= |b|
    requires head + tail < |a| && head + tail < |b| ==> a[|a| - 1 - tail] != b[|b| - 1 - tail]
    ensures TailLength(a[head..|a| - tail], b[head..|b| - tail]) == 0
  {
  }

  method TailOf(a: seq<string>, b: seq<string>, head: nat) returns (tail: nat)
    requires head <= |a| && head <= |b|
    ensures tail == TailAfter(a, b, head)
  {
    hide TailLength;
    tail := 0;
    assert a[head..|a|] == a[head..] && b[head..|b|] == b[head..];
    while tail < |a| - head && tail < |b| - head && a[|a| - 1 - tail] == b[|b| - 1 - tail]
      invariant tail <= |a| - head && tail <= |b| - head
      invariant TailLength(a[head..], b[head..]) == tail + TailLength(a[head..|a| - tail], b[head..|b| - tail])
    {
      TailStep(a, b, head, tail);
      tail := tail + 1;
    }
    TailEnd(a, b, head, tail);
  }

  /** What is left of the walk at cell (i, j). */
  ghost function WalkFrom(a: seq<string>, b: seq<string>, i: nat, j: nat): seq<Op>
    requires i <= |a| && j <= |b|
  {
    Walk(a[i..], b[j..])
  }

  lemma WalkStep(a: seq<string>, b: seq<string>, i: nat, j: nat)
    requires i < |a| && j < |b|
    ensures WalkFrom(a, b, i, j) ==
      if a[i] == b[j] then [Op(Equal, a[i])] + WalkFrom(a, b, i + 1, j + 1)
      else if TokenLcs(a[i + 1..], b[j..]) >= TokenLcs(a[i..], b[j + 1..])
      then [Op(Delete, a[i])] + WalkFrom(a, b, i + 1, j)
      else [Op(Insert, b[j])] + WalkFrom(a, b, i, j + 1)
  {
    hide TokenLcs;
    assert a[i..][1..] == a[i + 1..] && b[j..][1..] == b[j + 1..];
  }

  lemma WalkEnds(a: seq<string>, b: seq<string>, i: nat, j: nat)
    requires i <= |a| && j <= |b|
    ensures i == |a| || j == |b| ==> WalkFrom(a, b, i, j) == All(Delete, a[i..]) + All(Insert, b[j..])
    ensures WalkFrom(a, b, 0, 0) == Walk(a, b)
  {
    assert All(Delete, []) == [] && All(Insert, []) == [];
    assert a[0..] == a && b[0..] == b;
  }

  method TokenTable(a: seq<string>, b: seq<string>) returns (table: array2<nat>)
    ensures table.Length0 == |a| + 1 && table.Length1 == |b| + 1
    ensures forall i, j | 0 <= i <= |a| && 0 <= j <= |b| :: table[i, j] == TokenLcs(a[i..], b[j..])
  {
    table := FillTable(a, b, Always);
  }

  method WalkTable(a: seq<string>, b: seq<string>) returns (raw: seq<Op>)
    ensures raw == Walk(a, b)
  {
    hide WalkFrom, TokenLcs, All;
    var table := TokenTable(a, b);
    raw := [];
    WalkEnds(a, b, 0, 0);
    var i, j := 0, 0;
    while i < |a| && j < |b|
      invariant i <= |a| && j <= |b|
      invariant raw + WalkFrom(a, b, i, j) == WalkFrom(a, b, 0, 0)
      invariant forall r, s | 0 <= r <= |a| && 0 <= s <= |b| :: table[r, s] == TokenLcs(a[r..], b[s..])
      decreases |a| - i + |b| - j
    {
      WalkStep(a, b, i, j);
      if a[i] == b[j] {
        Assoc(raw, [Op(Equal, a[i])], WalkFrom(a, b, i + 1, j + 1));
        raw := raw + [Op(Equal, a[i])];
        i, j := i + 1, j + 1;
      } else if table[i + 1, j] >= table[i, j + 1] {
        Assoc(raw, [Op(Delete, a[i])], WalkFrom(a, b, i + 1, j));
        raw := raw + [Op(Delete, a[i])];
        i := i + 1;
      } else {
        Assoc(raw, [Op(Insert, b[j])], WalkFrom(a, b, i, j + 1));
        raw := raw + [Op(Insert, b[j])];
        j := j + 1;
      }
    }
    WalkEnds(a, b, i, j);
    Assoc(raw, All(Delete, a[i..]), All(Insert, b[j..]));
    raw := PushAll(raw, Delete, a[i..]);
    raw := PushAll(raw, Insert, b[j..]);
  }

  method PushAll(before: seq<Op>, kind: Kind, tokens: seq<string>) returns (raw: seq<Op>)
    ensures raw == before + All(kind, tokens)
  {
    raw := before;
    for i := 0 to |tokens|
      invariant raw == before + All(kind, tokens)[..i]
    {
      raw := raw + [Op(kind, tokens[i])];
    }
  }

  method RawDiff(a: seq<string>, b: seq<string>) returns (raw: seq<Op>)
    ensures raw == Raw(a, b)
  {
    var head := HeadOf(a, b);
    var tail := TailOf(a, b, head);
    hide Middle, All;
    var c := CutAt(a, b, head, tail);
    Assoc(All(Equal, c.head), Middle(c.a, c.b), All(Equal, c.tail));
    raw := PushAll([], Equal, c.head);
    raw := MiddleOf(raw, c.a, c.b);
    raw := PushAll(raw, Equal, c.tail);
  }

  method MiddleOf(before: seq<Op>, a: seq<string>, b: seq<string>) returns (raw: seq<Op>)
    ensures raw == before + Middle(a, b)
  {
    if Fits(|a|, |b|) {
      var walked := WalkTable(a, b);
      raw := before + walked;
    } else {
      raw := PushAll(before, Delete, a);
      raw := PushAll(raw, Insert, b);
    }
  }

  // ---- What the raw verdicts are worth ----

  lemma {:induction false} SideOfAll(kind: Kind, tokens: seq<string>)
    ensures forall want :: Side(All(kind, tokens), want) == if kind == Equal || kind == want then tokens else []
  {
    if tokens != [] {
      assert All(kind, tokens)[1..] == All(kind, tokens[1..]);
      SideOfAll(kind, tokens[1..]);
    }
  }

  lemma {:induction false} WalkSides(a: seq<string>, b: seq<string>)
    ensures Side(Walk(a, b), Delete) == a && Side(Walk(a, b), Insert) == b
    ensures |Side(Walk(a, b), Equal)| == TokenLcs(a, b)
    decreases |a| + |b|
  {
    if a == [] || b == [] {
      SideOfAll(Delete, a);
      SideOfAll(Insert, b);
    } else if a[0] == b[0] {
      WalkSides(a[1..], b[1..]);
      assert [a[0]] + a[1..] == a && [b[0]] + b[1..] == b;
    } else if TokenLcs(a[1..], b) >= TokenLcs(a, b[1..]) {
      WalkSides(a[1..], b);
    } else {
      WalkSides(a, b[1..]);
    }
  }

  lemma MiddleSides(a: seq<string>, b: seq<string>)
    ensures Side(Middle(a, b), Delete) == a && Side(Middle(a, b), Insert) == b
    ensures a == [] || b == [] || Fits(|a|, |b|) ==> |Side(Middle(a, b), Equal)| == TokenLcs(a, b)
  {
    if Fits(|a|, |b|) {
      WalkSides(a, b);
    } else {
      SideAppend(All(Delete, a), All(Insert, b));
      SideOfAll(Delete, a);
      SideOfAll(Insert, b);
    }
  }

  /** The three parts of the raw diff, side by side. */
  lemma RawParts(a: seq<string>, b: seq<string>)
    ensures var t := Trimmed(a, b);
            forall want :: Side(Raw(a, b), want) == t.head + (Side(Middle(t.a, t.b), want) + t.tail)
  {
    var t := Trimmed(a, b);
    SideAppend(All(Equal, t.head), Middle(t.a, t.b) + All(Equal, t.tail));
    SideAppend(Middle(t.a, t.b), All(Equal, t.tail));
    SideOfAll(Equal, t.head);
    SideOfAll(Equal, t.tail);
  }

  /** Whatever path is taken, both sides are still there, token by token. */
  lemma RawSides(a: seq<string>, b: seq<string>)
    ensures Side(Raw(a, b), Delete) == a && Side(Raw(a, b), Insert) == b
  {
    var t := Trimmed(a, b);
    TrimmedParts(a, b);
    MiddleSides(t.a, t.b);
    RawParts(a, b);
  }

  lemma {:induction false} KeptIsCommon(ops: seq<Op>)
    ensures Common(Side(ops, Equal), Side(ops, Delete), Side(ops, Insert), Always)
  {
    if ops != [] {
      KeptIsCommon(ops[1..]);
      var kept, before, after := Side(ops[1..], Equal), Side(ops[1..], Delete), Side(ops[1..], Insert);
      match ops[0].kind
      case Equal =>
        assert ([ops[0].text] + kept)[1..] == kept && ([ops[0].text] + before)[1..] == before;
        assert ([ops[0].text] + after)[1..] == after;
      case Delete =>
        SubseqSkip(kept, before, ops[0].text);
        assert [] + kept == kept && [] + after == after;
      case Insert =>
        SubseqSkip(kept, after, ops[0].text);
        assert [] + kept == kept && [] + before == before;
    }
  }

  /** What differs between the ends is on one side only, or small enough for the table. */
  ghost predicate Near(a: seq<string>, b: seq<string>, h: nat, t: nat) {
    && SameEnds(a, b, h, t)
    && (h + t == |a| || h + t == |b| || (|a| - h - t + 1) * (|b| - h - t + 1) <= MAX_CELLS)
  }

  /** Some common ends leave little enough between them. */
  ghost predicate Compared(a: seq<string>, b: seq<string>) {
    exists h: nat, t: nat :: Near(a, b, h, t)
  }

  lemma CellsShrink(n: nat, m: nat, n': nat, m': nat)
    requires n' <= n && m' <= m
    ensures (n' + 1) * (m' + 1) <= (n + 1) * (m + 1)
  {
  }

  /** Whole ends leave no more between them than any others, or nothing on a side. */
  lemma WholeEndsAreMost(a: seq<string>, b: seq<string>, h: nat, t: nat, h': nat, t': nat)
    requires WholeEnds(a, b, h, t) && SameEnds(a, b, h', t')
    ensures h + t == |a| || h + t == |b| || h + t >= h' + t'
  {
    assert forall k | 0 <= k < h' :: a[..h'][k] == b[..h'][k];
    if t < t' {
      assert a[|a| - t'..][t' - 1 - t] == b[|b| - t'..][t' - 1 - t];
    }
  }

  /** So the trimming leaves little enough whenever some ends do. */
  lemma ComparedMeansFits(a: seq<string>, b: seq<string>, h: nat, t: nat)
    requires WholeEnds(a, b, h, t)
    ensures Compared(a, b) <==> h + t == |a| || h + t == |b| || Fits(|a| - h - t, |b| - h - t)
  {
    if Compared(a, b) {
      var h': nat, t': nat :| Near(a, b, h', t');
      WholeEndsAreMost(a, b, h, t, h', t');
      if h + t < |a| && h + t < |b| {
        CellsShrink(|a| - h' - t', |b| - h' - t', |a| - h - t, |b| - h - t);
      }
    } else {
      assert !Near(a, b, h, t);
    }
  }

  lemma ComparedFits(a: seq<string>, b: seq<string>)
    requires Compared(a, b)
    ensures var c := Trimmed(a, b); c.a == [] || c.b == [] || Fits(|c.a|, |c.b|)
  {
    var h, t := TrimmedAt(a, b);
    ComparedMeansFits(a, b, h, t);
    hide Trimmed, Compared, Fits;
  }

  /** Trimming loses nothing. */
  lemma TrimmedLcs(a: seq<string>, b: seq<string>)
    ensures var c := Trimmed(a, b); TokenLcs(a, b) == |c.head| + TokenLcs(c.a, c.b) + |c.tail|
  {
    TrimmedParts(a, b);
    hide Trimmed;
    var c := Trimmed(a, b);
    LcsHead(c.head, c.a + c.tail, c.b + c.tail, Always);
    LcsTail(c.a, c.b, c.tail, Always);
  }

  lemma RawLength(a: seq<string>, b: seq<string>)
    requires Compared(a, b)
    ensures |Side(Raw(a, b), Equal)| == TokenLcs(a, b)
  {
    ComparedFits(a, b);
    TrimmedLcs(a, b);
    RawParts(a, b);
    hide Trimmed, Compared, Raw, Middle, Fits, TokenLcs;
    var c := Trimmed(a, b);
    MiddleSides(c.a, c.b);
  }

  /**
   The tokens kept are a common subsequence. They are a longest one of the two whole
   texts whenever some common ends leave little enough between them, whichever ends
   those are: trimming loses nothing and leaves no more than it must, the table is
   right and the greedy walk attains it.
   */
  lemma RawIsLongest(a: seq<string>, b: seq<string>)
    ensures Common(Side(Raw(a, b), Equal), a, b, Always)
    ensures Compared(a, b) ==> Longest(Side(Raw(a, b), Equal), a, b, Always)
  {
    RawSides(a, b);
    KeptIsCommon(Raw(a, b));
    if Compared(a, b) {
      RawLength(a, b);
      LcsIsLongest(Side(Raw(a, b), Equal), a, b, Always);
    }
  }

  /**
   Otherwise one replacement stands between the longest common head and the longest
   common tail of the rest, and nothing else is kept.
   */
  lemma RawReplaces(a: seq<string>, b: seq<string>) returns (h: nat, t: nat)
    requires !Compared(a, b)
    ensures WholeEnds(a, b, h, t)
    ensures Raw(a, b) == All(Equal, a[..h]) + ((All(Delete, a[h..|a| - t]) + All(Insert, b[h..|b| - t])) +
                                               All(Equal, a[|a| - t..]))
  {
    h, t := TrimmedAt(a, b);
    ComparedMeansFits(a, b, h, t);
    hide WholeEnds, Fits, Middle, All, Trimmed, Compared;
    MiddleReplaces(a[h..|a| - t], b[h..|b| - t]);
  }

  lemma MiddleReplaces(a: seq<string>, b: seq<string>)
    requires !Fits(|a|, |b|)
    ensures Middle(a, b) == All(Delete, a) + All(Insert, b)
  {
  }

  lemma ReplacedSide(x: seq<string>, deleted: seq<string>, inserted: seq<string>, y: seq<string>)
    ensures Side(All(Equal, x) + ((All(Delete, deleted) + All(Insert, inserted)) + All(Equal, y)), Equal) == x + y
  {
    SideAppend(All(Equal, x), (All(Delete, deleted) + All(Insert, inserted)) + All(Equal, y));
    SideAppend(All(Delete, deleted) + All(Insert, inserted), All(Equal, y));
    SideAppend(All(Delete, deleted), All(Insert, inserted));
    SideOfAll(Delete, deleted);
    SideOfAll(Insert, inserted);
    SideOfAll(Equal, x);
    SideOfAll(Equal, y);
  }

  lemma RawKeepsEnds(a: seq<string>, b: seq<string>)
    requires !Compared(a, b)
    ensures exists h: nat, t: nat | WholeEnds(a, b, h, t) :: Side(Raw(a, b), Equal) == a[..h] + a[|a| - t..]
  {
    var h, t := RawReplaces(a, b);
    hide Raw, All, Side;
    ReplacedSide(a[..h], a[h..|a| - t], b[h..|b| - t], a[|a| - t..]);
    assert WholeEnds(a, b, h, t);
  }

  // ---- Deletions come first ----

  /** No insertion right before a deletion. */
  ghost predicate DeletesFirst(ops: seq<Op>) {
    forall i, j | 0 <= i < |ops| - 1 && j == i + 1 :: !(ops[i].kind == Insert && ops[j].kind == Delete)
  }

  /**
   An old token that every best alignment needs is not deleted first, so the walk
   inserts until it is met: what is deleted between two kept tokens comes first.
   */
  lemma {:induction false} WalkDeletesFirst(a: seq<string>, b: seq<string>)
    ensures DeletesFirst(Walk(a, b))
    ensures a != [] && TokenLcs(a[1..], b) < TokenLcs(a, b) ==> Walk(a, b) != [] && Walk(a, b)[0].kind != Delete
    decreases |a| + |b|
  {
    if a != [] && b != [] {
      if a[0] == b[0] {
        WalkDeletesFirst(a[1..], b[1..]);
      } else if TokenLcs(a[1..], b) >= TokenLcs(a, b[1..]) {
        WalkDeletesFirst(a[1..], b);
      } else {
        WalkDeletesFirst(a, b[1..]);
        LcsDrop(a[1..], b, Always);
      }
    }
  }

  lemma DeletesFirstAround(x: seq<Op>, y: seq<Op>, z: seq<Op>)
    requires DeletesFirst(x) && DeletesFirst(y) && DeletesFirst(z)
    requires (x != [] ==> x[|x| - 1].kind == Equal) && (z != [] ==> z[0].kind == Equal)
    ensures DeletesFirst(x + (y + z))
  {
    forall i, j | 0 <= i < |x + (y + z)| - 1 && j == i + 1
      ensures !((x + (y + z))[i].kind == Insert && (x + (y + z))[j].kind == Delete)
    {
      if j < |x| {
        assert !(x[i].kind == Insert && x[j].kind == Delete);
      } else if |x| <= i && j < |x| + |y| {
        assert !(y[i - |x|].kind == Insert && y[j - |x|].kind == Delete);
      } else if |x| + |y| <= i {
        assert !(z[i - |x| - |y|].kind == Insert && z[j - |x| - |y|].kind == Delete);
      }
    }
  }

  /** Of neighbouring changes the deletions come before the insertions. */
  lemma RawDeletesFirst(a: seq<string>, b: seq<string>)
    ensures DeletesFirst(Raw(a, b))
  {
    hide Walk;
    var c := Trimmed(a, b);
    WalkDeletesFirst(c.a, c.b);
    DeletesFirstAround(All(Equal, c.head), Middle(c.a, c.b), All(Equal, c.tail));
  }

  // ---- Grouping ----

  predicate AllSpace(u: Unicode, text: string) {
    forall c | c in text :: u.isSpace(c)
  }

  /** An all-space token kept between two changes, which joins both sides of the change. */
  predicate Folded(u: Unicode, raw: seq<Op>, i: nat)
    requires i < |raw|
  {
    && raw[i].kind == Equal && AllSpace(u, raw[i].text)
    && 0 < i < |raw| - 1 && raw[i - 1].kind != Equal && raw[i + 1].kind != Equal
  }

  /** The first `n` verdicts, with the folded tokens turned into changes. */
  ghost function Refold(u: Unicode, raw: seq<Op>, n: nat): seq<Op>
    requires n <= |raw|
  {
    if n == 0 then []
    else
      var t := raw[n - 1].text;
      Refold(u, raw, n - 1) + (if Folded(u, raw, n - 1) then [Op(Delete, t), Op(Insert, t)] else [raw[n - 1]])
  }

  ghost function Diagonal(len: nat, o: nat, n: nat): seq<(nat, nat)> {
    if len == 0 then [] else Diagonal(len - 1, o, n) + [(o + len - 1, n + len - 1)]
  }

  /** Which character of the old text is shown as the same as which of the new one. */
  ghost function Align(ops: seq<Op>): seq<(nat, nat)> {
    if ops == [] then []
    else
      var rest, op := ops[..|ops| - 1], ops[|ops| - 1];
      Align(rest) +
      if op.kind == Equal then Diagonal(|op.text|, |SideText(rest, Delete)|, |SideText(rest, Insert)|) else []
  }

  /** No empty op, no two of one kind in a row, no insertion right before a deletion. */
  ghost predicate NormalForm(ops: seq<Op>) {
    && (forall i | 0 <= i < |ops| :: ops[i].text != "")
    && (forall i | 0 <= i < |ops| - 1 ::
          ops[i].kind != ops[i + 1].kind && !(ops[i].kind == Insert && ops[i + 1].kind == Delete))
  }

  /** No kept white space with a change on both sides. */
  ghost predicate NoStrandedSpace(u: Unicode, ops: seq<Op>) {
    forall i | 0 < i < |ops| - 1 && ops[i].kind == Equal :: !AllSpace(u, ops[i].text)
  }

  /** No two kept tokens in a row are both white space, as runs are maximal. */
  ghost predicate NoSpacePairs(u: Unicode, raw: seq<Op>) {
    forall i | 0 <= i < |raw| - 1 && raw[i].kind == raw[i + 1].kind == Equal ::
      !AllSpace(u, raw[i].text) || !AllSpace(u, raw[i + 1].text)
  }

  lemma {:induction false} DiagonalSplit(x: nat, y: nat, o: nat, n: nat)
    ensures Diagonal(x + y, o, n) == Diagonal(x, o, n) + Diagonal(y, o + x, n + x)
  {
    if y > 0 {
      DiagonalSplit(x, y - 1, o, n);
    }
  }

  lemma {:induction false} RefoldSides(u: Unicode, raw: seq<Op>, n: nat)
    requires n <= |raw|
    ensures SideText(Refold(u, raw, n), Delete) == SideText(raw[..n], Delete)
    ensures SideText(Refold(u, raw, n), Insert) == SideText(raw[..n], Insert)
  {
    if n > 0 {
      RefoldSides(u, raw, n - 1);
      assert raw[..n] == raw[..n - 1] + [raw[n - 1]];
      var r, t := Refold(u, raw, n - 1), raw[n - 1].text;
      SideSnoc(raw[..n - 1], raw[n - 1]);
      SideSnoc(r, raw[n - 1]);
      SideSnoc(r, Op(Delete, t));
      SideSnoc(r + [Op(Delete, t)], Op(Insert, t));
      assert r + [Op(Delete, t), Op(Insert, t)] == r + [Op(Delete, t)] + [Op(Insert, t)];
    }
  }

  lemma RefoldAlign(u: Unicode, raw: seq<Op>, n: nat)
    requires n < |raw|
    ensures Align(Refold(u, raw, n + 1)) == Align(Refold(u, raw, n)) +
      if raw[n].kind == Equal && !Folded(u, raw, n)
      then Diagonal(|raw[n].text|, |SideText(raw[..n], Delete)|, |SideText(raw[..n], Insert)|) else []
  {
    var r, t := Refold(u, raw, n), raw[n].text;
    RefoldSides(u, raw, n);
    assert r + [Op(Delete, t), Op(Insert, t)] == r + [Op(Delete, t)] + [Op(Insert, t)];
  }

  /** The grouping pass's buffers: closed ops, and the open texts of each kind. */
  datatype Buffers = Buffers(out: seq<Op>, eq: string, del: string, ins: string)

  function Closed(ops: seq<Op>, kind: Kind, text: string): seq<Op> {
    if text == "" then ops else ops + [Op(kind, text)]
  }

  /** The open change closed, deletions first. */
  function Flushed(b: Buffers): seq<Op> {
    Closed(Closed(b.out, Delete, b.del), Insert, b.ins)
  }

  /** One verdict into the buffers. */
  function Step(u: Unicode, raw: seq<Op>, i: nat, b: Buffers): Buffers
    requires i < |raw|
  {
    var t := raw[i].text;
    if raw[i].kind == Delete then Buffers(Closed(b.out, Equal, b.eq), "", b.del + t, b.ins)
    else if raw[i].kind == Insert then Buffers(Closed(b.out, Equal, b.eq), "", b.del, b.ins + t)
    else if (b.del != "" || b.ins != "") && AllSpace(u, t) && i + 1 < |raw| && raw[i + 1].kind != Equal then
      Buffers(b.out, b.eq, b.del + t, b.ins + t)
    else
      Buffers(Flushed(b), b.eq + t, "", "")
  }

  function Buffered(u: Unicode, raw: seq<Op>, n: nat): Buffers
    requires n <= |raw|
  {
    if n == 0 then Buffers([], "", "", "") else Step(u, raw, n - 1, Buffered(u, raw, n - 1))
  }

  function Grouped(u: Unicode, raw: seq<Op>): seq<Op> {
    var b := Buffered(u, raw, |raw|);
    Closed(Closed(Closed(b.out, Equal, b.eq), Delete, b.del), Insert, b.ins)
  }

  method Take(ops: seq<Op>, kind: Kind, text: string) returns (out: seq<Op>)
    ensures out == Closed(ops, kind, text)
  {
    out := ops;
    if text != "" {
      out := out + [Op(kind, text)];
    }
  }

  method Group(u: Unicode, raw: seq<Op>) returns (out: seq<Op>)
    ensures out == Grouped(u, raw)
  {
    out := [];
    var eq, del, ins := "", "", "";
    var i := 0;
    while i < |raw|
      invariant i <= |raw|
      invariant Buffers(out, eq, del, ins) == Buffered(u, raw, i)
    {
      var op := raw[i];
      if op.kind != Equal {
        out := Take(out, Equal, eq);
        eq := "";
        if op.kind == Delete {
          del := del + op.text;
        } else {
          ins := ins + op.text;
        }
      } else if (del != "" || ins != "") && AllSpace(u, op.text) && i + 1 < |raw| && raw[i + 1].kind != Equal {
        del, ins := del + op.text, ins + op.text;
      } else {
        out := Take(out, Delete, del);
        out := Take(out, Insert, ins);
        del, ins := "", "";
        eq := eq + op.text;
      }
      i := i + 1;
    }
    out := Take(out, Equal, eq);
    out := Take(out, Delete, del);
    out := Take(out, Insert, ins);
  }

  lemma ClosedSides(ops: seq<Op>, kind: Kind, text: string)
    ensures forall want ::
      SideText(Closed(ops, kind, text), want) == SideText(ops, want) + if Shows(Op(kind, text), want) then text else ""
    ensures Align(Closed(ops, kind, text)) == Align(ops) +
      if kind == Equal then Diagonal(|text|, |SideText(ops, Delete)|, |SideText(ops, Insert)|) else []
  {
    SideSnoc(ops, Op(kind, text));
  }

  /** Tokens are never empty. */
  ghost predicate NonEmpty(raw: seq<Op>) {
    forall i | 0 <= i < |raw| :: raw[i].text != ""
  }

  /** Whether an op of this kind may come after `ops` in normal form. */
  predicate MayFollow(ops: seq<Op>, kind: Kind) {
    ops != [] ==>
      var last := ops[|ops| - 1].kind;
      last != kind && !(last == Insert && kind == Delete)
  }

  lemma ClosedIsNormal(ops: seq<Op>, kind: Kind, text: string)
    requires NormalForm(ops)
    requires text != "" ==> MayFollow(ops, kind)
    ensures NormalForm(Closed(ops, kind, text))
  {
    if text != "" {
      var out := ops + [Op(kind, text)];
      assert Closed(ops, kind, text) == out && forall i | 0 <= i < |ops| :: out[i] == ops[i];
    }
  }

  /** Whether the verdict before place `i` left kept text open. */
  predicate EndsKept(u: Unicode, raw: seq<Op>, i: nat)
    requires 0 < i <= |raw|
  {
    raw[i - 1].kind == Equal && !Folded(u, raw, i - 1)
  }

  /** Which buffers are open, as the last verdict decides. */
  ghost predicate Open(u: Unicode, raw: seq<Op>, i: nat, b: Buffers)
    requires i <= |raw|
  {
    && NormalForm(b.out)
    && (i == 0 ==> b == Buffers([], "", "", ""))
    && (i > 0 && EndsKept(u, raw, i) ==> b.eq != "" && b.del == "" && b.ins == "" && MayFollow(b.out, Equal))
    && (i > 0 && !EndsKept(u, raw, i) ==>
          b.eq == "" && (b.del != "" || b.ins != "") && MayFollow(b.out, Delete) && MayFollow(b.out, Insert))
  }

  lemma OpenStep(u: Unicode, raw: seq<Op>, i: nat, b: Buffers)
    requires i < |raw| && NonEmpty(raw) && Open(u, raw, i, b)
    ensures Open(u, raw, i + 1, Step(u, raw, i, b))
  {
    if raw[i].kind == Equal {
      OpenKept(u, raw, i, b);
    } else {
      OpenChange(u, raw, i, b);
    }
  }

  lemma OpenKept(u: Unicode, raw: seq<Op>, i: nat, b: Buffers)
    requires i < |raw| && NonEmpty(raw) && Open(u, raw, i, b) && raw[i].kind == Equal
    ensures Open(u, raw, i + 1, Step(u, raw, i, b))
  {
    ClosedIsNormal(b.out, Delete, b.del);
    ClosedIsNormal(Closed(b.out, Delete, b.del), Insert, b.ins);
  }

  lemma OpenChange(u: Unicode, raw: seq<Op>, i: nat, b: Buffers)
    requires i < |raw| && NonEmpty(raw) && Open(u, raw, i, b) && raw[i].kind != Equal
    ensures Open(u, raw, i + 1, Step(u, raw, i, b))
  {
    ClosedIsNormal(b.out, Equal, b.eq);
  }

  lemma {:induction false} BuffersAreOpen(u: Unicode, raw: seq<Op>, n: nat)
    requires n <= |raw| && NonEmpty(raw)
    ensures Open(u, raw, n, Buffered(u, raw, n))
  {
    if n > 0 {
      BuffersAreOpen(u, raw, n - 1);
      OpenStep(u, raw, n - 1, Buffered(u, raw, n - 1));
    }
  }

  /** A step folds exactly the tokens `Folded` says. */
  lemma StepFolds(u: Unicode, raw: seq<Op>, n: nat)
    requires n < |raw| && NonEmpty(raw)
    ensures var b := Buffered(u, raw, n);
            raw[n].kind == Equal ==>
              (Folded(u, raw, n) <==>
               (b.del != "" || b.ins != "") && AllSpace(u, raw[n].text) && n + 1 < |raw| && raw[n + 1].kind != Equal)
  {
    BuffersAreOpen(u, raw, n);
  }

  /** What the buffers hold between two verdicts: nothing lost ... */
  ghost predicate HoldsText(raw: seq<Op>, i: nat, b: Buffers)
    requires i <= |raw|
  {
    && SideText(b.out, Delete) + b.eq + b.del == SideText(raw[..i], Delete)
    && SideText(b.out, Insert) + b.eq + b.ins == SideText(raw[..i], Insert)
  }

  /** ... and nothing moved. */
  ghost predicate HoldsPlaces(u: Unicode, raw: seq<Op>, i: nat, b: Buffers)
    requires i <= |raw|
  {
    Align(b.out) + Diagonal(|b.eq|, |SideText(b.out, Delete)|, |SideText(b.out, Insert)|) == Align(Refold(u, raw, i))
  }

  /** Kept text and changed text are never open together. */
  predicate OneOpen(b: Buffers) {
    b.eq == "" || (b.del == "" && b.ins == "")
  }

  lemma Regroup(x: string, e: string, d: string, t: string)
    ensures (x + e) + "" + (d + t) == x + e + d + t
    ensures (x + e) + "" + d == x + e + d
    ensures e == "" ==> x + e + (d + t) == x + e + d + t
    ensures e == "" ==> (x + d) + (e + t) + "" == x + e + d + t
    ensures d == "" ==> x + (e + t) + "" == x + e + d + t
  {
  }

  lemma FlushedSides(b: Buffers)
    ensures SideText(Flushed(b), Delete) == SideText(b.out, Delete) + b.del
    ensures SideText(Flushed(b), Insert) == SideText(b.out, Insert) + b.ins
    ensures Align(Flushed(b)) == Align(b.out)
  {
    hide SideText, Align, Diagonal, Closed;
    ClosedSides(b.out, Delete, b.del);
    ClosedSides(Closed(b.out, Delete, b.del), Insert, b.ins);
  }

  lemma HoldsTextStep(u: Unicode, raw: seq<Op>, i: nat, b: Buffers)
    requires i < |raw| && HoldsText(raw, i, b) && OneOpen(b)
    ensures HoldsText(raw, i + 1, Step(u, raw, i, b))
  {
    hide SideText, Closed, Flushed, AllSpace;
    var x, y, t := SideText(b.out, Delete), SideText(b.out, Insert), raw[i].text;
    assert raw[..i + 1] == raw[..i] + [raw[i]];
    SideSnoc(raw[..i], raw[i]);
    Regroup(x, b.eq, b.del, t);
    Regroup(y, b.eq, b.ins, t);
    if raw[i].kind != Equal {
      ClosedSides(b.out, Equal, b.eq);
    } else {
      FlushedSides(b);
    }
  }

  lemma DiagonalGrows(base: seq<(nat, nat)>, all: seq<(nat, nat)>, e: nat, t: nat,
                      o0: nat, n0: nat, o: nat, n: nat)
    requires base + Diagonal(e, o0, n0) == all
    requires e == 0 || (o == o0 && n == n0)
    ensures base + Diagonal(e + t, o, n) == all + Diagonal(t, o + e, n + e)
  {
    DiagonalSplit(e, t, o, n);
    assert Diagonal(0, o, n) == Diagonal(0, o0, n0);
  }

  /** How the sizes of the sides fit while kept text is open. */
  ghost predicate SizesFit(raw: seq<Op>, i: nat, b: Buffers)
    requires i <= |raw|
  {
    && |SideText(raw[..i], Delete)| == |SideText(Flushed(b), Delete)| + |b.eq|
    && |SideText(raw[..i], Insert)| == |SideText(Flushed(b), Insert)| + |b.eq|
    && (b.eq == "" || (|SideText(Flushed(b), Delete)| == |SideText(b.out, Delete)|
                       && |SideText(Flushed(b), Insert)| == |SideText(b.out, Insert)|))
  }

  lemma HeldSizesFit(raw: seq<Op>, i: nat, b: Buffers)
    requires i <= |raw| && HoldsText(raw, i, b) && OneOpen(b)
    ensures SizesFit(raw, i, b)
  {
    FlushedSides(b);
  }

  lemma KeptPlaces(u: Unicode, raw: seq<Op>, i: nat, b: Buffers)
    requires i < |raw| && SizesFit(raw, i, b) && HoldsPlaces(u, raw, i, b)
    requires raw[i].kind == Equal && !Folded(u, raw, i)
    ensures HoldsPlaces(u, raw, i + 1, Buffers(Flushed(b), b.eq + raw[i].text, "", ""))
  {
    hide Align, Refold, SideText, Diagonal;
    RefoldAlign(u, raw, i);
    FlushedSides(b);
    DiagonalGrows(Align(b.out), Align(Refold(u, raw, i)), |b.eq|, |raw[i].text|,
                  |SideText(b.out, Delete)|, |SideText(b.out, Insert)|,
                  |SideText(Flushed(b), Delete)|, |SideText(Flushed(b), Insert)|);
  }

  lemma HoldsPlacesStep(u: Unicode, raw: seq<Op>, i: nat, b: Buffers)
    requires i < |raw| && HoldsText(raw, i, b) && HoldsPlaces(u, raw, i, b)
    requires OneOpen(b)
    requires raw[i].kind == Equal ==>
      (Folded(u, raw, i) <==>
       (b.del != "" || b.ins != "") && AllSpace(u, raw[i].text) && i + 1 < |raw| && raw[i + 1].kind != Equal)
    ensures HoldsPlaces(u, raw, i + 1, Step(u, raw, i, b))
  {
    if raw[i].kind != Equal {
      RefoldAlign(u, raw, i);
      ClosedSides(b.out, Equal, b.eq);
    } else if Folded(u, raw, i) {
      RefoldAlign(u, raw, i);
    } else {
      HeldSizesFit(raw, i, b);
      KeptPlaces(u, raw, i, b);
    }
  }

  lemma NothingHeld(u: Unicode, raw: seq<Op>)
    ensures HoldsText(raw, 0, Buffered(u, raw, 0)) && HoldsPlaces(u, raw, 0, Buffered(u, raw, 0))
  {
    assert raw[..0] == [];
  }

  lemma OneIsOpen(u: Unicode, raw: seq<Op>, n: nat)
    requires n <= |raw| && NonEmpty(raw)
    ensures OneOpen(Buffered(u, raw, n))
  {
    hide NormalForm, MayFollow, EndsKept;
    BuffersAreOpen(u, raw, n);
  }

  lemma {:induction false} BuffersHold(u: Unicode, raw: seq<Op>, n: nat)
    requires n <= |raw| && NonEmpty(raw)
    ensures HoldsText(raw, n, Buffered(u, raw, n))
    ensures HoldsPlaces(u, raw, n, Buffered(u, raw, n))
  {
    hide HoldsText, HoldsPlaces, Step, AllSpace, Folded, OneOpen, NonEmpty;
    if n == 0 {
      NothingHeld(u, raw);
    } else {
      var b := Buffered(u, raw, n - 1);
      BuffersHold(u, raw, n - 1);
      OneIsOpen(u, raw, n - 1);
      StepFolds(u, raw, n - 1);
      HoldsTextStep(u, raw, n - 1, b);
      HoldsPlacesStep(u, raw, n - 1, b);
    }
  }

  /** Grouping neither loses text on either side nor moves what is shown as kept. */
  lemma GroupedMeansTheSame(u: Unicode, raw: seq<Op>)
    requires NonEmpty(raw)
    ensures SideText(Grouped(u, raw), Delete) == SideText(raw, Delete)
    ensures SideText(Grouped(u, raw), Insert) == SideText(raw, Insert)
    ensures Align(Grouped(u, raw)) == Align(Refold(u, raw, |raw|))
  {
    var b := Buffered(u, raw, |raw|);
    BuffersHold(u, raw, |raw|);
    BuffersAreOpen(u, raw, |raw|);
    assert raw[..|raw|] == raw;
    ClosedSides(b.out, Equal, b.eq);
    ClosedSides(Closed(b.out, Equal, b.eq), Delete, b.del);
    ClosedSides(Closed(Closed(b.out, Equal, b.eq), Delete, b.del), Insert, b.ins);
  }

  /** Kept white space after a change is still waiting to be joined by more kept text. */
  ghost predicate Unstranded(u: Unicode, raw: seq<Op>, i: nat, b: Buffers)
    requires i <= |raw|
  {
    && (forall k | 0 < k < |b.out| && b.out[k].kind == Equal :: !AllSpace(u, b.out[k].text))
    && (b.out != [] && b.eq != "" && AllSpace(u, b.eq) ==>
          i > 0 && raw[i - 1] == Op(Equal, b.eq) && (i == |raw| || raw[i].kind == Equal))
  }

  lemma StrandNothingStep(u: Unicode, raw: seq<Op>, i: nat, b: Buffers)
    requires i < |raw| && NonEmpty(raw) && NoSpacePairs(u, raw)
    requires Unstranded(u, raw, i, b) && Open(u, raw, i, b) && Open(u, raw, i + 1, Step(u, raw, i, b))
    ensures Unstranded(u, raw, i + 1, Step(u, raw, i, b))
  {
    var t := raw[i].text;
    if raw[i].kind == Equal && EndsKept(u, raw, i + 1) {
      assert AllSpace(u, b.eq + t) ==> AllSpace(u, b.eq) && AllSpace(u, t);
      assert b.eq == "" ==> b.eq + t == t;
    }
  }

  lemma NothingStranded(u: Unicode, raw: seq<Op>)
    ensures Unstranded(u, raw, 0, Buffered(u, raw, 0))
  {
  }

  lemma {:induction false} BuffersStrandNothing(u: Unicode, raw: seq<Op>, n: nat)
    requires n <= |raw| && NonEmpty(raw) && NoSpacePairs(u, raw)
    ensures Unstranded(u, raw, n, Buffered(u, raw, n))
  {
    hide Unstranded, Open, Step, NonEmpty, NoSpacePairs;
    if n == 0 {
      NothingStranded(u, raw);
    } else {
      BuffersStrandNothing(u, raw, n - 1);
      BuffersAreOpen(u, raw, n - 1);
      BuffersAreOpen(u, raw, n);
      StrandNothingStep(u, raw, n - 1, Buffered(u, raw, n - 1));
    }
  }

  lemma GroupedIsNormal(u: Unicode, raw: seq<Op>)
    requires NonEmpty(raw)
    ensures NormalForm(Grouped(u, raw))
    ensures NoSpacePairs(u, raw) ==> NoStrandedSpace(u, Grouped(u, raw))
  {
    var b := Buffered(u, raw, |raw|);
    BuffersAreOpen(u, raw, |raw|);
    ClosedIsNormal(b.out, Equal, b.eq);
    ClosedIsNormal(b.out, Delete, b.del);
    ClosedIsNormal(Closed(b.out, Delete, b.del), Insert, b.ins);
    if NoSpacePairs(u, raw) {
      BuffersStrandNothing(u, raw, |raw|);
    }
  }

  // ---- The whole diff ----

  /** Neighbouring verdicts that keep their tokens keep neighbouring tokens. */
  lemma KeptNeighbours(raw: seq<Op>, i: nat) returns (k: nat)
    requires i + 1 < |raw| && raw[i].kind == raw[i + 1].kind == Equal
    ensures k + 1 < |Side(raw, Delete)|
    ensures Side(raw, Delete)[k] == raw[i].text && Side(raw, Delete)[k + 1] == raw[i + 1].text
  {
    var front, pair, back := raw[..i], [raw[i], raw[i + 1]], raw[i + 2..];
    assert raw == front + (pair + back);
    SideAppend(front, pair + back);
    SideAppend(pair, back);
    assert pair[1..] == [raw[i + 1]];
    assert pair[1..][1..] == [] && Side(pair[1..], Delete) == [raw[i + 1].text];
    assert Side(pair, Delete) == [raw[i].text, raw[i + 1].text];
    k := |Side(front, Delete)|;
  }

  /** Maximal runs keep no two white-space tokens in a row. */
  lemma RunsHaveNoSpacePairs(u: Unicode, raw: seq<Op>)
    requires u.SpaceStandsApart() && Runs(u, Side(raw, Delete))
    ensures NoSpacePairs(u, raw)
  {
    var a := Side(raw, Delete);
    forall i | 0 <= i < |raw| - 1 && raw[i].kind == raw[i + 1].kind == Equal
      ensures !AllSpace(u, raw[i].text) || !AllSpace(u, raw[i + 1].text)
    {
      var k := KeptNeighbours(raw, i);
      var x, y := a[k], a[k + 1];
      assert IsToken(u, x);
      assert IsToken(u, y);
      assert Ends(u, x, y);
      assert x[0] in x && y[0] in y;
    }
  }

  lemma {:induction false} VerdictsComeFromTheSides(raw: seq<Op>, i: nat)
    requires i < |raw|
    ensures raw[i].text in Side(raw, Delete) || raw[i].text in Side(raw, Insert)
  {
    if i > 0 {
      VerdictsComeFromTheSides(raw[1..], i - 1);
    }
  }

  lemma TokensAreNotEmpty(u: Unicode, raw: seq<Op>)
    requires Runs(u, Side(raw, Delete)) && Runs(u, Side(raw, Insert))
    ensures NonEmpty(raw)
  {
    forall i | 0 <= i < |raw| ensures raw[i].text != "" {
      VerdictsComeFromTheSides(raw, i);
      var a, b := Side(raw, Delete), Side(raw, Insert);
      assert forall k | 0 <= k < |a| :: IsToken(u, a[k]);
      assert forall k | 0 <= k < |b| :: IsToken(u, b[k]);
    }
  }

  /**
   The diff of two texts, with the tokens and verdicts behind it.  `a` and `b`
   are the two token sequences, which `Tokenizer.RunsAreUnique` makes the only
   possible ones.
   */
  method Diff(u: Unicode, before: string, after: string)
    returns (ops: seq<Op>, ghost a: seq<string>, ghost b: seq<string>)
    ensures Runs(u, a) && Concat(a) == before && Runs(u, b) && Concat(b) == after
    ensures ops == Grouped(u, Raw(a, b))
    ensures SideText(ops, Delete) == before && SideText(ops, Insert) == after
    ensures NormalForm(ops)
    ensures u.SpaceStandsApart() ==> NoStrandedSpace(u, ops)
    ensures Align(ops) == Align(Refold(u, Raw(a, b), |Raw(a, b)|))
    ensures Compared(a, b) ==> Longest(Side(Raw(a, b), Equal), a, b, Always)
    ensures !Compared(a, b) ==>
      exists h: nat, t: nat | WholeEnds(a, b, h, t) :: Side(Raw(a, b), Equal) == a[..h] + a[|a| - t..]
  {
    var x := Tokenize(u, before);
    var y := Tokenize(u, after);
    var raw := RawDiff(x, y);
    RawSides(x, y);
    RawIsLongest(x, y);
    if !Compared(x, y) {
      RawKeepsEnds(x, y);
    }
    TokensAreNotEmpty(u, raw);
    GroupedMeansTheSame(u, raw);
    GroupedIsNormal(u, raw);
    if u.SpaceStandsApart() {
      RunsHaveNoSpacePairs(u, raw);
    }
    ops := Group(u, raw);
    a, b := x, y;
  }
}
