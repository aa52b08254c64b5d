/**
 Laying one action list over another, and settling who keeps each hotkey.
 */
module ActionMerge {
  import opened Text
  import opened ActionFormat

  function FindId(actions: seq<Action>, id: string): (found: Option<Action>)
    ensures found.None? <==> !HasId(actions, id)
    ensures found.Some? ==> found.value in actions && found.value.id == id
  {
    if actions == [] then None
    else if actions[0].id == id then Some(actions[0])
    else
      assert HasId(actions, id) ==> HasId(actions[1..], id) by {
        if HasId(actions, id) {
          var i :| 0 <= i < |actions| && actions[i].id == id;
          assert actions[1..][i - 1].id == id;
        }
      }
      FindId(actions[1..], id)
  }

  /** A copy: an unusable key is dropped, and an empty optional text becomes an absent one. */
  function Copy(a: Action): (c: Action)
    ensures c.id == a.id && (c.key.Some? ==> c.key == a.key)
  {
    a.(key := UsableKey(a.key), system := OrNone(OrEmpty(a.system)), input := OrNone(OrEmpty(a.input)),
       provider := OrNone(OrEmpty(a.provider)), model := OrNone(OrEmpty(a.model)))
  }

  /** The base, in order, with any extra of the same id in its place. */
  function LaidBase(base: seq<Action>, extra: seq<Action>): (out: seq<Action>)
    ensures |out| == |base| && forall i | 0 <= i < |base| :: out[i].id == base[i].id
  {
    if base == [] then []
    else
      var b := base[|base| - 1];
      var over := FindId(extra, b.id);
      LaidBase(base[..|base| - 1], extra) + [Copy(if over.Some? then over.value else b)]
  }

  /** The extras that replaced nothing, until the list is full. */
  function LaidExtras(out: seq<Action>, extra: seq<Action>): seq<Action>
    decreases |extra|
  {
    if extra == [] then out
    else if HasId(out, extra[0].id) then LaidExtras(out, extra[1..])
    else if |out| >= MAX_ACTIONS then out
    else LaidExtras(out + [Copy(extra[0])], extra[1..])
  }

  /** Both lists laid out, before the hotkeys are settled. */
  function Laid(base: seq<Action>, extra: seq<Action>, replace: bool): seq<Action> {
    LaidExtras(if replace then [] else LaidBase(base, extra), extra)
  }

  /** Whether the action at `j` takes the key of the one at `i`: extras first, then the earlier row. */
  predicate Beats(laid: seq<Action>, extra: seq<Action>, j: nat, i: nat)
    requires i < |laid| && j < |laid|
  {
    && laid[j].key == laid[i].key
    && var jExtra, iExtra := HasId(extra, laid[j].id), HasId(extra, laid[i].id);
       (jExtra && !iExtra) || (jExtra == iExtra && j < i)
  }

  ghost predicate Wins(laid: seq<Action>, extra: seq<Action>, i: nat)
    requires i < |laid|
  {
    laid[i].key.Some? && forall j: nat | j < |laid| :: !Beats(laid, extra, j, i)
  }

  /** `out` is `laid` with the key taken from every action that does not win it. */
  ghost predicate Settled(out: seq<Action>, laid: seq<Action>, extra: seq<Action>) {
    && |out| == |laid|
    && forall i | 0 <= i < |laid| :: out[i] == if Wins(laid, extra, i) then laid[i] else laid[i].(key := None)
  }

  /** Every key carried in has a winner. */
  lemma {:induction false} WinnerExists(laid: seq<Action>, extra: seq<Action>, i: nat) returns (w: nat)
    requires i < |laid| && laid[i].key.Some?
    ensures w < |laid| && laid[w].key == laid[i].key && Wins(laid, extra, w)
    decreases !HasId(extra, laid[i].id), i
  {
    if exists j: nat :: j < |laid| && Beats(laid, extra, j, i) {
      var j: nat :| j < |laid| && Beats(laid, extra, j, i);
      w := WinnerExists(laid, extra, j);
    } else {
      w := i;
    }
  }

  /** What settling has done after the first `i` rows. */
  ghost predicate Settling(out: seq<Action>, laid: seq<Action>, extra: seq<Action>, i: nat) {
    && |out| == |laid|
    && (forall k | 0 <= k < |laid| :: out[k] == laid[k] || out[k] == laid[k].(key := None))
    && (forall k | 0 <= k < |laid| && Wins(laid, extra, k) :: out[k] == laid[k])
    && (forall k, m | 0 <= k < i && k < m < |laid| && out[k].key.Some? :: out[m].key != out[k].key)
  }

  /** Row `i` against the rows after it: it clears them, or the first extra among them clears it. */
  method SettleRow(before: seq<Action>, extra: seq<Action>, i: nat, ghost laid: seq<Action>)
    returns (out: seq<Action>)
    requires i < |laid| && Settling(before, laid, extra, i)
    ensures Settling(out, laid, extra, i + 1)
  {
    hide HasId;
    out := before;
    if out[i].key == None {
      return;
    }
    var aExtra := HasId(extra, out[i].id);
    var j := i + 1;
    while j < |out|
      invariant i < j <= |out| && Settling(out, laid, extra, i)
      invariant out[i] == laid[i] && out[i].key.Some?
      invariant forall m | i < m < j :: out[m].key != out[i].key
    {
      if out[j].key == out[i].key {
        var bExtra := HasId(extra, out[j].id);
        if bExtra && !aExtra {
          assert Beats(laid, extra, j, i);
          out := out[i := out[i].(key := None)];
          break;
        }
        assert Beats(laid, extra, i, j);
        out := out[j := out[j].(key := None)];
      }
      j := j + 1;
    }
  }

  lemma SettlingEnds(out: seq<Action>, laid: seq<Action>, extra: seq<Action>)
    requires Settling(out, laid, extra, |laid|)
    ensures Settled(out, laid, extra)
  {
    forall i | 0 <= i < |laid| ensures out[i] == if Wins(laid, extra, i) then laid[i] else laid[i].(key := None) {
      if out[i].key.Some? {
        var w := WinnerExists(laid, extra, i);
        assert out[w].key == out[i].key;
        assert w == i;
      }
    }
  }

  method Merge(base: seq<Action>, extra: seq<Action>, replace: bool) returns (out: seq<Action>)
    ensures Settled(out, Laid(base, extra, replace), extra)
  {
    out := [];
    if !replace {
      for i := 0 to |base|
        invariant out == LaidBase(base[..i], extra)
      {
        assert base[..i + 1][..i] == base[..i];
        var over := FindId(extra, base[i].id);
        out := out + [Copy(if over.Some? then over.value else base[i])];
      }
      assert base[..|base|] == base;
    }
    ghost var start := out;
    var i := 0;
    while i < |extra|
      invariant i <= |extra| && LaidExtras(out, extra[i..]) == LaidExtras(start, extra)
    {
      assert extra[i..][1..] == extra[i + 1..];
      if !HasId(out, extra[i].id) {
        if |out| >= MAX_ACTIONS {
          break;
        }
        out := out + [Copy(extra[i])];
      }
      i := i + 1;
    }
    ghost var laid := Laid(base, extra, replace);
    assert out == laid;
    i := 0;
    while i < |out|
      invariant 0 <= i <= |laid| && Settling(out, laid, extra, i)
    {
      out := SettleRow(out, extra, i, laid);
      i := i + 1;
    }
    SettlingEnds(out, laid, extra);
  }

  // ---- What a merge promises ----

  /** The place of the action that should hold `key`: the first extra that carries it, else the first at all. */
  ghost predicate RightfulHolder(laid: seq<Action>, extra: seq<Action>, key: char, w: nat) {
    && w < |laid| && laid[w].key == Some(key)
    && (HasId(extra, laid[w].id) ==>
          forall i | 0 <= i < w && laid[i].key == Some(key) :: !HasId(extra, laid[i].id))
    && (!HasId(extra, laid[w].id) ==>
          && (forall i | 0 <= i < |laid| && laid[i].key == Some(key) :: !HasId(extra, laid[i].id))
          && (forall i | 0 <= i < w :: laid[i].key != Some(key)))
  }

  /**
   After a merge every hotkey carried in is held by exactly one action, the
   rightful one, and nothing but hotkeys has changed.
   */
  lemma EveryKeyHasOneHolder(out: seq<Action>, laid: seq<Action>, extra: seq<Action>, key: char)
    requires Settled(out, laid, extra)
    ensures HasKey(laid, key) <==> HasKey(out, key)
    ensures forall i | 0 <= i < |out| :: out[i].key == Some(key) <==> RightfulHolder(laid, extra, key, i)
    ensures forall i, j | 0 <= i < j < |out| && out[i].key == Some(key) :: out[j].key != Some(key)
    ensures forall i | 0 <= i < |out| :: out[i].(key := None) == laid[i].(key := None)
  {
    hide RightfulHolder, Wins;
    forall i | 0 <= i < |out| ensures out[i].key == Some(key) <==> RightfulHolder(laid, extra, key, i) {
      HolderIsWinner(laid, extra, key, i);
    }
    forall i, j | 0 <= i < j < |out| && out[i].key == Some(key) ensures out[j].key != Some(key) {
      OneHolder(laid, extra, key, i, j);
    }
    if HasKey(laid, key) {
      var i :| 0 <= i < |laid| && laid[i].key == Some(key);
      var w := WinnerExists(laid, extra, i);
      assert out[w].key == Some(key);
    }
    if HasKey(out, key) {
      var i :| 0 <= i < |out| && out[i].key == Some(key);
      assert laid[i].key == Some(key);
    }
  }

  lemma OneHolder(laid: seq<Action>, extra: seq<Action>, key: char, i: nat, j: nat)
    requires i < j
    ensures !(RightfulHolder(laid, extra, key, i) && RightfulHolder(laid, extra, key, j))
  {
    hide HasId;
  }

  lemma HolderIsWinner(laid: seq<Action>, extra: seq<Action>, key: char, i: nat)
    requires i < |laid|
    ensures RightfulHolder(laid, extra, key, i) <==> laid[i].key == Some(key) && Wins(laid, extra, i)
  {
    if laid[i].key == Some(key) {
      assert forall j: nat | j < |laid| && laid[j].key == Some(key) ::
        Beats(laid, extra, j, i) <==>
          ((HasId(extra, laid[j].id) && !HasId(extra, laid[i].id)) ||
           (HasId(extra, laid[j].id) == HasId(extra, laid[i].id) && j < i));
      if RightfulHolder(laid, extra, key, i) {
        forall j: nat | j < |laid| ensures !Beats(laid, extra, j, i) {}
      }
    }
  }

  ghost predicate DistinctIds(actions: seq<Action>) {
    forall i, j | 0 <= i < j < |actions| :: actions[i].id != actions[j].id
  }

  lemma {:induction false} LaidExtrasKeepIds(out: seq<Action>, extra: seq<Action>)
    ensures DistinctIds(LaidExtras(out, extra)) <==> DistinctIds(out)
    ensures out <= LaidExtras(out, extra)
    decreases |extra|
  {
    if extra != [] && !HasId(out, extra[0].id) && |out| < MAX_ACTIONS {
      var next := out + [Copy(extra[0])];
      LaidExtrasKeepIds(next, extra[1..]);
      assert DistinctIds(next) ==> DistinctIds(out) by {
        assert forall i | 0 <= i < |out| :: next[i] == out[i];
      }
    } else if extra != [] && HasId(out, extra[0].id) {
      LaidExtrasKeepIds(out, extra[1..]);
    }
  }

  /** Ids stay distinct exactly when the base ids were, and always when the base is dropped. */
  lemma MergeKeepsIdsDistinct(base: seq<Action>, extra: seq<Action>, replace: bool)
    ensures DistinctIds(Laid(base, extra, replace)) <==> replace || DistinctIds(base)
  {
    var start := if replace then [] else LaidBase(base, extra);
    LaidExtrasKeepIds(start, extra);
    assert !replace ==> (DistinctIds(start) <==> DistinctIds(base));
  }

  // ---- Where each row comes from ----

  /** The same action but for its key: every text is kept, an empty optional one as an absent one. */
  ghost predicate SameButKey(c: Action, a: Action) {
    && c.id == a.id && c.caption == a.caption && c.instruction == a.instruction
    && c.preview == a.preview && c.diff == a.diff
    && c.system == (if a.system == Some("") then None else a.system)
    && c.input == (if a.input == Some("") then None else a.input)
    && c.provider == (if a.provider == Some("") then None else a.provider)
    && c.model == (if a.model == Some("") then None else a.model)
  }

  /** That, with the key if it can be used. */
  ghost predicate IsCopy(c: Action, a: Action) {
    SameButKey(c, a) && c.key == if a.key.Some? && KeyUsable(a.key.value) then a.key else None
  }

  /** The first action of its id. */
  ghost predicate IsFirst(actions: seq<Action>, k: nat) {
    k < |actions| && forall i | 0 <= i < k :: actions[i].id != actions[k].id
  }

  lemma {:induction false} FindsFirst(actions: seq<Action>, id: string) returns (k: nat)
    requires HasId(actions, id)
    ensures IsFirst(actions, k) && actions[k].id == id && FindId(actions, id) == Some(actions[k])
  {
    if actions[0].id == id {
      k := 0;
    } else {
      var i :| 0 <= i < |actions| && actions[i].id == id;
      assert actions[1..][i - 1].id == id;
      k := FindsFirst(actions[1..], id);
      forall i | 0 <= i < k + 1 ensures actions[i].id != id {
        assert i > 0 ==> actions[1..][i - 1] == actions[i];
      }
      k := k + 1;
    }
  }

  /**
   A base row keeps its place: it is a copy of the first extra of its id, or of the
   base action when no extra has that id.
   */
  lemma {:induction false} LaidBaseRows(base: seq<Action>, extra: seq<Action>, i: nat)
    requires i < |base|
    ensures var row := LaidBase(base, extra)[i];
            if HasId(extra, base[i].id)
            then exists k: nat :: IsFirst(extra, k) && extra[k].id == base[i].id && IsCopy(row, extra[k])
            else IsCopy(row, base[i])
  {
    if i < |base| - 1 {
      LaidBaseRows(base[..|base| - 1], extra, i);
    } else if HasId(extra, base[i].id) {
      var k := FindsFirst(extra, base[i].id);
      assert IsCopy(LaidBase(base, extra)[i], extra[k]);
    }
  }

  /** The extras that get a row of their own: the first of an id that `out` does not have. */
  ghost predicate IsNew(out: seq<Action>, extra: seq<Action>, k: nat) {
    IsFirst(extra, k) && !HasId(out, extra[k].id)
  }

  ghost predicate Increasing(from: seq<nat>) {
    forall m, n | 0 <= m < n < |from| :: from[m] < from[n]
  }

  /** Row `|out| + n` is a copy of extra `from[n]`, and these are the new extras in order. */
  ghost predicate RowsFrom(out: seq<Action>, extra: seq<Action>, laid: seq<Action>, from: seq<nat>) {
    && |laid| == |out| + |from|
    && (forall n | 0 <= n < |from| :: IsNew(out, extra, from[n]) && IsCopy(laid[|out| + n], extra[from[n]]))
    && Increasing(from)
    && (forall k: nat | IsNew(out, extra, k) && k !in from ::
          |laid| >= MAX_ACTIONS && forall n | 0 <= n < |from| :: from[n] < k)
  }

  /** A row for the first extra makes the extras of its id old, and no others. */
  lemma NewBehind(out: seq<Action>, next: seq<Action>, extra: seq<Action>, k: nat)
    requires extra != [] && k < |extra| - 1
    requires if HasId(out, extra[0].id) then next == out
             else |next| == |out| + 1 && next[..|out|] == out && next[|out|].id == extra[0].id
    ensures IsNew(out, extra, k + 1) <==> IsNew(next, extra[1..], k)
  {
    var rest, e, x := extra[1..], extra[0], extra[k + 1];
    assert forall i | 0 <= i < k :: rest[i] == extra[i + 1];
    if IsFirst(rest, k) && e.id != x.id {
      forall i | 0 <= i < k + 1 ensures extra[i].id != x.id {
        assert i > 0 ==> extra[i] == rest[i - 1];
      }
    }
    assert IsFirst(extra, k + 1) <==> IsFirst(rest, k) && e.id != x.id;
    hide IsFirst;
    assert HasId(next, x.id) <==> HasId(out, x.id) || e.id == x.id by {
      assert forall i | 0 <= i < |out| :: next[i] == next[..|out|][i] == out[i];
    }
  }

  function Later(from: seq<nat>): (later: seq<nat>)
    ensures |later| == |from| && forall n | 0 <= n < |from| :: later[n] == from[n] + 1
  {
    seq(|from|, n requires 0 <= n < |from| => from[n] + 1)
  }

  /**
   The rows behind the base are copies of exactly those extras that are the first of
   an id the base lacks, in order, until the list is full.
   */
  lemma {:induction false} LaidExtrasInOrder(out: seq<Action>, extra: seq<Action>) returns (from: seq<nat>)
    ensures RowsFrom(out, extra, LaidExtras(out, extra), from)
    decreases |extra|
  {
    from := [];
    if extra != [] {
      var e, rest, laid := extra[0], extra[1..], LaidExtras(out, extra);
      var next := if HasId(out, e.id) then out else out + [Copy(e)];
      if HasId(out, e.id) || |out| < MAX_ACTIONS {
        var sub := LaidExtrasInOrder(next, rest);
        LaidExtrasKeepIds(next, rest);
        from := (if HasId(out, e.id) then [] else [0]) + Later(sub);
        OneMoreRow(out, next, extra, laid, sub, from);
      }
    }
  }

  lemma OneMoreRow(out: seq<Action>, next: seq<Action>, extra: seq<Action>, laid: seq<Action>, sub: seq<nat>, from: seq<nat>)
    requires extra != [] && next <= laid && RowsFrom(next, extra[1..], laid, sub)
    requires next == if HasId(out, extra[0].id) then out else out + [Copy(extra[0])]
    requires from == (if HasId(out, extra[0].id) then [] else [0]) + Later(sub)
    ensures RowsFrom(out, extra, laid, from)
  {
    NewsAgree(out, next, extra);
    assert |next| <= |laid|;
    hide IsNew, HasId, IsCopy, Copy, Later, Increasing;
    if IsNew(out, extra, 0) {
      FirstRow(out, next, extra, laid);
    }
    LaterIncreases(sub, from);
    NewRows(out, next, extra, laid, sub, from);
    forall k: nat | IsNew(out, extra, k) && k !in from
      ensures |laid| >= MAX_ACTIONS && forall n | 0 <= n < |from| :: from[n] < k
    {
      NewOnes(out, next, extra, sub, from, k);
      LeftOut(next, extra, laid, sub, from, k);
    }
    RowsTogether(out, extra, laid, from);
  }

  lemma RowsTogether(out: seq<Action>, extra: seq<Action>, laid: seq<Action>, from: seq<nat>)
    requires |laid| == |out| + |from|
    requires forall n | 0 <= n < |from| :: IsNew(out, extra, from[n]) && IsCopy(laid[|out| + n], extra[from[n]])
    requires Increasing(from)
    requires forall k: nat | IsNew(out, extra, k) && k !in from ::
               |laid| >= MAX_ACTIONS && forall n | 0 <= n < |from| :: from[n] < k
    ensures RowsFrom(out, extra, laid, from)
  {
    hide IsNew, IsCopy;
  }

  lemma LeftOut(next: seq<Action>, extra: seq<Action>, laid: seq<Action>, sub: seq<nat>, from: seq<nat>, k: nat)
    requires extra != [] && RowsFrom(next, extra[1..], laid, sub)
    requires from == Later(sub) || from == [0] + Later(sub)
    requires k > 0 && IsNew(next, extra[1..], k - 1) && k - 1 !in sub
    ensures |laid| >= MAX_ACTIONS && forall n | 0 <= n < |from| :: from[n] < k
  {
    hide IsNew, IsCopy;
    forall n | 0 <= n < |from| ensures from[n] < k {
      var d := |from| - |sub|;
      assert n >= d ==> from[n] == sub[n - d] + 1;
    }
  }

  lemma FirstRow(out: seq<Action>, next: seq<Action>, extra: seq<Action>, laid: seq<Action>)
    requires extra != [] && next == out + [Copy(extra[0])] && next <= laid
    ensures IsCopy(laid[|out|], extra[0])
  {
    assert laid[|out|] == next[|out|];
  }

  lemma NewsAgree(out: seq<Action>, next: seq<Action>, extra: seq<Action>)
    requires extra != [] && next == if HasId(out, extra[0].id) then out else out + [Copy(extra[0])]
    ensures forall k: nat, l | l == k + 1 < |extra| :: IsNew(out, extra, l) <==> IsNew(next, extra[1..], k)
    ensures IsNew(out, extra, 0) <==> !HasId(out, extra[0].id)
    ensures forall k: nat | IsNew(out, extra, k) :: k < |extra|
  {
    forall k: nat, l | l == k + 1 < |extra| ensures IsNew(out, extra, l) <==> IsNew(next, extra[1..], k) {
      NewBehind(out, next, extra, k);
    }
  }

  lemma LaterIncreases(sub: seq<nat>, from: seq<nat>)
    requires Increasing(sub) && (from == Later(sub) || from == [0] + Later(sub))
    ensures Increasing(from)
  {
    var d := |from| - |sub|;
    assert forall n | d <= n < |from| :: from[n] == sub[n - d] + 1;
  }

  lemma LaterHolds(sub: seq<nat>, from: seq<nat>)
    requires from == Later(sub) || from == [0] + Later(sub)
    ensures forall x: nat, y | y == x + 1 :: x in sub ==> y in from
  {
    forall x: nat, y | y == x + 1 && x in sub ensures y in from {
      var m :| 0 <= m < |sub| && sub[m] == x;
      assert from[m + |from| - |sub|] == y;
    }
  }

  lemma NewOnes(out: seq<Action>, next: seq<Action>, extra: seq<Action>, sub: seq<nat>, from: seq<nat>, k: nat)
    requires extra != [] && k < |extra| && IsNew(out, extra, k) && k !in from
    requires k > 0 ==> (IsNew(out, extra, k) <==> IsNew(next, extra[1..], k - 1))
    requires from == (if IsNew(out, extra, 0) then [0] else []) + Later(sub)
    ensures k > 0 && IsNew(next, extra[1..], k - 1) && k - 1 !in sub
  {
    hide IsNew, Later;
    LaterHolds(sub, from);
    assert IsNew(out, extra, 0) ==> from[0] == 0;
  }

  lemma NewRows(out: seq<Action>, next: seq<Action>, extra: seq<Action>, laid: seq<Action>, sub: seq<nat>, from: seq<nat>)
    requires extra != [] && |next| <= |laid| && RowsFrom(next, extra[1..], laid, sub)
    requires forall k: nat, l | l == k + 1 < |extra| :: IsNew(out, extra, l) <==> IsNew(next, extra[1..], k)
    requires |next| == |out| + (if IsNew(out, extra, 0) then 1 else 0)
    requires IsNew(out, extra, 0) ==> IsCopy(laid[|out|], extra[0])
    requires from == (if IsNew(out, extra, 0) then [0] else []) + Later(sub)
    ensures |laid| == |out| + |from|
    ensures forall n | 0 <= n < |from| :: IsNew(out, extra, from[n]) && IsCopy(laid[|out| + n], extra[from[n]])
  {
    hide IsCopy;
    var d := |from| - |sub|;
    forall n | 0 <= n < |from| ensures IsNew(out, extra, from[n]) && IsCopy(laid[|out| + n], extra[from[n]]) {
      if n >= d {
        assert from[n] == sub[n - d] + 1;
        assert IsNew(next, extra[1..], sub[n - d]) && IsCopy(laid[|next| + (n - d)], extra[1..][sub[n - d]]);
      }
    }
  }

  /** Every extra has a row of its id unless the list is full, and rows past the base are copies of extras. */
  lemma {:induction false} LaidHoldsExtras(out: seq<Action>, extra: seq<Action>)
    ensures var laid := LaidExtras(out, extra);
            && (forall e | e in extra :: HasId(laid, e.id) || |laid| >= MAX_ACTIONS)
            && (forall i | |out| <= i < |laid| :: exists e :: e in extra && laid[i] == Copy(e))
            && (|out| <= MAX_ACTIONS ==> |laid| <= MAX_ACTIONS)
    decreases |extra|
  {
    if extra != [] {
      var e, rest, laid := extra[0], extra[1..], LaidExtras(out, extra);
      LaidExtrasKeepIds(out, extra);
      if HasId(out, e.id) {
        LaidHoldsExtras(out, rest);
        var k :| 0 <= k < |out| && out[k].id == e.id;
        assert laid[k].id == e.id;
      } else if |out| < MAX_ACTIONS {
        var next := out + [Copy(e)];
        LaidHoldsExtras(next, rest);
        LaidExtrasKeepIds(next, rest);
        assert laid[|out|] == Copy(e);
      }
    }
  }
}
