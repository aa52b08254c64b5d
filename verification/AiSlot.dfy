/**
 A widget's AI request slot: one request at a time, written by workers that may be
 stale and by pushed settings, every write checked against a generation counter.
 Texts are bytes here, one character each.
 */
module AiSlot {
  import opened Text
  import opened Lcs

  const MAX_TEXT := 2 * 1024 * 1024

  /** The most a worker reads at once. */
  const READ_SIZE := 4096

  /** The generation counter wraps at 32 bits. */
  const GENERATIONS := 0x1_0000_0000

  datatype State = Idle | Waiting | Streaming | Done | Failed

  /** UTF-8, as the library judges and repairs it. */
  datatype Utf8 = Utf8(valid: string -> bool, repair: string -> string)

  datatype Slot = Slot(generation: nat, requestId: Option<string>, state: State, text: string, error: Option<string>)

  /** The settings cmacs pushes. */
  datatype Push = Push(id: Option<string>, state: Option<string>, text: Option<string>, error: Option<string>)

  function Next(generation: nat): (g: nat)
    ensures g < GENERATIONS
  {
    (generation + 1) % GENERATIONS
  }

  predicate IsBlank(c: char) {
    c == ' ' || c == '\t' || c == '\n' || c as int == 12 || c == '\r'
  }

  function Trimmed(text: string): string {
    if text != "" && IsBlank(text[|text| - 1]) then Trimmed(text[..|text| - 1]) else text
  }

  /** An answer as it is left: without trailing blanks, and valid. */
  function Polished(u: Utf8, text: string): string {
    var t := Trimmed(text);
    if u.valid(t) then t else u.repair(t)
  }

  // ---- What each locked region does ----

  function Fail(s: Slot, generation: nat, message: string): Slot {
    if s.generation == generation then s.(state := Failed, error := Some(message)) else s
  }

  /** A chunk that would pass the cap is dropped whole; the next one may fit again. */
  function Appended(text: string, data: string): string {
    if |text| + |data| <= MAX_TEXT then text + data else text
  }

  function Append(s: Slot, generation: nat, data: string): Slot {
    if s.generation == generation then s.(text := Appended(s.text, data), state := Streaming) else s
  }

  function Finish(s: Slot, generation: nat, u: Utf8): Slot {
    if s.generation == generation then s.(text := Polished(u, s.text), state := Done) else s
  }

  predicate Busy(s: Slot) {
    s.state == Waiting || s.state == Streaming
  }

  function Cancel(s: Slot): Slot {
    s.(generation := Next(s.generation), state := if Busy(s) then Idle else s.state)
  }

  function HexDigit(n: nat): char
    requires n < 16
  {
    if n < 10 then '0' + n as char else 'a' + (n - 10) as char
  }

  /** The last `width` hexadecimal digits. */
  function Hex(n: nat, width: nat): (s: string)
    ensures |s| == width
  {
    if width == 0 then "" else Hex(n / 16, width - 1) + [HexDigit(n % 16)]
  }

  function RequestId(widget: string, generation: nat, random: nat): string {
    widget + "-" + Digits(generation) + "-" + Hex(random, 8)
  }

  function Claim(s: Slot, widget: string, random: nat): Slot {
    var g := Next(s.generation);
    Slot(g, Some(RequestId(widget, g, random)), Waiting, "", None)
  }

  function StateFromName(name: Option<string>): State {
    if name == Some("waiting") then Waiting
    else if name == Some("streaming") then Streaming
    else if name == Some("done") then Done
    else if name == Some("error") then Failed
    else Idle
  }

  /** Whether a push is for the request the slot holds. */
  predicate Taken(s: Slot, p: Push) {
    p.id.Some? && s.requestId == p.id && s.state != Idle
  }

  const STOCK_REASON := "cmacs reported an error"

  /** An error pushed again without a reason, over the stock reason it already has. */
  predicate RepeatsStockReason(s: Slot, p: Push) {
    Taken(s, p) && p.state == Some("error") && p.error == None && s.error == Some(STOCK_REASON)
  }

  function Absorb(s: Slot, p: Push): Slot {
    if !Taken(s, p) then s
    else
      var next := StateFromName(p.state);
      s.(state := if next != Idle then next else s.state,
         text := if p.text.Some? then p.text.value else s.text,
         error := if next == Failed && p.error != s.error
                  then Some(if p.error.Some? then p.error.value else STOCK_REASON) else s.error)
  }

  // ---- The slot itself ----

  class BarAi {
    const widget: string
    var generation: nat
    var requestId: Option<string>
    var state: State
    var text: string
    var error: Option<string>

    ghost function Value(): Slot
      reads this
    {
      Slot(generation, requestId, state, text, error)
    }

    constructor (widget: string)
      ensures this.widget == widget && Value() == Slot(0, None, Idle, "", None)
    {
      this.widget := widget;
      generation, requestId, state, text, error := 0, None, Idle, "", None;
    }

    method SlotFail(generation: nat, message: string)
      modifies this
      ensures Value() == Fail(old(Value()), generation, message)
    {
      if this.generation == generation {
        state := Failed;
        error := Some(message);
      }
    }

    method SlotAppend(generation: nat, data: string)
      modifies this
      ensures Value() == Append(old(Value()), generation, data)
    {
      if this.generation == generation {
        if |text| + |data| <= MAX_TEXT {
          text := text + data;
        }
        state := Streaming;
      }
    }

    method SlotFinish(generation: nat, u: Utf8)
      modifies this
      ensures Value() == Finish(old(Value()), generation, u)
    {
      if this.generation == generation {
        ghost var before := text;
        while text != "" && IsBlank(text[|text| - 1])
          invariant Trimmed(text) == Trimmed(before)
          invariant Value() == old(Value()).(text := text)
          decreases |text|
        {
          text := text[..|text| - 1];
        }
        if !u.valid(text) {
          text := u.repair(text);
        }
        state := Done;
      }
    }

    method BarAiCancel()
      modifies this
      ensures Value() == Cancel(old(Value()))
    {
      generation := Next(generation);
      if state == Waiting || state == Streaming {
        state := Idle;
      }
    }

    /** The slot's part of a start: abandon whatever was running, then claim the slot. */
    method BarAiStart(random: nat) returns (mine: nat)
      modifies this
      ensures Value() == Claim(Cancel(old(Value())), widget, random) && mine == Value().generation
    {
      BarAiCancel();
      generation := Next(generation);
      requestId := Some(RequestId(widget, generation, random));
      text, error, state := "", None, Waiting;
      mine := generation;
    }

    method BarAiAbsorb(p: Push) returns (changed: bool)
      modifies this
      ensures Value() == Absorb(old(Value()), p)
      ensures changed <==> Value() != old(Value()) || RepeatsStockReason(old(Value()), p)
    {
      changed := false;
      if p.id.None? {
        return;
      }
      if requestId == p.id && state != Idle {
        var next := StateFromName(p.state);
        if next != Idle && next != state {
          state := next;
          changed := true;
        }
        if p.text.Some? && p.text.value != text {
          text := p.text.value;
          changed := true;
        }
        if next == Failed && p.error != error {
          error := Some(if p.error.Some? then p.error.value else STOCK_REASON);
          changed := true;
        }
      }
    }
  }

  // ---- What a finish, a push and a start say ----

  /** What is taken off an answer is white space, and all that there is at its end. */
  lemma {:induction false} PolishedMeans(u: Utf8, text: string) returns (t: string, blanks: string)
    ensures text == t + blanks
    ensures forall c | c in blanks :: c == ' ' || 9 <= c as int <= 10 || 12 <= c as int <= 13
    ensures t != "" ==> var c := t[|t| - 1]; c != ' ' && !(9 <= c as int <= 10) && !(12 <= c as int <= 13)
    ensures Trimmed(text) == t && (u.valid(t) ==> Polished(u, text) == t) && (!u.valid(t) ==> Polished(u, text) == u.repair(t))
  {
    if text != "" && IsBlank(text[|text| - 1]) {
      t, blanks := PolishedMeans(u, text[..|text| - 1]);
      blanks := blanks + [text[|text| - 1]];
    } else {
      t, blanks := text, "";
    }
  }

  /**
   A push for the request that the slot holds, unless it is idle, sets what it has: the
   state by its name, the text, and for an error the reason. Any other changes nothing.
   */
  lemma PushSays(s: Slot, p: Push)
    ensures var t := Absorb(s, p);
            if p.id.None? || s.requestId != p.id || s.state.Idle? then t == s
            else
              && t.generation == s.generation && t.requestId == s.requestId
              && (p.state == Some("waiting") ==> t.state == Waiting)
              && (p.state == Some("streaming") ==> t.state == Streaming)
              && (p.state == Some("done") ==> t.state == Done)
              && (p.state == Some("error") ==> t.state == Failed)
              && (t.state != s.state ==> p.state in {Some("waiting"), Some("streaming"), Some("done"), Some("error")})
              && t.text == (if p.text.Some? then p.text.value else s.text)
              && t.error == (if p.state != Some("error") || p.error == s.error then s.error
                             else if p.error.Some? then p.error
                             else Some("cmacs reported an error"))
  {
  }

  /** A start leaves nothing of before; its id is the widget's name, the generation and eight hexadecimal digits. */
  lemma ClaimSays(s: Slot, widget: string, random: nat)
    ensures var g := (s.generation + 1) % 4294967296;
            Claim(s, widget, random) ==
              Slot(g, Some(widget + "-" + Digits(g) + "-" + Hex(random, 8)), Waiting, "", None)
  {
  }

  /** The digits in order of weight, the last one for the remainder. */
  lemma HexSays(n: nat, width: nat)
    ensures Hex(n, width + 1) == Hex(n / 16, width) + ["0123456789abcdef"[n % 16]]
  {
    var d := n % 16;
    assert d < 10 ==> "0123456789abcdef"[d] as int == '0' as int + d;
    assert d >= 10 ==> "0123456789abcdef"[d] as int == 'a' as int + d - 10;
  }

  // ---- Workers and interleavings ----

  /** Where a worker is: spawning, reading output, about to report, or gone. */
  datatype Phase = Queued | Running | Ending(killed: bool) | Gone

  /** One request's worker.  `serial` counts generations without wrapping; `sent` is the output it has read. */
  datatype Worker = Worker(serial: nat, cli: bool, phase: Phase, sent: seq<string>)

  datatype Sys = Sys(slot: Slot, serial: nat, workers: seq<Worker>)

  datatype Event =
    | Cancelled
    | Claimed(widget: string, random: nat, cli: bool)
    | Pushed(push: Push)
    | Spawned(at: nat)
    | SpawnFailed(at: nat, message: string)
    | Reached(at: nat)
    | Chunk(at: nat, data: string)
    | Superseded(at: nat)
    | TimedOut(at: nat)
    | OutputEnded(at: nat)
    | Exited(at: nat, ok: bool, message: string)

  const TOO_LONG := "the model took too long and was stopped"

  function Start(): Sys {
    Sys(Slot(0, None, Idle, "", None), 0, [])
  }

  function Generation(w: Worker): nat {
    w.serial % GENERATIONS
  }

  predicate ByWorker(e: Event) {
    !e.Cancelled? && !e.Claimed? && !e.Pushed?
  }

  /** What a worker may do next, in the order its code does it. */
  predicate Enabled(s: Sys, e: Event) {
    if !ByWorker(e) then true
    else
      e.at < |s.workers| &&
      var w := s.workers[e.at];
      match e
      case Spawned(_) => w.cli && w.phase == Queued
      case SpawnFailed(_, _) => w.phase == Queued
      case Reached(_) => !w.cli && w.phase == Queued
      case Chunk(_, data) => w.phase == Running && 0 < |data| <= READ_SIZE
      case Superseded(_) => w.phase == Running && s.slot.generation != Generation(w)
      case TimedOut(_) => w.phase == Running
      case OutputEnded(_) => w.phase == Running
      case Exited(_, _, _) => w.phase.Ending?
  }

  /** The worker after its own step. */
  function Moved(w: Worker, e: Event): Worker {
    match e
    case Spawned(_) => w.(phase := Running)
    case SpawnFailed(_, _) => w.(phase := Gone)
    case Reached(_) => w.(phase := Gone)
    case Chunk(_, data) => w.(sent := w.sent + [data])
    case Superseded(_) => w.(phase := Ending(true))
    case TimedOut(_) => w.(phase := Ending(true))
    case OutputEnded(_) => w.(phase := Ending(false))
    case Exited(_, _, _) => w.(phase := Gone)
    case _ => w
  }

  /** The slot after a worker's step. */
  function Written(slot: Slot, w: Worker, e: Event, u: Utf8): Slot {
    match e
    case SpawnFailed(_, message) => Fail(slot, Generation(w), message)
    case Chunk(_, data) => Append(slot, Generation(w), data)
    case Exited(_, ok, message) =>
      if w.phase == Ending(true) then Fail(slot, Generation(w), TOO_LONG)
      else if !ok then Fail(slot, Generation(w), message)
      else Finish(slot, Generation(w), u)
    case _ => slot
  }

  function Step(s: Sys, e: Event, u: Utf8): Sys
    requires Enabled(s, e)
  {
    match e
    case Cancelled => s.(slot := Cancel(s.slot), serial := s.serial + 1)
    case Claimed(widget, random, cli) =>
      Sys(Claim(s.slot, widget, random), s.serial + 1, s.workers + [Worker(s.serial + 1, cli, Queued, [])])
    case Pushed(push) => s.(slot := Absorb(s.slot, push))
    case _ =>
      var w := s.workers[e.at];
      s.(slot := Written(s.slot, w, e, u), workers := s.workers[e.at := Moved(w, e)])
  }

  /** The system after some events, any of which may come from any worker. */
  ghost predicate Runs(s: Sys, events: seq<Event>, t: Sys, u: Utf8)
    decreases |events|
  {
    if events == [] then s == t
    else
      var before, e := events[..|events| - 1], events[|events| - 1];
      exists m :: Runs(s, before, m, u) && Enabled(m, e) && t == Step(m, e, u)
  }

  /** How the current request's worker leaves the slot, and with what reason when it failed. */
  lemma WorkerLeaves(s: Sys, e: Event, u: Utf8)
    requires ByWorker(e) && Enabled(s, e) && s.slot.generation == Generation(s.workers[e.at])
    ensures var was, now := s.slot, Step(s, e, u).slot;
            && (e.SpawnFailed? ==> now == was.(state := Failed, error := Some(e.message)))
            && (e.Exited? ==>
                  if s.workers[e.at].phase == Ending(true)
                  then now == was.(state := Failed, error := Some("the model took too long and was stopped"))
                  else if e.ok then now == was.(state := Done, text := Polished(u, was.text))
                  else now == was.(state := Failed, error := Some(e.message)))
            && (e.Chunk? ==> now.state == Streaming && now.error == was.error)
            && (!e.SpawnFailed? && !e.Exited? && !e.Chunk? ==> now == was)
  {
  }

  // ---- A stale worker changes nothing ----

  /** The worker belongs to an older generation than the slot. */
  predicate Stale(s: Sys, w: Worker) {
    w.serial < s.serial
  }

  /** No worker has stayed while the counter went all the way round. */
  predicate NoWrap(s: Sys) {
    forall i | 0 <= i < |s.workers| && s.workers[i].phase != Gone :: s.serial - s.workers[i].serial < GENERATIONS
  }

  ghost predicate Counted(s: Sys) {
    && s.slot.generation == s.serial % GENERATIONS
    && (forall i | 0 <= i < |s.workers| :: 0 < s.workers[i].serial <= s.serial)
    && (forall i, j | 0 <= i < j < |s.workers| :: s.workers[i].serial < s.workers[j].serial)
  }

  /** The generation check tells a stale worker apart exactly until the counter has gone round. */
  lemma GenerationTells(serial: nat, older: nat)
    requires older <= serial
    ensures serial % GENERATIONS == older % GENERATIONS <==> (serial - older) % GENERATIONS == 0
    ensures serial - older < GENERATIONS ==> (serial % GENERATIONS == older % GENERATIONS <==> serial == older)
  {
    var d := serial - older;
    assert serial % GENERATIONS == (older % GENERATIONS + d % GENERATIONS) % GENERATIONS;
  }

  lemma StaleStepChangesNothing(s: Sys, e: Event, u: Utf8)
    requires Counted(s) && ByWorker(e) && Enabled(s, e) && NoWrap(s)
    requires Stale(s, s.workers[e.at])
    ensures Step(s, e, u).slot == s.slot
  {
    GenerationTells(s.serial, s.workers[e.at].serial);
  }

  // ---- Runs one event longer ----

  lemma RunsSnoc(s: Sys, events: seq<Event>, m: Sys, e: Event, t: Sys, u: Utf8)
    requires Runs(s, events, m, u) && Enabled(m, e) && t == Step(m, e, u)
    ensures Runs(s, events + [e], t, u)
  {
    assert (events + [e])[..|events|] == events;
  }

  function Cancels(n: nat): seq<Event> {
    if n == 0 then [] else Cancels(n - 1) + [Cancelled]
  }

  /** The system `n` generations on. */
  function Later(s: Sys, n: nat): Sys {
    s.(serial := s.serial + n, slot := s.slot.(generation := (s.serial + n) % GENERATIONS))
  }

  lemma CancelOnce(s: Sys, n: nat, u: Utf8)
    requires Counted(Later(s, n)) && s.slot.state == Idle
    ensures Step(Later(s, n), Cancelled, u) == Later(s, n + 1) && Counted(Later(s, n + 1))
  {
    CountedStep(Later(s, n), Cancelled, u);
    assert (s.serial + n + 1) % GENERATIONS == ((s.serial + n) % GENERATIONS + 1) % GENERATIONS;
  }

  /** Cancelling again and again only counts. */
  lemma {:induction false} CancelsCount(s: Sys, before: seq<Event>, m: Sys, n: nat, u: Utf8)
    requires Counted(m) && Runs(s, before, m, u) && m.slot.state == Idle
    ensures Counted(Later(m, n)) && Runs(s, before + Cancels(n), Later(m, n), u)
  {
    if n == 0 {
      assert before + [] == before && Later(m, 0) == m;
    } else {
      CancelsCount(s, before, m, n - 1, u);
      CancelOnce(m, n - 1, u);
      hide Counted, Later, Step;
      RunsSnoc(s, before + Cancels(n - 1), Later(m, n - 1), Cancelled, Later(m, n), u);
      Assoc(before, Cancels(n - 1), [Cancelled]);
    }
  }

  /** A request claimed, its worker spawned, and the request cancelled. */
  lemma CancelledRun(widget: string, random: nat, u: Utf8) returns (events: seq<Event>, t: Sys)
    ensures Runs(Start(), events, t, u) && Counted(t) && t.serial == 2
    ensures t.workers == [Worker(1, true, Running, [])] && t.slot.state == Idle && t.slot.text == ""
  {
    var claim := Claimed(widget, random, true);
    var a := Step(Start(), claim, u);
    var b := Step(a, Spawned(0), u);
    t := Step(b, Cancelled, u);
    RunsSnoc(Start(), [], Start(), claim, a, u);
    RunsSnoc(Start(), [] + [claim], a, Spawned(0), b, u);
    events := [] + [claim] + [Spawned(0)];
    RunsSnoc(Start(), events, b, Cancelled, t, u);
    events := events + [Cancelled];
  }

  lemma LongCancelled(before: seq<Event>, c: Sys, n: nat, u: Utf8) returns (events: seq<Event>, t: Sys)
    requires Runs(Start(), before, c, u) && Counted(c) && c.slot.state == Idle
    ensures t == Later(c, n) && Runs(Start(), events, t, u)
  {
    CancelsCount(Start(), before, c, n, u);
    events, t := before + Cancels(n), Later(c, n);
  }

  /**
   Without the bound on the counter a cancelled worker is believed again: here the
   slot is idle and empty, and the chunk of a worker cancelled exactly 2^32
   generations ago is shown as a running answer.
   */
  lemma WrapLetsStaleIn(widget: string, random: nat, data: string, u: Utf8) returns (events: seq<Event>, m: Sys)
    requires 0 < |data| <= READ_SIZE
    ensures Runs(Start(), events, m, u) && m.slot.state == Idle && m.slot.text == ""
    ensures |m.workers| == 1 && Stale(m, m.workers[0]) && Enabled(m, Chunk(0, data))
    ensures var t := Step(m, Chunk(0, data), u).slot; t.text == data && t.state == Streaming
  {
    hide Runs;
    var before, c := CancelledRun(widget, random, u);
    events, m := LongCancelled(before, c, GENERATIONS - 1, u);
    assert Generation(m.workers[0]) == m.slot.generation == 1 && "" + data == data;
  }

  // ---- Whose text the slot shows ----

  /** What is kept of some chunks. */
  function Kept(chunks: seq<string>): string {
    if chunks == [] then "" else Appended(Kept(chunks[..|chunks| - 1]), chunks[|chunks| - 1])
  }

  /** The text of some of the output, as it came or as it was left at the end. */
  ghost predicate Shows(u: Utf8, text: string, sent: seq<string>) {
    exists k :: 0 <= k <= |sent| && (text == Kept(sent[..k]) || text == Polished(u, Kept(sent[..k])))
  }

  /** The last request's worker. */
  function Last(s: Sys): Worker
    requires s.workers != []
  {
    s.workers[|s.workers| - 1]
  }

  ghost predicate Current(s: Sys) {
    s.workers != [] && Last(s).serial == s.serial
  }

  /** How a request that nothing has superseded stands once its worker is gone. */
  ghost predicate Reported(u: Utf8, slot: Slot, w: Worker) {
    match slot.state
    case Done => w.cli && slot.text == Polished(u, Kept(w.sent))
    case Failed => slot.text == Kept(w.sent)
    case Waiting => !w.cli && slot.text == "" && w.sent == []  // handed over to cmacs
    case _ => false
  }

  /** The slot while `w` is the last request's worker; `current` while nothing has superseded it. */
  ghost predicate Follows(u: Utf8, slot: Slot, w: Worker, current: bool) {
    && Shows(u, slot.text, w.sent)
    && (!current ==> !Busy(slot))
    && (current && w.phase != Gone ==>
          slot.text == Kept(w.sent) && slot.state == (if w.sent == [] then Waiting else Streaming))
    && (current && w.phase == Gone ==> Reported(u, slot, w))
  }

  /** No output before the spawn, and none from a worker that only hands its request over to cmacs. */
  predicate Orderly(w: Worker) {
    && (w.phase == Queued || !w.cli ==> w.sent == [])
    && (!w.cli ==> w.phase == Queued || w.phase == Gone)
  }

  ghost predicate AllOrderly(s: Sys) {
    forall i | 0 <= i < |s.workers| :: Orderly(s.workers[i])
  }

  /** What every interleaving keeps. */
  ghost predicate Inv(s: Sys, u: Utf8) {
    && Counted(s) && AllOrderly(s)
    && (s.workers == [] ==> s.slot.text == "" && s.slot.state == Idle)
    && (s.workers != [] ==> Follows(u, s.slot, Last(s), Current(s)))
  }

  /** A push for some other request, or for one that was cancelled. */
  predicate Foreign(s: Sys, e: Event) {
    e.Pushed? ==> !Taken(s.slot, e.push)
  }

  lemma ShowsAll(u: Utf8, sent: seq<string>)
    ensures Shows(u, Kept(sent), sent) && Shows(u, Polished(u, Kept(sent)), sent)
  {
    assert sent[..|sent|] == sent;
  }

  lemma ShowsMore(u: Utf8, text: string, sent: seq<string>, data: string)
    requires Shows(u, text, sent)
    ensures Shows(u, text, sent + [data])
  {
    var k :| 0 <= k <= |sent| && (text == Kept(sent[..k]) || text == Polished(u, Kept(sent[..k])));
    assert (sent + [data])[..k] == sent[..k];
  }

  lemma CountedStep(s: Sys, e: Event, u: Utf8)
    requires Counted(s) && Enabled(s, e)
    ensures Counted(Step(s, e, u))
  {
    if e.Cancelled? || e.Claimed? {
      assert (s.serial + 1) % GENERATIONS == (s.serial % GENERATIONS + 1) % GENERATIONS;
    } else if ByWorker(e) {
      var t := Step(s, e, u);
      assert forall i | 0 <= i < |t.workers| :: t.workers[i].serial == s.workers[i].serial;
    }
  }

  /** What the current worker's own step writes. */
  lemma CurrentWrites(slot: Slot, w: Worker, e: Event, u: Utf8)
    requires ByWorker(e) && slot.generation == Generation(w) && Follows(u, slot, w, true) && w.phase != Gone
    requires e.Chunk? ==> w.phase == Running
    requires Orderly(w)
    requires e.SpawnFailed? ==> w.phase == Queued
    requires e.Reached? ==> !w.cli
    requires e.Exited? ==> w.phase.Ending?
    ensures Follows(u, Written(slot, w, e, u), Moved(w, e), true)
  {
    if e.Chunk? {
      ChunkWrites(slot, w, e, u);
    } else {
      hide Shows;
      ShowsAll(u, w.sent);
    }
  }

  lemma ChunkWrites(slot: Slot, w: Worker, e: Event, u: Utf8)
    requires e.Chunk? && slot.generation == Generation(w) && slot.text == Kept(w.sent) && w.phase == Running
    ensures Follows(u, Written(slot, w, e, u), Moved(w, e), true)
  {
    hide Shows;
    ShowsAll(u, w.sent + [e.data]);
    assert (w.sent + [e.data])[..|w.sent|] == w.sent;
  }

  /** A step by the current request's own worker. */
  lemma CurrentStep(s: Sys, e: Event, u: Utf8)
    requires Inv(s, u) && ByWorker(e) && Enabled(s, e) && e.at == |s.workers| - 1 && Current(s)
    ensures Inv(Step(s, e, u), u)
  {
    CountedStep(s, e, u);
    CurrentWrites(s.slot, Last(s), e, u);
    hide Follows, Counted, AllOrderly, Written;
    assert Last(Step(s, e, u)) == Moved(Last(s), e);
  }

  /** A step by any other worker. */
  lemma OtherStep(s: Sys, e: Event, u: Utf8)
    requires Inv(s, u) && ByWorker(e) && Enabled(s, e) && NoWrap(s)
    requires s.workers[e.at].serial != s.serial
    ensures Inv(Step(s, e, u), u) && Step(s, e, u).slot == s.slot
  {
    StaleStepChangesNothing(s, e, u);
    CountedStep(s, e, u);
    hide Counted, AllOrderly, Written, Shows;
    if e.Chunk? && e.at == |s.workers| - 1 {
      ShowsMore(u, s.slot.text, Last(s).sent, e.data);
    }
  }

  lemma CancelStep(s: Sys, u: Utf8)
    requires Inv(s, u)
    ensures Inv(Step(s, Cancelled, u), u)
  {
    CountedStep(s, Cancelled, u);
    hide Counted, AllOrderly, Shows;
    assert s.workers != [] ==> Last(s).serial <= s.serial by { LastCounted(s); }
  }

  lemma LastCounted(s: Sys)
    requires Counted(s)
    ensures s.workers != [] ==> Last(s).serial <= s.serial
  {
  }

  lemma ClaimStep(s: Sys, e: Event, u: Utf8)
    requires Inv(s, u) && e.Claimed?
    ensures Inv(Step(s, e, u), u)
  {
    CountedStep(s, e, u);
    ShowsAll(u, []);
    hide Counted, AllOrderly, Shows;
  }

  lemma InvStep(s: Sys, e: Event, u: Utf8)
    requires Inv(s, u) && Enabled(s, e) && NoWrap(s) && Foreign(s, e)
    ensures Inv(Step(s, e, u), u)
  {
    if ByWorker(e) {
      if s.workers[e.at].serial == s.serial {
        assert e.at == |s.workers| - 1;
        CurrentStep(s, e, u);
      } else {
        OtherStep(s, e, u);
      }
    } else if e.Pushed? {
      assert Step(s, e, u) == s;
    } else if e.Cancelled? {
      CancelStep(s, u);
    } else {
      ClaimStep(s, e, u);
    }
  }

  /** The run so far never wraps its count while a worker is left, and every push in it is foreign. */
  ghost predicate Tame(s: Sys, events: seq<Event>, u: Utf8)
    decreases |events|
  {
    events == [] ||
    (Tame(s, events[..|events| - 1], u) &&
     forall m | Runs(s, events[..|events| - 1], m, u) :: NoWrap(m) && Foreign(m, events[|events| - 1]))
  }

  /**
   In every interleaving of starts, cancels and workers, whatever foreign pushes
   come in between, the slot's text is output of the last started request only.
   */
  lemma {:induction false} EveryRunKeepsInv(events: seq<Event>, t: Sys, u: Utf8)
    requires Runs(Start(), events, t, u) && Tame(Start(), events, u)
    ensures Inv(t, u)
    decreases |events|
  {
    if events != [] {
      var before, e := events[..|events| - 1], events[|events| - 1];
      var m :| Runs(Start(), before, m, u) && Enabled(m, e) && t == Step(m, e, u);
      EveryRunKeepsInv(before, m, u);
      InvStep(m, e, u);
    }
  }

  // ---- What is kept of the output ----

  function Total(chunks: seq<string>): nat {
    if chunks == [] then 0 else Total(chunks[..|chunks| - 1]) + |chunks[|chunks| - 1]|
  }

  lemma {:induction false} TotalIsLength(chunks: seq<string>)
    ensures |Concat(chunks)| == Total(chunks)
  {
    if chunks != [] {
      var init, last := chunks[..|chunks| - 1], chunks[|chunks| - 1];
      TotalIsLength(init);
      ConcatSnoc(init, last);
      assert chunks == init + [last];
    }
  }

  lemma {:induction false} KeptFits(chunks: seq<string>)
    ensures |Kept(chunks)| <= MAX_TEXT
  {
    if chunks != [] {
      KeptFits(chunks[..|chunks| - 1]);
    }
  }

  lemma {:induction false} KeptWithinCap(chunks: seq<string>)
    requires Total(chunks) <= MAX_TEXT
    ensures Kept(chunks) == Concat(chunks)
  {
    if chunks != [] {
      var init, last := chunks[..|chunks| - 1], chunks[|chunks| - 1];
      KeptWithinCap(init);
      TotalIsLength(init);
      ConcatSnoc(init, last);
      assert chunks == init + [last];
    }
  }

  /** All of it is kept, in order, exactly when it fits the cap. */
  lemma AllKeptWithinCap(chunks: seq<string>)
    ensures Kept(chunks) == Concat(chunks) <==> Total(chunks) <= MAX_TEXT
  {
    KeptFits(chunks);
    TotalIsLength(chunks);
    if Total(chunks) <= MAX_TEXT {
      KeptWithinCap(chunks);
    }
  }

  /** What is kept of some chunks after a text that was already there. */
  function KeptAfter(text: string, chunks: seq<string>): string {
    if chunks == [] then text else Appended(KeptAfter(text, chunks[..|chunks| - 1]), chunks[|chunks| - 1])
  }

  lemma {:induction false} KeptAppend(front: seq<string>, later: seq<string>)
    ensures Kept(front + later) == KeptAfter(Kept(front), later)
    decreases |later|
  {
    if later == [] {
      assert front + later == front;
    } else {
      KeptAppend(front, later[..|later| - 1]);
      assert (front + later)[..|front + later| - 1] == front + later[..|later| - 1];
    }
  }

  lemma {:induction false} KeptAfterExtends(text: string, chunks: seq<string>)
    ensures text <= KeptAfter(text, chunks)
  {
    if chunks != [] {
      KeptAfterExtends(text, chunks[..|chunks| - 1]);
    }
  }

  lemma {:induction false} NothingFits(text: string, chunks: seq<string>)
    requires forall i | 0 <= i < |chunks| :: chunks[i] != ""
    ensures KeptAfter(text, chunks) == text <==> forall i | 0 <= i < |chunks| :: |text| + |chunks[i]| > MAX_TEXT
  {
    if chunks != [] {
      var init, last := chunks[..|chunks| - 1], chunks[|chunks| - 1];
      NothingFits(text, init);
      KeptAfterExtends(text, init);
      if KeptAfter(text, init) == text {
        assert forall i | 0 <= i < |init| :: |text| + |chunks[i]| == |text| + |init[i]| > MAX_TEXT;
      } else {
        var i :| 0 <= i < |init| && |text| + |init[i]| <= MAX_TEXT;
        assert |text| + |chunks[i]| <= MAX_TEXT && |KeptAfter(text, chunks)| >= |KeptAfter(text, init)| > |text|;
      }
    }
  }

  lemma PrefixCancels(head: string, x: string, y: string)
    ensures head + x <= head + y <==> x <= y
  {
    if head + x <= head + y {
      assert forall i | 0 <= i < |x| :: x[i] == (head + x)[|head| + i] == (head + y)[|head| + i] == y[i];
    }
  }

  /**
   Where the output first passes the cap, what was kept before is all that is ever
   kept exactly when no later chunk is small enough to fit after all; and then the
   text is a prefix of the output.
   */
  lemma KeptStopsExactly(front: seq<string>, later: seq<string>)
    requires Total(front) <= MAX_TEXT && forall i | 0 <= i < |later| :: later[i] != ""
    ensures Kept(front + later) == Concat(front) <==>
            forall i | 0 <= i < |later| :: Total(front) + |later[i]| > MAX_TEXT
    ensures Concat(front) <= Kept(front + later)
    ensures Kept(front + later) == Concat(front) ==> Kept(front + later) <= Concat(front + later)
  {
    KeptWithinCap(front);
    TotalIsLength(front);
    KeptAppend(front, later);
    KeptAfterExtends(Kept(front), later);
    NothingFits(Kept(front), later);
    ConcatAppend(front, later);
  }

  /**
   The text is a prefix of the output exactly when what is kept of the chunks from
   the first one on that does not fit reads like that output itself.
   */
  lemma PrefixExactly(front: seq<string>, later: seq<string>)
    requires Total(front) <= MAX_TEXT
    ensures var kept := Kept(front + later);
            && Total(front) <= |kept|
            && (kept <= Concat(front + later) <==> kept[Total(front)..] <= Concat(later))
  {
    KeptWithinCap(front);
    TotalIsLength(front);
    KeptAppend(front, later);
    KeptAfterExtends(Kept(front), later);
    ConcatAppend(front, later);
    var kept := Kept(front + later);
    hide Kept, KeptAfter, Concat, Total;
    assert kept == Concat(front) + kept[Total(front)..];
    PrefixCancels(Concat(front), kept[Total(front)..], Concat(later));
  }

  /** The first byte kept behind a text is the first of a chunk that fits behind it. */
  lemma {:induction false} FirstKept(text: string, chunks: seq<string>) returns (at: nat)
    requires KeptAfter(text, chunks) != text && forall i | 0 <= i < |chunks| :: chunks[i] != ""
    ensures at < |chunks| && |text| + |chunks[at]| <= MAX_TEXT
    ensures |KeptAfter(text, chunks)| > |text| && KeptAfter(text, chunks)[|text|] == chunks[at][0]
  {
    var init, last := chunks[..|chunks| - 1], chunks[|chunks| - 1];
    if KeptAfter(text, init) == text {
      at := |chunks| - 1;
    } else {
      at := FirstKept(text, init);
      KeptAfterExtends(KeptAfter(text, init), [last]);
    }
  }

  ghost predicate SameSizes(a: seq<string>, b: seq<string>) {
    |a| == |b| && forall i | 0 <= i < |a| :: |a[i]| == |b[i]|
  }

  /** A chunk does not fit behind `front`, and later ones start with another byte: a later one that fits breaks the prefix. */
  lemma GapBreaksPrefix(front: seq<string>, later: seq<string>)
    requires Total(front) <= MAX_TEXT && later != [] && Total(front) + |later[0]| > MAX_TEXT
    requires forall i | 0 <= i < |later| :: later[i] != "" && (i > 0 ==> later[i][0] != later[0][0])
    ensures Kept(front + later) <= Concat(front + later) <==> Kept(front + later) == Concat(front)
  {
    hide Kept, Concat, Total;
    KeptStopsExactly(front, later);
    PrefixExactly(front, later);
    if Kept(front + later) != Concat(front) {
      var at := FirstKeptBehind(front, later);
      ConcatStarts(later);
      assert at != 0;
      assert Kept(front + later)[Total(front)..][0] != Concat(later)[0];
    }
  }

  lemma FirstKeptBehind(front: seq<string>, later: seq<string>) returns (at: nat)
    requires Total(front) <= MAX_TEXT && Kept(front + later) != Concat(front)
    requires forall i | 0 <= i < |later| :: later[i] != ""
    ensures at < |later| && Total(front) + |later[at]| <= MAX_TEXT
    ensures |Kept(front + later)| > Total(front) && Kept(front + later)[Total(front)] == later[at][0]
  {
    KeptWithinCap(front);
    TotalIsLength(front);
    KeptAppend(front, later);
    hide Kept, Concat, Total, KeptAfter;
    at := FirstKept(Kept(front), later);
  }

  lemma ConcatStarts(chunks: seq<string>)
    requires chunks != [] && chunks[0] != ""
    ensures Concat(chunks) != "" && Concat(chunks)[0] == chunks[0][0]
  {
  }

  function Marked(sizes: seq<string>): (chunks: seq<string>)
    ensures SameSizes(chunks, sizes)
    ensures forall i | 0 <= i < |chunks| && chunks[i] != "" :: chunks[i][0] == if i == 0 then 'x' else 'y'
  {
    seq(|sizes|, i requires 0 <= i < |sizes| => seq(|sizes[i]|, _ => if i == 0 then 'x' else 'y'))
  }

  /**
   From the first chunk on that does not fit, the sizes decide: the text is sure to
   be a prefix of the output exactly when no later chunk fits either.
   */
  lemma SizesDecide(front: seq<string>, later: seq<string>)
    requires Total(front) <= MAX_TEXT && later != [] && Total(front) + |later[0]| > MAX_TEXT
    requires forall i | 0 <= i < |later| :: later[i] != ""
    ensures (forall other | SameSizes(other, later) :: Kept(front + other) <= Concat(front + other)) <==>
            forall i | 0 <= i < |later| :: Total(front) + |later[i]| > MAX_TEXT
  {
    hide Kept, Concat;
    forall other | SameSizes(other, later)
      ensures (forall i | 0 <= i < |later| :: Total(front) + |later[i]| > MAX_TEXT) ==>
                Kept(front + other) <= Concat(front + other)
    {
      assert forall i | 0 <= i < |other| :: |other[i]| == |later[i]|;
      KeptStopsExactly(front, other);
    }
    var marked := Marked(later);
    assert forall i | 0 <= i < |marked| :: |marked[i]| == |later[i]|;
    GapBreaksPrefix(front, marked);
    KeptStopsExactly(front, marked);
  }

  /**
   While the last request is not superseded the slot has what is kept of its
   output: as it is while the worker runs and after a failure, polished once the
   answer is done; and that is all of the output exactly when it fits the cap. A
   request of the CLI ends done or failed, one for cmacs waiting or failed.
   */
  lemma AnswerIsWhole(events: seq<Event>, t: Sys, u: Utf8)
    requires Runs(Start(), events, t, u) && Tame(Start(), events, u)
    requires Current(t)
    ensures var w, kept := Last(t), Kept(Last(t).sent);
            && t.slot.text == (if t.slot.state == Done then Polished(u, kept) else kept)
            && (kept == Concat(w.sent) <==> Total(w.sent) <= MAX_TEXT)
            && (w.phase != Gone ==> t.slot.state == if w.sent == [] then Waiting else Streaming)
            && (w.phase == Gone ==> t.slot.state in if w.cli then {Done, Failed} else {Waiting, Failed})
  {
    EveryRunKeepsInv(events, t, u);
    AllKeptWithinCap(Last(t).sent);
  }

  /** Past the cap it is whole chunks still, in order, with some left out. */
  lemma {:induction false} KeptIsSubsequence(chunks: seq<string>) returns (some: seq<string>)
    ensures Subseq(some, chunks) && Kept(chunks) == Concat(some) && |Kept(chunks)| <= MAX_TEXT
  {
    if chunks == [] {
      some := [];
    } else {
      var init, last := chunks[..|chunks| - 1], chunks[|chunks| - 1];
      assert chunks == init + [last];
      some := KeptIsSubsequence(init);
      if |Kept(init)| + |last| <= MAX_TEXT {
        SubseqSnoc(some, init, last);
        ConcatSnoc(some, last);
        some := some + [last];
      } else {
        SubseqWider(some, init, last);
      }
    }
  }

  lemma {:induction false} SubseqWider<T>(c: seq<T>, a: seq<T>, x: T)
    requires Subseq(c, a)
    ensures Subseq(c, a + [x])
  {
    if c != [] {
      assert (a + [x])[1..] == a[1..] + [x];
      if c[0] == a[0] && Subseq(c[1..], a[1..]) {
        SubseqWider(c[1..], a[1..], x);
      } else {
        SubseqWider(c, a[1..], x);
      }
    }
  }

  /** With one byte left, a chunk of two is dropped and the one byte behind it is kept. */
  lemma OneByteGap(front: seq<string>, two: string, one: string)
    requires Total(front) == MAX_TEXT - 1 && |two| == 2 && |one| == 1 && one[0] != two[0]
    ensures Kept(front + [two, one]) == Concat(front) + one
    ensures !(Kept(front + [two, one]) <= Concat(front + [two, one]))
  {
    var later := [two, one];
    KeptWithinCap(front);
    TotalIsLength(front);
    KeptAppend(front, later);
    assert later[..1] == [two] && [two][..0] == [];
    assert KeptAfter(Kept(front), [two]) == Kept(front);
    PrefixExactly(front, later);
    assert Kept(front + later)[Total(front)..] == one;
    assert later[1..] == [one] && Concat(later) == two + Concat([one]) && Concat(later)[0] == two[0];
  }

  /** `n` chunks of some size. */
  function Chunks(n: nat, size: nat): (chunks: seq<string>)
    ensures |chunks| == n
  {
    if n == 0 then [] else Chunks(n - 1, size) + [seq(size, _ => 'x')]
  }

  lemma {:induction false} ChunksTotal(n: nat, size: nat)
    ensures Total(Chunks(n, size)) == n * size
    ensures forall i | 0 <= i < n :: |Chunks(n, size)[i]| == size
  {
    if n > 0 {
      ChunksTotal(n - 1, size);
      assert Chunks(n, size)[..n - 1] == Chunks(n - 1, size);
      assert n * size == (n - 1) * size + size;
    }
  }

  lemma TotalSnoc(chunks: seq<string>, last: string)
    ensures Total(chunks + [last]) == Total(chunks) + |last|
  {
    assert (chunks + [last])[..|chunks|] == chunks;
  }

  /** Any reads at all can be what the running worker of the only request has sent. */
  lemma {:induction false} ReadsHappen(chunks: seq<string>, u: Utf8) returns (events: seq<Event>, t: Sys)
    requires forall i | 0 <= i < |chunks| :: 0 < |chunks[i]| <= READ_SIZE
    ensures Runs(Start(), events, t, u) && t.serial == 1 && t.slot.generation == 1
    ensures t.workers == [Worker(1, true, Running, chunks)] && t.slot.text == Kept(chunks)
  {
    if chunks == [] {
      var claim := Claimed("", 0, true);
      var a := Step(Start(), claim, u);
      t := Step(a, Spawned(0), u);
      RunsSnoc(Start(), [], Start(), claim, a, u);
      RunsSnoc(Start(), [] + [claim], a, Spawned(0), t, u);
      events := [] + [claim] + [Spawned(0)];
    } else {
      var init, last := chunks[..|chunks| - 1], chunks[|chunks| - 1];
      var before, m := ReadsHappen(init, u);
      var e := Chunk(0, last);
      t := Step(m, e, u);
      RunsSnoc(Start(), before, m, e, t, u);
      events := before + [e];
      assert chunks == init + [last];
    }
  }

  /**
   So the text need not be a prefix of the output: here 511 full reads and one of
   4095 bytes leave a byte, a read of two is dropped and a read of one is kept.
   */
  lemma KeptNeedNotBePrefix(u: Utf8) returns (events: seq<Event>, t: Sys)
    ensures Runs(Start(), events, t, u) && Current(t)
    ensures !(t.slot.text <= Concat(Last(t).sent))
  {
    var front := Chunks(511, 4096) + [seq(4095, _ => 'x')];
    ChunksTotal(511, 4096);
    TotalSnoc(Chunks(511, 4096), seq(4095, _ => 'x'));
    hide Kept, Total, Concat, Chunks;
    OneByteGap(front, "xx", "y");
    events, t := ReadsHappen(front + ["xx", "y"], u);
  }

  // ---- Cancelling, and old request ids ----

  ghost predicate NeverWraps(s: Sys, events: seq<Event>, u: Utf8)
    decreases |events|
  {
    events == [] ||
    (NeverWraps(s, events[..|events| - 1], u) && forall m | Runs(s, events[..|events| - 1], m, u) :: NoWrap(m))
  }

  /** A request that was busy when it was cancelled leaves the slot as it is, whatever its workers and pushes do. */
  lemma {:induction false} CancelledStaysCancelled(s: Sys, events: seq<Event>, t: Sys, u: Utf8)
    requires Counted(s) && !Current(s) && s.slot.state == Idle
    requires Runs(s, events, t, u) && forall k | 0 <= k < |events| :: !events[k].Claimed?
    requires NeverWraps(s, events, u)
    ensures Counted(t) && !Current(t) && t.slot == s.slot.(generation := t.slot.generation)
    decreases |events|
  {
    if events != [] {
      var before, e := events[..|events| - 1], events[|events| - 1];
      var m :| Runs(s, before, m, u) && Enabled(m, e) && t == Step(m, e, u);
      CancelledStaysCancelled(s, before, m, u);
      IdleStep(m, e, u);
    }
  }

  lemma IdleStep(s: Sys, e: Event, u: Utf8)
    requires Counted(s) && !Current(s) && s.slot.state == Idle && NoWrap(s) && Enabled(s, e) && !e.Claimed?
    ensures var t := Step(s, e, u);
            Counted(t) && !Current(t) && t.slot == s.slot.(generation := t.slot.generation)
  {
    CountedStep(s, e, u);
    if ByWorker(e) {
      assert s.workers[e.at].serial <= Last(s).serial;
      StaleStepChangesNothing(s, e, u);
    }
  }

  /** Cancelling a busy request brings that about. */
  lemma CancelMakesIdle(s: Sys, u: Utf8)
    requires Counted(s) && Busy(s.slot)
    ensures var t := Step(s, Cancelled, u); Counted(t) && !Current(t) && t.slot.state == Idle
  {
    CountedStep(s, Cancelled, u);
  }

  /** Two requests of one widget have different ids while their generations differ. */
  lemma RequestIdsTell(widget: string, g: nat, r: nat, h: nat, q: nat)
    requires RequestId(widget, g, r) == RequestId(widget, h, q)
    ensures g == h
  {
    var a, b := RequestId(widget, g, r), RequestId(widget, h, q);
    assert a[|widget| + 1..|a| - 9] == Digits(g);
    assert b[|widget| + 1..|b| - 9] == Digits(h);
    DigitsRoundTrip(g);
    DigitsRoundTrip(h);
  }

  /**
   A push that answers another request than the one the slot holds is not taken,
   whatever the slot's own count has come to since.
   */
  lemma OldPushIsForeign(s: Slot, widget: string, own: nat, random: nat, older: nat, r: nat, p: Push)
    requires s.requestId == Some(RequestId(widget, own, random))
    requires p.id == Some(RequestId(widget, older, r)) && older != own
    ensures Absorb(s, p) == s
  {
    if s.requestId == p.id {
      RequestIdsTell(widget, own, random, older, r);
    }
  }

  // ---- Pushes over whole runs ----

  function WithoutPushes(events: seq<Event>): seq<Event> {
    if events == [] then []
    else WithoutPushes(events[..|events| - 1]) +
         (if events[|events| - 1].Pushed? then [] else [events[|events| - 1]])
  }

  /** No push in the run is for the request the slot then holds, or that request is cancelled. */
  ghost predicate PushesForeign(s: Sys, events: seq<Event>, u: Utf8)
    decreases |events|
  {
    events == [] ||
    (var before, e := events[..|events| - 1], events[|events| - 1];
     PushesForeign(s, before, u) && forall m | Runs(s, before, m, u) :: Foreign(m, e))
  }

  /** Foreign pushes leave no trace: the run without them ends in the same state. */
  lemma {:induction false} ForeignPushesLeaveNoTrace(s: Sys, events: seq<Event>, t: Sys, u: Utf8)
    requires Runs(s, events, t, u) && PushesForeign(s, events, u)
    ensures Runs(s, WithoutPushes(events), t, u)
    decreases |events|
  {
    if events != [] {
      var before, e := events[..|events| - 1], events[|events| - 1];
      var m :| Runs(s, before, m, u) && Enabled(m, e) && t == Step(m, e, u);
      ForeignPushesLeaveNoTrace(s, before, m, u);
      if e.Pushed? {
        assert t == m && WithoutPushes(before) + [] == WithoutPushes(before);
      } else {
        RunsSnoc(s, WithoutPushes(before), m, e, t, u);
      }
    }
  }

  /** Everything in between is a worker's step or a push that brings no text, and no count has wrapped. */
  ghost predicate Undisturbed(s: Sys, events: seq<Event>, u: Utf8)
    decreases |events|
  {
    events == [] ||
    (var before, e := events[..|events| - 1], events[|events| - 1];
     && !e.Cancelled? && !e.Claimed? && Undisturbed(s, before, u)
     && forall m | Runs(s, before, m, u) :: NoWrap(m) && Textless(m, e))
  }

  /** `t` has come from `s`: the same workers, the last with `more` output since, and the text that gives. */
  ghost predicate Continues(s: Sys, t: Sys, more: seq<string>, u: Utf8) {
    && Counted(t) && Current(t) && t.serial == s.serial
    && |t.workers| == |s.workers| && Last(t).sent == Last(s).sent + more
    && (Last(t).phase != Gone ==> t.slot.text == KeptAfter(s.slot.text, more))
    && (Last(t).phase == Gone ==>
          t.slot.text == KeptAfter(s.slot.text, more) || t.slot.text == Polished(u, KeptAfter(s.slot.text, more)))
    && (Last(s).phase == Gone ==> more == [] && t.slot.text == s.slot.text && Last(t).phase == Gone)
  }

  /** A push, if it is one, is foreign or leaves the text alone. */
  predicate Textless(s: Sys, e: Event) {
    Foreign(s, e) || (e.Pushed? && e.push.text == None)
  }

  lemma ContinuesStep(s: Sys, m: Sys, e: Event, more: seq<string>, u: Utf8) returns (next: seq<string>)
    requires s.workers != [] && Continues(s, m, more, u) && Enabled(m, e) && NoWrap(m) && Textless(m, e)
    requires !e.Cancelled? && !e.Claimed?
    ensures Continues(s, Step(m, e, u), next, u)
  {
    next := more;
    CountedStep(m, e, u);
    if e.Pushed? {
      assert Step(m, e, u).workers == m.workers && Step(m, e, u).slot.text == m.slot.text;
    } else if m.workers[e.at].serial != m.serial {
      assert e.at != |m.workers| - 1;
      StaleStepChangesNothing(m, e, u);
    } else {
      assert e.at == |m.workers| - 1;
      if e.Chunk? {
        next := more + [e.data];
        assert next[..|more|] == more;
        Assoc(Last(s).sent, more, [e.data]);
      }
    }
  }

  /**
   A push that is taken sets the text, and from then on the request's worker adds
   to that text what is kept of its later chunks, to be polished at the end. Once
   the worker is gone, as it soon is when the request went to cmacs, the text stays
   as pushed until the next push of a text.
   */
  lemma TextSincePush(s: Sys, p: Push, events: seq<Event>, t: Sys, u: Utf8) returns (more: seq<string>)
    requires Counted(s) && Current(s) && Taken(s.slot, p) && p.text.Some?
    requires Runs(Step(s, Pushed(p), u), events, t, u) && Undisturbed(Step(s, Pushed(p), u), events, u)
    ensures Current(t) && Last(t).sent == Last(s).sent + more
    ensures var text := KeptAfter(p.text.value, more);
            t.slot.text == text || (Last(t).phase == Gone && t.slot.text == Polished(u, text))
    ensures Last(s).phase == Gone ==> more == [] && t.slot.text == p.text.value
  {
    more := SinceState(Step(s, Pushed(p), u), events, t, u);
  }

  lemma {:induction false} SinceState(s: Sys, events: seq<Event>, t: Sys, u: Utf8) returns (more: seq<string>)
    requires Counted(s) && Current(s)
    requires Runs(s, events, t, u) && Undisturbed(s, events, u)
    ensures Continues(s, t, more, u)
    decreases |events|
  {
    if events == [] {
      more := [];
      assert Last(s).sent + [] == Last(s).sent;
    } else {
      var before, e := events[..|events| - 1], events[|events| - 1];
      var m :| Runs(s, before, m, u) && Enabled(m, e) && t == Step(m, e, u);
      more := SinceState(s, before, m, u);
      more := ContinuesStep(s, m, e, more, u);
    }
  }

  /** The event gives the slot no reason for an error: no worker fails, and no push carries one. */
  predicate Reasonless(e: Event) {
    !e.SpawnFailed? && !e.Exited? && (e.Pushed? ==> e.push.error == None)
  }

  /** A pushed error that is taken leaves the slot without a reason exactly when neither had one. */
  lemma PushedReason(s: Slot, p: Push)
    requires Taken(s, p) && p.state == Some("error")
    ensures Absorb(s, p).state == Failed
    ensures Absorb(s, p).error == None <==> p.error == None && s.error == None
  {
  }

  /**
   Without a reason from somewhere a slot keeps no error text over a whole run, and
   a pushed error then makes it failed without a reason exactly when it brings none.
   */
  lemma {:induction false} NoReasonNoText(s: Sys, events: seq<Event>, t: Sys, u: Utf8)
    requires Runs(s, events, t, u) && forall i | 0 <= i < |events| :: Reasonless(events[i])
    requires s.slot.error == None
    ensures t.slot.error == None
    ensures forall p: Push | Taken(t.slot, p) && p.state == Some("error") ::
              Absorb(t.slot, p).state == Failed && (Absorb(t.slot, p).error == None <==> p.error == None)
    decreases |events|
  {
    if events != [] {
      var before, e := events[..|events| - 1], events[|events| - 1];
      var m :| Runs(s, before, m, u) && Enabled(m, e) && t == Step(m, e, u);
      NoReasonNoText(s, before, m, u);
    }
    forall p: Push | Taken(t.slot, p) && p.state == Some("error")
      ensures Absorb(t.slot, p).state == Failed && (Absorb(t.slot, p).error == None <==> p.error == None)
    {
      PushedReason(t.slot, p);
    }
  }
}
