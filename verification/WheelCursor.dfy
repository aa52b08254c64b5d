/**
 The key wheel's cursor: what a key press, a click or a new set of binds does to
 the selection, and what Enter then runs.
 */
module WheelCursor {
  import opened Text
  import opened KeyWheel
  import opened WheelSpokes

  /** The selection: a spoke (or -1) and a ring on a wheel face, a row (or -1) on a list face. */
  datatype Cursor = Cursor(face: Face, spoke: int, ring: Ring, alt: bool, keysym: nat, row: int)

  datatype KeyResult = Ignored | Claimed | Moved | Search

  datatype Step = Step(cursor: Cursor, result: KeyResult)

  /** The Beyond list names configured binds. */
  ghost predicate Sound(model: Model) {
    forall i | 0 <= i < |model.beyond| :: model.beyond[i] < |model.binds|
  }

  // ---- Faces ----

  function FaceCount(model: Model): (n: nat)
    ensures n == 4 || n == 5
  {
    if model.emacs > 0 then 5 else 4
  }

  function FaceIndex(face: Face): (i: nat)
    ensures i < 5 && FaceAt(i) == face
  {
    match face case Core => 0 case Letters => 1 case Keys => 2 case Beyond => 3 case Emacs => 4
  }

  function FaceAt(i: nat): Face
    requires i < 5
  {
    if i == 0 then Core else if i == 1 then Letters else if i == 2 then Keys else if i == 3 then Beyond else Emacs
  }

  function ListLen(model: Model, face: Face): nat {
    match face
    case Beyond => |model.beyond|
    case Emacs => model.emacs
    case _ => 0
  }

  const OPENED := Cursor(Core, -1, RingSuper, false, 0, -1)

  function Around(i: int, n: nat): (at: nat)
    requires n == 4 || n == 5
    ensures at < n && (0 <= i < n ==> at == i)
  {
    i % n
  }

  /** The face `step` turns away, around the circle of faces. */
  function TurnFace(model: Model, c: Cursor, step: int): Cursor {
    var face := FaceAt(Around(FaceIndex(c.face) + step, FaceCount(model)));
    if face == c.face then c else c.(face := face, spoke := -1, row := -1, keysym := 0)
  }

  /** The remainder of the C operator %, which has the sign of the dividend. */
  function Remainder(a: int, n: nat): (r: int)
    requires n > 0
    ensures r < n && -r < n && (a >= 0 ==> r >= 0) && (a <= 0 ==> r <= 0)
  {
    if a >= 0 then a % n else -(-a % n)
  }

  lemma RemainderWraps(a: int, n: nat)
    requires n == 4 || n == 5
    ensures Around(a, n) == if Remainder(a, n) < 0 then Remainder(a, n) + n else Remainder(a, n)
  {
  }

  /** Turning twice is turning once by the sum; so turning back undoes a turn. */
  lemma TurnsAdd(model: Model, c: Cursor, a: int, b: int)
    requires FaceIndex(c.face) < FaceCount(model)
    ensures TurnFace(model, TurnFace(model, c, a), b).face == TurnFace(model, c, a + b).face
    ensures TurnFace(model, TurnFace(model, c, a), -a).face == c.face
  {
    hide TurnFace, FaceCount, FaceIndex, FaceAt, Around;
    TurnLands(model, c, a);
    TurnLands(model, TurnFace(model, c, a), b);
    TurnLands(model, TurnFace(model, c, a), -a);
    TurnLands(model, c, a + b);
    AroundTwice(FaceIndex(c.face) + a, b, FaceCount(model));
    AroundTwice(FaceIndex(c.face) + a, -a, FaceCount(model));
  }

  lemma TurnLands(model: Model, c: Cursor, step: int)
    ensures FaceIndex(TurnFace(model, c, step).face) == Around(FaceIndex(c.face) + step, FaceCount(model))
  {
  }

  /** The remainder is the only one of the n places that differs from the number by turns of the circle. */
  lemma AroundIs(i: int, turns: int, at: nat, n: nat)
    requires (n == 4 || n == 5) && at < n
    ensures Around(i, n) == at <== i == n * turns + at
  {
  }

  lemma AroundTwice(a: int, b: int, n: nat)
    requires n == 4 || n == 5
    ensures Around(Around(a, n) + b, n) == Around(a + b, n)
  {
    var at := Around(Around(a, n) + b, n);
    if n == 4 {
      AroundIs(a + b, a / 4 + (a % 4 + b) / 4, at, 4);
    } else {
      AroundIs(a + b, a / 5 + (a % 5 + b) / 5, at, 5);
    }
  }

  // ---- Keys ----

  /** The modifier a modifier key stands for, 0 for a lock or a layer. */
  function ModifierKey(keysym: nat): Option<Mods> {
    match keysym
    case 0xffe1 => Some(SHIFT)
    case 0xffe2 => Some(SHIFT)
    case 0xffe3 => Some(CTRL)
    case 0xffe4 => Some(CTRL)
    case 0xffe9 => Some(ALT)
    case 0xffea => Some(ALT)
    case 0xffe7 => Some(ALT)   // Meta
    case 0xffe8 => Some(ALT)
    case 0xffeb => Some(LOGO)
    case 0xffec => Some(LOGO)
    case 0xffed => Some(LOGO)  // Hyper
    case 0xffee => Some(LOGO)
    case 0xfe03 => Some(0)     // ISO_Level3_Shift
    case 0xfe11 => Some(0)     // ISO_Level5_Shift
    case 0xffe5 => Some(0)     // Caps_Lock
    case 0xff7f => Some(0)     // Num_Lock
    case 0xff7e => Some(0)     // Mode_switch
    case _ => None
  }

  datatype Navigation = PageUp | PageDown | Left | Right | Outward | Inward

  function NavigationKey(keysym: nat): Option<Navigation> {
    match keysym
    case 0xff55 => Some(PageUp)
    case 0xff9a => Some(PageUp)
    case 0xff56 => Some(PageDown)
    case 0xff9b => Some(PageDown)
    case 0xff51 => Some(Left)
    case 0xff53 => Some(Right)
    case 0xff52 => Some(Outward)  // Up
    case 0xff50 => Some(Outward)  // Home
    case 0xff54 => Some(Inward)   // Down
    case 0xff57 => Some(Inward)   // End
    case _ => None
  }

  const SLASH: nat := 0x2f

  /** A lone Shift or Ctrl previews its ring, both the hub; Alt flips. */
  function Preview(c: Cursor, which: Mods): Step {
    if which == SHIFT then
      Step(c.(ring := if c.ring.RingCtrl? || c.ring.RingHub? then RingHub else RingShift), Moved)
    else if which == CTRL then
      Step(c.(ring := if c.ring.RingShift? || c.ring.RingHub? then RingHub else RingCtrl), Moved)
    else if which == ALT then Step(c.(alt := !c.alt), Moved)
    else Step(c, Claimed)
  }

  function Walk(model: Model, c: Cursor, back: bool): Cursor {
    var n := |Spokes(model, c.face)|;
    if n == 0 then TurnFace(model, c, if back then -1 else 1)
    else if c.spoke < 0 then c.(spoke := 0, keysym := 0)
    else c.(spoke := (if back then c.spoke + n - 1 else c.spoke + 1) % n, keysym := 0)
  }

  function Outer(ring: Ring): Ring {
    match ring case RingHub => RingCtrl case RingCtrl => RingShift case _ => RingSuper
  }

  function Inner(ring: Ring): Ring {
    match ring case RingSuper => RingShift case RingShift => RingCtrl case _ => RingHub
  }

  function Navigate(model: Model, c: Cursor, nav: Navigation): Cursor {
    match nav
    case PageUp => TurnFace(model, c, -1)
    case PageDown => TurnFace(model, c, 1)
    case Left => Walk(model, c, true)
    case Right => Walk(model, c, false)
    case Outward => c.(ring := Outer(c.ring))
    case Inward => c.(ring := Inner(c.ring))
  }

  /** The face a key lands on: this one if it has the spoke, else Core, Letters, Keys. */
  function Where(model: Model, face: Face, key: nat): (at: Option<Face>)
    ensures at.Some? ==> IsWheel(at.value) && FindSpoke(Spokes(model, at.value), key).Some?
    ensures at.Some? <==> HasSpoke(model, key)
  {
    if FindSpoke(Spokes(model, face), key).Some? then Some(face)
    else if FindSpoke(model.core, key).Some? then Some(Core)
    else if FindSpoke(model.letters, key).Some? then Some(Letters)
    else if FindSpoke(model.keys, key).Some? then Some(Keys)
    else None
  }

  /** The first row of the Beyond list whose bind is on the key. */
  function FindRow(model: Model, key: nat, from: nat): (row: Option<nat>)
    requires Sound(model) && from <= |model.beyond|
    ensures row.Some? ==> from <= row.value < |model.beyond| && KeyOf(model, model.beyond[row.value]) == key
    ensures forall i | from <= i < (if row.Some? then row.value else |model.beyond|) ::
              KeyOf(model, model.beyond[i]) != key
    decreases |model.beyond| - from
  {
    if from == |model.beyond| then None
    else if KeyOf(model, model.beyond[from]) == key then Some(from)
    else FindRow(model, key, from + 1)
  }

  function Jump(model: Model, c: Cursor, key: nat, mods: Mods): Step
    requires Sound(model)
  {
    var face := Where(model, c.face, key);
    if face.Some? then
      Step(Cursor(face.value, FindSpoke(Spokes(model, face.value), key).value, RingOf(mods), Has(mods, ALT), key, -1),
           Moved)
    else
      var row := FindRow(model, key, 0);
      if row.Some? then Step(c.(face := Beyond, spoke := -1, row := row.value, keysym := key), Moved)
      else Step(c, Claimed)
  }

  /** What one key press in the panel means. */
  function HandleKey(model: Model, c: Cursor, keysym: nat, mods: Mods): Step
    requires Sound(model)
  {
    if ModifierKey(keysym).Some? then Preview(c, ModifierKey(keysym).value)
    else if Has(mods, LOGO) then Step(c, Ignored)
    else if NavigationKey(keysym).Some? then Step(Navigate(model, c, NavigationKey(keysym).value), Moved)
    else if keysym == SLASH && !Has(mods, SHIFT | CTRL | ALT) then Step(c, Search)
    else Jump(model, c, Normalize(model.keymap, keysym), mods)
  }

  /** A click on a cell: the new selection, and whether it already was the selection. */
  function SelectCell(model: Model, c: Cursor, spoke: nat, ring: Ring): (Cursor, bool) {
    if c.spoke == spoke && c.ring == ring then (c, true)
    else
      var spokes := Spokes(model, c.face);
      var keysym := if spoke < |spokes| && spokes[spoke].keysyms != [] then spokes[spoke].keysyms[0] else 0;
      (c.(spoke := spoke, ring := ring, row := -1, keysym := keysym), false)
  }

  /** What Enter runs: an index into the configured binds. */
  function RunTarget(model: Model, c: Cursor): (at: Option<nat>)
    ensures at.Some? ==> at.value < |model.binds|
  {
    if IsWheel(c.face) then
      if c.spoke < 0 then None
      else Cell(model, Spokes(model, c.face), c.spoke, c.ring, c.alt, c.keysym)
    else if c.face.Beyond? && 0 <= c.row < |model.beyond| && model.beyond[c.row] < |model.binds| then
      Some(model.beyond[c.row])
    else None
  }

  /** A new snapshot of the binds has arrived: give up a selection it does not have. */
  function Clamp(model: Model, c: Cursor): Cursor {
    var in0 := if FaceIndex(c.face) >= FaceCount(model) then OPENED else c;
    var in1 := if in0.spoke >= |Spokes(model, in0.face)| then in0.(spoke := -1) else in0;
    if in1.row >= ListLen(model, in1.face) then in1.(row := -1) else in1
  }

  // ---- The cursor itself ----

  class WheelCursor {
    var face: Face
    var spoke: int
    var ring: Ring
    var alt: bool
    var keysym: nat
    var row: int

    function Value(): Cursor
      reads this
    {
      Cursor(face, spoke, ring, alt, keysym, row)
    }

    constructor ()
      ensures Value() == OPENED
    {
      face, spoke, ring, alt, keysym, row := Core, -1, RingSuper, false, 0, -1;
    }

    method Reset()
      modifies this
      ensures Value() == OPENED
    {
      face, spoke, ring, alt, keysym, row := Core, -1, RingSuper, false, 0, -1;
    }

    method Turn(model: Model, step: int)
      modifies this
      ensures Value() == TurnFace(model, old(Value()), step)
    {
      var n := FaceCount(model);
      var f := Remainder(FaceIndex(face) + step, n);
      RemainderWraps(FaceIndex(face) + step, n);
      if f < 0 {
        f := f + n;
      }
      if f != FaceIndex(face) {
        spoke, row, keysym := -1, -1, 0;
      }
      face := FaceAt(f);
    }

    method Land(at: Face, spoke: int, key: nat, mods: Mods)
      modifies this
      ensures Value() == Cursor(at, spoke, RingOf(mods), Has(mods, ALT), key, -1)
    {
      var shift, ctrl := Has(mods, SHIFT), Has(mods, CTRL);
      face, this.spoke, keysym, row := at, spoke, key, -1;
      alt := Has(mods, ALT);
      if shift && ctrl {
        ring := RingHub;
      } else if shift {
        ring := RingShift;
      } else if ctrl {
        ring := RingCtrl;
      } else {
        ring := RingSuper;
      }
    }

    method PreviewKey(which: Mods) returns (result: KeyResult)
      modifies this
      ensures Step(Value(), result) == Preview(old(Value()), which)
    {
      if which == SHIFT {
        ring := if ring.RingCtrl? || ring.RingHub? then RingHub else RingShift;
        return Moved;
      } else if which == CTRL {
        ring := if ring.RingShift? || ring.RingHub? then RingHub else RingCtrl;
        return Moved;
      } else if which == ALT {
        alt := !alt;
        return Moved;
      }
      return Claimed;
    }

    method NavigateKey(model: Model, nav: Navigation)
      modifies this
      ensures Value() == Navigate(model, old(Value()), nav)
    {
      match nav {
        case PageUp => Turn(model, -1);
        case PageDown => Turn(model, 1);
        case Outward =>
          if !ring.RingSuper? {
            ring := Outer(ring);
          }
        case Inward =>
          if !ring.RingHub? {
            ring := Inner(ring);
          }
        case Left => WalkKey(model, true);
        case Right => WalkKey(model, false);
      }
    }

    method WalkKey(model: Model, back: bool)
      modifies this
      ensures Value() == Walk(model, old(Value()), back)
    {
      var n := |Spokes(model, face)|;
      if n == 0 {
        Turn(model, if back then -1 else 1);
        return;
      }
      if spoke < 0 {
        spoke := 0;
      } else if back {
        spoke := (spoke + n - 1) % n;
      } else {
        spoke := (spoke + 1) % n;
      }
      keysym := 0;
    }

    method JumpKey(model: Model, key: nat, mods: Mods) returns (result: KeyResult)
      requires Sound(model)
      modifies this
      ensures Step(Value(), result) == Jump(model, old(Value()), key, mods)
    {
      if IsWheel(face) {
        var here := ScanSpokes(model, face, key);
        if here.Some? {
          Land(face, here.value, key, mods);
          return Moved;
        }
      }
      var order := [Core, Letters, Keys];
      for i := 0 to |order|
        invariant Value() == old(Value())
        invariant FindSpoke(Spokes(model, face), key).None?
        invariant i > 0 ==> FindSpoke(model.core, key).None?
        invariant i > 1 ==> FindSpoke(model.letters, key).None?
        invariant i > 2 ==> FindSpoke(model.keys, key).None?
      {
        var at := ScanSpokes(model, order[i], key);
        if at.Some? {
          Land(order[i], at.value, key, mods);
          return Moved;
        }
      }
      for i := 0 to |model.beyond|
        invariant Value() == old(Value())
        invariant FindRow(model, key, i) == FindRow(model, key, 0)
      {
        if Normalize(model.keymap, model.binds[model.beyond[i]].keysym) == key {
          face, spoke, row, keysym := Beyond, -1, i, key;
          return Moved;
        }
      }
      return Claimed;
    }

    method Press(model: Model, keysym: nat, mods: Mods) returns (result: KeyResult)
      requires Sound(model)
      modifies this
      ensures Step(Value(), result) == HandleKey(model, old(Value()), keysym, mods)
    {
      hide Jump, Navigate, Preview, Normalize, ModifierKey, NavigationKey;
      var which := ModifierKey(keysym);
      if which.Some? {
        result := PreviewKey(which.value);
        return;
      }
      if Has(mods, LOGO) {
        return Ignored;
      }
      var nav := NavigationKey(keysym);
      if nav.Some? {
        NavigateKey(model, nav.value);
        return Moved;
      }
      if keysym == SLASH && !Has(mods, SHIFT | CTRL | ALT) {
        return Search;
      }
      result := JumpKey(model, Normalize(model.keymap, keysym), mods);
    }

    method Click(model: Model, at: nat, on: Ring) returns (again: bool)
      modifies this
      ensures (Value(), again) == SelectCell(model, old(Value()), at, on)
    {
      if spoke == at && ring == on {
        return true;
      }
      var spokes := Spokes(model, face);
      spoke, ring, row := at, on, -1;
      keysym := if at < |spokes| && |spokes[at].keysyms| > 0 then spokes[at].keysyms[0] else 0;
      return false;
    }

    method Enter(model: Model) returns (found: bool, modifiers: Mods, keysym: nat, flags: Mods)
      ensures found == RunTarget(model, Value()).Some?
      ensures found ==> Bind(modifiers, keysym, flags) == model.binds[RunTarget(model, Value()).value]
    {
      hide Chord;
      found, modifiers, keysym, flags := false, 0, 0, 0;
      var at: Option<nat> := None;
      if IsWheel(face) {
        if spoke < 0 {
          return;
        }
        at := ScanCell(model, face, spoke, ring, alt, this.keysym);
      } else if face.Beyond? && 0 <= row < |model.beyond| && model.beyond[row] < |model.binds| {
        at := Some(model.beyond[row]);
      }
      if at.Some? {
        var bind := model.binds[at.value];
        return true, bind.modifiers, bind.keysym, bind.flags;
      }
    }

    method Install(model: Model)
      modifies this
      ensures Value() == Clamp(model, old(Value()))
    {
      if FaceIndex(face) >= FaceCount(model) {
        Reset();
      }
      if spoke >= |Spokes(model, face)| {
        spoke := -1;
      }
      if row >= ListLen(model, face) {
        row := -1;
      }
    }
  }

  // ---- Whole runs ----

  /** The cursor points at something the model has, and not at a spoke and a row at once. */
  ghost predicate Valid(model: Model, c: Cursor) {
    && FaceIndex(c.face) < FaceCount(model)
    && if IsWheel(c.face) then -1 <= c.spoke < |Spokes(model, c.face)| && c.row == -1
       else c.spoke == -1 && -1 <= c.row < ListLen(model, c.face)
  }

  /** What can happen to an open wheel. A click reaches a cell only where one is drawn. */
  datatype Event =
    | Key(keysym: nat, mods: Mods)
    | Scroll(step: int)
    | Pick(spoke: nat, ring: Ring)
    | Flip
    | Close
    | Snapshot(model: Model)

  datatype Wheel = Wheel(model: Model, cursor: Cursor)

  function Apply(w: Wheel, event: Event): Wheel
    requires Sound(w.model)
  {
    match event
    case Key(keysym, mods) => w.(cursor := HandleKey(w.model, w.cursor, keysym, mods).cursor)
    case Scroll(step) => w.(cursor := TurnFace(w.model, w.cursor, step))
    case Pick(spoke, ring) =>
      if spoke < |Spokes(w.model, w.cursor.face)| then w.(cursor := SelectCell(w.model, w.cursor, spoke, ring).0) else w
    case Flip => w.(cursor := w.cursor.(alt := !w.cursor.alt))
    case Close => w.(cursor := OPENED)
    case Snapshot(model) => Wheel(model, Clamp(model, w.cursor))
  }

  ghost predicate SoundEvents(events: seq<Event>) {
    forall i | 0 <= i < |events| && events[i].Snapshot? :: Sound(events[i].model)
  }

  function Play(w: Wheel, events: seq<Event>): Wheel
    requires Sound(w.model) && SoundEvents(events)
    decreases |events|
  {
    if events == [] then w else Play(Apply(w, events[0]), events[1..])
  }

  lemma KeyKeepsValid(model: Model, c: Cursor, keysym: nat, mods: Mods)
    requires Sound(model) && Valid(model, c)
    ensures Valid(model, HandleKey(model, c, keysym, mods).cursor)
  {
    hide ModifierKey, NavigationKey, Normalize, Jump, Navigate, Valid, Has;
    if ModifierKey(keysym).Some? {
      PreviewKeepsValid(model, c, ModifierKey(keysym).value);
    } else if NavigationKey(keysym).Some? {
      NavigateKeepsValid(model, c, NavigationKey(keysym).value);
    }
    JumpKeepsValid(model, c, Normalize(model.keymap, keysym), mods);
  }

  lemma PreviewKeepsValid(model: Model, c: Cursor, which: Mods)
    requires Valid(model, c)
    ensures Valid(model, Preview(c, which).cursor)
  {
  }

  lemma NavigateKeepsValid(model: Model, c: Cursor, nav: Navigation)
    requires Valid(model, c)
    ensures Valid(model, Navigate(model, c, nav))
  {
    hide Around;
  }

  lemma JumpKeepsValid(model: Model, c: Cursor, key: nat, mods: Mods)
    requires Sound(model) && Valid(model, c)
    ensures Valid(model, Jump(model, c, key, mods).cursor)
  {
    hide RingOf, Has, KeyOf;
  }

  lemma ApplyKeepsValid(w: Wheel, event: Event)
    requires Sound(w.model) && Valid(w.model, w.cursor)
    ensures Valid(Apply(w, event).model, Apply(w, event).cursor)
  {
    hide HandleKey;
    if event.Key? {
      KeyKeepsValid(w.model, w.cursor, event.keysym, event.mods);
    }
  }

  /** However the wheel is used, and however the binds change under it, its selection exists. */
  lemma {:induction false} AlwaysValid(w: Wheel, events: seq<Event>)
    requires Sound(w.model) && SoundEvents(events) && Valid(w.model, w.cursor)
    ensures Valid(Play(w, events).model, Play(w, events).cursor)
    decreases |events|
  {
    hide Valid, Apply, Sound;
    if events != [] {
      assert Sound(Apply(w, events[0]).model) by { SoundStep(w, events); }
      ApplyKeepsValid(w, events[0]);
      AlwaysValid(Apply(w, events[0]), events[1..]);
    }
  }

  lemma SoundStep(w: Wheel, events: seq<Event>)
    requires Sound(w.model) && SoundEvents(events) && events != []
    ensures Sound(Apply(w, events[0]).model)
  {
    hide HandleKey, Sound, TurnFace, SelectCell, Clamp;
  }

  /** The wheel opens valid. */
  lemma OpensValid(keymap: Keymap, binds: seq<Bind>, emacs: nat)
    ensures Sound(Finished(keymap, binds, emacs)) && Valid(Finished(keymap, binds, emacs), OPENED)
  {
    hide OnWheel, CoreSpokes, KeySpokes, Overflow;
  }

  // ---- What each key does ----

  /** How far a ring is from the rim. */
  function Depth(ring: Ring): nat {
    match ring case RingSuper => 0 case RingShift => 1 case RingCtrl => 2 case RingHub => 3
  }

  /** The faces in order, and back to the first; the Emacs face is there when it has something. */
  lemma FacesInOrder(model: Model, c: Cursor)
    requires FaceIndex(c.face) < FaceCount(model)
    ensures var next := TurnFace(model, c, 1).face;
            && (c.face.Core? ==> next.Letters?) && (c.face.Letters? ==> next.Keys?) && (c.face.Keys? ==> next.Beyond?)
            && (c.face.Beyond? ==> if model.emacs > 0 then next.Emacs? else next.Core?)
            && (c.face.Emacs? ==> next.Core?)
    ensures var turned := TurnFace(model, c, 1); turned == Cursor(turned.face, -1, c.ring, c.alt, 0, -1)
  {
  }

  /**
   Page Up and Page Down turn one face back and on, on the keypad too. Up and Home
   step one ring out, Down and End one in, as far as there is one.
   */
  lemma NavigationSteps(model: Model, c: Cursor, keysym: nat, mods: Mods)
    requires Sound(model) && !Has(mods, LOGO)
    ensures var step := HandleKey(model, c, keysym, mods);
            && (keysym == 0xff55 || keysym == 0xff9a ==> step == Step(TurnFace(model, c, -1), Moved))
            && (keysym == 0xff56 || keysym == 0xff9b ==> step == Step(TurnFace(model, c, 1), Moved))
            && (keysym == 0xff52 || keysym == 0xff50 ==>
                  step == Step(c.(ring := step.cursor.ring), Moved) &&
                  Depth(step.cursor.ring) == if c.ring.RingSuper? then 0 else Depth(c.ring) - 1)
            && (keysym == 0xff54 || keysym == 0xff57 ==>
                  step == Step(c.(ring := step.cursor.ring), Moved) &&
                  Depth(step.cursor.ring) == if c.ring.RingHub? then 3 else Depth(c.ring) + 1)
  {
    hide TurnFace, Jump, Walk;
  }

  /** Left and Right go to the spoke before and behind, round the end; from none to the first; on a list they turn. */
  lemma ArrowSteps(model: Model, c: Cursor, mods: Mods)
    requires Sound(model) && Valid(model, c) && !Has(mods, LOGO)
    ensures var n, left, right := |Spokes(model, c.face)|, HandleKey(model, c, 0xff51, mods), HandleKey(model, c, 0xff53, mods);
            if n == 0 then left == Step(TurnFace(model, c, -1), Moved) && right == Step(TurnFace(model, c, 1), Moved)
            else
              && left == Step(c.(keysym := 0, spoke := if c.spoke < 0 then 0 else if c.spoke == 0 then n - 1 else c.spoke - 1), Moved)
              && right == Step(c.(keysym := 0, spoke := if c.spoke < 0 || c.spoke == n - 1 then 0 else c.spoke + 1), Moved)
  {
    hide TurnFace, Jump, IsWheel;
    var n := |Spokes(model, c.face)|;
    if n > 0 && c.spoke >= 0 {
      WalkRound(c.spoke, n);
      WalkRound(n - 1, n);
      if c.spoke > 0 {
        WalkRound(c.spoke - 1, n);
        assert c.spoke + n - 1 == (c.spoke - 1) + n;
      }
      if c.spoke < n - 1 {
        WalkRound(c.spoke + 1, n);
      }
    }
  }

  /** Which modifier a lone key is: Shift, Ctrl, Alt and Meta, Super and Hyper, left and right, or one without a ring. */
  lemma LoneModifiers(keysym: nat)
    ensures var which := ModifierKey(keysym);
            && (which == Some(SHIFT) <==> 0xffe1 <= keysym <= 0xffe2)
            && (which == Some(CTRL) <==> 0xffe3 <= keysym <= 0xffe4)
            && (which == Some(ALT) <==> 0xffe7 <= keysym <= 0xffea)
            && (which == Some(LOGO) <==> 0xffeb <= keysym <= 0xffee)
            && (which == Some(0) <==> keysym in {0xfe03, 0xfe11, 0xffe5, 0xff7f, 0xff7e})
            && (which.Some? ==> which.value in {SHIFT, CTRL, ALT, LOGO, 0})
  {
  }

  /** A lone Shift or Ctrl lights the ring that has it too; Alt flips, and the others are claimed without effect. */
  lemma LoneModifierLights(model: Model, c: Cursor, keysym: nat, mods: Mods)
    requires Sound(model) && ModifierKey(keysym).Some?
    ensures var which, step := ModifierKey(keysym).value, HandleKey(model, c, keysym, mods);
            && (which == SHIFT || which == CTRL ==>
                  step == Step(c.(ring := step.cursor.ring), Moved) &&
                  RingMods(step.cursor.ring, c.alt) == RingMods(c.ring, c.alt) | which)
            && (which == ALT ==> step == Step(c.(alt := !c.alt), Moved))
            && (which == LOGO || which == 0 ==> step == Step(c, Claimed))
  {
    hide ModifierKey;
  }

  /**
   A click on the selected cell only reports that it is. A click on another selects
   it with its spoke's first key, so Enter then runs the first bind on that ring there.
   */
  lemma ClickThenEnter(model: Model, c: Cursor, spoke: nat, ring: Ring)
    requires IsWheel(c.face) && spoke < |Spokes(model, c.face)|
    ensures var after, again := SelectCell(model, c, spoke, ring).0, SelectCell(model, c, spoke, ring).1;
            if c.spoke == spoke && c.ring == ring then again && after == c
            else
              && !again && after == Cursor(c.face, spoke, ring, c.alt, after.keysym, -1)
              && RunTarget(model, after) == FirstOf(model, RingMods(ring, c.alt), Spokes(model, c.face)[spoke].keysyms)
  {
    hide Chord, RingMods;
  }

  /** New binds leave a cursor alone that they have everything for. */
  lemma ClampKeepsValid(model: Model, c: Cursor)
    requires Valid(model, c)
    ensures Clamp(model, c) == c
  {
  }

  // ---- Enter agrees with the chord ----

  lemma {:induction false} FirstOfIsABind(model: Model, want: Mods, keys: seq<nat>)
    ensures var at := FirstOf(model, want, keys);
            at.Some? ==> at.value < |model.binds| && KeyOf(model, at.value) in keys &&
                         model.binds[at.value].modifiers & MASK == want &&
                         Chord(model, want, KeyOf(model, at.value)) == at
    ensures FirstOf(model, want, keys).None? <==> forall key | key in keys :: Chord(model, want, key).None?
  {
    hide Chord, KeyOf;
    if keys != [] {
      ChordIsABind(model, want, keys[0]);
      hide FirstChord, IsChord;
      FirstOfIsABind(model, want, keys[1..]);
    }
  }

  lemma ChordIsABind(model: Model, want: Mods, key: nat)
    ensures var at := Chord(model, want, key);
            at.Some? ==> at.value < |model.binds| && KeyOf(model, at.value) == key &&
                         model.binds[at.value].modifiers & MASK == want
  {
    hide KeyOf;
    assert FirstChord(model, want, key, Chord(model, want, key));
  }

  /** A key the panel does not keep for itself. */
  predicate IsPlain(keysym: nat, mods: Mods) {
    ModifierKey(keysym).None? && NavigationKey(keysym).None? &&
    (keysym == SLASH ==> Has(mods, SHIFT | CTRL | ALT))
  }

  lemma SameRing(chord: Mods, mods: Mods)
    requires OnWheel(chord) && mods & (SHIFT | CTRL | ALT) == chord & (SHIFT | CTRL | ALT)
    ensures RingOf(mods) == RingOf(chord) && Has(mods, ALT) == Has(chord, ALT)
    ensures RingMods(RingOf(mods), Has(mods, ALT)) == chord & MASK
  {
    RingModsInvert(chord, RingOf(chord), Has(chord, ALT));
  }

  /**
   Pressing a wheel chord's key without Super, from any selection on any model,
   selects a spoke that stands for the key; Enter then runs the first configured
   bind of exactly that chord when there is one. When there is none, Enter runs
   something only if the spoke stands for other keys too, and one of those is
   bound on this ring.
   */
  lemma PressThenEnter(model: Model, c: Cursor, chord: Mods, keysym: nat, mods: Mods)
    requires Sound(model) && OnWheel(chord)
    requires !Has(mods, LOGO) && mods & (SHIFT | CTRL | ALT) == chord & (SHIFT | CTRL | ALT)
    requires IsPlain(keysym, mods) && HasSpoke(model, Normalize(model.keymap, keysym))
    ensures var key, step := Normalize(model.keymap, keysym), HandleKey(model, c, keysym, mods);
            var bound, spokes := Chord(model, chord & MASK, key), Spokes(model, step.cursor.face);
            && step.result == Moved
            && 0 <= step.cursor.spoke < |spokes| && key in spokes[step.cursor.spoke].keysyms
            && RunTarget(model, step.cursor) ==
               if bound.Some? then bound else FirstOf(model, chord & MASK, spokes[step.cursor.spoke].keysyms)
  {
    hide ModifierKey, NavigationKey, Normalize, Chord, RingMods, OnWheel, RingOf, Has, HasSpoke;
    SameRing(chord, mods);
  }

  /** So Enter runs a bind of the pressed key exactly when the chord is bound. */
  lemma EnterRunsTheKey(model: Model, c: Cursor, chord: Mods, keysym: nat, mods: Mods)
    requires Sound(model) && OnWheel(chord)
    requires !Has(mods, LOGO) && mods & (SHIFT | CTRL | ALT) == chord & (SHIFT | CTRL | ALT)
    requires IsPlain(keysym, mods) && HasSpoke(model, Normalize(model.keymap, keysym))
    ensures var key, want := Normalize(model.keymap, keysym), chord & MASK;
            var target := RunTarget(model, HandleKey(model, c, keysym, mods).cursor);
            target.Some? && KeyOf(model, target.value) == key <==>
            exists i: nat :: i < |model.binds| && IsChord(model, i, want, key)
  {
    hide ModifierKey, NavigationKey, Normalize, Chord, RingMods, OnWheel, RingOf, Has, HasSpoke, HandleKey, RunTarget;
    PressThenEnter(model, c, chord, keysym, mods);
    var key, after := Normalize(model.keymap, keysym), HandleKey(model, c, keysym, mods).cursor;
    var keys := Spokes(model, after.face)[after.spoke].keysyms;
    assert FirstChord(model, chord & MASK, key, Chord(model, chord & MASK, key));
    FirstOfIsABind(model, chord & MASK, keys);
  }

  /**
   A key with no spoke selects the first Beyond row on that key, whatever its
   modifiers, and Enter runs it; with no such row nothing moves.
   */
  lemma PressFindsBeyond(model: Model, c: Cursor, keysym: nat, mods: Mods)
    requires Sound(model) && !Has(mods, LOGO) && IsPlain(keysym, mods)
    requires !HasSpoke(model, Normalize(model.keymap, keysym))
    ensures var key, step := Normalize(model.keymap, keysym), HandleKey(model, c, keysym, mods);
            if exists i :: 0 <= i < |model.beyond| && KeyOf(model, model.beyond[i]) == key then
              var row := step.cursor.row;
              && step.result == Moved && step.cursor.face.Beyond? && 0 <= row < |model.beyond|
              && KeyOf(model, model.beyond[row]) == key
              && (forall i | 0 <= i < row :: KeyOf(model, model.beyond[i]) != key)
              && RunTarget(model, step.cursor) == Some(model.beyond[row])
            else step == Step(c, Claimed)
  {
    hide ModifierKey, NavigationKey, Normalize, HasSpoke, Has, RingOf;
  }

  /**
   From the opened wheel a wheel bind is reached by its own key, or by an earlier
   bind of the same chord, exactly when the panel does not keep that key for itself
   and there is room for it: it is a letter, or fewer than forty other keys rank
   before it, or it is on the Core face. With both it is reached from any selection.
   */
  lemma BindIsReached(keymap: Keymap, binds: seq<Bind>, emacs: nat, i: nat, c: Cursor, mods: Mods)
    requires i < |binds| && OnWheel(binds[i].modifiers)
    requires !Has(mods, LOGO)
    requires mods & (SHIFT | CTRL | ALT) == binds[i].modifiers & (SHIFT | CTRL | ALT)
    ensures var model, bare := Finished(keymap, binds, emacs), Bare(keymap, binds, emacs);
            var keysym, want, key := binds[i].keysym, binds[i].modifiers & MASK, KeyOf(model, i);
            && Sound(model)
            && (IsPlain(keysym, mods) && HasRoom(bare, key) ==> Reaches(model, c, keysym, mods, want, key))
            && (Caseless(keymap, LEFT, RIGHT) ==>
                  (Reaches(model, OPENED, keysym, mods, want, key) <==> IsPlain(keysym, mods) && HasRoom(bare, key)))
  {
    hide ModifierKey, NavigationKey, Normalize, Chord, RingMods, OnWheel, RingOf, Has, HasSpoke, HandleKey, RunTarget,
         CoreSpokes, KeySpokes, Overflow, HasRoom, IsPlain, Caseless;
    var model := Finished(keymap, binds, emacs);
    OpensValid(keymap, binds, emacs);
    var want, key := binds[i].modifiers & MASK, KeyOf(model, i);
    SpokesExactly(keymap, binds, emacs, key);
    assert IsChord(model, i, want, key);
    if !IsPlain(binds[i].keysym, mods) {
      if Caseless(keymap, LEFT, RIGHT) {
        OwnKeyRunsNothing(Bare(keymap, binds, emacs), model, binds[i].keysym, mods, want);
      }
    } else if HasSpoke(model, key) {
      PressThenEnter(model, c, binds[i].modifiers, binds[i].keysym, mods);
      PressThenEnter(model, OPENED, binds[i].modifiers, binds[i].keysym, mods);
      assert FirstChord(model, want, key, Chord(model, want, key));
    } else {
      NotReached(model, binds[i].modifiers, binds[i].keysym, mods);
    }
  }

  /** The keysyms of the arrows that walk the wheel. */
  const LEFT: nat := 0xff51
  const RIGHT: nat := 0xff53

  /** From the opened wheel the panel's own keys select nothing, but for the arrows, which select the first spoke. */
  lemma OwnKeySelects(model: Model, keysym: nat, mods: Mods)
    requires Sound(model) && !Has(mods, LOGO) && !IsPlain(keysym, mods)
    ensures var after := HandleKey(model, OPENED, keysym, mods).cursor;
            || (after.spoke == after.row == -1)
            || ((keysym == LEFT || keysym == RIGHT) && model.core != [] && after == OPENED.(spoke := 0))
  {
    hide Around, Has;
    if ModifierKey(keysym).Some? {
      hide NavigationKey;
    }
  }

  /** No Core spoke stands for an arrow that walks the wheel. */
  lemma NoArrowOnCore(bare: Model, key: nat)
    requires key == LEFT || key == RIGHT
    ensures FindSpoke(CoreSpokes(bare), key).None?
  {
    hide CoreKeys, KeyBound, CoreSpokes;
    CoreHolds(bare, key);
    forall j: nat ensures !EarlyEntry(bare, key, j) {
      if j < |CoreOrder()| {
        EntryKeys(bare, CoreOrder()[j], key);
      }
    }
  }

  /** So with Enter they do not run a bind on themselves. */
  lemma OwnKeyRunsNothing(bare: Model, model: Model, keysym: nat, mods: Mods, want: Mods)
    requires Sound(model) && !Has(mods, LOGO) && !IsPlain(keysym, mods) && Caseless(model.keymap, LEFT, RIGHT)
    requires model.core == CoreSpokes(bare)
    ensures !Reaches(model, OPENED, keysym, mods, want, Normalize(model.keymap, keysym))
  {
    hide ModifierKey, NavigationKey, Has, HandleKey, IsPlain, CoreSpokes, Chord;
    OwnKeySelects(model, keysym, mods);
    var after := HandleKey(model, OPENED, keysym, mods).cursor;
    if after.spoke == 0 {
      NoArrowOnCore(bare, keysym);
      FirstOfIsABind(model, RingMods(after.ring, after.alt), model.core[0].keysyms);
      ChordIsABind(model, RingMods(after.ring, after.alt), 0);
    }
  }

  /** With Super+Left alone configured Left has its spoke, but pressing it and Enter does not run the bind. */
  lemma ArrowKeepsItsMeaning(keymap: Keymap, emacs: nat)
    requires Caseless(keymap, LEFT, RIGHT)
    ensures var model := Finished(keymap, [Bind(LOGO, LEFT, 0)], emacs);
            Sound(model) && HasSpoke(model, LEFT) && !Reaches(model, OPENED, LEFT, 0, LOGO, LEFT)
  {
    hide HasSpoke, CoreSpokes, KeySpokes, Overflow, Reaches, RankAtMost, KeysBefore;
    var binds := [Bind(LOGO, LEFT, 0)];
    var bare := Bare(keymap, binds, emacs);
    assert OnWheel(LOGO) && LOGO & MASK == LOGO by { RingModsOnWheel(RingSuper, false); }
    assert KeyOf(bare, 0) == LEFT;
    hide Normalize, OnWheel, KeyOf;
    RankIsReflexive(LEFT);
    forall key ensures key !in KeysBefore(bare, LEFT) {
      InKeysBefore(bare, LEFT, key);
    }
    assert KeysBefore(bare, LEFT) == {};
    assert KeyBound(bare, LEFT);
    SpokesExactly(keymap, binds, emacs, LEFT);
    BindIsReached(keymap, binds, emacs, 0, OPENED, 0);
  }

  /** Pressing the key and then Enter runs the first configured bind of the chord. */
  ghost predicate Reaches(model: Model, c: Cursor, keysym: nat, mods: Mods, want: Mods, key: nat)
    requires Sound(model)
  {
    var target := RunTarget(model, HandleKey(model, c, keysym, mods).cursor);
    target.Some? && FirstChord(model, want, key, target)
  }

  lemma NotReached(model: Model, chord: Mods, keysym: nat, mods: Mods)
    requires Sound(model) && BeyondIsBeyond(model) && OnWheel(chord) && !Has(mods, LOGO) && IsPlain(keysym, mods)
    requires !HasSpoke(model, Normalize(model.keymap, keysym))
    ensures !Reaches(model, OPENED, keysym, mods, chord & MASK, Normalize(model.keymap, keysym))
  {
    hide ModifierKey, NavigationKey, Normalize, HasSpoke, Has, HandleKey, OnWheel, IsPlain;
    PressFindsBeyond(model, OPENED, keysym, mods);
    var target := RunTarget(model, HandleKey(model, OPENED, keysym, mods).cursor);
    if target.Some? {
      assert !OnWheel(model.binds[target.value].modifiers);
      MaskTells(model.binds[target.value].modifiers, chord);
    }
  }

  lemma MaskTells(m: Mods, n: Mods)
    requires !OnWheel(m) && OnWheel(n)
    ensures m & MASK != n & MASK
  {
  }

  /** The Beyond list has only binds that are not on the wheel. */
  ghost predicate BeyondIsBeyond(model: Model)
    requires Sound(model)
  {
    forall i | 0 <= i < |model.beyond| :: !OnWheel(model.binds[model.beyond[i]].modifiers)
  }

  lemma {:induction false} NoBeyond(model: Model, n: nat)
    requires n <= |model.binds| && forall i | 0 <= i < n :: OnWheel(model.binds[i].modifiers)
    ensures BeyondOf(model, n) == []
  {
    hide OnWheel;
    if n > 0 {
      NoBeyond(model, n - 1);
    }
  }

  /**
   A bind that cannot be run from the wheel: with the ten digits and F1 to F31 on
   Super there is no room for F31, and pressing it does nothing.
   */
  lemma LostBind(keymap: Keymap, emacs: nat)
    requires Caseless(keymap, 0x30, 0x39) && Caseless(keymap, 0xffbe, F31)
    ensures var model := Finished(keymap, ManyBinds(41), emacs);
            && model.binds[40] == Bind(LOGO, F31, 0) && Sound(model)
            && HandleKey(model, OPENED, F31, 0) == Step(OPENED, Claimed)
            && RunTarget(model, OPENED) == None
  {
    hide HasSpoke, CoreSpokes, KeySpokes, Overflow, OnWheel;
    var model := Finished(keymap, ManyBinds(41), emacs);
    OpensValid(keymap, ManyBinds(41), emacs);
    LastKeyIsLost(keymap, emacs);
    assert model.binds[40] == Bind(LOGO, F31, 0);
    assert IsPlain(F31, 0) && !Has(0, LOGO);
    assert OnWheel(LOGO) by { RingModsOnWheel(RingSuper, false); }
    NoBeyond(Bare(keymap, ManyBinds(41), emacs), 41);
    PressFindsBeyond(model, OPENED, F31, 0);
  }

  // ---- A digit that runs another ----

  /** Super+1, and 2 with Super and Shift only. */
  function TwoDigits(): seq<Bind> {
    [Bind(LOGO, 0x31, 0), Bind(LOGO | SHIFT, 0x32, 0)]
  }

  lemma DigitKeys(keymap: Keymap)
    requires Caseless(keymap, 0x31, 0x32)
    ensures Normalize(keymap, 0x31) == 0x31 && Normalize(keymap, 0x32) == 0x32
    ensures IsPlain(0x32, 0) && !Has(0, LOGO) && OnWheel(LOGO) && OnWheel(LOGO | SHIFT)
    ensures LOGO & MASK == LOGO && (LOGO | SHIFT) & MASK != LOGO
  {
  }

  /** Pressing 2 and then Enter runs Super+1, since both digits share a spoke and Super+2 is not bound. */
  lemma OtherDigitRuns(keymap: Keymap, emacs: nat)
    requires Caseless(keymap, 0x31, 0x32)
    ensures var model := Finished(keymap, TwoDigits(), emacs);
            && Sound(model) && KeyOf(model, 0) == 0x31
            && RunTarget(model, HandleKey(model, OPENED, 0x32, 0).cursor) == Some(0)
  {
    var model, bare := Finished(keymap, TwoDigits(), emacs), Bare(keymap, TwoDigits(), emacs);
    OpensValid(keymap, TwoDigits(), emacs);
    DigitKeys(keymap);
    assert KeyOf(bare, 0) == KeyOf(model, 0) == 0x31 && KeyOf(bare, 1) == KeyOf(model, 1) == 0x32;
    DigitsTogether(bare);
    RunsFirstDigit(model);
  }

  lemma RunsFirstDigit(model: Model)
    requires Sound(model) && model.binds == TwoDigits()
    requires Caseless(model.keymap, 0x31, 0x32)
    requires KeyOf(model, 0) == 0x31 && KeyOf(model, 1) == 0x32 && FindSpoke(model.core, 0x32).Some?
    requires forall i | 0 <= i < |model.core| && 0x32 in model.core[i].keysyms :: 0x31 in model.core[i].keysyms
    ensures RunTarget(model, HandleKey(model, OPENED, 0x32, 0).cursor) == Some(0)
  {
    DigitKeys(model.keymap);
    hide ModifierKey, NavigationKey, Normalize, OnWheel, Has, Chord, IsPlain, RunTarget, HandleKey, KeyOf;
    PressThenEnter(model, OPENED, LOGO, 0x32, 0);
    LandsOnCore(model, 0x32);
    var keys := model.core[HandleKey(model, OPENED, 0x32, 0).cursor.spoke].keysyms;
    FirstOfIsABind(model, LOGO, keys);
    assert FirstChord(model, LOGO, 0x32, Chord(model, LOGO, 0x32));
    assert FirstChord(model, LOGO, 0x31, Chord(model, LOGO, 0x31));
    assert IsChord(model, 0, LOGO, 0x31) && !IsChord(model, 1, LOGO, 0x32);
  }

  lemma LandsOnCore(model: Model, key: nat)
    requires Sound(model) && FindSpoke(model.core, key).Some? && Normalize(model.keymap, key) == key && IsPlain(key, 0)
    ensures HandleKey(model, OPENED, key, 0).cursor.face == Core
  {
  }

  lemma DigitsTogether(bare: Model)
    requires |bare.binds| == 2 && KeyOf(bare, 0) == 0x31 && KeyOf(bare, 1) == 0x32
    requires OnWheel(bare.binds[0].modifiers) && OnWheel(bare.binds[1].modifiers)
    ensures FindSpoke(CoreSpokes(bare), 0x32).Some?
    ensures forall i | 0 <= i < |CoreSpokes(bare)| && 0x32 in CoreSpokes(bare)[i].keysyms ::
              0x31 in CoreSpokes(bare)[i].keysyms
  {
    hide OnWheel, KeyOf, CoreSpokes;
    assert KeyBound(bare, 0x31) && KeyBound(bare, 0x32);
    DigitOnCore(bare, 0x32);
    CoreHolds(bare, 0x32);
    CoreIsFirstBound(bare);
    hide KeyBound, CoreKeys, CoreOrder;
    forall i | 0 <= i < |CoreSpokes(bare)| && 0x32 in CoreSpokes(bare)[i].keysyms
      ensures 0x31 in CoreSpokes(bare)[i].keysyms
    {
      DigitsShareASpoke(bare, CoreSpokes(bare), 0x32, 0x31, i);
    }
  }

  lemma WalkRound(s: nat, n: nat)
    requires s < n
    ensures s % n == s && (s + n) % n == s && n % n == 0
  {
  }

  /** A step left undoes a step right, round the end of the wheel too. */
  lemma LeftUndoesRight(model: Model, c: Cursor)
    requires Valid(model, c) && IsWheel(c.face) && c.spoke >= 0
    ensures Walk(model, Walk(model, c, false), true) == c.(keysym := 0)
  {
    hide Spokes, IsWheel, TurnFace;
    var n := |Spokes(model, c.face)|;
    WalkRound(c.spoke, n);
    WalkRound(n - 1, n);
    if c.spoke + 1 < n {
      WalkRound(c.spoke + 1, n);
    }
  }
}
