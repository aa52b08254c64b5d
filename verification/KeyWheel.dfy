/**
 The key wheel: which ring a chord is on, which spoke a key is on, what is in a
 cell.
 */
module KeyWheel {
  import opened Text

  type Mods = bv32

  const SHIFT: Mods := 1
  const CTRL: Mods := 4
  const ALT: Mods := 8
  const MOD3: Mods := 32
  const LOGO: Mods := 64
  const MOD5: Mods := 128

  /** The modifiers that decide where a chord is drawn. */
  const MASK: Mods := 1 | 4 | 8 | 32 | 64 | 128

  const MAX_SPOKES := 40
  const CORE_SPOKES := 12

  datatype Ring = RingSuper | RingShift | RingCtrl | RingHub

  datatype Face = Core | Letters | Keys | Beyond | Emacs

  /** One configured bind, kept exactly as configured. */
  datatype Bind = Bind(modifiers: Mods, keysym: nat, flags: Mods)

  /** What the panel asks the keyboard library: a keysym's lower case. */
  datatype Keymap = Keymap(lower: nat -> nat)

  /** The keys one spoke stands for. */
  datatype Spoke = Spoke(keysyms: seq<nat>)

  datatype Model = Model(keymap: Keymap, binds: seq<Bind>, core: seq<Spoke>, letters: seq<Spoke>, keys: seq<Spoke>,
                         beyond: seq<nat>, emacs: nat, overflow: nat)

  // ---- Chords ----

  predicate Has(m: Mods, bit: Mods) {
    m & bit != 0
  }

  /** Whether a chord is on the wheel: Super, and no Mod3 or Mod5 layer. */
  predicate OnWheel(m: Mods) {
    Has(m, LOGO) && !Has(m, MOD3 | MOD5)
  }

  function RingOf(m: Mods): Ring {
    if Has(m, SHIFT) && Has(m, CTRL) then RingHub
    else if Has(m, SHIFT) then RingShift
    else if Has(m, CTRL) then RingCtrl
    else RingSuper
  }

  function RingMods(ring: Ring, alt: bool): Mods {
    (match ring
     case RingSuper => LOGO
     case RingShift => LOGO | SHIFT
     case RingCtrl => LOGO | CTRL
     case RingHub => LOGO | SHIFT | CTRL)
    | (if alt then ALT else 0)
  }

  /** A wheel chord's ring and flip give its masked modifiers back, and only that ring and flip do. */
  lemma RingModsInvert(m: Mods, ring: Ring, alt: bool)
    requires OnWheel(m)
    ensures RingMods(ring, alt) == m & MASK <==> ring == RingOf(m) && alt == Has(m, ALT)
  {
  }

  /** Every ring and flip is some wheel chord's. */
  lemma RingModsOnWheel(ring: Ring, alt: bool)
    ensures var m := RingMods(ring, alt); OnWheel(m) && RingOf(m) == ring && Has(m, ALT) == alt && m & MASK == m
  {
  }

  /** The key behind a shifted symbol, on a US layout. */
  function Unshifted(keysym: nat): Option<nat> {
    match keysym
    case 0x21 => Some(0x31)  // exclam -> 1
    case 0x40 => Some(0x32)  // at -> 2
    case 0x23 => Some(0x33)  // numbersign -> 3
    case 0x24 => Some(0x34)  // dollar -> 4
    case 0x25 => Some(0x35)  // percent -> 5
    case 0x5e => Some(0x36)  // asciicircum -> 6
    case 0x26 => Some(0x37)  // ampersand -> 7
    case 0x2a => Some(0x38)  // asterisk -> 8
    case 0x28 => Some(0x39)  // parenleft -> 9
    case 0x29 => Some(0x30)  // parenright -> 0
    case 0x5f => Some(0x2d)  // underscore -> minus
    case 0x2b => Some(0x3d)  // plus -> equal
    case 0x7b => Some(0x5b)  // braceleft -> bracketleft
    case 0x7d => Some(0x5d)  // braceright -> bracketright
    case 0x7c => Some(0x5c)  // bar -> backslash
    case 0x3a => Some(0x3b)  // colon -> semicolon
    case 0x22 => Some(0x27)  // quotedbl -> apostrophe
    case 0x7e => Some(0x60)  // asciitilde -> grave
    case 0x3c => Some(0x2c)  // less -> comma
    case 0x3e => Some(0x2e)  // greater -> period
    case 0x3f => Some(0x2f)  // question -> slash
    case 0xfe20 => Some(0xff09)  // ISO_Left_Tab -> Tab
    case _ => None
  }

  /** The key a spoke is filed under. */
  function Normalize(keymap: Keymap, keysym: nat): nat {
    var plain := Unshifted(keysym);
    if plain.Some? then plain.value else keymap.lower(keysym)
  }

  function KeyOf(model: Model, i: nat): nat
    requires i < |model.binds|
  {
    Normalize(model.keymap, model.binds[i].keysym)
  }

  /**
   On a US layout each symbol of a shifted key is turned into the one without Shift,
   and so is the back tab; any other keysym has its lower case.
   */
  lemma NormalizeSays(keymap: Keymap, keysym: nat)
    ensures var shifted, plain := "!@#$%^&*()_+{}|:\"~<>?", "1234567890-=[]\\;'`,./";
            && |shifted| == |plain|
            && (forall i | 0 <= i < |shifted| && keysym == shifted[i] as int :: Normalize(keymap, keysym) == plain[i] as int)
            && (keysym == 0xfe20 ==> Normalize(keymap, keysym) == 0xff09)
            && (keysym != 0xfe20 && (forall i | 0 <= i < |shifted| :: keysym != shifted[i] as int) ==>
                  Normalize(keymap, keysym) == keymap.lower(keysym))
  {
    var shifted := "!@#$%^&*()_+{}|:\"~<>?";
    assert shifted[0] == '!' && shifted[1] == '@' && shifted[2] == '#' && shifted[3] == '$' && shifted[4] == '%';
    assert shifted[5] == '^' && shifted[6] == '&' && shifted[7] == '*' && shifted[8] == '(' && shifted[9] == ')';
    assert shifted[10] == '_' && shifted[11] == '+' && shifted[12] == '{' && shifted[13] == '}' && shifted[14] == '|';
    assert shifted[15] == ':' && shifted[16] == '\"' && shifted[17] == '~' && shifted[18] == '<' && shifted[19] == '>';
    assert shifted[20] == '?';
  }

  // ---- Spokes ----

  function IsWheel(face: Face): bool {
    face.Core? || face.Letters? || face.Keys?
  }

  function Spokes(model: Model, face: Face): seq<Spoke> {
    match face
    case Core => model.core
    case Letters => model.letters
    case Keys => model.keys
    case _ => []
  }

  /** The first spoke of the face that stands for `key`. */
  function FindSpoke(spokes: seq<Spoke>, key: nat): (at: Option<nat>)
    ensures at.None? <==> forall i | 0 <= i < |spokes| :: key !in spokes[i].keysyms
    ensures at.Some? ==> at.value < |spokes| && key in spokes[at.value].keysyms
    ensures at.Some? ==> forall i | 0 <= i < at.value :: key !in spokes[i].keysyms
  {
    if spokes == [] then None
    else if key in spokes[0].keysyms then Some(0)
    else
      var rest := FindSpoke(spokes[1..], key);
      assert forall i | 1 <= i < |spokes| :: spokes[i] == spokes[1..][i - 1];
      if rest.Some? then Some(rest.value + 1) else None
  }

  method ScanSpokes(model: Model, face: Face, key: nat) returns (at: Option<nat>)
    ensures at == FindSpoke(Spokes(model, face), key)
  {
    var spokes := Spokes(model, face);
    for i := 0 to |spokes|
      invariant forall k | 0 <= k < i :: key !in spokes[k].keysyms
    {
      for j := 0 to |spokes[i].keysyms|
        invariant key !in spokes[i].keysyms[..j]
      {
        if spokes[i].keysyms[j] == key {
          return Some(i);
        }
      }
      assert spokes[i].keysyms[..|spokes[i].keysyms|] == spokes[i].keysyms;
    }
    return None;
  }

  // ---- Cells ----

  /** The bind has these masked modifiers and this normalised key. */
  predicate IsChord(model: Model, i: nat, want: Mods, key: nat)
    requires i < |model.binds|
  {
    model.binds[i].modifiers & MASK == want && KeyOf(model, i) == key
  }

  /** The first configured bind of a chord, which is also the one the compositor runs. */
  ghost predicate FirstChord(model: Model, want: Mods, key: nat, found: Option<nat>) {
    match found
    case None => forall i: nat | i < |model.binds| :: !IsChord(model, i, want, key)
    case Some(at) =>
      at < |model.binds| && IsChord(model, at, want, key) && forall i: nat | i < at :: !IsChord(model, i, want, key)
  }

  function FindChord(model: Model, want: Mods, key: nat, from: nat): (found: Option<nat>)
    requires from <= |model.binds|
    requires forall i: nat | i < from :: !IsChord(model, i, want, key)
    ensures FirstChord(model, want, key, found)
    decreases |model.binds| - from
  {
    if from == |model.binds| then None
    else if IsChord(model, from, want, key) then Some(from)
    else FindChord(model, want, key, from + 1)
  }

  function Chord(model: Model, want: Mods, key: nat): (found: Option<nat>)
    ensures FirstChord(model, want, key, found)
  {
    FindChord(model, want, key, 0)
  }

  /** The first of these keys that has a bind, and that bind. */
  function FirstOf(model: Model, want: Mods, keys: seq<nat>): (found: Option<nat>)
    ensures found.Some? ==> found.value < |model.binds|
  {
    if keys == [] then None
    else if Chord(model, want, keys[0]).Some? then Chord(model, want, keys[0])
    else FirstOf(model, want, keys[1..])
  }

  /** The bind in one cell: of the preferred key if the spoke stands for it, else of its first bound key. */
  function Cell(model: Model, spokes: seq<Spoke>, at: nat, ring: Ring, alt: bool, prefer: nat): (found: Option<nat>)
    ensures found.Some? ==> found.value < |model.binds|
  {
    if at >= |spokes| then None
    else
      var want := RingMods(ring, alt);
      var keys := spokes[at].keysyms;
      if prefer in keys && Chord(model, want, prefer).Some? then Chord(model, want, prefer)
      else FirstOf(model, want, keys)
  }

  method ScanChord(model: Model, want: Mods, key: nat) returns (found: Option<nat>)
    ensures found == Chord(model, want, key)
  {
    for i := 0 to |model.binds|
      invariant forall k: nat | k < i :: !IsChord(model, k, want, key)
    {
      if model.binds[i].modifiers & MASK == want && Normalize(model.keymap, model.binds[i].keysym) == key {
        assert IsChord(model, i, want, key);
        return Some(i);
      }
    }
    return None;
  }

  method ScanCell(model: Model, face: Face, at: nat, ring: Ring, alt: bool, prefer: nat) returns (found: Option<nat>)
    ensures found == Cell(model, Spokes(model, face), at, ring, alt, prefer)
  {
    hide Chord;
    var spokes := Spokes(model, face);
    if at >= |spokes| {
      return None;
    }
    var want, keys := RingMods(ring, alt), spokes[at].keysyms;
    for j := 0 to |keys|
      invariant prefer in keys[..j] ==> Chord(model, want, prefer).None?
    {
      if keys[j] == prefer {
        found := ScanChord(model, want, keys[j]);
        if found.Some? {
          assert prefer in keys;
          return;
        }
      }
    }
    assert keys[..|keys|] == keys;
    for j := 0 to |keys|
      invariant FirstOf(model, want, keys) == FirstOf(model, want, keys[j..])
    {
      assert keys[j..][1..] == keys[j + 1..];
      found := ScanChord(model, want, keys[j]);
      if found.Some? {
        return;
      }
    }
    return None;
  }

  // ---- Laying binds out ----

  predicate IsLetter(key: nat) {
    0x61 <= key <= 0x7a
  }

  /** Some wheel chord is bound on the key. */
  ghost predicate KeyBound(model: Model, key: nat) {
    exists i: nat :: i < |model.binds| && OnWheel(model.binds[i].modifiers) && KeyOf(model, i) == key
  }

  /** The named keys, in the order the Keys face shows them. */
  function Named(): seq<nat> {
    [0xff0d, 0xff09, 0x20, 0xff1b, 0xff08, 0xffff, 0xff63, 0xff50,
     0xff57, 0xff55, 0xff56, 0xff51, 0xff52, 0xff53, 0xff54, 0xff61]
  }

  function Place(keys: seq<nat>, key: nat): (at: nat)
    ensures at <= |keys| && (at < |keys| <==> key in keys) && (at < |keys| ==> keys[at] == key)
  {
    if keys == [] then 0 else if keys[0] == key then 0 else 1 + Place(keys[1..], key)
  }

  /** Digits, then named keys, punctuation, function keys, and the rest; each in its own order. */
  function Rank(key: nat): (nat, nat) {
    if 0x30 <= key <= 0x39 then (0, if key == 0x30 then 10 else key - 0x30)
    else if key in Named() then (1, Place(Named(), key))
    else if 0x20 < key <= 0x7e then (2, key)
    else if 0xffbe <= key <= 0xffe0 then (3, key)
    else (4, key)
  }

  predicate RankAtMost(a: nat, b: nat) {
    Rank(a).0 < Rank(b).0 || (Rank(a).0 == Rank(b).0 && Rank(a).1 <= Rank(b).1)
  }

  function Insert(sorted: seq<nat>, key: nat): (out: seq<nat>)
    ensures multiset(out) == multiset(sorted) + multiset{key}
  {
    if sorted == [] || RankAtMost(key, sorted[0]) then [key] + sorted
    else
      assert sorted == [sorted[0]] + sorted[1..];
      [sorted[0]] + Insert(sorted[1..], key)
  }

  function Sort(keys: seq<nat>): (out: seq<nat>)
    ensures multiset(out) == multiset(keys)
  {
    if keys == [] then []
    else
      assert keys == [keys[0]] + keys[1..];
      Insert(Sort(keys[1..]), keys[0])
  }

  /** The keys of the wheel's binds that are not letters, each once, in file order. */
  function OtherKeys(model: Model, n: nat): seq<nat>
    requires n <= |model.binds|
  {
    if n == 0 then []
    else
      var keys := OtherKeys(model, n - 1);
      var key := KeyOf(model, n - 1);
      if !OnWheel(model.binds[n - 1].modifiers) || IsLetter(key) || key in keys then keys else keys + [key]
  }

  function BeyondOf(model: Model, n: nat): (at: seq<nat>)
    requires n <= |model.binds|
    ensures forall i | 0 <= i < |at| :: at[i] < n
    ensures forall i: nat | i < n :: i in at <==> !OnWheel(model.binds[i].modifiers)
  {
    if n == 0 then []
    else BeyondOf(model, n - 1) + (if OnWheel(model.binds[n - 1].modifiers) then [] else [n - 1])
  }

  function One(key: nat): Spoke {
    Spoke([key])
  }

  function Ones(keys: seq<nat>): (spokes: seq<Spoke>)
    ensures |spokes| == |keys|
  {
    seq(|keys|, i requires 0 <= i < |keys| => One(keys[i]))
  }

  function Alphabet(k: nat): (letters: seq<nat>)
    requires k <= 26
    ensures |letters| == k && forall i | 0 <= i < k :: letters[i] == 0x61 + i
  {
    if k == 0 then [] else Alphabet(k - 1) + [0x60 + k]
  }

  /** The digits 1 to 9 share one spoke on the Core face. */
  const DIGITS_SPOKE := 0xffff_ffff

  /** Core's keys in order of preference: Return, q, c, space, j, k, h, l, 1-9, Tab, f, p, then the fillers. */
  function CoreOrder(): seq<nat> {
    [0xff0d, 0x71, 0x63, 0x20, 0x6a, 0x6b, 0x68, 0x6c, DIGITS_SPOKE, 0xff09, 0x66, 0x70,
     0x6d, 0x74, 0x77, 0x73, 0x76, 0x72, 0x64, 0x69, 0x6e, 0x65,
     0x62, 0x67, 0x2c, 0x2e, 0x2f, 0xff1b, 0x30]
  }

  ghost function BoundDigits(model: Model, d: nat): (keys: seq<nat>)
    requires d <= 9
    decreases 9 - d
  {
    if d == 9 then []
    else if KeyBound(model, 0x31 + d) then [0x31 + d] + BoundDigits(model, d + 1)
    else BoundDigits(model, d + 1)
  }

  /** The bound keys that one entry of the preferences stands for. */
  ghost function CoreKeys(model: Model, entry: nat): seq<nat> {
    if entry == DIGITS_SPOKE then BoundDigits(model, 0)
    else if KeyBound(model, entry) then [entry] else []
  }

  /** Core spokes from this list of preferences, until there are twelve. */
  ghost function CoreOf(model: Model, order: seq<nat>, sofar: seq<Spoke>): seq<Spoke>
    decreases |order|
  {
    if order == [] || |sofar| >= CORE_SPOKES then sofar
    else
      var keys := CoreKeys(model, order[0]);
      CoreOf(model, order[1..], if keys == [] then sofar else sofar + [Spoke(keys)])
  }

  /** Every key the Keys face would like to show, in the face's order. */
  function KeyOrder(model: Model): seq<nat> {
    Sort(OtherKeys(model, |model.binds|))
  }

  function Shown(keys: seq<nat>): seq<nat> {
    if |keys| > MAX_SPOKES then keys[..MAX_SPOKES] else keys
  }

  function Bare(keymap: Keymap, binds: seq<Bind>, emacs: nat): Model {
    Model(keymap, binds, [], [], [], [], emacs, 0)
  }

  ghost function CoreSpokes(model: Model): seq<Spoke> {
    CoreOf(model, CoreOrder(), [])
  }

  function KeySpokes(model: Model): seq<Spoke> {
    Ones(Shown(KeyOrder(model)))
  }

  function Overflow(model: Model): nat {
    |KeyOrder(model)| - |Shown(KeyOrder(model))|
  }

  ghost function LaidOut(bare: Model): Model {
    Model(bare.keymap, bare.binds, CoreSpokes(bare), Ones(Alphabet(26)), KeySpokes(bare),
          BeyondOf(bare, |bare.binds|), bare.emacs, Overflow(bare))
  }

  /** The model laid out into faces. */
  ghost function Finished(keymap: Keymap, binds: seq<Bind>, emacs: nat): Model {
    LaidOut(Bare(keymap, binds, emacs))
  }

  method Finish(keymap: Keymap, binds: seq<Bind>, emacs: nat) returns (model: Model)
    ensures model == Finished(keymap, binds, emacs)
  {
    hide CoreSpokes, OnWheel, Normalize, Shown;
    var bare := Bare(keymap, binds, emacs);
    var letters := [];
    for k := 0 to 26
      invariant letters == Ones(Alphabet(26))[..k]
    {
      letters := letters + [One(0x61 + k)];
    }
    assert letters == Ones(Alphabet(26));
    var keys, beyond := SplitBinds(bare);
    var shown, overflow := ShowKeys(Sort(keys));
    var core := BuildCore(bare);
    model := Model(keymap, binds, core, letters, shown, beyond, emacs, overflow);
  }

  method SplitBinds(model: Model) returns (keys: seq<nat>, beyond: seq<nat>)
    ensures keys == OtherKeys(model, |model.binds|) && beyond == BeyondOf(model, |model.binds|)
  {
    hide OnWheel, Normalize;
    keys, beyond := [], [];
    for i := 0 to |model.binds|
      invariant keys == OtherKeys(model, i) && beyond == BeyondOf(model, i)
    {
      if !OnWheel(model.binds[i].modifiers) {
        beyond := beyond + [i];
        continue;
      }
      var key := Normalize(model.keymap, model.binds[i].keysym);
      if IsLetter(key) {
        continue;
      }
      var seen := false;
      for j := 0 to |keys|
        invariant seen <==> key in keys[..j]
      {
        if keys[j] == key {
          seen := true;
        }
      }
      assert keys[..|keys|] == keys;
      if !seen {
        keys := keys + [key];
      }
    }
  }

  method ShowKeys(keys: seq<nat>) returns (shown: seq<Spoke>, overflow: nat)
    ensures shown == Ones(Shown(keys)) && overflow == |keys| - |Shown(keys)|
  {
    shown, overflow := [], 0;
    for i := 0 to |keys|
      invariant i <= MAX_SPOKES && shown == Ones(keys)[..i]
    {
      if i >= MAX_SPOKES {
        overflow := |keys| - i;
        break;
      }
      shown := shown + [One(keys[i])];
    }
  }

  method ScanBound(model: Model, key: nat) returns (bound: bool)
    ensures bound == KeyBound(model, key)
  {
    hide OnWheel, Normalize;
    for i := 0 to |model.binds|
      invariant forall k: nat | k < i :: !(OnWheel(model.binds[k].modifiers) && KeyOf(model, k) == key)
    {
      if OnWheel(model.binds[i].modifiers) && Normalize(model.keymap, model.binds[i].keysym) == key {
        assert KeyOf(model, i) == key;
        return true;
      }
    }
    return false;
  }

  method ScanDigits(model: Model) returns (digits: seq<nat>)
    ensures digits == BoundDigits(model, 0)
  {
    hide KeyBound;
    digits := [];
    ghost var all := BoundDigits(model, 0);
    assert [] + all == all;
    for d := 0 to 9
      invariant digits + BoundDigits(model, d) == all
    {
      ghost var rest := BoundDigits(model, d + 1);
      var bound := ScanBound(model, 0x31 + d);
      if bound {
        Assoc(digits, [0x31 + d], rest);
        digits := digits + [0x31 + d];
      }
    }
    assert digits + [] == digits;
  }

  method BuildCore(model: Model) returns (core: seq<Spoke>)
    ensures core == CoreSpokes(model)
  {
    hide KeyBound, CoreKeys;
    core := [];
    var i, order := 0, CoreOrder();
    while i < |order| && |core| < CORE_SPOKES
      invariant i <= |order|
      invariant CoreOf(model, order[i..], core) == CoreOf(model, order, [])
    {
      core := AddCore(model, order[i], core);
      assert order[i..][1..] == order[i + 1..];
      i := i + 1;
    }
  }

  method AddCore(model: Model, entry: nat, core: seq<Spoke>) returns (out: seq<Spoke>)
    ensures out == if CoreKeys(model, entry) == [] then core else core + [Spoke(CoreKeys(model, entry))]
  {
    hide KeyBound;
    if entry != DIGITS_SPOKE {
      var bound := ScanBound(model, entry);
      if bound {
        return core + [One(entry)];
      }
    } else {
      var digits := ScanDigits(model);
      if digits != [] {
        return core + [Spoke(digits)];
      }
    }
    return core;
  }
}
