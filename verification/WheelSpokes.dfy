/**
 Which keys the key wheel shows: the Core face's twelve spokes, the sorted Keys
 face, and the one condition under which a bound key has no spoke at all.
 */
module WheelSpokes {
  import opened KeyWheel

  // ---- The Core face ----

  /** How many of these preferences have a bound key. */
  ghost function BoundEntries(model: Model, order: seq<nat>): nat {
    if order == [] then 0
    else (if CoreKeys(model, order[0]) != [] then 1 else 0) + BoundEntries(model, order[1..])
  }

  lemma {:induction false} EntriesAtMost(model: Model, order: seq<nat>)
    ensures BoundEntries(model, order) <= |order|
  {
    if order != [] {
      EntriesAtMost(model, order[1..]);
    }
  }

  lemma {:induction false} CoreSize(model: Model, order: seq<nat>, sofar: seq<Spoke>)
    requires |sofar| <= CORE_SPOKES
    ensures sofar <= CoreOf(model, order, sofar)
    ensures |CoreOf(model, order, sofar)| ==
            if |sofar| + BoundEntries(model, order) <= CORE_SPOKES then |sofar| + BoundEntries(model, order)
            else CORE_SPOKES
    decreases |order|
  {
    hide CoreKeys;
    if order != [] && |sofar| < CORE_SPOKES {
      var keys := CoreKeys(model, order[0]);
      CoreSize(model, order[1..], if keys == [] then sofar else sofar + [Spoke(keys)]);
    }
  }

  /** A bound preference with fewer than twelve bound ones before it has its place among the spokes. */
  lemma {:induction false} CoreAt(model: Model, order: seq<nat>, sofar: seq<Spoke>, j: nat)
    requires |sofar| <= CORE_SPOKES && j < |order| && CoreKeys(model, order[j]) != []
    requires |sofar| + BoundEntries(model, order[..j]) < CORE_SPOKES
    ensures var i, core := |sofar| + BoundEntries(model, order[..j]), CoreOf(model, order, sofar);
            i < |core| && core[i] == Spoke(CoreKeys(model, order[j]))
    decreases |order|
  {
    hide CoreKeys;
    var keys := CoreKeys(model, order[0]);
    var next := if keys == [] then sofar else sofar + [Spoke(keys)];
    if j == 0 {
      CoreSize(model, order[1..], next);
    } else {
      assert order[..j][1..] == order[1..][..j - 1];
      CoreAt(model, order[1..], next, j - 1);
    }
  }

  /** Every new spoke is some bound preference's. */
  lemma {:induction false} CoreFrom(model: Model, order: seq<nat>, sofar: seq<Spoke>, i: nat) returns (j: nat)
    requires |sofar| <= CORE_SPOKES && |sofar| <= i < |CoreOf(model, order, sofar)|
    ensures j < |order| && CoreKeys(model, order[j]) != [] && |sofar| + BoundEntries(model, order[..j]) == i
    ensures CoreOf(model, order, sofar)[i] == Spoke(CoreKeys(model, order[j]))
    decreases |order|
  {
    hide CoreKeys;
    var keys := CoreKeys(model, order[0]);
    var next := if keys == [] then sofar else sofar + [Spoke(keys)];
    if keys != [] && i == |sofar| {
      j := 0;
      CoreSize(model, order[1..], next);
    } else {
      j := CoreFrom(model, order[1..], next, i);
      assert order[..j + 1][1..] == order[1..][..j];
      j := j + 1;
    }
  }

  lemma {:induction false} EntriesUpTo(model: Model, order: seq<nat>, j: nat)
    requires j < |order| && CoreKeys(model, order[j]) != []
    ensures BoundEntries(model, order[..j]) < BoundEntries(model, order)
  {
    hide CoreKeys;
    if j > 0 {
      assert order[..j][1..] == order[1..][..j - 1];
      EntriesUpTo(model, order[1..], j - 1);
    }
  }

  /** The digits' spoke stands for exactly the bound ones from 1 to 9, in order. */
  lemma {:induction false} DigitsAre(model: Model, d: nat)
    requires d <= 9
    ensures forall key :: key in BoundDigits(model, d) <==> 0x31 + d <= key <= 0x39 && KeyBound(model, key)
    ensures forall i, j | 0 <= i < j < |BoundDigits(model, d)| :: BoundDigits(model, d)[i] < BoundDigits(model, d)[j]
    decreases 9 - d
  {
    hide KeyBound;
    if d < 9 {
      DigitsAre(model, d + 1);
      var rest := BoundDigits(model, d + 1);
      assert forall k | 0 <= k < |rest| :: rest[k] in rest;
    }
  }

  /** A preference stands for bound keys, and those say which preference it is. */
  lemma EntryKeys(model: Model, entry: nat, key: nat)
    ensures key in CoreKeys(model, entry) <==>
            KeyBound(model, key) && if entry == DIGITS_SPOKE then 0x31 <= key <= 0x39 else key == entry
  {
    hide KeyBound;
    DigitsAre(model, 0);
  }

  /** Where a preference stands. */
  ghost function EntryPlace(entry: nat): nat {
    match entry
    case 0xff0d => 0
    case 0x71 => 1
    case 0x63 => 2
    case 0x20 => 3
    case 0x6a => 4
    case 0x6b => 5
    case 0x68 => 6
    case 0x6c => 7
    case 0xffff_ffff => 8
    case 0xff09 => 9
    case 0x66 => 10
    case 0x70 => 11
    case 0x6d => 12
    case 0x74 => 13
    case 0x77 => 14
    case 0x73 => 15
    case 0x76 => 16
    case 0x72 => 17
    case 0x64 => 18
    case 0x69 => 19
    case 0x6e => 20
    case 0x65 => 21
    case 0x62 => 22
    case 0x67 => 23
    case 0x2c => 24
    case 0x2e => 25
    case 0x2f => 26
    case 0xff1b => 27
    case 0x30 => 28
    case _ => 29
  }

  lemma EntryPlaces(i: nat)
    requires i < |CoreOrder()|
    ensures EntryPlace(CoreOrder()[i]) == i && !(0x31 <= CoreOrder()[i] <= 0x39)
  {
  }

  lemma CoreOrderIsDistinct()
    ensures forall i, j | 0 <= i < j < |CoreOrder()| :: CoreOrder()[i] != CoreOrder()[j]
    ensures forall i | 0 <= i < |CoreOrder()| :: !(0x31 <= CoreOrder()[i] <= 0x39)
  {
    hide CoreOrder, EntryPlace;
    forall i: nat | i < |CoreOrder()|
      ensures EntryPlace(CoreOrder()[i]) == i && !(0x31 <= CoreOrder()[i] <= 0x39)
    {
      EntryPlaces(i);
    }
  }

  /** Spoke `i` has the keys of preference `j`, and as many bound preferences come before as spokes. */
  ghost predicate IsEntry(model: Model, core: seq<Spoke>, i: nat, j: nat) {
    && i < |core| && j < |CoreOrder()|
    && core[i].keysyms == CoreKeys(model, CoreOrder()[j]) != []
    && BoundEntries(model, CoreOrder()[..j]) == i
  }

  ghost predicate HasEntry(model: Model, core: seq<Spoke>, i: nat) {
    exists j: nat :: IsEntry(model, core, i, j)
  }

  ghost predicate IsShown(model: Model, core: seq<Spoke>, j: nat) {
    exists i: nat :: IsEntry(model, core, i, j)
  }

  /**
   The Core face has the first twelve bound preferences, in their order, each with
   exactly its bound keys, and no key on two spokes; with fewer than twelve, every
   bound preference is there.
   */
  lemma CoreIsFirstBound(model: Model)
    ensures var core, all := CoreSpokes(model), BoundEntries(model, CoreOrder());
            && |core| == (if all <= CORE_SPOKES then all else CORE_SPOKES)
            && (forall i | 0 <= i < |core| :: HasEntry(model, core, i))
            && (forall j: nat | j < |CoreOrder()| && CoreKeys(model, CoreOrder()[j]) != [] &&
                  (all <= CORE_SPOKES || BoundEntries(model, CoreOrder()[..j]) < CORE_SPOKES) :: IsShown(model, core, j))
            && (forall i, key | 0 <= i < |core| && key in core[i].keysyms :: KeyBound(model, key))
            && (forall i, j, key | 0 <= i < j < |core| && key in core[i].keysyms :: key !in core[j].keysyms)
  {
    hide CoreKeys, KeyBound, CoreOrder;
    var core, order := CoreSpokes(model), CoreOrder();
    CoreSize(model, order, []);
    forall i | 0 <= i < |core| ensures HasEntry(model, core, i) {
      var j := CoreFrom(model, order, [], i);
      assert IsEntry(model, core, i, j);
    }
    forall j: nat | j < |order| && CoreKeys(model, order[j]) != [] &&
                    (BoundEntries(model, order) <= CORE_SPOKES || BoundEntries(model, order[..j]) < CORE_SPOKES)
      ensures IsShown(model, core, j)
    {
      EntriesUpTo(model, order, j);
      CoreAt(model, order, [], j);
      assert IsEntry(model, core, BoundEntries(model, order[..j]), j);
    }
    CoreKeysApart(model, core);
  }

  lemma CoreKeysApart(model: Model, core: seq<Spoke>)
    requires forall i | 0 <= i < |core| :: HasEntry(model, core, i)
    ensures forall i, key | 0 <= i < |core| && key in core[i].keysyms :: KeyBound(model, key)
    ensures forall i, j, key | 0 <= i < j < |core| && key in core[i].keysyms :: key !in core[j].keysyms
  {
    hide CoreKeys, KeyBound, CoreOrder;
    forall i, key | 0 <= i < |core| && key in core[i].keysyms ensures KeyBound(model, key) {
      assert HasEntry(model, core, i);
      var a: nat :| IsEntry(model, core, i, a);
      EntryKeys(model, CoreOrder()[a], key);
    }
    forall i, j, key | 0 <= i < j < |core| && key in core[i].keysyms ensures key !in core[j].keysyms {
      assert HasEntry(model, core, i) && HasEntry(model, core, j);
      var a: nat :| IsEntry(model, core, i, a);
      var b: nat :| IsEntry(model, core, j, b);
      EntriesApart(model, a, b, key);
    }
  }

  lemma EntriesApart(model: Model, a: nat, b: nat, key: nat)
    requires a < |CoreOrder()| && b < |CoreOrder()| && a != b && key in CoreKeys(model, CoreOrder()[a])
    ensures key !in CoreKeys(model, CoreOrder()[b])
  {
    hide CoreKeys, KeyBound, CoreOrder;
    CoreOrderIsDistinct();
    EntryKeys(model, CoreOrder()[a], key);
    EntryKeys(model, CoreOrder()[b], key);
  }

  // ---- The Keys face ----

  /** The key has a spoke on some wheel face. */
  predicate HasSpoke(model: Model, key: nat) {
    FindSpoke(model.core, key).Some? || FindSpoke(model.letters, key).Some? || FindSpoke(model.keys, key).Some?
  }

  lemma OnesHold(keys: seq<nat>, key: nat)
    ensures FindSpoke(Ones(keys), key).Some? <==> key in keys
  {
    if key in keys {
      var i :| 0 <= i < |keys| && keys[i] == key;
      assert Ones(keys)[i].keysyms == [key];
    }
  }

  ghost predicate Sorted(keys: seq<nat>) {
    forall i, j | 0 <= i < j < |keys| :: RankAtMost(keys[i], keys[j])
  }

  lemma {:induction false} InsertSorts(sorted: seq<nat>, key: nat)
    requires Sorted(sorted)
    ensures Sorted(Insert(sorted, key))
  {
    hide Rank;
    if sorted != [] && !RankAtMost(key, sorted[0]) {
      InsertSorts(sorted[1..], key);
      var rest := Insert(sorted[1..], key);
      forall j | 0 <= j < |rest| ensures RankAtMost(sorted[0], rest[j]) {
        assert rest[j] in multiset(rest);
        assert rest[j] == key || rest[j] in sorted[1..];
      }
    }
  }

  lemma {:induction false} SortSorts(keys: seq<nat>)
    ensures Sorted(Sort(keys))
  {
    if keys != [] {
      SortSorts(keys[1..]);
      InsertSorts(Sort(keys[1..]), keys[0]);
    }
  }

  lemma RankIsOwn(a: nat, b: nat)
    requires RankAtMost(a, b) && RankAtMost(b, a)
    ensures a == b
  {
    hide Named;
  }

  lemma FirstIsLeast(keys: seq<nat>, key: nat)
    requires Sorted(keys) && key in multiset(keys)
    ensures RankAtMost(keys[0], key)
  {
    hide Rank;
    var i :| 0 <= i < |keys| && keys[i] == key;
  }

  lemma RestOf(keys: seq<nat>)
    requires keys != []
    ensures multiset(keys[1..]) == multiset(keys) - multiset{keys[0]}
  {
    assert keys == [keys[0]] + keys[1..];
  }

  /** No two keys rank alike, so whatever sorts the keys by rank yields the same order. */
  lemma {:induction false} OneSortedOrder(a: seq<nat>, b: seq<nat>)
    requires Sorted(a) && Sorted(b) && multiset(a) == multiset(b)
    ensures a == b
  {
    hide RankAtMost;
    assert |a| == |multiset(a)| == |b|;
    if a != [] {
      FirstIsLeast(a, b[0]);
      FirstIsLeast(b, a[0]);
      RankIsOwn(a[0], b[0]);
      RestOf(a);
      RestOf(b);
      OneSortedOrder(a[1..], b[1..]);
      assert a == [a[0]] + a[1..] && b == [b[0]] + b[1..];
    }
  }

  /**
   The order of the Keys face: 1 to 9 and 0, the named keys, then punctuation, F1 to
   F35, and the rest.
   */
  ghost function OrderOf(key: nat): nat {
    match key
    case 0x31 => 0  // 1
    case 0x32 => 1  // 2
    case 0x33 => 2  // 3
    case 0x34 => 3  // 4
    case 0x35 => 4  // 5
    case 0x36 => 5  // 6
    case 0x37 => 6  // 7
    case 0x38 => 7  // 8
    case 0x39 => 8  // 9
    case 0x30 => 9  // 0
    case 0xff0d => 10  // Return
    case 0xff09 => 11  // Tab
    case 0x20 => 12  // space
    case 0xff1b => 13  // Escape
    case 0xff08 => 14  // BackSpace
    case 0xffff => 15  // Delete
    case 0xff63 => 16  // Insert
    case 0xff50 => 17  // Home
    case 0xff57 => 18  // End
    case 0xff55 => 19  // PageUp
    case 0xff56 => 20  // PageDown
    case 0xff51 => 21  // Left
    case 0xff52 => 22  // Up
    case 0xff53 => 23  // Right
    case 0xff54 => 24  // Down
    case 0xff61 => 25  // Print
    case _ => if 0x21 <= key <= 0x7e then 26 else if 0xffbe <= key <= 0xffe0 then 27 else 28
  }

  lemma NamedOrder(i: nat)
    requires i < |Named()|
    ensures OrderOf(Named()[i]) == i + 10
  {
  }

  lemma RankOfKey(key: nat)
    ensures var i := OrderOf(key);
            Rank(key) == if i < 10 then (0, i + 1) else if i < 26 then (1, i - 10) else (i - 24, key)
  {
    if key in Named() {
      NamedOrder(Place(Named(), key));
    }
  }

  /** The keys of that order come one by one, and within each of the last three groups by keysym. */
  lemma RankSays(a: nat, b: nat)
    ensures RankAtMost(a, b) <==>
            OrderOf(a) < OrderOf(b) || (OrderOf(a) == OrderOf(b) && (OrderOf(a) < 26 || a <= b))
  {
    RankOfKey(a);
    RankOfKey(b);
    hide Rank, OrderOf;
  }

  /** No key twice. */
  ghost predicate Distinct(keys: seq<nat>) {
    forall i, j | 0 <= i < j < |keys| :: keys[i] != keys[j]
  }

  ghost function SetOf(keys: seq<nat>): set<nat> {
    set key | key in keys
  }

  lemma {:induction false} CountOf(keys: seq<nat>)
    requires Distinct(keys)
    ensures |SetOf(keys)| == |keys|
  {
    if keys != [] {
      var init, last := keys[..|keys| - 1], keys[|keys| - 1];
      CountOf(init);
      assert SetOf(keys) == SetOf(init) + {last};
    }
  }

  lemma {:induction false} DistinctCounts(keys: seq<nat>)
    requires Distinct(keys)
    ensures forall key :: multiset(keys)[key] <= 1
  {
    if keys != [] {
      DistinctCounts(keys[1..]);
      RestOf(keys);
      assert keys[0] !in multiset(keys[1..]);
      assert forall key :: multiset(keys)[key] == multiset(keys[1..])[key] + if key == keys[0] then 1 else 0;
    }
  }

  lemma CountsDistinct(keys: seq<nat>)
    requires forall key :: multiset(keys)[key] <= 1
    ensures Distinct(keys)
  {
    forall i, j | 0 <= i < j < |keys| ensures keys[i] != keys[j] {
      var front, back := keys[..j], keys[j..];
      assert keys == front + back && keys[i] == front[i] && keys[j] == back[0];
      assert front[i] in multiset(front) && back[0] in multiset(back);
      assert multiset(keys) == multiset(front) + multiset(back);
      assert multiset(keys)[keys[i]] == multiset(front)[keys[i]] + multiset(back)[keys[i]];
    }
  }

  /** The key has a wheel chord and no place on the Letters face. */
  ghost predicate WantsPlace(model: Model, n: nat, key: nat)
    requires n <= |model.binds|
  {
    exists i: nat :: i < n && OnWheel(model.binds[i].modifiers) && !IsLetter(KeyOf(model, i)) && KeyOf(model, i) == key
  }

  lemma {:induction false} OtherKeysAre(model: Model, n: nat)
    requires n <= |model.binds|
    ensures Distinct(OtherKeys(model, n))
    ensures forall key :: key in OtherKeys(model, n) <==> WantsPlace(model, n, key)
  {
    hide OnWheel, IsLetter, KeyOf;
    if n > 0 {
      OtherKeysAre(model, n - 1);
      forall key ensures key in OtherKeys(model, n) <==> WantsPlace(model, n, key) {
        WantsOneMore(model, n - 1, key);
      }
    }
  }

  lemma WantsOneMore(model: Model, n: nat, key: nat)
    requires n < |model.binds|
    ensures WantsPlace(model, n + 1, key) <==>
            WantsPlace(model, n, key) ||
            (OnWheel(model.binds[n].modifiers) && !IsLetter(KeyOf(model, n)) && KeyOf(model, n) == key)
  {
    hide OnWheel, IsLetter, KeyOf;
    if WantsPlace(model, n + 1, key) {
      var i: nat :| i < n + 1 && OnWheel(model.binds[i].modifiers) && !IsLetter(KeyOf(model, i)) && KeyOf(model, i) == key;
    }
  }

  lemma WantsIsBound(model: Model, key: nat)
    ensures WantsPlace(model, |model.binds|, key) <==> KeyBound(model, key) && !IsLetter(key)
  {
    hide OnWheel, IsLetter, KeyOf;
    if KeyBound(model, key) && !IsLetter(key) {
      var i: nat :| i < |model.binds| && OnWheel(model.binds[i].modifiers) && KeyOf(model, i) == key;
    }
  }

  /** The order of the Keys face: every such key once, by rank. */
  lemma KeyOrderIs(model: Model)
    ensures Distinct(KeyOrder(model)) && Sorted(KeyOrder(model))
    ensures forall key :: key in KeyOrder(model) <==> KeyBound(model, key) && !IsLetter(key)
  {
    hide OnWheel, IsLetter, KeyOf, RankAtMost, KeyBound, WantsPlace;
    var keys := OtherKeys(model, |model.binds|);
    OtherKeysAre(model, |model.binds|);
    DistinctCounts(keys);
    SortSorts(keys);
    CountsDistinct(Sort(keys));
    forall key ensures key in KeyOrder(model) <==> KeyBound(model, key) && !IsLetter(key) {
      WantsIsBound(model, key);
      assert key in multiset(Sort(keys)) <==> key in multiset(keys);
    }
  }

  /** The keys that want a place on the Keys face and rank before `key`. */
  ghost function KeysBefore(model: Model, key: nat): set<nat> {
    set i: nat | i < |model.binds| && OnWheel(model.binds[i].modifiers) && !IsLetter(KeyOf(model, i)) &&
                 !RankAtMost(key, KeyOf(model, i)) :: KeyOf(model, i)
  }

  lemma InKeysBefore(model: Model, key: nat, other: nat)
    ensures other in KeysBefore(model, key) <==>
            KeyBound(model, other) && !IsLetter(other) && !RankAtMost(key, other)
  {
    hide OnWheel, IsLetter, KeyOf, RankAtMost;
    if KeyBound(model, other) && !IsLetter(other) && !RankAtMost(key, other) {
      var i: nat :| i < |model.binds| && OnWheel(model.binds[i].modifiers) && KeyOf(model, i) == other;
      assert KeyOf(model, i) in KeysBefore(model, key);
    }
  }

  /** A key's place is the number of keys before it. */
  lemma PlaceInOrder(model: Model, p: nat)
    requires p < |KeyOrder(model)|
    ensures |KeysBefore(model, KeyOrder(model)[p])| == p
  {
    hide RankAtMost, KeyBound, IsLetter, KeyOrder, KeysBefore;
    var keys := KeyOrder(model);
    var key, front := keys[p], keys[..p];
    KeyOrderIs(model);
    CountOf(front);
    forall other ensures other in KeysBefore(model, key) <==> other in SetOf(front) {
      InKeysBefore(model, key, other);
      if other in front {
        var q :| 0 <= q < p && front[q] == other;
        assert keys[q] == other && RankAtMost(other, key);
        if RankAtMost(key, other) {
          RankIsOwn(key, other);
        }
      }
      if other in keys && !RankAtMost(key, other) {
        var q :| 0 <= q < |keys| && keys[q] == other;
        RankIsReflexive(key);
        assert forall r | p <= r < |keys| :: RankAtMost(key, keys[r]);
        assert front[q] == other;
      }
    }
    assert KeysBefore(model, key) == SetOf(front);
  }

  lemma RankIsReflexive(key: nat)
    ensures RankAtMost(key, key)
  {
    hide Rank;
  }

  lemma ShownKeys(model: Model, key: nat)
    ensures FindSpoke(KeySpokes(model), key).Some? <==>
            KeyBound(model, key) && !IsLetter(key) && |KeysBefore(model, key)| < MAX_SPOKES
  {
    hide RankAtMost, KeyBound, IsLetter, KeyOrder, KeysBefore;
    var keys := KeyOrder(model);
    KeyOrderIs(model);
    OnesHold(Shown(keys), key);
    if key in keys {
      var p :| 0 <= p < |keys| && keys[p] == key;
      PlaceInOrder(model, p);
      assert p < MAX_SPOKES ==> Shown(keys)[p] == key;
      if key in Shown(keys) {
        var q :| 0 <= q < |Shown(keys)| && Shown(keys)[q] == key;
        assert keys[q] == keys[p];
      }
    } else {
      assert forall k | k in Shown(keys) :: k in keys;
    }
  }

  /** Fewer than twelve bound preferences come before the one that stands for the key. */
  ghost predicate OnCore(model: Model, key: nat) {
    exists j: nat :: EarlyEntry(model, key, j)
  }

  ghost predicate EarlyEntry(model: Model, key: nat, j: nat) {
    && j < |CoreOrder()| && key in CoreKeys(model, CoreOrder()[j])
    && BoundEntries(model, CoreOrder()[..j]) < CORE_SPOKES
  }

  lemma CoreHolds(model: Model, key: nat)
    ensures FindSpoke(CoreSpokes(model), key).Some? <==> OnCore(model, key)
    ensures OnCore(model, key) ==> KeyBound(model, key)
  {
    hide CoreKeys, KeyBound, CoreOrder, CoreSpokes;
    var core := CoreSpokes(model);
    CoreIsFirstBound(model);
    if FindSpoke(core, key).Some? {
      var i := FindSpoke(core, key).value;
      assert HasEntry(model, core, i);
      var j: nat :| IsEntry(model, core, i, j);
      assert EarlyEntry(model, key, j);
    }
    if OnCore(model, key) {
      var j: nat :| EarlyEntry(model, key, j);
      EntryKeys(model, CoreOrder()[j], key);
      assert IsShown(model, core, j);
      var i: nat :| IsEntry(model, core, i, j);
      assert key in core[i].keysyms;
    }
  }

  lemma DigitsPlace()
    ensures |CoreOrder()| > 8 && CoreOrder()[8] == DIGITS_SPOKE
  {
  }

  /** The digits come early enough to be on the Core face always. */
  lemma DigitOnCore(model: Model, key: nat)
    requires 0x31 <= key <= 0x39 && KeyBound(model, key)
    ensures OnCore(model, key)
  {
    hide CoreKeys, KeyBound, CoreOrder;
    DigitsPlace();
    EntryKeys(model, DIGITS_SPOKE, key);
    EntriesAtMost(model, CoreOrder()[..8]);
    assert EarlyEntry(model, key, 8);
  }

  /** A Core spoke with one of the digits has all that are bound. */
  lemma DigitsShareASpoke(model: Model, core: seq<Spoke>, key: nat, other: nat, i: nat)
    requires 0x31 <= key <= 0x39 && 0x31 <= other <= 0x39 && KeyBound(model, other)
    requires i < |core| && HasEntry(model, core, i) && key in core[i].keysyms
    ensures other in core[i].keysyms
  {
    hide CoreKeys, KeyBound, CoreOrder;
    var j: nat :| IsEntry(model, core, i, j);
    CoreOrderIsDistinct();
    EntryKeys(model, CoreOrder()[j], key);
    EntryKeys(model, CoreOrder()[j], other);
  }

  /** What it takes to have a spoke, in terms of the configured binds alone. */
  ghost predicate HasRoom(model: Model, key: nat) {
    || IsLetter(key)
    || (KeyBound(model, key) && (|KeysBefore(model, key)| < MAX_SPOKES || OnCore(model, key)))
  }

  /**
   A key has a spoke exactly when it is a letter, or it has a wheel bind and either
   fewer than forty other such keys rank before it or it is on the Core face.
   */
  lemma SpokesExactly(keymap: Keymap, binds: seq<Bind>, emacs: nat, key: nat)
    ensures HasSpoke(Finished(keymap, binds, emacs), key) <==> HasRoom(Bare(keymap, binds, emacs), key)
  {
    hide CoreSpokes, KeySpokes, KeyBound, KeysBefore, OnCore, FindSpoke, BeyondOf, Overflow;
    var bare := Bare(keymap, binds, emacs);
    CoreHolds(bare, key);
    ShownKeys(bare, key);
    OnesHold(Alphabet(26), key);
    assert IsLetter(key) ==> Alphabet(26)[key - 0x61] == key;
  }

  /** What else is in a finished model: the configuration as it is, the letters, the Beyond list and the overflow. */
  lemma FinishedSays(keymap: Keymap, binds: seq<Bind>, emacs: nat)
    ensures var model, wanted := Finished(keymap, binds, emacs), |KeyOrder(Bare(keymap, binds, emacs))|;
            && model.keymap == keymap && model.binds == binds && model.emacs == emacs
            && |model.letters| == 26 && (forall i | 0 <= i < 26 :: model.letters[i].keysyms == ["abcdefghijklmnopqrstuvwxyz"[i] as int])
            && |model.keys| == (if wanted < 40 then wanted else 40) && |model.keys| + model.overflow == wanted
            && (forall i: nat :: i in model.beyond <==> i < |binds| && !OnWheel(binds[i].modifiers))
            && (forall i, j | 0 <= i < j < |model.beyond| :: model.beyond[i] < model.beyond[j])
  {
    hide OnWheel, CoreSpokes, KeyOrder;
    BeyondInOrder(Bare(keymap, binds, emacs), |binds|);
    forall i | 0 <= i < 26 ensures "abcdefghijklmnopqrstuvwxyz"[i] as int == 0x61 + i {}
  }

  lemma {:induction false} BeyondInOrder(model: Model, n: nat)
    requires n <= |model.binds|
    ensures forall i, j | 0 <= i < j < |BeyondOf(model, n)| :: BeyondOf(model, n)[i] < BeyondOf(model, n)[j]
  {
    hide OnWheel;
    if n > 0 {
      BeyondInOrder(model, n - 1);
    }
  }

  // ---- A key too many ----

  /** Lower-casing leaves the keysyms from `first` to `last` as they are. */
  ghost predicate Caseless(keymap: Keymap, first: nat, last: nat) {
    forall key: nat | first <= key <= last :: keymap.lower(key) == key
  }

  /** 0 to 9, then F1 to F31. */
  function ManyKey(i: nat): (key: nat) {
    if i < 10 then 0x30 + i else 0xffb4 + i
  }

  /** Super with each of the first `n` of those keys. */
  function ManyBinds(n: nat): (binds: seq<Bind>)
    ensures |binds| == n && forall i | 0 <= i < n :: binds[i] == Bind(LOGO, ManyKey(i), 0)
  {
    seq(n, i requires 0 <= i < n => Bind(LOGO, ManyKey(i), 0))
  }

  ghost function ManyKeys(n: nat): (keys: seq<nat>)
    ensures |keys| == n && forall i | 0 <= i < n :: keys[i] == ManyKey(i)
  {
    seq(n, i requires 0 <= i < n => ManyKey(i))
  }

  const F31: nat := 0xffdc

  lemma PlainKey(keymap: Keymap, i: nat)
    requires i <= 40 && Caseless(keymap, 0x30, 0x39) && Caseless(keymap, 0xffbe, F31)
    ensures Normalize(keymap, ManyKey(i)) == ManyKey(i) && !IsLetter(ManyKey(i))
  {
  }

  lemma FunctionRank(key: nat)
    requires 0xffbe <= key <= F31
    ensures Rank(key) == (3, key)
  {
    RankOfKey(key);
    hide Rank;
  }

  lemma RankedLater(i: nat)
    requires i < 40
    ensures !RankAtMost(F31, ManyKey(i))
  {
    FunctionRank(F31);
    if i >= 10 {
      FunctionRank(ManyKey(i));
    }
    hide Named;
  }

  /** With the ten digits and F1 to F31 on Super, F31 is shown nowhere, although it is bound. */
  lemma LastKeyIsLost(keymap: Keymap, emacs: nat)
    requires Caseless(keymap, 0x30, 0x39) && Caseless(keymap, 0xffbe, F31)
    ensures var model := Finished(keymap, ManyBinds(41), emacs);
            KeyOf(model, 40) == F31 && OnWheel(model.binds[40].modifiers) && !HasSpoke(model, F31)
  {
    var bare := Bare(keymap, ManyBinds(41), emacs);
    forall i | 0 <= i <= 40 ensures KeyOf(bare, i) == ManyKey(i) {
      PlainKey(keymap, i);
    }
    BeforeLast(bare);
    NotOnCore(bare);
    SpokesExactly(keymap, ManyBinds(41), emacs, F31);
    hide OnWheel, CoreSpokes, KeySpokes, KeyBound, KeysBefore, OnCore, HasSpoke;
    assert OnWheel(LOGO) by { RingModsOnWheel(RingSuper, false); }
  }

  lemma BeforeLast(bare: Model)
    requires bare.binds == ManyBinds(41) && Caseless(bare.keymap, 0x30, 0x39) && Caseless(bare.keymap, 0xffbe, F31)
    requires forall i: nat | i <= 40 :: KeyOf(bare, i) == ManyKey(i)
    ensures |KeysBefore(bare, F31)| >= MAX_SPOKES
  {
    hide KeyOf, IsLetter, Rank, RankAtMost, Caseless;
    var keys := ManyKeys(40);
    CountOf(keys);
    forall key | key in SetOf(keys) ensures key in KeysBefore(bare, F31) {
      var i :| 0 <= i < 40 && keys[i] == key;
      PlainKey(bare.keymap, i);
      RankedLater(i);
      assert OnWheel(bare.binds[i].modifiers) by { RingModsOnWheel(RingSuper, false); }
      assert KeyOf(bare, i) == key;
    }
    SubsetIsSmaller(SetOf(keys), KeysBefore(bare, F31));
  }

  lemma SubsetIsSmaller(a: set<nat>, b: set<nat>)
    requires a <= b
    ensures |a| <= |b|
  {
    assert b == a + (b - a);
  }

  lemma NotOnCore(bare: Model)
    ensures !OnCore(bare, F31)
  {
    hide CoreKeys, KeyBound;
    forall j: nat ensures !EarlyEntry(bare, F31, j) {
      if j < |CoreOrder()| {
        EntryKeys(bare, CoreOrder()[j], F31);
      }
    }
  }
}
