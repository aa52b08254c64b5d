/**
 The pushed line format of the rewrite widget's actions: escape, serialize, parse.
 */
module ActionFormat {
  import opened Text

  const MAX_ACTIONS := 36
  const MAX_FIELD := 16384
  const SPEC_FIELDS := 9
  const SPEC_HEADER := "#ai-rewrite-actions 1"

  /** One thing the widget can do to a text; an absent text is never an empty one. */
  datatype Action = Action(
    key: Option<char>, id: string, caption: string, system: Option<string>, instruction: string,
    input: Option<string>, provider: Option<string>, model: Option<string>, preview: bool, diff: bool)

  /** Lower-case letters and digits, less the four keys the panel itself uses. */
  predicate KeyUsable(c: char) {
    ('a' <= c <= 'z' || '0' <= c <= '9') && c != 'j' && c != 'k' && c != 'y' && c != 'v'
  }

  function UsableKey(key: Option<char>): Option<char> {
    if key.Some? && KeyUsable(key.value) then key else None
  }

  function OrNone(text: string): Option<string> {
    if text == "" then None else Some(text)
  }

  function OrEmpty(text: Option<string>): string {
    if text.Some? then text.value else ""
  }

  predicate HasId(actions: seq<Action>, id: string) {
    exists i | 0 <= i < |actions| :: actions[i].id == id
  }

  predicate HasKey(actions: seq<Action>, key: char) {
    exists i | 0 <= i < |actions| :: actions[i].key == Some(key)
  }

  // ---- Escaping ----

  function EscapeChar(c: char): string {
    if c == '\\' then "\\\\"
    else if c == TAB then "\\t"
    else if c == LF then "\\n"
    else if c == CR then "\\r"
    else [c]
  }

  function Escape(text: string): string {
    if text == "" then "" else EscapeChar(text[0]) + Escape(text[1..])
  }

  function UnescapeChar(c: char): char {
    if c == 't' then TAB else if c == 'n' then LF else if c == 'r' then CR else c
  }

  /** An unknown escape keeps its character; a lone backslash at the end is a backslash. */
  function Unescape(text: string): string {
    if text == "" then ""
    else if text[0] != '\\' then [text[0]] + Unescape(text[1..])
    else if |text| == 1 then "\\"
    else [UnescapeChar(text[1])] + Unescape(text[2..])
  }

  method EscapeField(text: string) returns (out: string)
    ensures out == Escape(text)
  {
    out := "";
    for p := 0 to |text|
      invariant out + Escape(text[p..]) == Escape(text)
    {
      assert text[p..][1..] == text[p + 1..];
      Assoc(out, EscapeChar(text[p]), Escape(text[p + 1..]));
      out := out + EscapeChar(text[p]);
    }
    assert out + "" == out;
  }

  method UnescapeField(text: string) returns (out: string)
    ensures out == Unescape(text)
  {
    out := "";
    var p := 0;
    while p < |text|
      invariant p <= |text|
      invariant out + Unescape(text[p..]) == Unescape(text)
    {
      if text[p] != '\\' {
        assert text[p..][1..] == text[p + 1..];
        Assoc(out, [text[p]], Unescape(text[p + 1..]));
        out := out + [text[p]];
        p := p + 1;
      } else if p + 1 == |text| {
        out := out + "\\";
        return;
      } else {
        assert text[p..][2..] == text[p + 2..];
        Assoc(out, [UnescapeChar(text[p + 1])], Unescape(text[p + 2..]));
        out := out + [UnescapeChar(text[p + 1])];
        p := p + 2;
      }
    }
    assert out + "" == out;
  }

  lemma UnescapeStep(c: char, rest: string)
    ensures Unescape(EscapeChar(c) + rest) == [c] + Unescape(rest)
  {
    var s := EscapeChar(c) + rest;
    assert s[|EscapeChar(c)|..] == rest;
  }

  /** Unescaping undoes escaping, whatever the text. */
  lemma {:induction false} UnescapeUndoesEscape(text: string)
    ensures Unescape(Escape(text)) == text
  {
    if text != "" {
      UnescapeStep(text[0], Escape(text[1..]));
      UnescapeUndoesEscape(text[1..]);
    }
  }

  /** An escaped field holds none of the characters the format gives a meaning. */
  lemma {:induction false} EscapeIsClean(text: string)
    ensures TAB !in Escape(text) && LF !in Escape(text) && CR !in Escape(text)
  {
    if text != "" {
      EscapeIsClean(text[1..]);
    }
  }

  // ---- Serializing ----

  function Flags(a: Action): string {
    (if a.preview then "p" else "") + (if a.diff then "d" else "")
  }

  function Fields(a: Action): (fields: seq<string>)
    ensures |fields| == SPEC_FIELDS
  {
    [if a.key.Some? then [a.key.value] else "", a.id, a.caption, Flags(a), OrEmpty(a.input),
     OrEmpty(a.provider), OrEmpty(a.model), OrEmpty(a.system), a.instruction]
  }

  function EscapeAll(fields: seq<string>): (escaped: seq<string>)
    ensures |escaped| == |fields|
  {
    seq(|fields|, i requires 0 <= i < |fields| => Escape(fields[i]))
  }

  function UnescapeAll(fields: seq<string>): (plain: seq<string>)
    ensures |plain| == |fields|
  {
    seq(|fields|, i requires 0 <= i < |fields| => Unescape(fields[i]))
  }

  function Join(parts: seq<string>, sep: char): string
    requires parts != []
  {
    if |parts| == 1 then parts[0] else parts[0] + [sep] + Join(parts[1..], sep)
  }

  function SpecLine(a: Action): string {
    Join(EscapeAll(Fields(a)), TAB)
  }

  function SpecLines(actions: seq<Action>): (lines: seq<string>)
    ensures |lines| == |actions|
  {
    seq(|actions|, i requires 0 <= i < |actions| => SpecLine(actions[i]))
  }

  function Serialized(actions: seq<Action>): string {
    Unlines([SPEC_HEADER] + SpecLines(actions))
  }

  lemma {:induction false} JoinSnoc(parts: seq<string>, part: string, sep: char)
    requires parts != []
    ensures Join(parts + [part], sep) == Join(parts, sep) + [sep] + part
  {
    if |parts| == 1 {
      assert (parts + [part])[1..] == [part];
    } else {
      assert (parts + [part])[1..] == parts[1..] + [part];
      JoinSnoc(parts[1..], part, sep);
    }
  }

  method SerializeAction(a: Action) returns (line: string)
    ensures line == SpecLine(a)
  {
    var fields := Fields(a);
    line := EscapeField(fields[0]);
    assert EscapeAll(fields)[..1] == [EscapeAll(fields)[0]];
    for f := 1 to SPEC_FIELDS
      invariant line == Join(EscapeAll(fields)[..f], TAB)
    {
      var esc := EscapeField(fields[f]);
      assert EscapeAll(fields)[..f + 1] == EscapeAll(fields)[..f] + [esc];
      JoinSnoc(EscapeAll(fields)[..f], esc, TAB);
      line := line + [TAB] + esc;
    }
    assert EscapeAll(fields)[..SPEC_FIELDS] == EscapeAll(fields);
  }

  /** The text after `n` actions. */
  ghost function SerializedTo(actions: seq<Action>, n: nat): string
    requires n <= |actions|
  {
    Unlines([SPEC_HEADER] + SpecLines(actions)[..n])
  }

  lemma SerializedStep(actions: seq<Action>, n: nat)
    ensures SerializedTo(actions, 0) == SPEC_HEADER + [LF]
    ensures SerializedTo(actions, |actions|) == Serialized(actions)
    ensures n < |actions| ==> SerializedTo(actions, n + 1) == SerializedTo(actions, n) + (SpecLine(actions[n]) + [LF])
  {
    hide SpecLine;
    var lines := SpecLines(actions);
    assert [SPEC_HEADER] + lines[..0] == [SPEC_HEADER] && [SPEC_HEADER][1..] == [];
    assert Unlines([]) == "" && Unlines([SPEC_HEADER]) == SPEC_HEADER + [LF] + "";
    assert lines[..|actions|] == lines;
    if n < |actions| {
      assert [SPEC_HEADER] + lines[..n + 1] == [SPEC_HEADER] + lines[..n] + [lines[n]];
      UnlinesAppend([SPEC_HEADER] + lines[..n], [lines[n]]);
      assert [lines[n]][1..] == [];
    }
  }

  method Serialize(actions: seq<Action>) returns (out: string)
    ensures out == Serialized(actions)
  {
    hide SerializedTo, Serialized, SpecLine;
    out := SPEC_HEADER + [LF];
    SerializedStep(actions, 0);
    for i := 0 to |actions|
      invariant out == SerializedTo(actions, i)
    {
      SerializedStep(actions, i);
      var line := SerializeAction(actions[i]);
      out := out + (line + [LF]);
    }
    SerializedStep(actions, |actions|);
  }

  // ---- Parsing ----

  datatype Parsed = Parsed(actions: seq<Action>, rejected: nat)

  function StripCr(line: string): string {
    if line != "" && line[|line| - 1] == CR then line[..|line| - 1] else line
  }

  /** A field cut at the cap. */
  function Capped(field: string): string {
    CutBytes(field, MAX_FIELD)
  }

  /** The longest beginning of the field that fits. */
  lemma CappedFits(field: string)
    ensures Capped(field) <= field && ByteSize(Capped(field)) <= 16384
    ensures forall k | |Capped(field)| < k <= |field| :: ByteSize(field[..k]) > 16384
    ensures ByteSize(field) <= 16384 ==> Capped(field) == field
  {
    CutBytesIsLongest(field, MAX_FIELD);
  }

  /** The action nine unescaped fields spell; a key that is odd, unusable or taken costs only the key. */
  function ActionOf(f: seq<string>, taken: seq<Action>): Action
    requires |f| == SPEC_FIELDS
  {
    Action(if |f[0]| == 1 && !HasKey(taken, f[0][0]) then UsableKey(Some(f[0][0])) else None,
           f[1], f[2], OrNone(Capped(f[7])), Capped(f[8]), OrNone(Capped(f[4])), OrNone(f[5]),
           OrNone(f[6]), 'p' in f[3], 'd' in f[3])
  }

  function ParseLine(sofar: Parsed, raw: string): Parsed {
    var line := StripCr(raw);
    if line == "" || line[0] == '#' then sofar
    else
      var refused := sofar.(rejected := sofar.rejected + 1);
      if |sofar.actions| >= MAX_ACTIONS then refused
      else
        var f := UnescapeAll(Split(line, TAB));
        if |f| != SPEC_FIELDS || f[1] == "" || f[2] == "" || HasId(sofar.actions, f[1]) then refused
        else Parsed(sofar.actions + [ActionOf(f, sofar.actions)], sofar.rejected)
  }

  function ParseLines(lines: seq<string>): Parsed {
    if lines == [] then Parsed([], 0) else ParseLine(ParseLines(lines[..|lines| - 1]), lines[|lines| - 1])
  }

  function Parse(spec: string): Parsed {
    ParseLines(Split(spec, LF))
  }

  method UnescapeFields(raw: seq<string>) returns (fields: seq<string>)
    ensures fields == UnescapeAll(raw)
  {
    fields := [];
    for f := 0 to |raw|
      invariant fields == UnescapeAll(raw)[..f]
    {
      var field := UnescapeField(raw[f]);
      fields := fields + [field];
    }
  }

  method ReadLine(before: Parsed, raw: string) returns (after: Parsed)
    ensures after == ParseLine(before, raw)
  {
    after := before;
    var line := raw;
    if line != "" && line[|line| - 1] == CR {
      line := line[..|line| - 1];
    }
    if line == "" || line[0] == '#' {
      return;
    }
    var parts := Split(line, TAB);
    if |before.actions| >= MAX_ACTIONS || |parts| != SPEC_FIELDS {
      after := Parsed(before.actions, before.rejected + 1);
      return;
    }
    var fields := UnescapeFields(parts);
    if fields[1] == "" || fields[2] == "" || HasId(before.actions, fields[1]) {
      after := Parsed(before.actions, before.rejected + 1);
    } else {
      after := Parsed(before.actions + [ActionOf(fields, before.actions)], before.rejected);
    }
  }

  method ParseActions(spec: string) returns (out: Parsed)
    ensures out == Parse(spec)
  {
    hide ParseLine;
    out := Parsed([], 0);
    var lines := Split(spec, LF);
    for i := 0 to |lines|
      invariant out == ParseLines(lines[..i])
    {
      assert lines[..i + 1][..i] == lines[..i];
      out := ReadLine(out, lines[i]);
    }
    assert lines[..|lines|] == lines;
  }

  // ---- Which lists survive the trip ----

  ghost predicate GoodAction(a: Action) {
    && a.id != "" && a.caption != "" && UsableKey(a.key) == a.key
    && a.system != Some("") && a.input != Some("") && a.provider != Some("") && a.model != Some("")
    && ByteSize(OrEmpty(a.system)) <= MAX_FIELD && ByteSize(a.instruction) <= MAX_FIELD
    && ByteSize(OrEmpty(a.input)) <= MAX_FIELD
  }

  /** What the panel can hold: few enough actions, all usable, no id and no key twice. */
  ghost predicate GoodList(actions: seq<Action>) {
    && |actions| <= MAX_ACTIONS
    && (forall i | 0 <= i < |actions| :: GoodAction(actions[i]))
    && (forall i, j | 0 <= i < j < |actions| :: actions[i].id != actions[j].id)
    && (forall i, j | 0 <= i < j < |actions| :: actions[i].key.Some? ==> actions[i].key != actions[j].key)
  }

  lemma ActionOfIsGood(f: seq<string>, taken: seq<Action>)
    requires |f| == SPEC_FIELDS && f[1] != "" && f[2] != ""
    ensures GoodAction(ActionOf(f, taken))
  {
    hide Capped;
    CappedFits(f[7]);
    CappedFits(f[8]);
    CappedFits(f[4]);
  }

  lemma ParseLineIsGood(before: Parsed, raw: string)
    requires GoodList(before.actions)
    ensures GoodList(ParseLine(before, raw).actions)
  {
    hide UnescapeAll, StripCr, GoodAction;
    var f := UnescapeAll(Split(StripCr(raw), TAB));
    if |f| == SPEC_FIELDS && f[1] != "" && f[2] != "" {
      ActionOfIsGood(f, before.actions);
    }
  }

  /** Whatever was pushed, what is kept is a list the panel can hold. */
  lemma {:induction false} ParseIsGood(lines: seq<string>)
    ensures GoodList(ParseLines(lines).actions)
  {
    if lines != [] {
      hide ParseLine, GoodList;
      ParseIsGood(lines[..|lines| - 1]);
      ParseLineIsGood(ParseLines(lines[..|lines| - 1]), lines[|lines| - 1]);
    }
  }

  lemma {:induction false} SplitJoin(parts: seq<string>, sep: char)
    requires parts != [] && forall p | p in parts :: sep !in p
    ensures Split(Join(parts, sep), sep) == parts
  {
    assert parts[0] in parts;
    if |parts| == 1 {
      SplitLine(parts[0], sep, "");
    } else {
      var rest := parts[1..];
      assert parts == [parts[0]] + rest;
      SplitJoin(rest, sep);
      SplitLine(parts[0], sep, Join(rest, sep));
    }
  }

  lemma {:induction false} JoinIsClean(parts: seq<string>, sep: char, c: char)
    requires parts != [] && c != sep && forall p | p in parts :: c !in p
    ensures c !in Join(parts, sep)
  {
    assert parts[0] in parts;
    if |parts| > 1 {
      JoinIsClean(parts[1..], sep, c);
    }
  }

  lemma EscapedAreClean(fields: seq<string>)
    ensures forall p | p in EscapeAll(fields) :: TAB !in p && LF !in p && CR !in p
  {
    forall p | p in EscapeAll(fields) ensures TAB !in p && LF !in p && CR !in p {
      var i :| 0 <= i < |fields| && EscapeAll(fields)[i] == p;
      EscapeIsClean(fields[i]);
    }
  }

  lemma UnescapeAllUndoes(fields: seq<string>)
    ensures UnescapeAll(EscapeAll(fields)) == fields
  {
    forall i | 0 <= i < |fields| ensures Unescape(EscapeAll(fields)[i]) == fields[i] {
      UnescapeUndoesEscape(fields[i]);
    }
  }

  /** A written line: no line break in it, not a comment, and its fields come back. */
  lemma SpecLineReads(a: Action)
    requires UsableKey(a.key) == a.key
    ensures var line := SpecLine(a);
            LF !in line && line != "" && line[0] != '#' && StripCr(line) == line &&
            UnescapeAll(Split(line, TAB)) == Fields(a)
  {
    hide EscapeAll, UnescapeAll, Fields;
    var esc := EscapeAll(Fields(a));
    EscapedAreClean(Fields(a));
    UnescapeAllUndoes(Fields(a));
    SplitJoin(esc, TAB);
    JoinIsClean(esc, TAB, LF);
    JoinIsClean(esc, TAB, CR);
    FirstField(a);
  }

  lemma FirstField(a: Action)
    requires UsableKey(a.key) == a.key
    ensures SpecLine(a) != "" && SpecLine(a)[0] != '#'
    ensures SpecLine(a)[|SpecLine(a)| - 1] in SpecLine(a)
  {
    var esc := EscapeAll(Fields(a));
    assert SpecLine(a) == esc[0] + [TAB] + Join(esc[1..], TAB);
    if a.key.Some? {
    }
  }

  lemma FieldsSpell(a: Action, taken: seq<Action>)
    requires GoodAction(a) && (a.key.Some? ==> !HasKey(taken, a.key.value))
    ensures ActionOf(Fields(a), taken) == a
  {
    hide Capped;
    CappedFits(OrEmpty(a.system));
    CappedFits(a.instruction);
    CappedFits(OrEmpty(a.input));
  }

  lemma WrittenLineReads(a: Action, taken: seq<Action>)
    requires GoodAction(a) && |taken| < MAX_ACTIONS
    requires !HasId(taken, a.id) && (a.key.Some? ==> !HasKey(taken, a.key.value))
    ensures ParseLine(Parsed(taken, 0), SpecLine(a)) == Parsed(taken + [a], 0)
  {
    hide SpecLine, StripCr, UnescapeAll, ActionOf, HasId, HasKey, Flags, OrEmpty;
    SpecLineReads(a);
    FieldsSpell(a, taken);
  }

  lemma GoodPrefix(actions: seq<Action>, n: nat)
    requires n < |actions| && GoodList(actions)
    ensures var a, taken := actions[n], actions[..n];
            GoodAction(a) && n < MAX_ACTIONS && !HasId(taken, a.id) && (a.key.Some? ==> !HasKey(taken, a.key.value))
    ensures actions[..n + 1] == actions[..n] + [actions[n]]
  {
  }

  lemma {:induction false} WrittenLinesRead(actions: seq<Action>, n: nat)
    requires n <= |actions| && GoodList(actions)
    ensures ParseLines([SPEC_HEADER] + SpecLines(actions)[..n]) == Parsed(actions[..n], 0)
  {
    hide ParseLine, SpecLine, GoodList, GoodAction, HasId, HasKey;
    var lines := [SPEC_HEADER] + SpecLines(actions)[..n];
    if n == 0 {
      HeaderReads();
      assert lines == [SPEC_HEADER] && lines[..0] == [];
    } else {
      WrittenLinesRead(actions, n - 1);
      assert lines[..n] == [SPEC_HEADER] + SpecLines(actions)[..n - 1] && lines[n] == SpecLine(actions[n - 1]);
      GoodPrefix(actions, n - 1);
      WrittenLineReads(actions[n - 1], actions[..n - 1]);
    }
  }

  lemma HeaderReads()
    ensures ParseLine(Parsed([], 0), SPEC_HEADER) == Parsed([], 0)
  {
  }

  lemma LinesAreClean(actions: seq<Action>)
    requires GoodList(actions)
    ensures forall l | l in [SPEC_HEADER] + SpecLines(actions) :: LF !in l
  {
    hide SpecLine;
    forall l | l in [SPEC_HEADER] + SpecLines(actions) ensures LF !in l {
      if l != SPEC_HEADER {
        var i :| 0 <= i < |actions| && l == SpecLine(actions[i]);
        SpecLineReads(actions[i]);
      }
    }
  }

  /** A list the panel can hold comes back whole, with nothing refused. */
  lemma RoundTrip(actions: seq<Action>)
    requires GoodList(actions)
    ensures Parse(Serialized(actions)) == Parsed(actions, 0)
  {
    hide SpecLine, GoodList, ParseLine;
    var lines := [SPEC_HEADER] + SpecLines(actions);
    LinesAreClean(actions);
    SplitUnlines(lines, "");
    assert Unlines(lines) + "" == Unlines(lines);
    assert (lines + [""])[..|lines|] == lines;
    assert SpecLines(actions)[..|actions|] == SpecLines(actions) && actions[..|actions|] == actions;
    WrittenLinesRead(actions, |actions|);
    EmptyLineReads(Parsed(actions, 0));
  }

  lemma EmptyLineReads(before: Parsed)
    ensures ParseLine(before, "") == before
  {
  }

  /** Exactly the lists the panel can hold survive being written and read back. */
  lemma RoundTripExactly(actions: seq<Action>)
    ensures Parse(Serialized(actions)).actions == actions <==> GoodList(actions)
  {
    ParseIsGood(Split(Serialized(actions), LF));
    if GoodList(actions) {
      RoundTrip(actions);
    }
  }

  // ---- What a line says ----

  /** What stands for each character in a field, and that a field is escaped character by character. */
  lemma {:induction false} EscapeSays(x: string, y: string, c: char)
    ensures Escape(x + y) == Escape(x) + Escape(y)
    ensures Escape([c]) == if c == '\\' then "\\\\" else if c == '\t' then "\\t" else if c == '\n' then "\\n"
                           else if c == '\r' then "\\r" else [c]
  {
    assert [c][1..] == "" && EscapeChar(c) + "" == EscapeChar(c);
    if x == "" {
      assert x + y == y;
    } else {
      assert (x + y)[1..] == x[1..] + y;
      EscapeSays(x[1..], y, c);
    }
  }

  /** What each escape reads as; an unknown one is its character, and a backslash at the end is one. */
  lemma UnescapeSays(c: char, rest: string)
    ensures Unescape("") == "" && Unescape("\\") == "\\"
    ensures c != '\\' ==> Unescape([c] + rest) == [c] + Unescape(rest)
    ensures Unescape(['\\', c] + rest) ==
            [if c == 't' then '\t' else if c == 'n' then '\n' else if c == 'r' then '\r' else c] + Unescape(rest)
  {
    assert ([c] + rest)[1..] == rest && (['\\', c] + rest)[2..] == rest;
  }

  /** A written line is its nine escaped fields, in this order, with a tab between them. */
  lemma SpecLineSays(a: Action)
    ensures var key, flags := if a.key.Some? then [a.key.value] else "",
                              (if a.preview then "p" else "") + (if a.diff then "d" else "");
            Split(SpecLine(a), '\t') ==
              [Escape(key), Escape(a.id), Escape(a.caption), Escape(flags), Escape(OrEmpty(a.input)),
               Escape(OrEmpty(a.provider)), Escape(OrEmpty(a.model)), Escape(OrEmpty(a.system)), Escape(a.instruction)]
  {
    hide OrEmpty, Escape;
    var esc := EscapeAll(Fields(a));
    EscapedAreClean(Fields(a));
    SplitJoin(esc, TAB);
  }

  /** The keys an action may have, one by one. */
  lemma UsableKeys(c: char)
    ensures KeyUsable(c) <==> c in "abcdefghi" || c in "lmnopqrstu" || c in "wxz" || c in "0123456789"
  {
  }

  /** A line that says nothing: empty or a comment, but for a carriage return. */
  predicate Silent(raw: string) {
    raw == "" || raw == "\r" || raw[0] == '#'
  }

  /** The raw fields of a line, without its carriage return. */
  ghost predicate RawFields(raw: string, parts: seq<string>) {
    && parts == Split(if raw != "" && raw[|raw| - 1] == '\r' then raw[..|raw| - 1] else raw, '\t')
  }

  /** The action that nine raw fields say. */
  ghost predicate Says(a: Action, parts: seq<string>, taken: seq<Action>) {
    && |parts| == 9
    && a.id == Unescape(parts[1]) && a.caption == Unescape(parts[2])
    && (forall c :: a.key == Some(c) <==> Unescape(parts[0]) == [c] && KeyUsable(c) && !HasKey(taken, c))
    && (a.preview <==> 'p' in Unescape(parts[3])) && (a.diff <==> 'd' in Unescape(parts[3]))
    && a.input == OrNone(Capped(Unescape(parts[4])))
    && a.provider == OrNone(Unescape(parts[5])) && a.model == OrNone(Unescape(parts[6]))
    && a.system == OrNone(Capped(Unescape(parts[7]))) && a.instruction == Capped(Unescape(parts[8]))
  }

  /** When a line is accepted: there is room, nine fields, an id that is new and a caption. */
  ghost predicate Accepted(before: Parsed, parts: seq<string>) {
    && |before.actions| < 36 && |parts| == 9 && parts[1] != "" && parts[2] != ""
    && !HasId(before.actions, Unescape(parts[1]))
  }

  /** A line that says something is kept as the action it says, or else counted as refused. */
  lemma LineReads(before: Parsed, raw: string, parts: seq<string>)
    requires RawFields(raw, parts)
    ensures var after := ParseLine(before, raw);
            if Silent(raw) then after == before
            else if Accepted(before, parts) then
              && |after.actions| == |before.actions| + 1 && after.rejected == before.rejected
              && after.actions[..|before.actions|] == before.actions
              && Says(after.actions[|before.actions|], parts, before.actions)
            else after == Parsed(before.actions, before.rejected + 1)
  {
    hide Capped, HasKey, HasId, KeyUsable;
    var after, f := ParseLine(before, raw), UnescapeAll(parts);
    assert |parts| == 9 ==> (f[1] == "" <==> parts[1] == "") && (f[2] == "" <==> parts[2] == "");
    if !Silent(raw) && Accepted(before, parts) {
      assert f[0] == Unescape(parts[0]) && f[3] == Unescape(parts[3]) && f[4] == Unescape(parts[4]);
      assert f[5] == Unescape(parts[5]) && f[6] == Unescape(parts[6]) && f[7] == Unescape(parts[7]);
      assert f[8] == Unescape(parts[8]);
      ActionSays(f, parts, before.actions);
    }
  }

  lemma ActionSays(f: seq<string>, parts: seq<string>, taken: seq<Action>)
    requires |parts| == 9 && f == UnescapeAll(parts)
    ensures Says(ActionOf(f, taken), parts, taken)
  {
    hide Capped, HasKey, KeyUsable, Unescape;
  }

  function SayingLines(lines: seq<string>): nat {
    if lines == [] then 0
    else SayingLines(lines[..|lines| - 1]) + if Silent(lines[|lines| - 1]) then 0 else 1
  }

  /** Every line that says something is an action or a refusal. */
  lemma {:induction false} EveryLineCounts(lines: seq<string>)
    ensures var out := ParseLines(lines); |out.actions| + out.rejected == SayingLines(lines)
  {
    if lines != [] {
      hide ParseLine, Accepted, Silent, Says;
      var init, raw := lines[..|lines| - 1], lines[|lines| - 1];
      EveryLineCounts(init);
      LineReads(ParseLines(init), raw, Split(if raw != "" && raw[|raw| - 1] == CR then raw[..|raw| - 1] else raw, TAB));
    }
  }
}
