/**
 The assistant's bounded JSON reader.  A pointer into a text is the rest of the
 text from there on; the end of the text is the NUL.
 */
module JsonScan {
  import opened Text
  import opened Json

  /** The longest string taken, in bytes. */
  const MAX_STRING := 4096

  // ---- The scanners ----

  /** Past the closing quote of a string whose opening quote has been passed. */
  function SkipBody(p: string): (end: Option<string>)
    ensures end.Some? ==> |end.value| < |p| && end.value == p[|p| - |end.value|..]
  {
    if p == "" then None
    else if p[0] == '\\' then (if |p| == 1 then None else SkipBody(p[2..]))
    else if p[0] == '"' then Some(p[1..])
    else SkipBody(p[1..])
  }

  /** `p` is at an opening quote; the result is just past the closing one. */
  function SkipString(p: string): (end: Option<string>)
    requires p != ""
    ensures end.Some? ==> |end.value| < |p| - 1 && end.value == p[|p| - |end.value|..]
  {
    SkipBody(p[1..])
  }

  function SkipBlank(p: string): (q: string)
    ensures |q| <= |p| && (q != "" ==> !IsSpace(q[0]))
  {
    if p != "" && IsSpace(p[0]) then SkipBlank(p[1..]) else p
  }

  predicate EndsAtom(c: char) {
    c == ',' || c == '}' || c == ']' || IsSpace(c)
  }

  function SkipAtom(p: string): (q: string)
    ensures |q| <= |p|
  {
    if p != "" && !EndsAtom(p[0]) then SkipAtom(p[1..]) else p
  }

  /** Past the bracket that brings the depth back to 0. */
  function SkipNest(p: string, depth: int): (end: Option<string>)
    ensures end.Some? ==> |end.value| < |p|
    decreases |p|
  {
    if p == "" then None
    else if p[0] == '"' then
      var q := SkipString(p);
      if q.None? then None else SkipNest(q.value, depth)
    else if IsOpen(p[0]) then SkipNest(p[1..], depth + 1)
    else if IsClose(p[0]) then (if depth == 1 then Some(p[1..]) else SkipNest(p[1..], depth - 1))
    else SkipNest(p[1..], depth)
  }

  /** `p` is at any value, or at blanks before one; the result is just past it. */
  function SkipValue(p: string): (end: Option<string>)
    ensures end.Some? ==> |end.value| <= |p|
  {
    var q := SkipBlank(p);
    if q != "" && q[0] == '"' then SkipString(q)
    else if q == "" || !IsOpen(q[0]) then Some(SkipAtom(q))
    else SkipNest(q, 0)
  }

  /** After a string at depth one that reads `key`: the value, if a colon follows. */
  function AfterColon(p: string): Option<string> {
    var q := SkipBlank(p);
    if q != "" && q[0] == ':' then Some(SkipBlank(q[1..])) else None
  }

  function TopNest(p: string, depth: int, key: string): Option<string>
    decreases |p|
  {
    if p == "" then None
    else if p[0] == '"' then
      var end := SkipString(p);
      if end.None? then None
      else
        var body := p[1..|p| - |end.value| - 1];
        if depth == 1 && body == key && AfterColon(end.value).Some? then AfterColon(end.value)
        else TopNest(end.value, depth, key)
    else if IsOpen(p[0]) then TopNest(p[1..], depth + 1, key)
    else if IsClose(p[0]) then (if depth - 1 <= 0 then None else TopNest(p[1..], depth - 1, key))
    else TopNest(p[1..], depth, key)
  }

  /** In the object at `obj`, the value of `key` at depth one. */
  function TopValue(obj: string, key: string): Option<string> {
    var q := SkipBlank(obj);
    if q == "" || q[0] != '{' then None else TopNest(q, 0, key)
  }

  method ScanString(start: string) returns (end: Option<string>)
    requires start != ""
    ensures end == SkipString(start)
  {
    var p := start[1..];
    while p != ""
      invariant SkipBody(p) == SkipString(start)
      decreases |p|
    {
      if p[0] == '\\' {
        if |p| == 1 {
          return None;
        }
        p := p[2..];
      } else if p[0] == '"' {
        return Some(p[1..]);
      } else {
        p := p[1..];
      }
    }
    return None;
  }

  method ScanBlank(start: string) returns (p: string)
    ensures p == SkipBlank(start)
  {
    p := start;
    while p != "" && IsSpace(p[0])
      invariant SkipBlank(p) == SkipBlank(start)
      decreases |p|
    {
      p := p[1..];
    }
  }

  method ScanValue(start: string) returns (end: Option<string>)
    ensures end == SkipValue(start)
  {
    var p := ScanBlank(start);
    if p != "" && p[0] == '"' {
      end := ScanString(p);
      return;
    }
    if p == "" || !IsOpen(p[0]) {
      ghost var q := p;
      while p != "" && !EndsAtom(p[0])
        invariant SkipAtom(p) == SkipAtom(q)
        decreases |p|
      {
        p := p[1..];
      }
      return Some(p);
    }
    ghost var q := p;
    var depth := 0;
    while p != ""
      invariant SkipNest(p, depth) == SkipNest(q, 0)
      decreases |p|
    {
      if p[0] == '"' {
        var s := ScanString(p);
        if s.None? {
          return None;
        }
        p := s.value;
        continue;
      }
      if IsOpen(p[0]) {
        depth := depth + 1;
      } else if IsClose(p[0]) {
        depth := depth - 1;
        if depth == 0 {
          return Some(p[1..]);
        }
      }
      p := p[1..];
    }
    return None;
  }

  method FindTopValue(obj: string, key: string) returns (value: Option<string>)
    ensures value == TopValue(obj, key)
  {
    var p := ScanBlank(obj);
    if p == "" || p[0] != '{' {
      return None;
    }
    ghost var start := p;
    var depth := 0;
    while p != ""
      invariant TopNest(p, depth, key) == TopNest(start, 0, key)
      decreases |p|
    {
      if p[0] == '"' {
        var end := ScanString(p);
        if end.None? {
          return None;
        }
        if depth == 1 && p[1..|p| - |end.value| - 1] == key {
          var q := ScanBlank(end.value);
          if q != "" && q[0] == ':' {
            q := ScanBlank(q[1..]);
            return Some(q);
          }
        }
        p := end.value;
        continue;
      }
      if IsOpen(p[0]) {
        depth := depth + 1;
      } else if IsClose(p[0]) {
        depth := depth - 1;
        if depth <= 0 {
          return None;
        }
      }
      p := p[1..];
    }
    return None;
  }

  // ---- Strings ----

  lemma {:induction false} BodyEnds(body: string, rest: string)
    requires GoodBody(body)
    ensures SkipBody(body + ("\"" + rest)) == Some(rest)
  {
    var p := body + ("\"" + rest);
    if body == "" {
      assert p == "\"" + rest && p[1..] == rest;
    } else if body[0] == '\\' {
      assert p[2..] == body[2..] + ("\"" + rest);
      BodyEnds(body[2..], rest);
    } else {
      assert p[1..] == body[1..] + ("\"" + rest);
      BodyEnds(body[1..], rest);
    }
  }

  /** A string is skipped to just past its own closing quote, whatever is in it and whatever follows. */
  lemma StringEnds(body: string, rest: string)
    requires GoodBody(body)
    ensures SkipString(Quote(body) + rest) == Some(rest)
  {
    BodyEnds(body, rest);
    QuoteTail(body, rest);
  }

  lemma QuoteTail(body: string, rest: string)
    ensures (Quote(body) + rest)[0] == '"' && (Quote(body) + rest)[1..] == body + ("\"" + rest)
  {
  }

  lemma {:induction false} BlankSkipped(blank: string, rest: string)
    requires AllSpace(blank)
    ensures SkipBlank(blank + rest) == SkipBlank(rest)
  {
    if blank == "" {
      assert blank + rest == rest;
    } else {
      assert blank[0] in blank && (blank + rest)[1..] == blank[1..] + rest;
      BlankSkipped(blank[1..], rest);
    }
  }

  // ---- Skipping a value ----

  lemma NestPiece(p: Piece, rest: string, d: int)
    requires GoodPiece(p) && d + Step(p) >= 1
    ensures SkipNest(PieceText(p) + rest, d) == SkipNest(rest, d + Step(p))
  {
    if p.Quoted? {
      StringEnds(p.body, rest);
    } else {
      assert (PieceText(p) + rest)[1..] == rest;
    }
  }

  lemma {:induction false} NestPieces(ps: seq<Piece>, rest: string, d: int)
    requires (forall p | p in ps :: GoodPiece(p)) && Stays(ps, d, 1)
    ensures SkipNest(TextOf(ps) + rest, d) == SkipNest(rest, d + Level(ps))
  {
    if ps == [] {
      assert TextOf(ps) + rest == rest;
    } else {
      assert ps[0] in ps;
      Assoc(PieceText(ps[0]), TextOf(ps[1..]), rest);
      NestPiece(ps[0], TextOf(ps[1..]) + rest, d);
      NestPieces(ps[1..], rest, d + Step(ps[0]));
    }
  }

  /** A whole bracketed value, from depth 0. */
  lemma NestEnds(open: char, ps: seq<Piece>, close: char, rest: string)
    requires IsOpen(open) && IsClose(close) && Balanced(ps)
    ensures SkipNest([open] + (TextOf(ps) + ([close] + rest)), 0) == Some(rest)
  {
    var p, tail := [open] + (TextOf(ps) + ([close] + rest)), [close] + rest;
    assert p[1..] == TextOf(ps) + tail;
    StaysHigher(ps, 0, 0, 1);
    NestPieces(ps, [close] + rest, 1);
    assert ([close] + rest)[1..] == rest;
  }

  lemma {:induction false} AtomEnds(text: string, rest: string)
    requires (forall c | c in text :: IsAtomChar(c)) && (rest == "" || EndsAtom(rest[0]))
    ensures SkipAtom(text + rest) == rest
  {
    if text == "" {
      assert text + rest == rest;
    } else {
      assert text[0] in text && (text + rest)[1..] == text[1..] + rest;
      AtomEnds(text[1..], rest);
    }
  }

  /** The pieces inside the brackets of an array or object. */
  function Inner(v: Value): seq<Piece>
    requires v.Arr? || v.Obj?
  {
    if v.Arr? then Plains(v.blank) + ElemPieces(v.elems, true) else Plains(v.blank) + MemberPieces(v.members, true)
  }

  function OpenOf(v: Value): char {
    if v.Arr? then '[' else '{'
  }

  function CloseOf(v: Value): char {
    if v.Arr? then ']' else '}'
  }

  lemma NestBalances(blank: string, ps: seq<Piece>)
    requires AllSpace(blank) && Balanced(ps)
    ensures Balanced(Plains(blank) + ps) && TextOf(Plains(blank) + ps) == blank + TextOf(ps)
  {
    hide Balanced;
    BalancedPlains(blank);
    BalancedAppend(Plains(blank), ps);
    TextAppend(Plains(blank), ps);
    TextOfPlains(blank);
  }

  lemma PrintedNest(v: Value)
    requires Good(v) && (v.Arr? || v.Obj?)
    ensures Print(v) == [OpenOf(v)] + (TextOf(Inner(v)) + [CloseOf(v)])
    ensures Balanced(Inner(v))
  {
    hide Balanced, AllSpace;
    if v.Arr? {
      ElemsAreText(v.elems, true);
      ElemsBalance(v.elems, true);
      NestBalances(v.blank, ElemPieces(v.elems, true));
    } else {
      MembersAreText(v.members, true);
      MembersBalance(v.members, true);
      NestBalances(v.blank, MemberPieces(v.members, true));
    }
  }

  lemma BracketText(open: char, inner: string, close: char, rest: string)
    ensures ([open] + (inner + [close])) + rest == [open] + (inner + ([close] + rest))
  {
  }

  lemma PrintStarts(v: Value)
    requires Good(v)
    ensures Print(v) != "" && !IsSpace(Print(v)[0]) && !EndsAtom(Print(v)[0]) && Print(v)[0] != ':'
    ensures Print(v)[0] == '"' <==> v.Str?
    ensures IsOpen(Print(v)[0]) <==> v.Arr? || v.Obj?
    ensures Print(v)[0] == '{' <==> v.Obj?
    ensures Print(v)[0] == '[' <==> v.Arr?
  {
    if v.Atom? {
      assert v.text[0] in v.text;
    }
  }

  /**
   Skipping stops exactly past the value: whatever follows a string, array or
   object, and for a number or literal at the delimiter that has to follow it.
   */
  lemma ValueEnds(blank: string, v: Value, rest: string)
    requires AllSpace(blank) && Good(v)
    requires v.Atom? && rest != "" ==> EndsAtom(rest[0])
    ensures SkipValue(blank + (Print(v) + rest)) == Some(rest)
  {
    var q := Print(v) + rest;
    PrintStarts(v);
    BlankSkipped(blank, q);
    assert q[0] == Print(v)[0];
    match v
    case Str(body) => StringEnds(body, rest);
    case Atom(text) => AtomEnds(text, rest);
    case _ =>
      PrintedNest(v);
      BracketText(OpenOf(v), TextOf(Inner(v)), CloseOf(v), rest);
      NestEnds(OpenOf(v), Inner(v), CloseOf(v), rest);
  }

  // ---- Finding a key at depth one ----

  lemma TopPiece(p: Piece, rest: string, d: int, key: string)
    requires GoodPiece(p) && d + Step(p) >= 1 && (p.Quoted? ==> d != 1)
    ensures TopNest(PieceText(p) + rest, d, key) == TopNest(rest, d + Step(p), key)
  {
    hide AfterColon;
    if p.Quoted? {
      StringEnds(p.body, rest);
    } else {
      assert (PieceText(p) + rest)[1..] == rest;
    }
  }

  /** Nothing deeper than depth one can be taken for the key. */
  lemma {:induction false} TopPieces(ps: seq<Piece>, rest: string, d: int, key: string)
    requires (forall p | p in ps :: GoodPiece(p)) && Stays(ps, d, 2)
    ensures TopNest(TextOf(ps) + rest, d, key) == TopNest(rest, d + Level(ps), key)
  {
    if ps == [] {
      assert TextOf(ps) + rest == rest;
    } else {
      assert ps[0] in ps;
      Assoc(PieceText(ps[0]), TextOf(ps[1..]), rest);
      TopPiece(ps[0], TextOf(ps[1..]) + rest, d, key);
      TopPieces(ps[1..], rest, d + Step(ps[0]), key);
    }
  }

  lemma {:induction false} TopPlain(s: string, rest: string, d: int, key: string)
    requires d >= 1 && forall c | c in s :: IsPlain(c)
    ensures TopNest(s + rest, d, key) == TopNest(rest, d, key)
  {
    if s == "" {
      assert s + rest == rest;
    } else {
      assert s[0] in s && (s + rest)[1..] == s[1..] + rest;
      TopPlain(s[1..], rest, d, key);
    }
  }

  /** A string at depth one: its text is compared, and what follows it decides. */
  lemma TopQuoted(body: string, rest: string, key: string)
    requires GoodBody(body)
    ensures TopNest(Quote(body) + rest, 1, key) ==
      if body == key && AfterColon(rest).Some? then AfterColon(rest) else TopNest(rest, 1, key)
  {
    hide AfterColon;
    var p := Quote(body) + rest;
    StringEnds(body, rest);
    assert p[1..|p| - |rest| - 1] == body;
  }

  lemma TopNested(open: char, ps: seq<Piece>, close: char, rest: string, key: string)
    requires IsOpen(open) && IsClose(close) && Balanced(ps)
    ensures TopNest([open] + (TextOf(ps) + ([close] + rest)), 1, key) == TopNest(rest, 1, key)
  {
    hide AfterColon;
    var p := [open] + (TextOf(ps) + ([close] + rest));
    assert p[1..] == TextOf(ps) + ([close] + rest);
    StaysHigher(ps, 0, 0, 2);
    TopPieces(ps, [close] + rest, 2, key);
    assert ([close] + rest)[1..] == rest;
  }

  /** A value at depth one is passed over, even a string equal to the key. */
  lemma TopSkipsValue(v: Value, rest: string, key: string)
    requires Good(v) && AfterColon(rest).None?
    ensures TopNest(Print(v) + rest, 1, key) == TopNest(rest, 1, key)
  {
    hide AfterColon, Balanced;
    match v
    case Str(body) => TopQuoted(body, rest, key);
    case Atom(text) => TopPlain(text, rest, 1, key);
    case _ =>
      PrintedNest(v);
      TopNested(OpenOf(v), Inner(v), CloseOf(v), rest, key);
      BracketText(OpenOf(v), TextOf(Inner(v)), CloseOf(v), rest);
  }

  /** The text from the value of the first member called `key` on. */
  function FirstValue(ms: Members, key: string, tail: string): Option<string> {
    match ms
    case NoMember => None
    case Member(_, k, _, _, val, after, rest) =>
      if k == key then Some(Print(val) + (after + (PrintMembers(rest, false) + tail))) else FirstValue(rest, key, tail)
  }

  /** After a value comes a comma or the closing brace, never a colon. */
  lemma NoColonAfter(after: string, rest: Members, tail: string)
    requires AllSpace(after) && tail != "" && tail[0] == '}'
    ensures AfterColon(after + (PrintMembers(rest, false) + tail)).None?
  {
    BlankSkipped(after, PrintMembers(rest, false) + tail);
    if rest.NoMember? {
      assert PrintMembers(rest, false) + tail == tail;
    } else {
      assert (PrintMembers(rest, false) + tail)[0] == ',';
    }
  }

  lemma ColonAfter(c: string, d: string, val: Value, rest: string)
    requires AllSpace(c) && AllSpace(d) && Good(val)
    ensures AfterColon((c + ":" + d) + (Print(val) + rest)) == Some(Print(val) + rest)
  {
    var p := (c + ":" + d) + (Print(val) + rest);
    assert p == c + (":" + (d + (Print(val) + rest)));
    BlankSkipped(c, ":" + (d + (Print(val) + rest)));
    assert (":" + (d + (Print(val) + rest)))[1..] == d + (Print(val) + rest);
    BlankSkipped(d, Print(val) + rest);
    PrintStarts(val);
  }

  /** What follows the colon of the first member. */
  function ValueText(ms: Members, tail: string): string
    requires ms.Member?
  {
    Print(ms.val) + (ms.after + (PrintMembers(ms.rest, false) + tail))
  }

  /** The first member's key is compared; if it is another, the search goes on behind its value. */
  lemma TopMember(ms: Members, first: bool, tail: string, key: string)
    requires ms.Member? && GoodMembers(ms) && tail != "" && tail[0] == '}'
    ensures TopNest(PrintMembers(ms, first) + tail, 1, key) ==
      if ms.key == key then Some(ValueText(ms, tail)) else TopNest(ValueText(ms, tail), 1, key)
  {
    var head, colon := Comma(first) + ms.before, ms.colonBefore + ":" + ms.colonAfter;
    assert forall ch | ch in head :: IsPlain(ch);
    assert forall ch | ch in colon :: IsPlain(ch);
    hide AfterColon, ValueText, Quote;
    MemberText(ms, first, tail);
    ValueColon(ms, tail);
    TopKey(head, ms.key, colon, ValueText(ms, tail), key);
  }

  lemma TopKey(head: string, body: string, colon: string, value: string, key: string)
    requires (forall c | c in head :: IsPlain(c)) && (forall c | c in colon :: IsPlain(c))
    requires GoodBody(body) && AfterColon(colon + value) == Some(value)
    ensures TopNest(head + (Quote(body) + (colon + value)), 1, key) ==
      if body == key then Some(value) else TopNest(value, 1, key)
  {
    hide AfterColon, Quote;
    TopPlain(head, Quote(body) + (colon + value), 1, key);
    TopQuoted(body, colon + value, key);
    TopPlain(colon, value, 1, key);
  }

  lemma ValueColon(ms: Members, tail: string)
    requires ms.Member? && GoodMembers(ms)
    ensures AfterColon((ms.colonBefore + ":" + ms.colonAfter) + ValueText(ms, tail)) == Some(ValueText(ms, tail))
  {
    ColonAfter(ms.colonBefore, ms.colonAfter, ms.val, ms.after + (PrintMembers(ms.rest, false) + tail));
  }

  lemma TopPastValue(ms: Members, tail: string, key: string)
    requires ms.Member? && GoodMembers(ms) && tail != "" && tail[0] == '}'
    ensures TopNest(ValueText(ms, tail), 1, key) == TopNest(PrintMembers(ms.rest, false) + tail, 1, key)
  {
    hide AfterColon;
    var more := PrintMembers(ms.rest, false) + tail;
    NoColonAfter(ms.after, ms.rest, tail);
    TopSkipsValue(ms.val, ms.after + more, key);
    TopPlain(ms.after, more, 1, key);
  }

  lemma {:induction false} TopMembers(ms: Members, first: bool, tail: string, key: string)
    requires GoodMembers(ms) && tail != "" && tail[0] == '}'
    ensures TopNest(PrintMembers(ms, first) + tail, 1, key) == FirstValue(ms, key, tail)
  {
    if ms.NoMember? {
      assert PrintMembers(ms, first) + tail == tail;
    } else {
      TopMember(ms, first, tail, key);
      if ms.key != key {
        TopPastValue(ms, tail, key);
        TopMembers(ms.rest, false, tail, key);
      }
    }
  }

  lemma MemberText(ms: Members, first: bool, tail: string)
    requires ms.Member?
    ensures PrintMembers(ms, first) + tail ==
      (Comma(first) + ms.before) + (Quote(ms.key) + ((ms.colonBefore + ":" + ms.colonAfter) + ValueText(ms, tail)))
  {
    var head, colon := Comma(first) + ms.before, ms.colonBefore + ":" + ms.colonAfter;
    var more := PrintMembers(ms.rest, false);
    Assoc(ms.after, more, tail);
    Assoc(Print(ms.val), ms.after + more, tail);
    Assoc(colon, Print(ms.val) + (ms.after + more), tail);
    Assoc(Quote(ms.key), colon + (Print(ms.val) + (ms.after + more)), tail);
    Assoc(head, Quote(ms.key) + (colon + (Print(ms.val) + (ms.after + more))), tail);
  }

  /**
   In any JSON object, however deep and whatever its strings hold, the value
   found is that of the first member of the object itself whose raw key is
   `key`, and there is none exactly when no member is called that.
   */
  lemma TopValueIsFirst(space: string, blank: string, members: Members, rest: string, key: string)
    requires AllSpace(space) && Good(Obj(blank, members))
    ensures TopValue(space + (Print(Obj(blank, members)) + rest), key) == FirstValue(members, key, "}" + rest)
  {
    var q := Print(Obj(blank, members)) + rest;
    BlankSkipped(space, q);
    assert q[0] == '{';
    assert q[1..] == blank + (PrintMembers(members, true) + ("}" + rest));
    TopPlain(blank, PrintMembers(members, true) + ("}" + rest), 1, key);
    TopMembers(members, true, "}" + rest, key);
  }
}
