/**
 The meeting widget's shallow copy of a JSON object: every nested object or array
 becomes `null`, and everything else is kept as it is written.
 */
module JsonShallow {
  import opened Text
  import opened Json
  import opened JsonScan

  /** Past the string's closing quote, or the end of the text when it never closes. */
  function PastString(p: string): (q: string)
    ensures |q| <= |p|
  {
    if p == "" then ""
    else if p[0] == '\\' then (if |p| == 1 then "" else PastString(p[2..]))
    else if p[0] == '"' then p[1..]
    else PastString(p[1..])
  }

  function SkipQuoted(p: string): (q: string)
    requires p != ""
    ensures |q| < |p|
  {
    PastString(p[1..])
  }

  /** A string that never closes takes the rest of the text. */
  lemma {:induction false} UnclosedTakesAll(body: string)
    requires GoodBody(body) || (body != "" && GoodBody(body[..|body| - 1]) && body[|body| - 1] == '\\')
    ensures PastString(body) == ""
    decreases |body|
  {
    if body != "" {
      var n := if body[0] == '\\' then 2 else 1;
      if n <= |body| {
        assert n < |body| ==> body[..|body| - 1][n..] == body[n..][..|body| - 1 - n];
        UnclosedTakesAll(body[n..]);
      }
    }
  }

  /** Past the bracket that closes the one the text starts with. */
  function SkipContainer(p: string, depth: int): (end: Option<string>)
    ensures end.Some? ==> |end.value| < |p|
    decreases |p|
  {
    if p == "" then None
    else if p[0] == '"' then SkipContainer(SkipQuoted(p), depth)
    else if IsOpen(p[0]) then SkipContainer(p[1..], depth + 1)
    else if IsClose(p[0]) then (if depth - 1 == 0 then Some(p[1..]) else SkipContainer(p[1..], depth - 1))
    else SkipContainer(p[1..], depth)
  }

  /** The copy from `p` up to the brace just before `end`, with that brace. */
  function ShallowFrom(p: string, end: string): string
    decreases |p|
  {
    if |p| <= |end| + 1 then "}"
    else if p[0] == '"' then
      var q := if |SkipQuoted(p)| < |end| then end else SkipQuoted(p);
      p[..|p| - |q|] + ShallowFrom(q, end)
    else if IsOpen(p[0]) then
      var q := SkipContainer(p, 0);
      if q.None? || |q.value| < |end| then "}" else "null" + ShallowFrom(q.value, end)
    else [p[0]] + ShallowFrom(p[1..], end)
  }

  /** The copy of the object that starts at `start` and ends just before `end`. */
  function Shallow(start: string, end: string): string
    requires start != ""
  {
    "{" + ShallowFrom(start[1..], end)
  }

  method PastQuoted(start: string) returns (p: string)
    requires start != ""
    ensures p == SkipQuoted(start)
  {
    p := start[1..];
    while p != ""
      invariant PastString(p) == SkipQuoted(start)
      decreases |p|
    {
      if p[0] == '\\' {
        if |p| == 1 {
          return "";
        }
        p := p[2..];
      } else if p[0] == '"' {
        return p[1..];
      } else {
        p := p[1..];
      }
    }
  }

  method PastContainer(start: string) returns (end: Option<string>)
    ensures end == SkipContainer(start, 0)
  {
    var p, depth := start, 0;
    while p != ""
      invariant SkipContainer(p, depth) == SkipContainer(start, 0)
      decreases |p|
    {
      if p[0] == '"' {
        p := PastQuoted(p);
        continue;
      }
      if IsOpen(p[0]) {
        depth := depth + 1;
      } else if IsClose(p[0]) {
        depth := depth - 1;
        if depth == 0 {
          return Some(p[1..]);
        }
      }
      p := p[1..];
    }
    return None;
  }

  /** What the copy still has to say from `p` on. */
  ghost function Left(p: string, end: string): string {
    ShallowFrom(p, end)
  }

  lemma LeftStep(p: string, end: string)
    requires |p| > |end| + 1
    ensures Left(p, end) ==
      if p[0] == '"' then
        var q := if |SkipQuoted(p)| < |end| then end else SkipQuoted(p);
        p[..|p| - |q|] + Left(q, end)
      else if IsOpen(p[0]) then
        var q := SkipContainer(p, 0);
        if q.None? || |q.value| < |end| then "}" else "null" + Left(q.value, end)
      else [p[0]] + Left(p[1..], end)
  {
  }

  lemma LeftEnds(p: string, end: string)
    ensures |p| <= |end| + 1 ==> Left(p, end) == "}"
    ensures p != "" ==> Shallow(p, end) == "{" + Left(p[1..], end)
  {
  }

  method ShallowObject(start: string, end: string) returns (out: string)
    requires start != ""
    ensures out == Shallow(start, end)
  {
    hide Left, Shallow;
    out := "{";
    LeftEnds(start, end);
    var p := start[1..];
    while |p| > |end| + 1
      invariant out + Left(p, end) == Shallow(start, end)
      decreases |p|
    {
      LeftStep(p, end);
      if p[0] == '"' {
        var q := PastQuoted(p);
        if |q| < |end| {
          q := end;
        }
        Assoc(out, p[..|p| - |q|], Left(q, end));
        out := out + p[..|p| - |q|];
        p := q;
      } else if IsOpen(p[0]) {
        var q := PastContainer(p);
        if q.None? || |q.value| < |end| {
          out := out + "}";
          return;
        }
        Assoc(out, "null", Left(q.value, end));
        out := out + "null";
        p := q.value;
      } else {
        Assoc(out, [p[0]], Left(p[1..], end));
        out := out + [p[0]];
        p := p[1..];
      }
    }
    LeftEnds(p, end);
    out := out + "}";
  }

  // ---- The same places as the other scanner ----

  lemma {:induction false} SameString(p: string)
    ensures SkipBody(p).Some? ==> PastString(p) == SkipBody(p).value
  {
    if p != "" && p[0] != '"' {
      if p[0] != '\\' {
        SameString(p[1..]);
      } else if |p| > 1 {
        SameString(p[2..]);
      }
    }
  }

  /** Where the brackets close, both scanners agree. */
  lemma {:induction false} SameNest(p: string, depth: int)
    ensures SkipNest(p, depth).Some? ==> SkipContainer(p, depth) == SkipNest(p, depth)
    decreases |p|
  {
    if p != "" {
      if p[0] == '"' {
        SameString(p[1..]);
        if SkipString(p).Some? {
          SameNest(SkipString(p).value, depth);
        }
      } else {
        SameNest(p[1..], depth + (if IsOpen(p[0]) then 1 else if IsClose(p[0]) then -1 else 0));
      }
    }
  }

  // ---- The copy of a printed object ----

  /** The value as the copy shows it. */
  function Flat(v: Value): Value {
    if v.Arr? || v.Obj? then Atom("null") else v
  }

  function FlatMembers(ms: Members): Members {
    if ms.NoMember? then ms else ms.(val := Flat(ms.val), rest := FlatMembers(ms.rest))
  }

  lemma {:induction false} CopyPlain(s: string, more: string, end: string)
    requires (forall c | c in s :: IsPlain(c)) && |more| > |end|
    ensures ShallowFrom(s + more, end) == s + ShallowFrom(more, end)
  {
    if s == "" {
      assert s + more == more;
    } else {
      assert s[0] in s && (s + more)[1..] == s[1..] + more;
      CopyPlain(s[1..], more, end);
      assert s == [s[0]] + s[1..];
    }
  }

  lemma CopyQuoted(body: string, more: string, end: string)
    requires GoodBody(body) && |more| > |end|
    ensures ShallowFrom(Quote(body) + more, end) == Quote(body) + ShallowFrom(more, end)
  {
    var p := Quote(body) + more;
    StringEnds(body, more);
    QuoteTail(body, more);
    SameString(p[1..]);
    assert p[..|p| - |more|] == Quote(body);
  }

  lemma CopyBrackets(open: char, ps: seq<Piece>, close: char, more: string, end: string)
    requires IsOpen(open) && IsClose(close) && Balanced(ps) && |more| > |end|
    ensures ShallowFrom([open] + (TextOf(ps) + ([close] + more)), end) == "null" + ShallowFrom(more, end)
  {
    hide Balanced;
    var p := [open] + (TextOf(ps) + ([close] + more));
    NestEnds(open, ps, close, more);
    SameNest(p, 0);
    assert |p| > |end| + 1;
  }

  lemma CopyNest(v: Value, more: string, end: string)
    requires Good(v) && (v.Arr? || v.Obj?) && |more| > |end|
    ensures ShallowFrom(Print(v) + more, end) == "null" + ShallowFrom(more, end)
  {
    hide Balanced, Inner;
    PrintedNest(v);
    BracketText(OpenOf(v), TextOf(Inner(v)), CloseOf(v), more);
    CopyBrackets(OpenOf(v), Inner(v), CloseOf(v), more, end);
  }

  lemma CopyValue(v: Value, more: string, end: string)
    requires Good(v) && |more| > |end|
    ensures ShallowFrom(Print(v) + more, end) == Print(Flat(v)) + ShallowFrom(more, end)
  {
    match v
    case Str(body) => CopyQuoted(body, more, end);
    case Atom(text) => CopyPlain(text, more, end);
    case _ => CopyNest(v, more, end);
  }

  lemma {:induction false} CopyMembers(ms: Members, first: bool, end: string)
    requires GoodMembers(ms)
    ensures ShallowFrom(PrintMembers(ms, first) + ("}" + end), end) == PrintMembers(FlatMembers(ms), first) + "}"
  {
    var tail := "}" + end;
    if ms.NoMember? {
      assert PrintMembers(ms, first) + tail == tail && PrintMembers(FlatMembers(ms), first) + "}" == "}";
    } else {
      CopyMembers(ms.rest, false, end);
      CopyMember(ms, first, end);
    }
  }

  lemma CopyMember(ms: Members, first: bool, end: string)
    requires ms.Member? && GoodMembers(ms)
    requires ShallowFrom(PrintMembers(ms.rest, false) + ("}" + end), end) == PrintMembers(FlatMembers(ms.rest), false) + "}"
    ensures ShallowFrom(PrintMembers(ms, first) + ("}" + end), end) == PrintMembers(FlatMembers(ms), first) + "}"
  {
    var head, colon := Comma(first) + ms.before, ms.colonBefore + ":" + ms.colonAfter;
    var value, flat := ValueText(ms, "}" + end), ValueText(FlatMembers(ms), "}");
    CopyValueText(ms, end);
    MemberIsPlain(ms, first);
    LongValue(ms, end);
    CopyHead(head, ms.key, colon, value, end);
    FlatText(ms, first);
    hide ValueText, Quote;
    MemberText(ms, first, "}" + end);
  }

  lemma MemberIsPlain(ms: Members, first: bool)
    requires ms.Member? && GoodMembers(ms)
    ensures (forall c | c in Comma(first) + ms.before :: IsPlain(c))
    ensures (forall c | c in ms.colonBefore + ":" + ms.colonAfter :: IsPlain(c)) && GoodBody(ms.key)
  {
  }

  lemma LongValue(ms: Members, end: string)
    requires ms.Member?
    ensures |ValueText(ms, "}" + end)| > |end|
  {
  }

  lemma FlatText(ms: Members, first: bool)
    requires ms.Member?
    ensures PrintMembers(FlatMembers(ms), first) + "}" ==
            (Comma(first) + ms.before) +
            (Quote(ms.key) + ((ms.colonBefore + ":" + ms.colonAfter) + ValueText(FlatMembers(ms), "}")))
  {
    hide ValueText, Quote;
    MemberText(FlatMembers(ms), first, "}");
  }

  lemma CopyValueText(ms: Members, end: string)
    requires ms.Member? && GoodMembers(ms)
    requires ShallowFrom(PrintMembers(ms.rest, false) + ("}" + end), end) == PrintMembers(FlatMembers(ms.rest), false) + "}"
    ensures ShallowFrom(ValueText(ms, "}" + end), end) == ValueText(FlatMembers(ms), "}")
  {
    hide Flat;
    var more := PrintMembers(ms.rest, false) + ("}" + end);
    CopyValue(ms.val, ms.after + more, end);
    CopyPlain(ms.after, more, end);
  }

  lemma CopyHead(head: string, key: string, colon: string, value: string, end: string)
    requires (forall c | c in head :: IsPlain(c)) && (forall c | c in colon :: IsPlain(c))
    requires GoodBody(key) && |value| > |end|
    ensures ShallowFrom(head + (Quote(key) + (colon + value)), end) ==
      head + (Quote(key) + (colon + ShallowFrom(value, end)))
  {
    hide Quote;
    CopyPlain(head, Quote(key) + (colon + value), end);
    CopyKey(key, colon, value, end);
  }

  lemma CopyKey(key: string, colon: string, value: string, end: string)
    requires GoodBody(key) && (forall c | c in colon :: IsPlain(c)) && |value| > |end|
    ensures ShallowFrom(Quote(key) + (colon + value), end) == Quote(key) + (colon + ShallowFrom(value, end))
  {
    hide Quote;
    CopyQuoted(key, colon + value, end);
    CopyPlain(colon, value, end);
  }

  /**
   The copy of any JSON object is that object with `null` for each nested object
   or array: numbers, literals, strings, keys and blanks of its own level are kept
   character by character, and nothing of a nested level is left.
   */
  lemma ShallowIsFlat(blank: string, members: Members, rest: string)
    requires Good(Obj(blank, members))
    ensures Shallow(Print(Obj(blank, members)) + rest, rest) == Print(Obj(blank, FlatMembers(members)))
  {
    hide Shallow;
    PrintedObject(blank, members, rest);
    CopyPlain(blank, PrintMembers(members, true) + ("}" + rest), rest);
    CopyMembers(members, true, rest);
    ShallowStarts(blank + (PrintMembers(members, true) + ("}" + rest)), rest);
  }

  lemma PrintedObject(blank: string, members: Members, rest: string)
    ensures Print(Obj(blank, members)) + rest == "{" + (blank + (PrintMembers(members, true) + ("}" + rest)))
    ensures Print(Obj(blank, FlatMembers(members))) == "{" + (blank + (PrintMembers(FlatMembers(members), true) + "}"))
  {
    var inner, flat := PrintMembers(members, true), PrintMembers(FlatMembers(members), true);
    Braced(blank, inner, "}");
    Braced(blank, flat, "}");
    Assoc("{" + (blank + inner), "}", rest);
    Braced(blank, inner, "}" + rest);
  }

  lemma Braced(blank: string, inner: string, after: string)
    ensures "{" + (blank + inner) + after == "{" + (blank + (inner + after))
  {
    Assoc(blank, inner, after);
    Assoc("{", blank + inner, after);
  }

  lemma ShallowStarts(p: string, end: string)
    ensures Shallow("{" + p, end) == "{" + ShallowFrom(p, end)
  {
    assert ("{" + p)[1..] == p;
  }
}
