/**
 The model list of an ollama reply: each object of the `models` array, read at its
 own top level.
 */
module ModelList {
  import opened Text
  import opened Json
  import opened JsonScan
  import opened JsonText

  const MAX_MODELS := 256

  datatype Model = Model(name: string, expiresAt: Option<string>, family: Option<string>,
                         params: Option<string>, quant: Option<string>)

  function TopString(obj: string, key: string): Option<string> {
    var p := TopValue(obj, key);
    if p.Some? then ReadString(p.value) else None
  }

  predicate Named(name: Option<string>) {
    name.Some? && name.value != ""
  }

  /** One model object; newer servers call the name `model`. */
  function ParseOne(obj: string): Option<Model> {
    var first := TopString(obj, "name");
    var name := if Named(first) then first else TopString(obj, "model");
    if !Named(name) then None
    else
      var details := TopValue(obj, "details");
      var inner := if details.Some? && details.value != "" && details.value[0] == '{' then details else None;
      Some(Model(name.value, TopString(obj, "expires_at"),
                 if inner.Some? then TopString(inner.value, "family") else None,
                 if inner.Some? then TopString(inner.value, "parameter_size") else None,
                 if inner.Some? then TopString(inner.value, "quantization_level") else None))
  }

  /** What a reply gives: its models, why it was refused, or a scan that never ends. */
  datatype Reply = Listed(models: seq<Model>) | Refused(error: Option<string>) | Endless

  function SkipSeparators(p: string): (q: string)
    ensures |q| <= |p| && (q != "" ==> !IsSpace(q[0]) && q[0] != ',')
  {
    if p != "" && (IsSpace(p[0]) || p[0] == ',') then SkipSeparators(p[1..]) else p
  }

  function Taken(models: seq<Model>, obj: string): seq<Model> {
    if obj != "" && obj[0] == '{' && ParseOne(obj).Some? then models + [ParseOne(obj).value] else models
  }

  /** The elements from `p` on; a value that is not moved past is met again for ever. */
  function ScanModels(p: string, models: seq<Model>): Reply
    decreases |p|
  {
    var q := SkipSeparators(p);
    if |models| >= MAX_MODELS || q == "" || q[0] == ']' then Listed(models)
    else
      var end := SkipValue(q);
      if end.None? then Listed(models)
      else if |end.value| == |q| then Endless
      else ScanModels(end.value, Taken(models, q[..|q| - |end.value|]))
  }

  function ParseModels(json: string): Reply {
    var p := TopValue(json, "models");
    if p.None? || p.value == "" || p.value[0] != '[' then
      var error := TopString(json, "error");
      Refused(if Named(error) then error else None)
    else ScanModels(p.value[1..], [])
  }

  method ReadModels(json: string) returns (reply: Reply)
    ensures reply == ParseModels(json)
  {
    hide ParseOne, SkipValue, TopValue;
    var start := FindTopValue(json, "models");
    if start.None? || start.value == "" || start.value[0] != '[' {
      var error := TopString(json, "error");
      return Refused(if Named(error) then error else None);
    }
    var p, models := start.value[1..], [];
    while p != "" && |models| < MAX_MODELS
      invariant ScanModels(p, models) == ScanModels(start.value[1..], [])
      decreases |p|
    {
      var q := SkipSeparators(p);
      if q == "" || q[0] == ']' {
        break;
      }
      var end := ScanValue(q);
      if end.None? {
        break;
      }
      if |end.value| == |q| {
        return Endless;
      }
      if q[0] == '{' {
        var obj := q[..|q| - |end.value|];
        var one := ParseOne(obj);
        if one.Some? {
          models := models + [one.value];
        }
      }
      p := end.value;
    }
    return Listed(models);
  }

  // ---- What is found in a JSON reply ----

  /** The value of the object's first member of that raw key. */
  function FirstMember(ms: Members, key: string): Option<Value> {
    if ms.NoMember? then None else if ms.key == key then Some(ms.val) else FirstMember(ms.rest, key)
  }

  /** What may follow a value in an object. */
  predicate Follows(more: string) {
    more != "" && EndsAtom(more[0])
  }

  lemma {:induction false} FirstMemberStarts(ms: Members, key: string, tail: string)
    requires GoodMembers(ms) && Follows(tail)
    ensures FirstValue(ms, key, tail).None? <==> FirstMember(ms, key).None?
    ensures FirstMember(ms, key).Some? ==>
      Good(FirstMember(ms, key).value) &&
      exists more | Follows(more) && |more| >= |tail| ::
        FirstValue(ms, key, tail) == Some(Print(FirstMember(ms, key).value) + more)
  {
    if ms.Member? && ms.key != key {
      FirstMemberStarts(ms.rest, key, tail);
    } else if ms.Member? {
      AfterMember(ms, tail);
    }
  }

  lemma AfterMember(ms: Members, tail: string)
    requires ms.Member? && GoodMembers(ms) && Follows(tail)
    ensures Follows(ms.after + (PrintMembers(ms.rest, false) + tail))
  {
    if ms.after != "" {
      assert ms.after[0] in ms.after;
    } else if ms.rest.Member? {
      assert PrintMembers(ms.rest, false)[0] == ',';
    } else {
      assert PrintMembers(ms.rest, false) + tail == tail;
    }
  }

  /** The models of the objects among the elements, in order, until there are enough. */
  function Collect(es: Elems, models: seq<Model>): seq<Model> {
    if es.NoElem? || |models| >= MAX_MODELS then models
    else Collect(es.others, Taken(models, Print(es.value)))
  }

  lemma {:induction false} SeparatorsSkipped(blank: string, rest: string)
    requires forall c | c in blank :: IsSpace(c) || c == ','
    ensures SkipSeparators(blank + rest) == SkipSeparators(rest)
  {
    if blank == "" {
      assert blank + rest == rest;
    } else {
      assert blank[0] in blank && (blank + rest)[1..] == blank[1..] + rest;
      SeparatorsSkipped(blank[1..], rest);
    }
  }

  /** Leading separators make no difference to the scan. */
  lemma ScanSkips(blank: string, rest: string, models: seq<Model>)
    requires forall c | c in blank :: IsSpace(c) || c == ','
    ensures ScanModels(blank + rest, models) == ScanModels(rest, models)
  {
    hide SkipValue, Taken;
    SeparatorsSkipped(blank, rest);
  }

  /** One element is cut out exactly, and the scan goes on behind it. */
  lemma ScanOne(v: Value, rest: string, models: seq<Model>)
    requires Good(v) && rest != "" && EndsAtom(rest[0]) && |models| < MAX_MODELS
    ensures ScanModels(Print(v) + rest, models) == ScanModels(rest, Taken(models, Print(v)))
  {
    hide Taken, SkipValue, EndsAtom;
    var q := Print(v) + rest;
    ValueEnds("", v, rest);
    assert "" + q == q;
    AtElement(v, rest);
    assert q[..|q| - |rest|] == Print(v);
  }

  lemma AtElement(v: Value, rest: string)
    requires Good(v)
    ensures var q := Print(v) + rest; Print(v) != "" && SkipSeparators(q) == q && q[0] != ']'
  {
    PrintStarts(v);
  }

  lemma {:induction false} ElementsScan(es: Elems, first: bool, rest: string, models: seq<Model>)
    requires GoodElems(es)
    ensures ScanModels(PrintElems(es, first) + ("]" + rest), models) == Listed(Collect(es, models))
  {
    hide Taken, EndsAtom;
    var tail := "]" + rest;
    if es.NoElem? {
      assert PrintElems(es, first) + tail == tail;
    } else {
      var more := PrintElems(es.others, false) + tail;
      ElementText(es, first, tail);
      ScanSkips(Comma(first) + es.before, Print(es.value) + (es.after + more), models);
      if |models| < MAX_MODELS {
        AfterElement(es, tail);
        ScanOne(es.value, es.after + more, models);
        ScanSkips(es.after, more, Taken(models, Print(es.value)));
        ElementsScan(es.others, false, rest, Taken(models, Print(es.value)));
      } else {
      }
    }
  }

  lemma ElementText(es: Elems, first: bool, tail: string)
    requires es.Elem?
    ensures PrintElems(es, first) + tail ==
      (Comma(first) + es.before) + (Print(es.value) + (es.after + (PrintElems(es.others, false) + tail)))
  {
    var more := PrintElems(es.others, false);
    Assoc(es.after, more, tail);
    Assoc(Print(es.value), es.after + more, tail);
    Assoc(Comma(first) + es.before, Print(es.value) + (es.after + more), tail);
  }

  lemma AfterElement(es: Elems, tail: string)
    requires es.Elem? && GoodElems(es) && tail != "" && IsClose(tail[0])
    ensures var next := es.after + (PrintElems(es.others, false) + tail); next != "" && EndsAtom(next[0])
  {
    if es.after != "" {
      assert es.after[0] in es.after;
    } else if es.others.Elem? {
      assert PrintElems(es.others, false)[0] == ',';
    }
  }

  lemma ArrayScans(blank: string, es: Elems, more: string)
    requires Good(Arr(blank, es))
    ensures var p := Print(Arr(blank, es)) + more;
            p[0] == '[' && ScanModels(p[1..], []) == Listed(Collect(es, []))
  {
    hide Taken;
    var p := Print(Arr(blank, es)) + more;
    assert p[1..] == blank + (PrintElems(es, true) + ("]" + more));
    ScanSkips(blank, PrintElems(es, true) + ("]" + more), []);
    ElementsScan(es, true, more, []);
  }

  /**
   A member that is no string reads as none. A string reads as its own text, whatever
   follows the object, exactly when the reader does not run past its closing quote.
   */
  lemma MemberReads(space: string, blank: string, members: Members, rest: string, key: string)
    requires AllSpace(space) && Good(Obj(blank, members))
    ensures var value, read := FirstMember(members, key), TopString(space + (Print(Obj(blank, members)) + rest), key);
            if value.Some? && value.value.Str? then
              && (!RunsPast(value.value.body, "") ==> read == ReadString(Print(value.value)))
              && (RunsPast(value.value.body, "") && |rest| >= 2 ==> read != ReadString(Print(value.value)))
            else read == None
  {
    hide TopValue, ReadString, AllSpace, RunsPast;
    TopValueIsFirst(space, blank, members, rest, key);
    FirstMemberStarts(members, key, "}" + rest);
    var value := FirstMember(members, key);
    if value.Some? {
      var more :| Follows(more) && |more| >= |"}" + rest| &&
                  FirstValue(members, key, "}" + rest) == Some(Print(value.value) + more);
      ValueReads(value.value, more);
    }
  }

  lemma ValueReads(v: Value, more: string)
    requires Good(v) && Follows(more)
    ensures !v.Str? ==> ReadString(Print(v) + more) == None
    ensures v.Str? && !RunsPast(v.body, "") ==> ReadString(Print(v) + more) == ReadString(Print(v))
    ensures v.Str? && RunsPast(v.body, "") && |more| >= 3 ==> ReadString(Print(v) + more) != ReadString(Print(v))
  {
    PrintStarts(v);
    assert (Print(v) + more)[0] == Print(v)[0];
    if v.Str? {
      hide RunsPast, Follows, ReadBody;
      QuoteTail(v.body, more);
      QuoteTail(v.body, "");
      assert Quote(v.body) + "" == Quote(v.body);
      BodyReads(v.body, more, "");
    }
  }

  // ---- What a model is read from ----

  /** The text of an object's first member of that key, when it is a string. */
  function StringMember(ms: Members, key: string): Option<string> {
    var value := FirstMember(ms, key);
    if value.Some? && value.value.Str? then ReadString(Print(value.value)) else None
  }

  /** The same of the object that is the first `details` member. */
  function DetailMember(ms: Members, key: string): Option<string> {
    var value := FirstMember(ms, "details");
    if value.Some? && value.value.Obj? then StringMember(value.value.members, key) else None
  }

  /** Reading that member stays inside its quotes. */
  predicate Inside(ms: Members, key: string) {
    var value := FirstMember(ms, key);
    value.Some? && value.value.Str? ==> !RunsPast(value.value.body, "")
  }

  /** So does reading all that a model is made of. */
  predicate Readable(ms: Members) {
    && Inside(ms, "name") && Inside(ms, "model") && Inside(ms, "expires_at")
    && var value := FirstMember(ms, "details");
       value.Some? && value.value.Obj? ==>
         var inner := value.value.members;
         Inside(inner, "family") && Inside(inner, "parameter_size") && Inside(inner, "quantization_level")
  }

  /** The model that an object describes: it needs a name, and has no other member's text for any of its fields. */
  function Described(ms: Members): Option<Model> {
    var name := if StringMember(ms, "name") in {None, Some("")} then StringMember(ms, "model") else StringMember(ms, "name");
    if name in {None, Some("")} then None
    else
      Some(Model(name.value, StringMember(ms, "expires_at"), DetailMember(ms, "family"),
                 DetailMember(ms, "parameter_size"), DetailMember(ms, "quantization_level")))
  }

  /** All models among the elements, in order. */
  function Models(es: Elems): seq<Model> {
    if es.NoElem? then []
    else
      (if es.value.Obj? && Described(es.value.members).Some? then [Described(es.value.members).value] else []) +
      Models(es.others)
  }

  predicate AllReadable(es: Elems) {
    es.Elem? ==> (es.value.Obj? ==> Readable(es.value.members)) && AllReadable(es.others)
  }

  function First(models: seq<Model>, limit: nat): seq<Model> {
    if |models| <= limit then models else models[..limit]
  }

  lemma InsideReads(blank: string, ms: Members, rest: string, key: string)
    requires Good(Obj(blank, ms)) && Inside(ms, key)
    ensures TopString(Print(Obj(blank, ms)) + rest, key) == StringMember(ms, key)
  {
    hide ReadString, RunsPast, TopString, Print;
    MemberReads("", blank, ms, rest, key);
    var obj := Print(Obj(blank, ms)) + rest;
    assert "" + obj == obj;
  }

  /** The details are read from the first `details` member, when it is an object. */
  lemma DetailsRead(blank: string, ms: Members)
    requires Good(Obj(blank, ms)) && Readable(ms)
    ensures var details := TopValue(Print(Obj(blank, ms)), "details");
            if details.Some? && details.value != "" && details.value[0] == '{' then
              && TopString(details.value, "family") == DetailMember(ms, "family")
              && TopString(details.value, "parameter_size") == DetailMember(ms, "parameter_size")
              && TopString(details.value, "quantization_level") == DetailMember(ms, "quantization_level")
            else !FirstMember(ms, "details").Some? || !FirstMember(ms, "details").value.Obj?
  {
    hide TopValue, ReadString, RunsPast, TopString;
    var obj := Print(Obj(blank, ms));
    TopValueIsFirst("", blank, ms, "", "details");
    assert "" + (obj + "") == obj && "}" + "" == "}";
    FirstMemberStarts(ms, "details", "}");
    var value := FirstMember(ms, "details");
    if value.Some? {
      var more :| Follows(more) && FirstValue(ms, "details", "}") == Some(Print(value.value) + more);
      PrintStarts(value.value);
      assert (Print(value.value) + more)[0] == Print(value.value)[0];
      if value.value.Obj? {
        var b, inner := value.value.blank, value.value.members;
        InsideReads(b, inner, more, "family");
        InsideReads(b, inner, more, "parameter_size");
        InsideReads(b, inner, more, "quantization_level");
      }
    }
  }

  /** An object of the list is read as the model it describes. */
  lemma ModelMeans(blank: string, ms: Members)
    requires Good(Obj(blank, ms)) && Readable(ms)
    ensures ParseOne(Print(Obj(blank, ms))) == Described(ms)
  {
    hide TopValue, TopString, Print, StringMember, Inside;
    var obj := Print(Obj(blank, ms));
    assert obj + "" == obj;
    InsideReads(blank, ms, "", "name");
    InsideReads(blank, ms, "", "model");
    InsideReads(blank, ms, "", "expires_at");
    DetailsRead(blank, ms);
  }

  lemma TakenMeans(v: Value, models: seq<Model>)
    requires Good(v) && (v.Obj? ==> Readable(v.members))
    ensures Taken(models, Print(v)) ==
            models + if v.Obj? && Described(v.members).Some? then [Described(v.members).value] else []
  {
    hide ParseOne, Described, Readable;
    PrintStarts(v);
    if v.Obj? {
      ModelMeans(v.blank, v.members);
    }
  }

  lemma {:induction false} CollectMeans(es: Elems, models: seq<Model>)
    requires GoodElems(es) && AllReadable(es) && |models| <= MAX_MODELS
    ensures Collect(es, models) == First(models + Models(es), MAX_MODELS)
  {
    hide Taken, Described, Readable;
    if es.Elem? && |models| < MAX_MODELS {
      TakenMeans(es.value, models);
      CollectMeans(es.others, Taken(models, Print(es.value)));
    }
  }

  /**
   Of any JSON object, the objects of its first `models` array are read in order,
   each from its own text, and the first 256 models they describe are what is
   listed. A reply without such a value is refused, with the text of its first
   `error` member or, if that has none, with a stock one.
   */
  lemma ReplyMeans(space: string, blank: string, members: Members, rest: string)
    requires AllSpace(space) && Good(Obj(blank, members))
    ensures var reply := ParseModels(space + (Print(Obj(blank, members)) + rest));
            var value := FirstMember(members, "models");
            if value.Some? && value.value.Arr? then
              && reply == Listed(Collect(value.value.elems, []))
              && (AllReadable(value.value.elems) ==> reply == Listed(First(Models(value.value.elems), 256)))
            else
              && reply.Refused?
              && (Inside(members, "error") ==>
                    reply.error == if StringMember(members, "error") == Some("") then None else StringMember(members, "error"))
  {
    hide ParseOne, TopValue, ScanModels, Collect, Models, TopString, ReadString, RunsPast;
    TopValueIsFirst(space, blank, members, rest, "models");
    FirstMemberStarts(members, "models", "}" + rest);
    MemberReads(space, blank, members, rest, "error");
    var value := FirstMember(members, "models");
    if value.Some? {
      var more :| FirstValue(members, "models", "}" + rest) == Some(Print(value.value) + more);
      PrintStarts(value.value);
      assert (Print(value.value) + more)[0] == Print(value.value)[0];
      if value.value.Arr? {
        ArrayScans(value.value.blank, value.value.elems, more);
        if AllReadable(value.value.elems) {
          CollectMeans(value.value.elems, []);
          assert [] + Models(value.value.elems) == Models(value.value.elems);
        }
      }
    }
  }

  // ---- Where a string's reader runs past the closing quote ----

  /** The character of a `\u` with these last characters of a body: the closing quote ends its digits. */
  function ShortHex(last: string): char
    requires |last| < 4
  {
    HexChar((last + "\"\"\"\"")[..4])
  }

  /**
   The reader takes the closing quote for a part of an escape and still has room for
   more: a `\u` with fewer than four characters before the quote, or a `\` that such a
   misreading has left before it.
   */
  predicate RunsPast(body: string, out: string)
    decreases |body|
  {
    if body == "" || body[0] == '"' || ByteSize(out) > MAX_STRING then false
    else if body[0] != '\\' then RunsPast(body[1..], out + [body[0]])
    else if |body| == 1 then ByteSize(out + ['"', ',']) <= MAX_STRING
    else if body[1] != 'u' then RunsPast(body[2..], out + [Unescaped(body[1])])
    else if |body| >= 6 then RunsPast(body[6..], out + [HexChar(body[2..6])])
    else if |body| == 5 then ByteSize(out + [ShortHex(body[2..]), ',']) <= MAX_STRING
    else ByteSize(out + [ShortHex(body[2..])]) <= MAX_STRING
  }

  function Cut(p: string, out: string): string {
    CutBytes(ReadBody(p, out), MAX_STRING)
  }

  lemma {:induction false} BodyReads(body: string, more: string, out: string)
    requires Follows(more)
    ensures !RunsPast(body, out) ==> Cut(body + ("\"" + more), out) == Cut(body + ("\"" + ""), out)
    ensures RunsPast(body, out) && |more| >= 3 ==> Cut(body + ("\"" + more), out) != Cut(body + ("\"" + ""), out)
    decreases |body|
  {
    var p, q := body + ("\"" + more), body + ("\"" + "");
    if body != "" && body[0] != '"' && ByteSize(out) <= MAX_STRING {
      if body[0] == '\\' && |body| == 1 {
        LoneBackslash(body, more, out);
      } else if body[0] == '\\' && body[1] == 'u' && |body| == 5 {
        ThreeDigits(body, more, out);
      } else if body[0] == '\\' && body[1] == 'u' && |body| < 5 {
        ShortEscape(body, more, out);
      } else {
        var n := if body[0] != '\\' then 1 else if body[1] == 'u' then 6 else 2;
        assert p[n..] == body[n..] + ("\"" + more) && q[n..] == body[n..] + ("\"" + "");
        var next := if n == 1 then body[0] else if n == 6 then HexChar(body[2..6]) else Unescaped(body[1]);
        assert n == 6 ==> p[2..6] == body[2..6] && q[2..6] == body[2..6];
        BodyReads(body[n..], more, out + [next]);
      }
    }
  }

  lemma LoneBackslash(body: string, more: string, out: string)
    requires body == "\\" && Follows(more) && ByteSize(out) <= MAX_STRING
    ensures Cut(body + ("\"" + more), out) == Cut(body + ("\"" + ""), out) <==> ByteSize(out + ['"', ',']) > MAX_STRING
  {
    var p, q := body + ("\"" + more), body + ("\"" + "");
    assert p[2..] == more && q[2..] == "";
    GoesOn(more, out, '"');
  }

  lemma ShortEscape(body: string, more: string, out: string)
    requires 2 <= |body| < 5 && body[0] == '\\' && body[1] == 'u' && ByteSize(out) <= MAX_STRING
    ensures var fits := ByteSize(out + [ShortHex(body[2..])]) <= MAX_STRING;
            && (!fits ==> Cut(body + ("\"" + more), out) == Cut(body + ("\"" + ""), out))
            && (fits && |more| >= 3 ==> Cut(body + ("\"" + more), out) != Cut(body + ("\"" + ""), out))
  {
    var p, q, last := body + ("\"" + more), body + ("\"" + ""), body[2..];
    assert ReadBody(q, out) == out;
    if |p| >= 6 {
      SameShortHex(last, more);
      assert p[2..6] == (last + ("\"" + more))[..4];
      ReadExtends(p[6..], out + [ShortHex(last)]);
      CutPast(ReadBody(p, out), out, ShortHex(last));
    }
  }

  lemma ThreeDigits(body: string, more: string, out: string)
    requires |body| == 5 && body[0] == '\\' && body[1] == 'u' && Follows(more) && ByteSize(out) <= MAX_STRING
    ensures Cut(body + ("\"" + more), out) == Cut(body + ("\"" + ""), out) <==>
            ByteSize(out + [ShortHex(body[2..]), ',']) > MAX_STRING
  {
    var p, q, last := body + ("\"" + more), body + ("\"" + ""), body[2..];
    assert p[2..6] == q[2..6] == (last + "\"\"\"\"")[..4];
    assert p[6..] == more && q[6..] == "";
    GoesOn(more, out, ShortHex(last));
  }

  /** Behind the quote the reader takes at least one character more, if there is room. */
  lemma GoesOn(more: string, out: string, c: char)
    requires Follows(more)
    ensures Cut(more, out + [c]) == Cut("", out + [c]) <==> ByteSize(out + [c, ',']) > MAX_STRING
  {
    var mid := out + [c];
    assert out + [c, ','] == mid + [','];
    ByteSizeAppend(mid, [more[0]]);
    ByteSizeAppend(mid, [',']);
    if ByteSize(mid) <= MAX_STRING {
      ReadExtends(more[1..], mid + [more[0]]);
      CutPast(ReadBody(more, mid), mid, more[0]);
    }
  }

  lemma SameShortHex(last: string, more: string)
    requires |last| < 4 && |last| + 1 + |more| >= 4
    ensures HexChar((last + ("\"" + more))[..4]) == ShortHex(last)
  {
    var x, y := more[..3 - |last|], "\"\"\""[..3 - |last|];
    HexStops(last, x, y, 0);
    assert (last + ("\"" + more))[..4] == last + ("\"" + x);
    assert (last + "\"\"\"\"")[..4] == last + ("\"" + y);
  }

  lemma {:induction false} HexStops(last: string, x: string, y: string, sofar: nat)
    ensures HexValue(last + ("\"" + x), sofar) == HexValue(last + ("\"" + y), sofar)
  {
    if last != "" && HexOf(last[0]) >= 0 {
      assert (last + ("\"" + x))[1..] == last[1..] + ("\"" + x) && (last + ("\"" + y))[1..] == last[1..] + ("\"" + y);
      HexStops(last[1..], x, y, 16 * sofar + HexOf(last[0]));
    }
  }

  lemma {:induction false} ReadExtends(p: string, out: string)
    ensures out <= ReadBody(p, out)
    decreases |p|
  {
    if p != "" && p[0] != '"' && ByteSize(out) <= MAX_STRING {
      if p[0] != '\\' {
        ReadExtends(p[1..], out + [p[0]]);
      } else if |p| > 1 && p[1] != 'u' {
        ReadExtends(p[2..], out + [Unescaped(p[1])]);
      } else if |p| >= 6 {
        ReadExtends(p[6..], out + [HexChar(p[2..6])]);
      }
    }
  }

  /** One more character shows exactly when there is room for it. */
  lemma CutPast(all: string, out: string, c: char)
    requires out + [c] <= all && ByteSize(out) <= MAX_STRING
    ensures CutBytes(all, MAX_STRING) == CutBytes(out, MAX_STRING) <==> ByteSize(out + [c]) > MAX_STRING
  {
    CutBytesIsLongest(out, MAX_STRING);
    CutBytesIsLongest(all, MAX_STRING);
    hide CutBytes, ByteSize;
    var k, cut := |out|, CutBytes(all, MAX_STRING);
    assert all[..k + 1] == out + [c] && all[..k] == out;
    assert |cut| > k ==> cut[..k + 1] == out + [c];
    if |cut| > k {
      PrefixIsSmaller(cut, k + 1);
    }
  }

  lemma PrefixIsSmaller(s: string, n: nat)
    requires n <= |s|
    ensures ByteSize(s[..n]) <= ByteSize(s)
  {
    ByteSizeAppend(s[..n], s[n..]);
    assert s == s[..n] + s[n..];
  }

  /** Four characters after every `\u`, as section 7 of RFC 8259 demands, keep the reader inside the quotes. */
  predicate WholeEscapes(body: string) {
    body == "" ||
    (if body[0] != '\\' then WholeEscapes(body[1..])
     else if |body| >= 2 && body[1] == 'u' then |body| >= 6 && WholeEscapes(body[6..])
     else |body| >= 2 && WholeEscapes(body[2..]))
  }

  lemma {:induction false} WholeStaysInside(body: string, out: string)
    requires WholeEscapes(body)
    ensures !RunsPast(body, out)
    decreases |body|
  {
    if body != "" && body[0] != '"' && ByteSize(out) <= MAX_STRING {
      if body[0] != '\\' {
        WholeStaysInside(body[1..], out + [body[0]]);
      } else if body[1] != 'u' {
        WholeStaysInside(body[2..], out + [Unescaped(body[1])]);
      } else {
        WholeStaysInside(body[6..], out + [HexChar(body[2..6])]);
      }
    }
  }

  /** The string "\u" before a member n reads as the replacement character: the reader takes `","n` for its digits. */
  lemma ReadsTheNextKey()
    ensures ReadString("\"\\u\",\"n\":1}") == Some("\U{FFFD}") && ReadString("\"\\u\"") == Some("")
  {
    var p := "\\u\",\"n\":1}";
    assert p[2..6] == "\",\"n" && p[6..] == "\":1}";
    assert HexChar("\",\"n") == '\U{FFFD}';
    assert ReadBody(p, "") == ReadBody(p[6..], "" + ['\U{FFFD}']) == "\U{FFFD}";
    CutBytesIsLongest("\U{FFFD}", MAX_STRING);
    assert ReadBody("\\u\"", "") == "";
  }

  // ---- Where the scan does not end ----

  /** The scan stands still exactly at a closing brace where an element should be. */
  lemma StandsStill(q: string)
    requires q != "" && !IsSpace(q[0]) && q[0] != ',' && q[0] != ']'
    ensures SkipSeparators(q) == q
    ensures SkipValue(q) == Some(q) <==> q[0] == '}'
    ensures q[0] != '}' && SkipValue(q).Some? ==> |SkipValue(q).value| < |q|
  {
    if q[0] != '"' && !IsOpen(q[0]) && q[0] != '}' {
      assert SkipAtom(q) == SkipAtom(q[1..]);
      assert |SkipAtom(q[1..])| <= |q| - 1;
    }
  }

  /** An element starts at `q` and is complete. */
  ghost predicate IsElement(q: string) {
    q != "" && q[0] != ']' && q[0] != '}' && SkipValue(q).Some?
  }

  /**
   The places where the text from `p` on has its elements, one behind the other;
   the last place is the first one where no complete element starts.
   */
  ghost predicate Places(p: string, qs: seq<string>)
    decreases |qs|
  {
    && qs != [] && qs[0] == SkipSeparators(p)
    && (|qs| > 1 ==> IsElement(qs[0]) && Places(SkipValue(qs[0]).value, qs[1..]))
  }

  /** The models of the elements at these places, the last place excluded. */
  ghost function ModelsAt(qs: seq<string>, models: seq<Model>): (all: seq<Model>)
    ensures |models| <= |all|
    decreases |qs|
  {
    if |qs| <= 1 then models
    else
      var end := SkipValue(qs[0]);
      var length := if end.Some? && |end.value| <= |qs[0]| then |qs[0]| - |end.value| else 0;
      ModelsAt(qs[1..], Taken(models, qs[0][..length]))
  }

  /** Behind elements of fewer than 256 models a closing brace stands where an element should. */
  ghost predicate BraceAt(p: string, qs: seq<string>, models: seq<Model>) {
    && Places(p, qs) && qs[|qs| - 1] != "" && qs[|qs| - 1][0] == '}'
    && |ModelsAt(qs, models)| < MAX_MODELS
  }

  lemma ScanAt(p: string, models: seq<Model>)
    ensures var q := SkipSeparators(p);
            && (|models| >= MAX_MODELS || q == "" || q[0] == ']' ==> ScanModels(p, models) != Endless)
            && (|models| < MAX_MODELS && q != "" && q[0] == '}' ==> ScanModels(p, models) == Endless)
            && (|models| < MAX_MODELS && IsElement(q) ==>
                  var end := SkipValue(q).value;
                  && |end| < |q| && ScanModels(p, models) == ScanModels(end, Taken(models, q[..|q| - |end|])))
            && (q != "" && q[0] != '}' && !IsElement(q) ==> ScanModels(p, models) != Endless)
  {
    hide Taken, SkipValue;
    var q := SkipSeparators(p);
    if q != "" && q[0] != ']' {
      StandsStill(q);
    }
  }

  lemma {:induction false} BraceStops(p: string, qs: seq<string>, models: seq<Model>)
    requires BraceAt(p, qs, models)
    ensures ScanModels(p, models) == Endless
    decreases |qs|
  {
    hide Taken, SkipValue;
    ScanAt(p, models);
    if |qs| > 1 {
      var end := SkipValue(qs[0]).value;
      BraceStops(end, qs[1..], Taken(models, qs[0][..|qs[0]| - |end|]));
    }
  }

  lemma {:induction false} StopsAtBrace(p: string, models: seq<Model>) returns (qs: seq<string>)
    requires ScanModels(p, models) == Endless
    ensures BraceAt(p, qs, models)
    decreases |p|
  {
    hide Taken, SkipValue;
    ScanAt(p, models);
    var q := SkipSeparators(p);
    if q[0] == '}' {
      qs := [q];
    } else {
      var end := SkipValue(q).value;
      var more := StopsAtBrace(end, Taken(models, q[..|q| - |end|]));
      qs := [q] + more;
      assert qs[1..] == more;
    }
  }

  /**
   Reading a reply never ends exactly when it has a `models` array in which a
   closing brace stands where an element should, before 256 models were read.
   */
  lemma EndlessExactly(json: string)
    ensures ParseModels(json) == Endless <==>
            var p := TopValue(json, "models");
            p.Some? && p.value != "" && p.value[0] == '[' && exists qs :: BraceAt(p.value[1..], qs, [])
  {
    hide ParseOne, TopValue, BraceAt, ScanModels;
    var p := TopValue(json, "models");
    if p.Some? && p.value != "" && p.value[0] == '[' {
      if ScanModels(p.value[1..], []) == Endless {
        var qs := StopsAtBrace(p.value[1..], []);
      }
      forall qs | BraceAt(p.value[1..], qs, []) ensures ScanModels(p.value[1..], []) == Endless {
        BraceStops(p.value[1..], qs, []);
      }
    }
  }

  /** Good elements closed by the wrong bracket: endless, unless enough models came before. */
  lemma {:induction false} BraceScan(es: Elems, first: bool, rest: string, models: seq<Model>)
    requires GoodElems(es)
    ensures ScanModels(PrintElems(es, first) + ("}" + rest), models) ==
            if |Collect(es, models)| < MAX_MODELS then Endless else Listed(Collect(es, models))
  {
    hide Taken, EndsAtom, SkipValue;
    var tail := "}" + rest;
    if es.NoElem? {
      assert PrintElems(es, first) + tail == tail;
      StandsStill(tail);
    } else {
      var more := PrintElems(es.others, false) + tail;
      ElementText(es, first, tail);
      ScanSkips(Comma(first) + es.before, Print(es.value) + (es.after + more), models);
      if |models| < MAX_MODELS {
        AfterElement(es, tail);
        ScanOne(es.value, es.after + more, models);
        ScanSkips(es.after, more, Taken(models, Print(es.value)));
        BraceScan(es.others, false, rest, Taken(models, Print(es.value)));
      }
    }
  }

  lemma {:induction false} PlainBody(s: string)
    requires forall c | c in s :: c != '"' && c != '\\'
    ensures GoodBody(s)
  {
    if s != "" {
      assert s[0] in s && forall c | c in s[1..] :: c in s;
      PlainBody(s[1..]);
    }
  }

  /** A reply of one `models` array that is closed by a brace. */
  function BraceReply(blank: string, es: Elems, rest: string): string {
    "{" + (Quote("models") + (":[" + (blank + (PrintElems(es, true) + ("}" + rest)))))
  }

  lemma BraceReplyStarts(blank: string, es: Elems, rest: string)
    ensures TopValue(BraceReply(blank, es, rest), "models") ==
            Some("[" + (blank + (PrintElems(es, true) + ("}" + rest))))
  {
    hide PrintElems;
    var value := "[" + (blank + (PrintElems(es, true) + ("}" + rest)));
    var after := ":" + value;
    assert after == ":[" + (blank + (PrintElems(es, true) + ("}" + rest)));
    var p := BraceReply(blank, es, rest);
    assert p[0] == '{' && p[1..] == Quote("models") + after;
    assert SkipBlank(p) == p && TopNest(p, 0, "models") == TopNest(p[1..], 1, "models");
    PlainBody("models");
    TopQuoted("models", after, "models");
    assert after[1..] == value && SkipBlank(after) == after && SkipBlank(value) == value;
  }

  /** So a reply closed by a brace is never finished, unless 256 models were read before. */
  lemma BraceReplyEndless(blank: string, es: Elems, rest: string)
    requires AllSpace(blank) && GoodElems(es)
    ensures ParseModels(BraceReply(blank, es, rest)) ==
            if |Collect(es, [])| < MAX_MODELS then Endless else Listed(Collect(es, []))
  {
    hide ScanModels, TopValue, BraceReply, Taken;
    BraceReplyStarts(blank, es, rest);
    var tail := PrintElems(es, true) + ("}" + rest);
    assert ("[" + (blank + tail))[1..] == blank + tail;
    ScanSkips(blank, tail, []);
    BraceScan(es, true, rest, []);
  }

  /** The shortest such reply. */
  lemma ShortestEndless()
    ensures ParseModels("{" + Quote("models") + ":[}") == Endless
  {
    hide ParseModels;
    BraceReplyEndless("", NoElem, "");
    assert BraceReply("", NoElem, "") == "{" + Quote("models") + ":[}";
  }
}
