/**
 JSON texts (RFC 8259), white space and all, and what a scanner that only counts
 brackets can rely on in them.

 The grammar here is a little wider than section 7 of RFC 8259: a string may
 hold any escaped character and raw control characters, and a number or literal
 is any run of characters that have no meaning of their own.
 */
module Json {
  // ---- Syntax ----

  datatype Value = Str(body: string) | Atom(text: string)
                 | Arr(blank: string, elems: Elems) | Obj(blank: string, members: Members)

  datatype Elems = NoElem | Elem(before: string, value: Value, after: string, others: Elems)

  datatype Members = NoMember
                   | Member(before: string, key: string, colonBefore: string, colonAfter: string,
                            val: Value, after: string, rest: Members)

  /** The white space of GLib's `g_ascii_isspace`, which includes that of section 2 of RFC 8259. */
  predicate IsSpace(c: char) {
    c == ' ' || c == '\t' || c == '\n' || c as int == 12 || c == '\r'
  }

  predicate AllSpace(s: string) {
    forall c | c in s :: IsSpace(c)
  }

  predicate IsOpen(c: char) {
    c == '{' || c == '['
  }

  predicate IsClose(c: char) {
    c == '}' || c == ']'
  }

  /** Characters that neither start a string nor change the depth. */
  predicate IsPlain(c: char) {
    c != '"' && !IsOpen(c) && !IsClose(c)
  }

  predicate IsAtomChar(c: char) {
    IsPlain(c) && !IsSpace(c) && c != ',' && c != ':'
  }

  /** What may stand between the quotes of a string. */
  predicate GoodBody(body: string) {
    body == "" ||
    (if body[0] == '\\' then |body| >= 2 && GoodBody(body[2..]) else body[0] != '"' && GoodBody(body[1..]))
  }

  predicate GoodAtom(text: string) {
    text != "" && forall c | c in text :: IsAtomChar(c)
  }

  predicate Good(v: Value) {
    match v
    case Str(body) => GoodBody(body)
    case Atom(text) => GoodAtom(text)
    case Arr(blank, elems) => AllSpace(blank) && GoodElems(elems)
    case Obj(blank, members) => AllSpace(blank) && GoodMembers(members)
  }

  predicate GoodElems(es: Elems) {
    match es
    case NoElem => true
    case Elem(before, value, after, others) => AllSpace(before) && Good(value) && AllSpace(after) && GoodElems(others)
  }

  predicate GoodMembers(ms: Members) {
    match ms
    case NoMember => true
    case Member(before, key, c, d, val, after, rest) =>
      AllSpace(before) && GoodBody(key) && AllSpace(c) && AllSpace(d) && Good(val) && AllSpace(after) && GoodMembers(rest)
  }

  // ---- Printing ----

  function Quote(body: string): string {
    "\"" + body + "\""
  }

  function Print(v: Value): string {
    match v
    case Str(body) => Quote(body)
    case Atom(text) => text
    case Arr(blank, elems) => "[" + (blank + PrintElems(elems, true)) + "]"
    case Obj(blank, members) => "{" + (blank + PrintMembers(members, true)) + "}"
  }

  function Comma(first: bool): string {
    if first then "" else ","
  }

  function PrintElems(es: Elems, first: bool): string {
    match es
    case NoElem => ""
    case Elem(before, value, after, others) => 
      (Comma(first) + before) + (Print(value) + (after + PrintElems(others, false)))
  }

  function PrintMembers(ms: Members, first: bool): string {
    match ms
    case NoMember => ""
    case Member(before, key, c, d, val, after, rest) =>
      (Comma(first) + before) +
      (Quote(key) + ((c + ":" + d) + (Print(val) + (after + PrintMembers(rest, false)))))
  }

  // ---- A text as a scanner meets it ----

  datatype Piece = Quoted(body: string) | Plain(c: char) | Open(c: char) | Close(c: char)

  function PieceText(p: Piece): (s: string)
    ensures s != ""
  {
    match p
    case Quoted(body) => Quote(body)
    case Plain(c) => [c]
    case Open(c) => [c]
    case Close(c) => [c]
  }

  predicate GoodPiece(p: Piece) {
    match p
    case Quoted(body) => GoodBody(body)
    case Plain(c) => IsPlain(c)
    case Open(c) => IsOpen(c)
    case Close(c) => IsClose(c)
  }

  function TextOf(ps: seq<Piece>): string {
    if ps == [] then "" else PieceText(ps[0]) + TextOf(ps[1..])
  }

  function Step(p: Piece): int {
    if p.Open? then 1 else if p.Close? then -1 else 0
  }

  function Level(ps: seq<Piece>): int {
    if ps == [] then 0 else Step(ps[0]) + Level(ps[1..])
  }

  /** Starting at depth `d` the depth never falls below `floor`. */
  predicate Stays(ps: seq<Piece>, d: int, floor: int) {
    d >= floor && (ps == [] || Stays(ps[1..], d + Step(ps[0]), floor))
  }

  /** Closes what it opens, and nothing else. */
  predicate Balanced(ps: seq<Piece>) {
    (forall p | p in ps :: GoodPiece(p)) && Level(ps) == 0 && Stays(ps, 0, 0)
  }

  function Plains(s: string): (ps: seq<Piece>)
    ensures |ps| == |s|
  {
    seq(|s|, i requires 0 <= i < |s| => Plain(s[i]))
  }

  function Pieces(v: Value): seq<Piece> {
    match v
    case Str(body) => [Quoted(body)]
    case Atom(text) => Plains(text)
    case Arr(blank, elems) => [Open('[')] + (Plains(blank) + ElemPieces(elems, true)) + [Close(']')]
    case Obj(blank, members) => [Open('{')] + (Plains(blank) + MemberPieces(members, true)) + [Close('}')]
  }

  function ElemPieces(es: Elems, first: bool): seq<Piece> {
    match es
    case NoElem => []
    case Elem(before, value, after, others) =>
      Plains(Comma(first) + before) + (Pieces(value) + (Plains(after) + ElemPieces(others, false)))
  }

  function MemberPieces(ms: Members, first: bool): seq<Piece> {
    match ms
    case NoMember => []
    case Member(before, key, c, d, val, after, rest) =>
      Plains(Comma(first) + before) +
      ([Quoted(key)] + (Plains(c + ":" + d) + (Pieces(val) + (Plains(after) + MemberPieces(rest, false)))))
  }

  lemma {:induction false} TextAppend(xs: seq<Piece>, ys: seq<Piece>)
    ensures TextOf(xs + ys) == TextOf(xs) + TextOf(ys)
  {
    if xs == [] {
      assert xs + ys == ys;
    } else {
      assert (xs + ys)[1..] == xs[1..] + ys;
      TextAppend(xs[1..], ys);
    }
  }

  lemma {:induction false} TextOfPlains(s: string)
    ensures TextOf(Plains(s)) == s
  {
    if s != "" {
      assert Plains(s)[1..] == Plains(s[1..]);
      TextOfPlains(s[1..]);
    }
  }

  lemma TextOfOne(p: Piece)
    ensures TextOf([p]) == PieceText(p)
  {
    assert [p][1..] == [];
  }

  lemma {:induction false} PrintIsText(v: Value)
    ensures Print(v) == TextOf(Pieces(v))
  {
    match v
    case Str(body) => TextOfOne(Quoted(body));
    case Atom(text) => TextOfPlains(text);
    case Arr(blank, elems) =>
      ElemsAreText(elems, true);
      NestText('[', blank, ElemPieces(elems, true), ']');
    case Obj(blank, members) =>
      MembersAreText(members, true);
      NestText('{', blank, MemberPieces(members, true), '}');
  }

  lemma NestText(open: char, blank: string, inner: seq<Piece>, close: char)
    ensures TextOf([Open(open)] + (Plains(blank) + inner) + [Close(close)]) == [open] + (blank + TextOf(inner)) + [close]
  {
    TextAppend([Open(open)] + (Plains(blank) + inner), [Close(close)]);
    TextAppend([Open(open)], Plains(blank) + inner);
    TextAppend(Plains(blank), inner);
    TextOfPlains(blank);
    TextOfOne(Open(open));
    TextOfOne(Close(close));
  }

  lemma {:induction false} ElemsAreText(es: Elems, first: bool)
    ensures PrintElems(es, first) == TextOf(ElemPieces(es, first))
  {
    match es
    case NoElem =>
    case Elem(before, value, after, others) =>
      PrintIsText(value);
      ElemsAreText(others, false);
      ThreeTexts(Comma(first) + before, Pieces(value), after, ElemPieces(others, false));
  }

  lemma ThreeTexts(before: string, mid: seq<Piece>, after: string, rest: seq<Piece>)
    ensures TextOf(Plains(before) + (mid + (Plains(after) + rest))) == before + (TextOf(mid) + (after + TextOf(rest)))
  {
    TextAppend(Plains(before), mid + (Plains(after) + rest));
    TextAppend(mid, Plains(after) + rest);
    TextAppend(Plains(after), rest);
    TextOfPlains(before);
    TextOfPlains(after);
  }

  lemma {:induction false} MembersAreText(ms: Members, first: bool)
    ensures PrintMembers(ms, first) == TextOf(MemberPieces(ms, first))
  {
    match ms
    case NoMember =>
    case Member(before, key, c, d, val, after, rest) =>
      PrintIsText(val);
      MembersAreText(rest, false);
      var tail := Plains(c + ":" + d) + (Pieces(val) + (Plains(after) + MemberPieces(rest, false)));
      ThreeTexts(c + ":" + d, Pieces(val), after, MemberPieces(rest, false));
      TextAppend(Plains(Comma(first) + before), [Quoted(key)] + tail);
      TextAppend([Quoted(key)], tail);
      TextOfPlains(Comma(first) + before);
      TextOfOne(Quoted(key));
  }

  // ---- Printed values are balanced ----

  lemma {:induction false} StaysAppend(xs: seq<Piece>, ys: seq<Piece>, d: int, floor: int)
    requires Stays(xs, d, floor) && Stays(ys, d + Level(xs), floor)
    ensures Stays(xs + ys, d, floor) && Level(xs + ys) == Level(xs) + Level(ys)
  {
    if xs == [] {
      assert xs + ys == ys;
    } else {
      assert (xs + ys)[1..] == xs[1..] + ys;
      StaysAppend(xs[1..], ys, d + Step(xs[0]), floor);
    }
  }

  lemma {:induction false} StaysHigher(ps: seq<Piece>, d: int, floor: int, up: nat)
    requires Stays(ps, d, floor)
    ensures Stays(ps, d + up, floor + up) && Stays(ps, d + up, floor)
  {
    if ps != [] {
      StaysHigher(ps[1..], d + Step(ps[0]), floor, up);
    }
  }

  lemma BalancedAppend(xs: seq<Piece>, ys: seq<Piece>)
    requires Balanced(xs) && Balanced(ys)
    ensures Balanced(xs + ys)
  {
    StaysAppend(xs, ys, 0, 0);
  }

  lemma BalancedNest(open: char, ps: seq<Piece>, close: char)
    requires IsOpen(open) && IsClose(close) && Balanced(ps)
    ensures Balanced([Open(open)] + ps + [Close(close)])
  {
    StaysHigher(ps, 0, 0, 1);
    assert [Close(close)][1..] == [] && [Open(open)][1..] == [];
    StaysAppend(ps, [Close(close)], 1, 0);
    StaysAppend([Open(open)], ps + [Close(close)], 0, 0);
    assert [Open(open)] + (ps + [Close(close)]) == [Open(open)] + ps + [Close(close)];
  }

  lemma {:induction false} BalancedPlains(s: string)
    requires forall c | c in s :: IsPlain(c)
    ensures Balanced(Plains(s))
  {
    if s != "" {
      BalancedPlains(s[1..]);
      assert Plains(s)[1..] == Plains(s[1..]);
      assert s[0] in s;
      forall p | p in Plains(s) ensures GoodPiece(p) {
        var i :| 0 <= i < |s| && p == Plain(s[i]);
        assert s[i] in s;
      }
    }
  }

  lemma BalancedQuoted(body: string)
    requires GoodBody(body)
    ensures Balanced([Quoted(body)])
  {
    assert [Quoted(body)][1..] == [];
  }

  lemma BalancedThree(before: string, mid: seq<Piece>, after: string, rest: seq<Piece>)
    requires (forall c | c in before :: IsPlain(c)) && (forall c | c in after :: IsPlain(c))
    requires Balanced(mid) && Balanced(rest)
    ensures Balanced(Plains(before) + (mid + (Plains(after) + rest)))
  {
    hide Balanced;
    BalancedPlains(before);
    BalancedPlains(after);
    BalancedAppend(Plains(after), rest);
    BalancedAppend(mid, Plains(after) + rest);
    BalancedAppend(Plains(before), mid + (Plains(after) + rest));
  }

  lemma {:induction false} ValuesBalance(v: Value)
    requires Good(v)
    ensures Balanced(Pieces(v))
  {
    hide Balanced;
    match v
    case Str(body) => BalancedQuoted(body);
    case Atom(text) => BalancedPlains(text);
    case Arr(blank, elems) =>
      ElemsBalance(elems, true);
      BalancedPlains(blank);
      BalancedAppend(Plains(blank), ElemPieces(elems, true));
      BalancedNest('[', Plains(blank) + ElemPieces(elems, true), ']');
    case Obj(blank, members) =>
      MembersBalance(members, true);
      BalancedPlains(blank);
      BalancedAppend(Plains(blank), MemberPieces(members, true));
      BalancedNest('{', Plains(blank) + MemberPieces(members, true), '}');
  }

  lemma {:induction false} ElemsBalance(es: Elems, first: bool)
    requires GoodElems(es)
    ensures Balanced(ElemPieces(es, first))
  {
    match es
    case NoElem =>
    case Elem(before, value, after, others) =>
      ValuesBalance(value);
      ElemsBalance(others, false);
      BalancedThree(Comma(first) + before, Pieces(value), after, ElemPieces(others, false));
  }

  lemma {:induction false} MembersBalance(ms: Members, first: bool)
    requires GoodMembers(ms)
    ensures Balanced(MemberPieces(ms, first))
  {
    match ms
    case NoMember =>
    case Member(before, key, c, d, val, after, rest) =>
      ValuesBalance(val);
      MembersBalance(rest, false);
      BalancedThree(c + ":" + d, Pieces(val), after, MemberPieces(rest, false));
      var tail := Plains(c + ":" + d) + (Pieces(val) + (Plains(after) + MemberPieces(rest, false)));
      BalancedQuoted(key);
      BalancedAppend([Quoted(key)], tail);
      BalancedPlains(Comma(first) + before);
      BalancedAppend(Plains(Comma(first) + before), [Quoted(key)] + tail);
  }
}
