/**
 The word diff's tokenizer: runs of one class, except that characters that are
 neither word nor space stand alone.
 */
module Tokenizer {
  import opened Text

  datatype TokenClass = Word | Space | Other

  /** The Unicode tables, as far as the tokenizer asks them. */
  datatype Unicode = Unicode(isAlnum: char -> bool, isMark: char -> bool, isSpace: char -> bool) {

    function Classify(c: char): TokenClass {
      if isAlnum(c) || c == '_' || isMark(c) then Word else if isSpace(c) then Space else Other
    }

    /** No white space is a letter, a digit, a mark or an underscore. */
    ghost predicate SpaceStandsApart() {
      forall c: char | isSpace(c) :: !isAlnum(c) && !isMark(c) && c != '_'
    }
  }

  /** The class of each character: a word is of letters, digits, marks and underscores. */
  lemma ClassesSay(u: Unicode, c: char)
    ensures u.Classify(c) == Word <==> u.isAlnum(c) || u.isMark(c) || c == '_'
    ensures u.Classify(c) == Space <==> u.isSpace(c) && !(u.isAlnum(c) || u.isMark(c) || c == '_')
  {
  }

  ghost predicate IsToken(u: Unicode, t: string) {
    && t != ""
    && (forall k | 0 <= k < |t| :: u.Classify(t[k]) == u.Classify(t[0]))
    && (u.Classify(t[0]) == Other ==> |t| == 1)
  }

  /** A run that ends where its class does: the next token could not have joined it. */
  ghost predicate Ends(u: Unicode, t: string, next: string)
    requires t != "" && next != ""
  {
    u.Classify(t[0]) == Other || u.Classify(t[0]) != u.Classify(next[0])
  }

  /** Maximal runs only. */
  ghost predicate Runs(u: Unicode, tokens: seq<string>) {
    && (forall i | 0 <= i < |tokens| :: IsToken(u, tokens[i]))
    && (forall i | 0 <= i < |tokens| - 1 :: Ends(u, tokens[i], tokens[i + 1]))
  }

  /** The last token may be exchanged for another of its class. */
  lemma LastTokenReplaced(u: Unicode, init: seq<string>, t: string, other: string)
    requires Runs(u, init + [t]) && IsToken(u, other) && t != "" && other[0] == t[0]
    ensures Runs(u, init + [other])
  {
    hide IsToken;
    var ts, now := init + [t], init + [other];
    forall i | 0 <= i < |now|
      ensures IsToken(u, now[i]) && now[i] != "" && ts[i] != "" && now[i][0] == ts[i][0]
    {
      assert IsToken(u, ts[i]);
      TokenNotEmpty(u, ts[i]);
      TokenNotEmpty(u, now[i]);
    }
    forall i | 0 <= i < |now| - 1 ensures Ends(u, now[i], now[i + 1]) {
      assert Ends(u, ts[i], ts[i + 1]);
    }
  }

  lemma TokenNotEmpty(u: Unicode, t: string)
    requires IsToken(u, t)
    ensures t != ""
  {
  }

  lemma TokenGrows(u: Unicode, tokens: seq<string>, t: string, c: char)
    requires Runs(u, tokens + [t]) && t != "" && u.Classify(c) == u.Classify(t[0]) != Other
    ensures Runs(u, tokens + [t + [c]])
  {
    var ts := tokens + [t];
    assert ts[|tokens|] == t && IsToken(u, ts[|tokens|]);
    hide Runs;
    LastTokenReplaced(u, tokens, t, t + [c]);
  }

  lemma TokenStarts(u: Unicode, tokens: seq<string>, t: string, c: char)
    requires Runs(u, tokens + [t]) && t != ""
    requires u.Classify(t[0]) == Other || u.Classify(t[0]) != u.Classify(c)
    ensures Runs(u, tokens + [t] + [[c]])
  {
    var ts, next := tokens + [t], tokens + [t] + [[c]];
    forall i | 0 <= i < |next| ensures IsToken(u, next[i]) {
      assert i < |ts| ==> IsToken(u, ts[i]) && next[i] == ts[i];
    }
    assert ts[|ts| - 1] == t;
    assert Ends(u, t, [c]);
  }

  method Tokenize(u: Unicode, text: string) returns (tokens: seq<string>)
    ensures Concat(tokens) == text
    ensures Runs(u, tokens)
  {
    tokens := [];
    if text == "" {
      return;
    }
    hide Runs, IsToken, Ends;
    var start, p, cls := 0, 0, Other;
    while p < |text|
      invariant 0 <= start <= p <= |text|
      invariant p == 0 ==> tokens == []
      invariant p > 0 ==> start < p && cls == u.Classify(text[start])
      invariant p > 0 ==> Runs(u, tokens + [text[start..p]])
      invariant Concat(tokens) == text[..start]
    {
      var c := u.Classify(text[p]);
      ghost var t := text[start..p];
      if p == start {
        cls := c;
        assert text[..1] == [text[0]];
        FirstToken(u, text[0]);
      } else if c != cls || cls == Other {
        TokenStarts(u, tokens, t, text[p]);
        ConcatSnoc(tokens, t);
        assert text[..p] == text[..start] + t && text[p..p + 1] == [text[p]];
        tokens := tokens + [text[start..p]];
        start, cls := p, c;
      } else {
        TokenGrows(u, tokens, t, text[p]);
        assert text[start..p + 1] == t + [text[p]];
      }
      p := p + 1;
    }
    ConcatSnoc(tokens, text[start..p]);
    assert text == text[..start] + text[start..p];
    tokens := tokens + [text[start..p]];
  }

  lemma FirstToken(u: Unicode, c: char)
    ensures Runs(u, [] + [[c]])
  {
  }

  /** The run a text starts with is its first `n` characters. */
  ghost predicate HeadRun(u: Unicode, text: string, n: nat) {
    && 1 <= n <= |text|
    && (forall k | 0 <= k < n :: u.Classify(text[k]) == u.Classify(text[0]))
    && (u.Classify(text[0]) == Other ==> n == 1)
    && (n < |text| && u.Classify(text[0]) != Other ==> u.Classify(text[n]) != u.Classify(text[0]))
  }

  lemma HeadIsMaximal(u: Unicode, xs: seq<string>)
    requires Runs(u, xs) && xs != []
    ensures HeadRun(u, Concat(xs), |xs[0]|)
  {
    assert IsToken(u, xs[0]);
    if |xs| > 1 {
      assert IsToken(u, xs[1]) && Ends(u, xs[0], xs[1]);
      assert Concat(xs)[|xs[0]|] == xs[1][0];
    }
  }

  /** Cutting a text into maximal runs leaves no choice. */
  lemma {:induction false} RunsAreUnique(u: Unicode, xs: seq<string>, ys: seq<string>)
    requires Runs(u, xs) && Runs(u, ys)
    requires Concat(xs) == Concat(ys)
    ensures xs == ys
  {
    assert xs != [] ==> IsToken(u, xs[0]);
    assert ys != [] ==> IsToken(u, ys[0]);
    if xs != [] && ys != [] {
      HeadIsMaximal(u, xs);
      HeadIsMaximal(u, ys);
      var text, n := Concat(xs), |xs[0]|;
      assert xs[0] == text[..n] && ys[0] == text[..n];
      assert Concat(xs[1..]) == text[n..] && Concat(ys[1..]) == text[n..];
      RunsAreUnique(u, xs[1..], ys[1..]);
    }
  }
}
