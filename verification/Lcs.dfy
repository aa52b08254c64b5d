/**
 Longest common subsequences, as both diffs of the rewrite widget use them.

 Two elements match when they are equal and `ok`: every token may match, but a
 line with a changed span may not, not even with itself.  `Common` says what a
 common subsequence is; `LcsLength` is the recurrence the tables are filled by, and
 the lemmas tie the two together.
 */
module Lcs {

  predicate Match<T(==)>(x: T, y: T, ok: T -> bool) {
    x == y && ok(x)
  }

  /** `c` can be had from `a` by leaving elements out. */
  ghost predicate Subseq<T>(c: seq<T>, a: seq<T>) {
    c == [] ||
    (a != [] && ((c[0] == a[0] && Subseq(c[1..], a[1..])) || Subseq(c, a[1..])))
  }

  /** `c` is a subsequence of both sides, made of elements that may match. */
  ghost predicate Common<T(!new)>(c: seq<T>, a: seq<T>, b: seq<T>, ok: T -> bool) {
    Subseq(c, a) && Subseq(c, b) && forall x | x in c :: ok(x)
  }

  /** `c` is a common subsequence and no other is longer. */
  ghost predicate Longest<T(!new)>(c: seq<T>, a: seq<T>, b: seq<T>, ok: T -> bool) {
    Common(c, a, b, ok) && forall d | Common(d, a, b, ok) :: |d| <= |c|
  }

  /** The recurrence of the table: cell (i, j) holds `LcsLength(a[i..], b[j..], ok)`. */
  function LcsLength<T(==)>(a: seq<T>, b: seq<T>, ok: T -> bool): nat
    decreases |a| + |b|
  {
    if a == [] || b == [] then 0
    else if Match(a[0], b[0], ok) then 1 + LcsLength(a[1..], b[1..], ok)
    else Max(LcsLength(a[1..], b, ok), LcsLength(a, b[1..], ok))
  }

  function Max(x: nat, y: nat): nat {
    if x > y then x else y
  }

  // ---- Subsequences ----

  lemma {:induction false} SubseqSkip<T>(c: seq<T>, a: seq<T>, x: T)
    requires Subseq(c, a)
    ensures Subseq(c, [x] + a)
  {
    assert ([x] + a)[1..] == a;
  }

  lemma {:induction false} SubseqTail<T>(c: seq<T>, a: seq<T>)
    requires c != [] && a != [] && Subseq(c, a)
    ensures Subseq(c[1..], a[1..])
  {
    if !(c[0] == a[0] && Subseq(c[1..], a[1..])) {
      SubseqTail(c, a[1..]);
      SubseqSkip(c[1..], a[1..][1..], a[1]);
      assert [a[1]] + a[1..][1..] == a[1..];
    }
  }

  /** Dropping the last element of the longer side costs at most the last one of `c`. */
  lemma {:induction false} SubseqInit<T>(c: seq<T>, a: seq<T>, x: T)
    requires c != [] && Subseq(c, a + [x])
    ensures Subseq(c[..|c| - 1], a)
  {
    var ax := a + [x];
    if a == [] {
      if |c| > 1 {
        SubseqTail(c, ax);
        assert false;
      }
    } else {
      assert ax[1..] == a[1..] + [x] && ax[0] == a[0];
      if c[0] == ax[0] && Subseq(c[1..], ax[1..]) {
        if |c| > 1 {
          SubseqInit(c[1..], a[1..], x);
          assert c[1..][..|c[1..]| - 1] == c[..|c| - 1][1..];
        }
      } else {
        SubseqInit(c, a[1..], x);
      }
    }
  }

  lemma {:induction false} SubseqSnoc<T>(c: seq<T>, a: seq<T>, x: T)
    requires Subseq(c, a)
    ensures Subseq(c + [x], a + [x])
  {
    var cx, ax := c + [x], a + [x];
    if a == [] {
      assert c == [] && cx[1..] == [];
    } else {
      assert ax[1..] == a[1..] + [x];
      if c != [] && c[0] == a[0] && Subseq(c[1..], a[1..]) {
        SubseqSnoc(c[1..], a[1..], x);
        assert cx[1..] == c[1..] + [x];
      } else if c == [] {
        SubseqSnoc(c, a[1..], x);
      } else {
        SubseqSnoc(c, a[1..], x);
      }
    }
  }

  // ---- The recurrence is the length of a longest common subsequence ----

  lemma {:induction false} LcsIsUpperBound<T(!new)>(c: seq<T>, a: seq<T>, b: seq<T>, ok: T -> bool)
    requires Common(c, a, b, ok)
    ensures |c| <= LcsLength(a, b, ok)
    decreases |a| + |b|
  {
    if c != [] {
      assert c[0] in c;
      if Match(a[0], b[0], ok) {
        SubseqTail(c, a);
        SubseqTail(c, b);
        LcsIsUpperBound(c[1..], a[1..], b[1..], ok);
      } else if c[0] == a[0] {
        LcsIsUpperBound(c, a, b[1..], ok);
      } else {
        LcsIsUpperBound(c, a[1..], b, ok);
      }
    }
  }

  lemma {:induction false} LcsIsAttained<T(!new)>(a: seq<T>, b: seq<T>, ok: T -> bool) returns (c: seq<T>)
    ensures Common(c, a, b, ok) && |c| == LcsLength(a, b, ok)
    decreases |a| + |b|
  {
    if a == [] || b == [] {
      c := [];
    } else if Match(a[0], b[0], ok) {
      var d := LcsIsAttained(a[1..], b[1..], ok);
      c := [a[0]] + d;
      assert c[1..] == d;
    } else if LcsLength(a[1..], b, ok) > LcsLength(a, b[1..], ok) {
      c := LcsIsAttained(a[1..], b, ok);
      SubseqSkip(c, a[1..], a[0]);
      assert [a[0]] + a[1..] == a;
    } else {
      c := LcsIsAttained(a, b[1..], ok);
      SubseqSkip(c, b[1..], b[0]);
      assert [b[0]] + b[1..] == b;
    }
  }

  lemma LcsIsLongest<T(!new)>(c: seq<T>, a: seq<T>, b: seq<T>, ok: T -> bool)
    requires Common(c, a, b, ok)
    ensures Longest(c, a, b, ok) <==> |c| == LcsLength(a, b, ok)
  {
    forall d | Common(d, a, b, ok) ensures |d| <= LcsLength(a, b, ok) {
      LcsIsUpperBound(d, a, b, ok);
    }
    var e := LcsIsAttained(a, b, ok);
  }

  /** One element less on a side is never better. */
  lemma LcsDrop<T(!new)>(a: seq<T>, b: seq<T>, ok: T -> bool)
    requires b != []
    ensures LcsLength(a, b[1..], ok) <= LcsLength(a, b, ok)
  {
    var c := LcsIsAttained(a, b[1..], ok);
    SubseqSkip(c, b[1..], b[0]);
    assert [b[0]] + b[1..] == b;
    LcsIsUpperBound(c, a, b, ok);
  }

  // ---- Trimming a common head and a common tail loses nothing ----

  lemma {:induction false} LcsHead<T(!new)>(h: seq<T>, a: seq<T>, b: seq<T>, ok: T -> bool)
    requires forall x | x in h :: ok(x)
    ensures LcsLength(h + a, h + b, ok) == |h| + LcsLength(a, b, ok)
  {
    if h == [] {
      assert h + a == a && h + b == b;
    } else {
      assert h[0] in h;
      assert (h + a)[1..] == h[1..] + a && (h + b)[1..] == h[1..] + b;
      LcsHead(h[1..], a, b, ok);
    }
  }

  lemma LcsSnoc<T(!new)>(a: seq<T>, b: seq<T>, x: T, ok: T -> bool)
    requires ok(x)
    ensures LcsLength(a + [x], b + [x], ok) == 1 + LcsLength(a, b, ok)
  {
    var c := LcsIsAttained(a, b, ok);
    SubseqSnoc(c, a, x);
    SubseqSnoc(c, b, x);
    LcsIsUpperBound(c + [x], a + [x], b + [x], ok);
    var d := LcsIsAttained(a + [x], b + [x], ok);
    SubseqInit(d, a, x);
    SubseqInit(d, b, x);
    forall y | y in d[..|d| - 1] ensures ok(y) { assert y in d; }
    LcsIsUpperBound(d[..|d| - 1], a, b, ok);
  }

  lemma {:induction false} LcsTail<T(!new)>(a: seq<T>, b: seq<T>, t: seq<T>, ok: T -> bool)
    requires forall x | x in t :: ok(x)
    ensures LcsLength(a + t, b + t, ok) == LcsLength(a, b, ok) + |t|
    decreases |t|
  {
    if t == [] {
      assert a + t == a && b + t == b;
    } else {
      assert t[0] in t;
      assert a + t == (a + [t[0]]) + t[1..] && b + t == (b + [t[0]]) + t[1..];
      LcsTail(a + [t[0]], b + [t[0]], t[1..], ok);
      LcsSnoc(a, b, t[0], ok);
    }
  }

  // ---- The table ----

  /** Fills the table from the last cell back to the first. */
  method FillTable<T(==)>(a: seq<T>, b: seq<T>, ok: T -> bool) returns (table: array2<nat>)
    ensures fresh(table)
    ensures table.Length0 == |a| + 1 && table.Length1 == |b| + 1
    ensures forall i, j | 0 <= i <= |a| && 0 <= j <= |b| :: table[i, j] == LcsLength(a[i..], b[j..], ok)
  {
    table := new nat[|a| + 1, |b| + 1]((_, _) => 0);
    var i := |a|;
    while i > 0
      invariant 0 <= i <= |a|
      invariant forall r, s | i <= r <= |a| && 0 <= s <= |b| :: table[r, s] == LcsLength(a[r..], b[s..], ok)
      invariant forall r, s | 0 <= r < i && 0 <= s <= |b| :: table[r, s] == 0
    {
      i := i - 1;
      var j := |b|;
      assert b[|b|..] == [];
      while j > 0
        invariant 0 <= j <= |b|
        invariant forall r, s | i < r <= |a| && 0 <= s <= |b| :: table[r, s] == LcsLength(a[r..], b[s..], ok)
        invariant forall s | j <= s <= |b| :: table[i, s] == LcsLength(a[i..], b[s..], ok)
        invariant forall r, s | 0 <= r < i && 0 <= s <= |b| :: table[r, s] == 0
      {
        j := j - 1;
        assert a[i..][1..] == a[i + 1..] && b[j..][1..] == b[j + 1..];
        if Match(a[i], b[j], ok) {
          table[i, j] := table[i + 1, j + 1] + 1;
        } else {
          table[i, j] := Max(table[i + 1, j], table[i, j + 1]);
        }
      }
    }
  }
}
