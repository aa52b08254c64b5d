/**
 Start waves: what a plan returns, why it fails only on a cycle, and what the
 waves promise.
 */
module ServiceWaves {
  import opened Text
  import opened ServicePlan

  // ---- Cycles and depths exclude each other ----

  /** A chain that comes back to one of its services can be made as long as one likes. */
  lemma {:induction false} Pump(s: seq<Service>, p: seq<nat>, k: nat, m: nat) returns (q: seq<nat>)
    requires Chain(s, p) && k < |p| - 1 && p[k] == p[|p| - 1]
    ensures Chain(s, q) && q[0] == p[0] && |q| >= m
    decreases m - |p|
  {
    if |p| >= m {
      q := p;
    } else {
      var r := p[k + 1..];
      assert Edge(s, p[k], p[k + 1]);
      q := Pump(s, p + r, |p| - 1, m);
    }
  }

  /** A service with a depth has no way into a cycle. */
  lemma DepthMeansNoCycle(s: seq<Service>, i: nat, d: nat)
    requires IsDepth(s, i, d)
    ensures !ReachesCycle(s, i)
  {
    forall p, k | Chain(s, p) && p[0] == i && 0 <= k < |p| - 1 ensures p[k] != p[|p| - 1] {
      if p[k] == p[|p| - 1] {
        var q := Pump(s, p, k, d + 2);
        assert false;
      }
    }
  }

  /** `n` places cannot hold more than `n` different numbers below `n`. */
  lemma {:induction false} Pigeonhole(p: seq<nat>, n: nat) returns (a: nat, b: nat)
    requires n >= 1 && |p| > n && forall k | 0 <= k < |p| :: p[k] < n
    ensures a < b < |p| && p[a] == p[b]
  {
    if n == 1 {
      a, b := 0, 1;
    } else if exists k :: 0 <= k < |p| && p[k] == n - 1 {
      var k :| 0 <= k < |p| && p[k] == n - 1;
      if m :| 0 <= m < |p| && m != k && p[m] == n - 1 {
        a, b := if m < k then m else k, if m < k then k else m;
      } else {
        var q := p[..k] + p[k + 1..];
        a, b := Pigeonhole(q, n - 1);
        a, b := if a < k then a else a + 1, if b < k then b else b + 1;
      }
    } else {
      a, b := Pigeonhole(p, n - 1);
    }
  }

  lemma ChainOne(s: seq<Service>, i: nat)
    requires i < |s|
    ensures Chain(s, [i])
  {
  }

  /** No unsettled service can settle. */
  ghost predicate AllBlocked(s: seq<Service>, depth: seq<int>)
    requires |depth| == |s|
  {
    forall k: nat {:trigger Blocked(s, depth, k)} | k < |s| && depth[k] < 0 :: Blocked(s, depth, k)
  }

  /** Following unsettled needs never has to stop. */
  lemma {:induction false} BlockedChain(s: seq<Service>, depth: seq<int>, i: nat, len: nat) returns (p: seq<nat>)
    requires |depth| == |s| && i < |s| && depth[i] < 0 && len >= 1
    requires AllBlocked(s, depth)
    ensures Chain(s, p) && p != [] && p[0] == i && |p| == len
    decreases len
  {
    hide Chain, Edge;
    if len == 1 {
      p := [i];
      ChainOne(s, i);
    } else {
      assert Blocked(s, depth, i);
      var j: nat :| j < |s| && Edge(s, i, j) && depth[j] < 0;
      var q := BlockedChain(s, depth, j, len - 1);
      ChainCons(s, i, q);
      p := [i] + q;
    }
  }

  /** A chain that meets a service twice shows a cycle, and a way into it. */
  lemma RepeatIsCycle(s: seq<Service>, p: seq<nat>, a: nat, b: nat)
    requires Chain(s, p) && a < b < |p| && p[a] == p[b]
    ensures ReachesCycle(s, p[0]) && HasCycle(s)
  {
    hide Edge;
    var q := p[..b + 1];
    assert Chain(s, q) && q[0] == p[0] && 0 <= a < |q| - 1 && q[a] == q[|q| - 1];
    assert Cycle(s, q[a..]);
  }

  /** When the relaxation stalls, everything unsettled leads into a cycle. */
  lemma BlockedReachesCycle(s: seq<Service>, depth: seq<int>, i: nat)
    requires |depth| == |s| && i < |s| && depth[i] < 0
    requires AllBlocked(s, depth)
    ensures ReachesCycle(s, i) && HasCycle(s)
  {
    hide Blocked, ReachesCycle, HasCycle, Edge;
    var p := BlockedChain(s, depth, i, |s| + 1);
    var a, b := Pigeonhole(p, |s|);
    RepeatIsCycle(s, p, a, b);
  }

  lemma CycleIsReached(s: seq<Service>)
    requires HasCycle(s)
    ensures exists i: nat :: i < |s| && ReachesCycle(s, i)
  {
    hide Edge;
    var p :| Cycle(s, p);
    assert Chain(s, p) && p[0] == p[0] && 0 <= 0 < |p| - 1 && p[0] == p[|p| - 1];
    assert ReachesCycle(s, p[0]);
  }

  /** The relaxation settles every service exactly when the whole graph has no cycle. */
  lemma SettledMeansNoCycle(s: seq<Service>, depth: seq<int>)
    requires Sound(s, depth)
    requires Count(depth) < |s| ==> AllBlocked(s, depth)
    ensures Count(depth) < |s| <==> HasCycle(s)
    ensures forall i | 0 <= i < |s| :: depth[i] < 0 <==> ReachesCycle(s, i)
  {
    hide IsDepth, Blocked, ReachesCycle, HasCycle;
    CountAll(depth);
    forall i | 0 <= i < |s| ensures depth[i] < 0 <==> ReachesCycle(s, i) {
      if depth[i] < 0 {
        BlockedReachesCycle(s, depth, i);
      } else {
        DepthMeansNoCycle(s, i, depth[i]);
      }
    }
    if Count(depth) < |s| {
      var i :| 0 <= i < |s| && depth[i] < 0;
      BlockedReachesCycle(s, depth, i);
    }
    if HasCycle(s) {
      CycleIsReached(s);
    }
  }

  // ---- Waves ----

  /** What a service sorts by: twice its depth, plus one for a process. */
  ghost predicate HasKey(s: seq<Service>, i: nat, key: nat)
    requires i < |s|
  {
    IsDepth(s, i, key / 2) && (key % 2 == 1 <==> s[i].process)
  }

  function KeyOf(svc: Service, depth: int): int {
    depth * 2 + if svc.process then 1 else 0
  }

  datatype Plan = Waves(waves: seq<seq<nat>>) | CycleThrough(names: seq<string>)

  ghost predicate Increasing(xs: seq<nat>) {
    forall i, j | 0 <= i < j < |xs| :: xs[i] < xs[j]
  }

  /** Wave `w` is every wanted service of key `keys[w]`, in file order; every wanted service has a wave. */
  ghost predicate GoodWaves(s: seq<Service>, only: Option<seq<string>>, waves: seq<seq<nat>>, keys: seq<nat>) {
    && |keys| == |waves| && Increasing(keys)
    && (forall w | 0 <= w < |waves| :: waves[w] != [] && Increasing(waves[w]))
    && (forall w, i: nat {:trigger i in waves[w]} | 0 <= w < |waves| ::
          i in waves[w] <==> i < |s| && Wanted(s, only, i) && HasKey(s, i, keys[w]))
    && (forall i: nat | i < |s| && Wanted(s, only, i) :: exists w :: 0 <= w < |waves| && i in waves[w])
  }

  lemma DepthIsUnique(s: seq<Service>, i: nat, d: nat, e: nat)
    requires IsDepth(s, i, d) && IsDepth(s, i, e)
    ensures d == e
  {
    var p :| Chain(s, p) && p[0] == i && |p| == d + 1;
    var q :| Chain(s, q) && q[0] == i && |q| == e + 1;
  }

  lemma NeedIsShallower(s: seq<Service>, i: nat, j: nat, d: nat, e: nat)
    requires Edge(s, i, j) && IsDepth(s, i, d) && IsDepth(s, j, e)
    ensures e < d
  {
    var q :| Chain(s, q) && q[0] == j && |q| == e + 1;
    ChainCons(s, i, q);
    assert Chain(s, [i] + q) && ([i] + q)[0] == i;
  }

  /** Every wanted service starts exactly once. */
  lemma EachStartsOnce(s: seq<Service>, only: Option<seq<string>>, waves: seq<seq<nat>>, keys: seq<nat>, i: nat)
    requires GoodWaves(s, only, waves, keys) && i < |s|
    ensures Wanted(s, only, i) <==> exists w :: 0 <= w < |waves| && i in waves[w]
    ensures forall w, v | 0 <= w < |waves| && 0 <= v < |waves| && i in waves[w] && i in waves[v] :: w == v
    ensures forall w, a, b | 0 <= w < |waves| && 0 <= a < b < |waves[w]| :: waves[w][a] != waves[w][b]
  {
    forall w, v | 0 <= w < |waves| && 0 <= v < |waves| && i in waves[w] && i in waves[v] ensures w == v {
    }
  }

  /** Everything a started service needs starts in a strictly earlier wave. */
  lemma NeedsStartEarlier(s: seq<Service>, only: Option<seq<string>>, waves: seq<seq<nat>>, keys: seq<nat>,
                          w: nat, i: nat, j: nat) returns (v: nat)
    requires GoodWaves(s, only, waves, keys) && w < |waves| && i in waves[w] && j < |s| && Edge(s, i, j)
    ensures v < w && j in waves[v]
  {
    hide Wanted, Edge, IsDepth;
    NeedIsWanted(s, only, i, j);
    v :| 0 <= v < |waves| && j in waves[v];
    NeedIsShallower(s, i, j, keys[w] / 2, keys[v] / 2);
    assert keys[v] < keys[w];
  }

  /** Shallower services start first, and at equal depth containers before processes. */
  lemma ContainersFirst(s: seq<Service>, only: Option<seq<string>>, waves: seq<seq<nat>>, keys: seq<nat>,
                        w: nat, v: nat, i: nat, j: nat, d: nat, e: nat)
    requires GoodWaves(s, only, waves, keys) && w < |waves| && v < |waves| && i in waves[w] && j in waves[v]
    requires IsDepth(s, i, d) && IsDepth(s, j, e)
    ensures w < v <==> d < e || (d == e && !s[i].process && s[j].process)
  {
    hide Wanted, IsDepth;
    assert HasKey(s, i, keys[w]) && HasKey(s, j, keys[v]);
    DepthIsUnique(s, i, d, keys[w] / 2);
    DepthIsUnique(s, j, e, keys[v] / 2);
    assert w < v ==> keys[w] < keys[v];
    assert v < w ==> keys[v] < keys[w];
  }

  // ---- Planning ----

  /** The wanted services of one key, in file order. */
  method WaveOf(s: seq<Service>, want: seq<bool>, depth: seq<int>, key: nat) returns (wave: seq<nat>)
    requires |want| == |s| == |depth|
    ensures Increasing(wave)
    ensures forall i: nat :: i in wave <==> i < |s| && want[i] && KeyOf(s[i], depth[i]) == key
  {
    wave := [];
    for i := 0 to |s|
      invariant Increasing(wave) && forall a | 0 <= a < |wave| :: wave[a] < i
      invariant forall k: nat :: k in wave <==> k < i && want[k] && KeyOf(s[k], depth[k]) == key
    {
      if want[i] && KeyOf(s[i], depth[i]) == key {
        wave := wave + [i];
      }
    }
  }

  /** The largest key wanted, or -1. */
  method MaxKey(s: seq<Service>, want: seq<bool>, depth: seq<int>) returns (maxKey: int)
    requires |want| == |s| == |depth| && forall i | 0 <= i < |s| :: depth[i] >= 0
    ensures maxKey >= -1 && forall i | 0 <= i < |s| && want[i] :: KeyOf(s[i], depth[i]) <= maxKey
  {
    maxKey := -1;
    for i := 0 to |s|
      invariant maxKey >= -1 && forall k | 0 <= k < i && want[k] :: KeyOf(s[k], depth[k]) <= maxKey
    {
      if want[i] && KeyOf(s[i], depth[i]) > maxKey {
        maxKey := KeyOf(s[i], depth[i]);
      }
    }
  }

  /** The same as `GoodWaves`, in terms of the marks and depths at hand, for keys below `bound`. */
  ghost predicate WavesBelow(s: seq<Service>, want: seq<bool>, depth: seq<int>, bound: int,
                             waves: seq<seq<nat>>, keys: seq<nat>)
    requires |want| == |s| == |depth|
  {
    && |keys| == |waves| && Increasing(keys) && (forall w | 0 <= w < |keys| :: keys[w] < bound)
    && (forall w | 0 <= w < |waves| :: waves[w] != [] && Increasing(waves[w]))
    && (forall w, i: nat {:trigger i in waves[w]} | 0 <= w < |waves| ::
          i in waves[w] <==> i < |s| && want[i] && KeyOf(s[i], depth[i]) == keys[w])
    && (forall i: nat | i < |s| && want[i] && KeyOf(s[i], depth[i]) < bound ::
          exists w :: 0 <= w < |waves| && i in waves[w])
  }

  method EmitWaves(s: seq<Service>, want: seq<bool>, depth: seq<int>)
    returns (waves: seq<seq<nat>>, ghost keys: seq<nat>, ghost bound: int)
    requires |want| == |s| == |depth| && forall i | 0 <= i < |s| :: depth[i] >= 0
    ensures WavesBelow(s, want, depth, bound, waves, keys)
    ensures forall i | 0 <= i < |s| && want[i] :: KeyOf(s[i], depth[i]) < bound
  {
    var maxKey := MaxKey(s, want, depth);
    waves, keys := [], [];
    var key := 0;
    while key <= maxKey
      invariant 0 <= key <= maxKey + 1
      invariant WavesBelow(s, want, depth, key, waves, keys)
    {
      var wave := WaveOf(s, want, depth, key);
      if wave != [] {
        WaveAdded(s, want, depth, key, waves, keys, wave);
        waves, keys := waves + [wave], keys + [key];
      } else {
      }
      key := key + 1;
    }
    bound := key;
  }

  lemma WaveAdded(s: seq<Service>, want: seq<bool>, depth: seq<int>, key: nat,
                  waves: seq<seq<nat>>, keys: seq<nat>, wave: seq<nat>)
    requires |want| == |s| == |depth| && WavesBelow(s, want, depth, key, waves, keys)
    requires wave != [] && Increasing(wave)
    requires forall i: nat :: i in wave <==> i < |s| && want[i] && KeyOf(s[i], depth[i]) == key
    ensures WavesBelow(s, want, depth, key + 1, waves + [wave], keys + [key])
  {
    var more := waves + [wave];
    forall i: nat | i < |s| && want[i] && KeyOf(s[i], depth[i]) < key + 1
      ensures exists w :: 0 <= w < |more| && i in more[w]
    {
      if KeyOf(s[i], depth[i]) == key {
        assert i in more[|waves|];
      } else {
        var w :| 0 <= w < |waves| && i in waves[w];
        assert i in more[w];
      }
    }
  }

  lemma KeysAgree(s: seq<Service>, depth: seq<int>, i: nat, k: nat)
    requires Sound(s, depth) && i < |s| && depth[i] >= 0
    ensures HasKey(s, i, k) <==> KeyOf(s[i], depth[i]) == k
  {
    assert IsDepth(s, i, depth[i]);
    if HasKey(s, i, k) {
      DepthIsUnique(s, i, k / 2, depth[i]);
    }
  }

  lemma WavesAreGood(s: seq<Service>, only: Option<seq<string>>, want: seq<bool>, depth: seq<int>, bound: int,
                     waves: seq<seq<nat>>, keys: seq<nat>)
    requires |want| == |s| && (forall i | 0 <= i < |s| :: want[i] <==> Wanted(s, only, i))
    requires Sound(s, depth) && (forall i | 0 <= i < |s| :: depth[i] >= 0)
    requires WavesBelow(s, want, depth, bound, waves, keys)
    requires forall i | 0 <= i < |s| && want[i] :: KeyOf(s[i], depth[i]) < bound
    ensures GoodWaves(s, only, waves, keys)
  {
    hide Wanted, HasKey, Sound;
    forall w, i: nat {:trigger i in waves[w]} | 0 <= w < |waves|
      ensures i in waves[w] <==> i < |s| && Wanted(s, only, i) && HasKey(s, i, keys[w])
    {
      if i < |s| {
        KeysAgree(s, depth, i, keys[w]);
      }
    }
    forall i: nat | i < |s| && Wanted(s, only, i) ensures exists w :: 0 <= w < |waves| && i in waves[w] {
      assert want[i];
    }
  }

  /** The ids of those of the first `n` services that lead into a cycle, in file order. */
  ghost function CycleNames(s: seq<Service>, n: nat): seq<string>
    requires n <= |s|
  {
    if n == 0 then [] else CycleNames(s, n - 1) + if ReachesCycle(s, n - 1) then [s[n - 1].id] else []
  }

  /** The ids of the services that could not be settled, in file order. */
  method Unsettled(s: seq<Service>, depth: seq<int>) returns (names: seq<string>)
    requires |depth| == |s| && forall i | 0 <= i < |s| :: depth[i] < 0 <==> ReachesCycle(s, i)
    ensures names == CycleNames(s, |s|)
  {
    hide ReachesCycle;
    names := [];
    for i := 0 to |s|
      invariant names == CycleNames(s, i)
    {
      if depth[i] < 0 {
        names := names + [s[i].id];
      }
    }
  }

  /**
   Plans the start of `only` (or of everything).  It fails exactly when the whole
   needs graph has a cycle, even one outside what was asked for, and then names
   every service that leads into one, each once and in file order.
   */
  method MakePlan(s: seq<Service>, only: Option<seq<string>>) returns (plan: Plan, ghost keys: seq<nat>)
    ensures plan.CycleThrough? <==> HasCycle(s)
    ensures plan.CycleThrough? ==> plan.names == CycleNames(s, |s|)
    ensures plan.Waves? ==> GoodWaves(s, only, plan.waves, keys)
  {
    hide Wanted, GoodWaves, WavesBelow, Blocked, HasCycle, ReachesCycle;
    keys := [];
    var want := MarkWanted(s, only);
    var depth, done := Relax(s);
    SettledMeansNoCycle(s, depth[..]);
    CountAll(depth[..]);
    if done < |s| {
      var names := Unsettled(s, depth[..]);
      plan := CycleThrough(names);
      return;
    }
    var waves, ks, bound := EmitWaves(s, want[..], depth[..]);
    WavesAreGood(s, only, want[..], depth[..], bound, waves, ks);
    keys := ks;
    plan := Waves(waves);
  }
}
