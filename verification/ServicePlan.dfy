/**
 Ordering a stack's services: reference checks, the closure of what was asked
 for, depths by relaxation, and start waves.
 */
module ServicePlan {
  import opened Text

  datatype Service = Service(id: string, needs: seq<string>, process: bool)
  datatype Task = Task(id: string, needs: seq<string>)
  datatype Stack = Stack(services: seq<Service>, tasks: seq<Task>)

  // ---- The needs graph ----

  predicate HasService(services: seq<Service>, id: string) {
    exists i | 0 <= i < |services| :: services[i].id == id
  }

  /** The first service called `id`. */
  function FindService(services: seq<Service>, id: string): (found: Option<nat>)
    ensures found.None? <==> !HasService(services, id)
    ensures found.Some? ==>
      found.value < |services| && services[found.value].id == id &&
      forall i | 0 <= i < found.value :: services[i].id != id
  {
    FindFrom(services, id, 0)
  }

  function FindFrom(services: seq<Service>, id: string, from: nat): (found: Option<nat>)
    requires from <= |services|
    ensures found.None? <==> forall i | from <= i < |services| :: services[i].id != id
    ensures found.Some? ==>
      from <= found.value < |services| && services[found.value].id == id &&
      forall i | from <= i < found.value :: services[i].id != id
    decreases |services| - from
  {
    if from == |services| then None
    else if services[from].id == id then Some(from)
    else FindFrom(services, id, from + 1)
  }

  /** Service `i` needs service `j`; a need that names no service counts for nothing. */
  ghost predicate Edge(s: seq<Service>, i: nat, j: nat) {
    i < |s| && exists n | n in s[i].needs :: FindService(s, n) == Some(j)
  }

  /** A chain of needs. */
  ghost predicate Chain(s: seq<Service>, p: seq<nat>) {
    && p != []
    && (forall k | 0 <= k < |p| :: p[k] < |s|)
    && (forall k, l | 0 <= k && l == k + 1 < |p| :: Edge(s, p[k], p[l]))
  }

  ghost predicate Cycle(s: seq<Service>, p: seq<nat>) {
    Chain(s, p) && |p| >= 2 && p[0] == p[|p| - 1]
  }

  ghost predicate HasCycle(s: seq<Service>) {
    exists p :: Cycle(s, p)
  }

  /** The longest chain of needs from service `i` has `d` steps. */
  ghost predicate IsDepth(s: seq<Service>, i: nat, d: nat) {
    && (exists p :: Chain(s, p) && p[0] == i && |p| == d + 1)
    && (forall p {:trigger Chain(s, p)} | Chain(s, p) && p[0] == i :: |p| <= d + 1)
  }

  /** Some chain of needs from service `i` never has to end. */
  ghost predicate ReachesCycle(s: seq<Service>, i: nat) {
    exists p, k :: Chain(s, p) && p[0] == i && 0 <= k < |p| - 1 && p[k] == p[|p| - 1]
  }

  // ---- check_refs ----

  datatype RefError = ServiceTwice(id: string) | TaskTwice(id: string)
                    | ServiceNeedsUnknown(id: string, need: string) | TaskNeedsUnknown(id: string, need: string)

  ghost predicate Resolved(services: seq<Service>, needs: seq<string>) {
    forall n | n in needs :: HasService(services, n)
  }

  ghost predicate RefsGood(stack: Stack) {
    && (forall i, j | 0 <= i < j < |stack.services| :: stack.services[i].id != stack.services[j].id)
    && (forall i | 0 <= i < |stack.services| :: Resolved(stack.services, stack.services[i].needs))
    && (forall i, j | 0 <= i < j < |stack.tasks| :: stack.tasks[i].id != stack.tasks[j].id)
    && (forall i | 0 <= i < |stack.tasks| :: Resolved(stack.services, stack.tasks[i].needs))
  }

  /** The error names what is wrong. */
  ghost predicate Blames(stack: Stack, e: RefError) {
    match e
    case ServiceTwice(id) =>
      exists i, j :: 0 <= i < j < |stack.services| && stack.services[i].id == id == stack.services[j].id
    case TaskTwice(id) =>
      exists i, j :: 0 <= i < j < |stack.tasks| && stack.tasks[i].id == id == stack.tasks[j].id
    case ServiceNeedsUnknown(id, n) =>
      !HasService(stack.services, n) &&
      exists i :: 0 <= i < |stack.services| && stack.services[i].id == id && n in stack.services[i].needs
    case TaskNeedsUnknown(id, n) =>
      !HasService(stack.services, n) &&
      exists i :: 0 <= i < |stack.tasks| && stack.tasks[i].id == id && n in stack.tasks[i].needs
  }

  method FirstUnresolved(services: seq<Service>, needs: seq<string>) returns (bad: Option<string>)
    ensures bad.None? <==> Resolved(services, needs)
    ensures bad.Some? ==> bad.value in needs && !HasService(services, bad.value)
  {
    for j := 0 to |needs|
      invariant forall k | 0 <= k < j :: HasService(services, needs[k])
    {
      if FindService(services, needs[j]).None? {
        return Some(needs[j]);
      }
    }
    return None;
  }

  method CheckRefs(stack: Stack) returns (error: Option<RefError>)
    ensures error.None? <==> RefsGood(stack)
    ensures error.Some? ==> Blames(stack, error.value)
  {
    var services, tasks := stack.services, stack.tasks;
    for i := 0 to |services|
      invariant forall k, j | 0 <= k < i && k < j < |services| :: services[k].id != services[j].id
      invariant forall k | 0 <= k < i :: Resolved(services, services[k].needs)
    {
      for j := i + 1 to |services|
        invariant forall k | i < k < j :: services[k].id != services[i].id
      {
        if services[j].id == services[i].id {
          return Some(ServiceTwice(services[i].id));
        }
      }
      var bad := FirstUnresolved(services, services[i].needs);
      if bad.Some? {
        return Some(ServiceNeedsUnknown(services[i].id, bad.value));
      }
    }
    for i := 0 to |tasks|
      invariant forall k, j | 0 <= k < i && k < j < |tasks| :: tasks[k].id != tasks[j].id
      invariant forall k | 0 <= k < i :: Resolved(services, tasks[k].needs)
    {
      for j := i + 1 to |tasks|
        invariant forall k | i < k < j :: tasks[k].id != tasks[i].id
      {
        if tasks[j].id == tasks[i].id {
          return Some(TaskTwice(tasks[i].id));
        }
      }
      var bad := FirstUnresolved(services, tasks[i].needs);
      if bad.Some? {
        return Some(TaskNeedsUnknown(tasks[i].id, bad.value));
      }
    }
    return None;
  }

  // ---- The closure of what was asked for ----

  ghost predicate Asked(s: seq<Service>, only: Option<seq<string>>, i: nat)
    requires i < |s|
  {
    only.None? || exists n | n in only.value :: FindService(s, n) == Some(i)
  }

  /** In the least set that holds what was asked for and is closed under needs. */
  ghost predicate Wanted(s: seq<Service>, only: Option<seq<string>>, i: nat)
    requires i < |s|
  {
    exists p :: Chain(s, p) && Asked(s, only, p[0]) && p[|p| - 1] == i
  }

  lemma AskedIsWanted(s: seq<Service>, only: Option<seq<string>>, i: nat)
    requires i < |s| && Asked(s, only, i)
    ensures Wanted(s, only, i)
  {
    var p: seq<nat> := [i];
    assert Chain(s, p) && p[|p| - 1] == i;
  }

  lemma NeedIsWanted(s: seq<Service>, only: Option<seq<string>>, i: nat, j: nat)
    requires i < |s| && j < |s| && Wanted(s, only, i) && Edge(s, i, j)
    ensures Wanted(s, only, j)
  {
    var p :| Chain(s, p) && Asked(s, only, p[0]) && p[|p| - 1] == i;
    var q := p + [j];
    assert Chain(s, q) && q[0] == p[0] && q[|q| - 1] == j;
  }

  ghost predicate ClosedUnderNeeds(s: seq<Service>, w: set<nat>) {
    forall i, j | i in w && Edge(s, i, j) :: j in w
  }

  /** Any set closed under needs that holds what was asked for holds all that is wanted. */
  lemma {:induction false} WantedIsLeast(s: seq<Service>, only: Option<seq<string>>, w: set<nat>, p: seq<nat>)
    requires ClosedUnderNeeds(s, w) && Chain(s, p) && Asked(s, only, p[0])
    requires forall i | 0 <= i < |s| && Asked(s, only, i) :: i in w
    ensures p[|p| - 1] in w
    decreases |p|
  {
    if |p| > 1 {
      var q := p[..|p| - 1];
      assert Chain(s, q);
      WantedIsLeast(s, only, w, q);
      assert Edge(s, q[|q| - 1], p[|p| - 1]);
    }
  }

  ghost function Missing(want: seq<bool>): set<nat> {
    set i: nat | i < |want| && !want[i]
  }

  /** Everything service `i` needs is marked. */
  ghost predicate NeedsMarked(s: seq<Service>, want: seq<bool>, i: nat)
    requires |want| == |s|
  {
    forall j: nat | j < |s| && Edge(s, i, j) :: want[j]
  }

  /** Marks what service `i` needs. */
  method MarkNeeds(s: seq<Service>, i: nat, want: array<bool>) returns (grew: bool)
    requires want.Length == |s| && i < |s|
    modifies want
    ensures forall k | 0 <= k < |s| :: want[k] <==> old(want[k]) || Edge(s, i, k)
    ensures grew <==> want[..] != old(want[..])
    ensures grew ==> Missing(want[..]) < old(Missing(want[..]))
  {
    grew := false;
    var needs := s[i].needs;
    for j := 0 to |needs|
      invariant forall k | 0 <= k < |s| ::
        want[k] <==> old(want[k]) || exists m :: 0 <= m < j && FindService(s, needs[m]) == Some(k)
      invariant grew <==> want[..] != old(want[..])
      invariant grew ==> Missing(want[..]) < old(Missing(want[..]))
    {
      var idx := FindService(s, needs[j]);
      if idx.Some? && !want[idx.value] {
        ghost var before := want[..];
        want[idx.value] := true;
        assert idx.value in Missing(before) && idx.value !in Missing(want[..]);
        assert Missing(want[..]) <= Missing(before);
        grew := true;
      }
    }
    forall k | 0 <= k < |s| ensures want[k] <==> old(want[k]) || Edge(s, i, k) {
      assert Edge(s, i, k) <==> exists m :: 0 <= m < |needs| && FindService(s, needs[m]) == Some(k);
    }
  }

  /** One pass over the services; a pass that marks nothing has found everything. */
  method MarkPass(s: seq<Service>, ghost only: Option<seq<string>>, want: array<bool>) returns (grew: bool)
    requires want.Length == |s|
    requires forall k | 0 <= k < |s| && want[k] :: Wanted(s, only, k)
    modifies want
    ensures forall k | 0 <= k < |s| && want[k] :: Wanted(s, only, k)
    ensures forall k | 0 <= k < |s| && old(want[k]) :: want[k]
    ensures grew ==> Missing(want[..]) < old(Missing(want[..]))
    ensures !grew ==> forall k | 0 <= k < |s| && want[k] :: NeedsMarked(s, want[..], k)
  {
    hide Wanted, Edge;
    grew := false;
    for i := 0 to |s|
      invariant forall k | 0 <= k < |s| && want[k] :: Wanted(s, only, k)
      invariant forall k | 0 <= k < |s| && old(want[k]) :: want[k]
      invariant grew ==> Missing(want[..]) < old(Missing(want[..]))
      invariant !grew ==> want[..] == old(want[..])
      invariant !grew ==> forall k | 0 <= k < i && want[k] :: NeedsMarked(s, want[..], k)
    {
      if want[i] {
        forall k: nat | k < |s| && Edge(s, i, k) ensures Wanted(s, only, k) {
          NeedIsWanted(s, only, i, k);
        }
        var more := MarkNeeds(s, i, want);
        grew := grew || more;
      }
    }
  }

  /** Marks exactly what is wanted. */
  method MarkWanted(s: seq<Service>, only: Option<seq<string>>) returns (want: array<bool>)
    ensures fresh(want) && want.Length == |s|
    ensures forall i | 0 <= i < |s| :: want[i] <==> Wanted(s, only, i)
  {
    want := new bool[|s|](_ => false);
    if only.None? {
      for i := 0 to |s|
        invariant forall k | 0 <= k < i :: want[k]
        invariant fresh(want) && want.Length == |s|
      {
        want[i] := true;
      }
    } else {
      for i := 0 to |only.value|
        invariant fresh(want) && want.Length == |s|
        invariant forall k | 0 <= k < |s| ::
          want[k] <==> exists m :: 0 <= m < i && FindService(s, only.value[m]) == Some(k)
      {
        var idx := FindService(s, only.value[i]);
        if idx.Some? {
          want[idx.value] := true;
        }
      }
    }
    assert forall k | 0 <= k < |s| :: want[k] <==> Asked(s, only, k);
    forall k | 0 <= k < |s| && want[k] ensures Wanted(s, only, k) {
      AskedIsWanted(s, only, k);
    }
    if only.Some? {
      CloseMarks(s, only, want);
    }
    MarksAreWanted(s, only, want[..]);
  }

  method CloseMarks(s: seq<Service>, ghost only: Option<seq<string>>, want: array<bool>)
    requires want.Length == |s|
    requires forall k | 0 <= k < |s| && want[k] :: Wanted(s, only, k)
    modifies want
    ensures forall k | 0 <= k < |s| && want[k] :: Wanted(s, only, k)
    ensures forall k | 0 <= k < |s| && old(want[k]) :: want[k]
    ensures forall k | 0 <= k < |s| && want[k] :: NeedsMarked(s, want[..], k)
  {
    hide Wanted, NeedsMarked;
    var grew := true;
    while grew
      invariant forall k | 0 <= k < |s| && want[k] :: Wanted(s, only, k)
      invariant forall k | 0 <= k < |s| && old(want[k]) :: want[k]
      invariant !grew ==> forall k | 0 <= k < |s| && want[k] :: NeedsMarked(s, want[..], k)
      decreases Missing(want[..]), grew
    {
      grew := MarkPass(s, only, want);
    }
  }

  lemma MarksAreWanted(s: seq<Service>, only: Option<seq<string>>, want: seq<bool>)
    requires |want| == |s|
    requires forall k | 0 <= k < |s| && want[k] :: Wanted(s, only, k)
    requires forall k | 0 <= k < |s| && Asked(s, only, k) :: want[k]
    requires only.Some? ==> forall k | 0 <= k < |s| && want[k] :: NeedsMarked(s, want, k)
    ensures forall i | 0 <= i < |s| :: want[i] <==> Wanted(s, only, i)
  {
    if only.Some? {
      var w := set i: nat | i < |s| && want[i];
      ClosedByMarks(s, want, w);
      forall i | 0 <= i < |s| && Wanted(s, only, i) ensures want[i] {
        hide Chain, Asked, ClosedUnderNeeds, NeedsMarked;
        var p :| Chain(s, p) && p != [] && p[0] < |s| && Asked(s, only, p[0]) && p[|p| - 1] == i;
        WantedIsLeast(s, only, w, p);
      }
    }
  }

  lemma ClosedByMarks(s: seq<Service>, want: seq<bool>, w: set<nat>)
    requires |want| == |s| && w == set i: nat | i < |s| && want[i]
    requires forall k | 0 <= k < |s| && want[k] :: NeedsMarked(s, want, k)
    ensures ClosedUnderNeeds(s, w)
  {
    forall i, j | i in w && Edge(s, i, j) ensures j in w {
      var n :| n in s[i].needs && FindService(s, n) == Some(j);
      assert NeedsMarked(s, want, i);
    }
  }

  // ---- Depths by relaxation ----

  /** Every depth found so far is right. */
  ghost predicate Sound(s: seq<Service>, depth: seq<int>) {
    |depth| == |s| && forall i | 0 <= i < |s| && depth[i] >= 0 :: IsDepth(s, i, depth[i])
  }

  /** Service `i` still waits for a need. */
  ghost predicate Blocked(s: seq<Service>, depth: seq<int>, i: nat)
    requires |depth| == |s|
  {
    exists j: nat :: j < |s| && Edge(s, i, j) && depth[j] < 0
  }

  function Count(depth: seq<int>): nat {
    if depth == [] then 0 else Count(depth[1..]) + if depth[0] >= 0 then 1 else 0
  }

  lemma {:induction false} CountAll(depth: seq<int>)
    ensures Count(depth) <= |depth|
    ensures Count(depth) == |depth| <==> forall i | 0 <= i < |depth| :: depth[i] >= 0
  {
    if depth != [] {
      CountAll(depth[1..]);
      assert forall i | 0 < i < |depth| :: depth[i] == depth[1..][i - 1];
      assert forall i | 0 <= i < |depth| - 1 :: depth[1..][i] == depth[i + 1];
    }
  }

  lemma {:induction false} CountOneMore(depth: seq<int>, i: nat, d: nat)
    requires i < |depth| && depth[i] < 0
    ensures Count(depth[i := d]) == Count(depth) + 1
  {
    if i == 0 {
      assert depth[i := d][1..] == depth[1..];
    } else {
      assert depth[i := d][1..] == depth[1..][i - 1 := d];
      CountOneMore(depth[1..], i - 1, d);
    }
  }

  lemma {:induction false} CountNone(n: nat)
    ensures Count(seq(n, _ => -1)) == 0
  {
    if n > 0 {
      assert seq(n, _ => -1)[1..] == seq(n - 1, _ => -1);
      CountNone(n - 1);
    }
  }

  lemma ChainTail(s: seq<Service>, p: seq<nat>)
    requires Chain(s, p) && |p| > 1
    ensures Chain(s, p[1..]) && Edge(s, p[0], p[1]) && p[1..][0] == p[1]
  {
    var r := p[1..];
    forall k | 0 <= k < |r| - 1 ensures Edge(s, r[k], r[k + 1]) {
      assert Edge(s, p[k + 1], p[k + 2]);
    }
  }

  lemma ChainCons(s: seq<Service>, i: nat, p: seq<nat>)
    requires Chain(s, p) && Edge(s, i, p[0])
    ensures Chain(s, [i] + p)
  {
    var q := [i] + p;
    forall k | 0 <= k < |q| - 1 ensures Edge(s, q[k], q[k + 1]) {
      if k > 0 { assert Edge(s, p[k - 1], p[k]); }
    }
  }

  /** A depth is one more than the deepest need's, or 0 with no needs. */
  lemma DepthFromNeeds(s: seq<Service>, i: nat, depth: seq<int>, d: nat)
    requires i < |s| && Sound(s, depth)
    requires forall j: nat | j < |s| && Edge(s, i, j) :: 0 <= depth[j] < d
    requires d == 0 || exists j: nat :: j < |s| && Edge(s, i, j) && depth[j] == d - 1
    ensures IsDepth(s, i, d)
  {
    forall p | Chain(s, p) && p[0] == i ensures |p| <= d + 1 {
      if |p| > 1 {
        ChainTail(s, p);
        assert IsDepth(s, p[1], depth[p[1]]);
      }
    }
    if d == 0 {
      var p: seq<nat> := [i];
      assert Chain(s, p) && p[0] == i && |p| == d + 1;
    } else {
      var j: nat :| j < |s| && Edge(s, i, j) && depth[j] == d - 1;
      assert IsDepth(s, j, depth[j]);
      var q :| Chain(s, q) && q[0] == j && |q| == depth[j] + 1;
      ChainCons(s, i, q);
      var p := [i] + q;
      assert Chain(s, p) && p[0] == i && |p| == d + 1;
    }
  }

  /** Whether service `i` can be settled now, and at which depth. */
  method ReadyDepth(s: seq<Service>, i: nat, depth: array<int>) returns (ready: bool, d: nat)
    requires depth.Length == |s| && i < |s| && Sound(s, depth[..])
    ensures ready ==> IsDepth(s, i, d)
    ensures !ready ==> Blocked(s, depth[..], i)
  {
    hide IsDepth, Sound;
    d := 0;
    var needs := s[i].needs;
    for j := 0 to |needs|
      invariant forall m | 0 <= m < j && FindService(s, needs[m]).Some? ::
        0 <= depth[FindService(s, needs[m]).value] < d
      invariant d == 0 || exists m :: 0 <= m < j && FindService(s, needs[m]).Some? &&
                                      depth[FindService(s, needs[m]).value] == d - 1
    {
      var idx := FindService(s, needs[j]);
      if idx.Some? {
        if depth[idx.value] < 0 {
          assert needs[j] in s[i].needs && Edge(s, i, idx.value);
          return false, d;
        }
        if depth[idx.value] + 1 > d {
          d := depth[idx.value] + 1;
        }
      }
    }
    ready := true;
    if d > 0 {
      var m :| 0 <= m < |needs| && FindService(s, needs[m]).Some? && depth[FindService(s, needs[m]).value] == d - 1;
      assert Edge(s, i, FindService(s, needs[m]).value);
    }
    DepthFromNeeds(s, i, depth[..], d);
  }

  /** One pass; it settles nothing only when everything unsettled waits for something unsettled. */
  method SettlePass(s: seq<Service>, depth: array<int>) returns (settled: nat)
    requires depth.Length == |s| && Sound(s, depth[..])
    modifies depth
    ensures Sound(s, depth[..])
    ensures Count(depth[..]) == old(Count(depth[..])) + settled
    ensures settled == 0 ==> forall i: nat | i < |s| && depth[i] < 0 :: Blocked(s, depth[..], i)
  {
    hide IsDepth, Blocked;
    settled := 0;
    for i := 0 to |s|
      invariant Sound(s, depth[..])
      invariant Count(depth[..]) == old(Count(depth[..])) + settled
      invariant settled == 0 ==> depth[..] == old(depth[..])
      invariant settled == 0 ==> forall k: nat | k < i && depth[k] < 0 :: Blocked(s, depth[..], k)
    {
      if depth[i] < 0 {
        var ready, d := ReadyDepth(s, i, depth);
        if ready {
          CountOneMore(depth[..], i, d);
          ghost var before := depth[..];
          depth[i] := d;
          assert depth[..] == before[i := d];
          settled := settled + 1;
        }
      }
    }
  }

  /** The depths, and how many services got one: all of them unless the rest wait for each other. */
  method Relax(s: seq<Service>) returns (depth: array<int>, done: nat)
    ensures fresh(depth) && depth.Length == |s| && Sound(s, depth[..])
    ensures done == Count(depth[..]) <= |s|
    ensures done < |s| ==> forall i: nat | i < |s| && depth[i] < 0 :: Blocked(s, depth[..], i)
  {
    hide IsDepth, Blocked;
    var n := |s|;
    depth := new int[n](_ => -1);
    CountNone(n);
    assert depth[..] == seq(n, _ => -1);
    done := 0;
    var pass := 0;
    while pass <= n && done < n
      invariant fresh(depth) && depth.Length == n && Sound(s, depth[..])
      invariant done == Count(depth[..]) <= n && pass <= done
    {
      var settled := SettlePass(s, depth);
      CountAll(depth[..]);
      done := done + settled;
      if settled == 0 {
        break;
      }
      pass := pass + 1;
    }
  }
}
