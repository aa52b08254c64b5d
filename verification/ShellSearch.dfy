/**
 Finding the shell a terminal window shows: level by level through a process
 snapshot, the deepest and then the youngest shell below the window's process.
 */
module ShellSearch {
  import opened Text

  datatype Process = Process(pid: int, ppid: int, start: nat, state: char, comm: string)

  const MAX_DEPTH := 64

  predicate IsShellName(name: string) {
    name == "bash" || name == "zsh" || name == "fish" || name == "sh" || name == "dash" || name == "ksh" ||
    name == "mksh" || name == "tcsh" || name == "csh" || name == "nu" || name == "elvish" || name == "xonsh" ||
    name == "ash" || name == "yash" || name == "bacon"
  }

  /** A login shell's name starts with a dash. */
  predicate IsShell(comm: string) {
    IsShellName(if comm != "" && comm[0] == '-' then comm[1..] else comm)
  }

  /** A live shell. */
  predicate Shell(p: Process) {
    IsShell(p.comm) && p.state != 'Z'
  }

  /** The shells by name. */
  function ShellNames(): seq<string> {
    ["bash", "zsh", "fish", "sh", "dash", "ksh", "mksh", "tcsh", "csh", "nu", "elvish", "xonsh", "ash", "yash", "bacon"]
  }

  /** A live shell is one of these, with or without a dash in front, that is no zombie. */
  lemma ShellsByName(p: Process)
    ensures Shell(p) <==> p.state != 'Z' && exists name | name in ShellNames() :: p.comm == name || p.comm == "-" + name
  {
    ByName(p.comm);
    NoDash();
    if p.comm != "" && p.comm[0] == '-' {
      var bare := p.comm[1..];
      ByName(bare);
      assert p.comm == "-" + bare;
    }
    hide IsShellName, ShellNames;
    assert forall name | p.comm == "-" + name :: p.comm[0] == '-' && name == p.comm[1..];
  }

  lemma ByName(name: string)
    ensures IsShellName(name) <==> name in ShellNames()
  {
  }

  lemma NoDash()
    ensures forall name | name in ShellNames() :: name == "" || name[0] != '-'
  {
  }

  // ---- What a process's distance below `top` is ----

  /** Some process `x` has parent `y`. */
  ghost predicate Link(procs: seq<Process>, x: int, y: int) {
    exists j :: 0 <= j < |procs| && procs[j].pid == x && procs[j].ppid == y
  }

  /** `line` climbs from process `i` to `top`, one parent a step, and meets `top` only at its end. */
  ghost predicate Ancestry(procs: seq<Process>, top: int, i: nat, line: seq<int>) {
    && i < |procs| && |line| >= 2
    && line[0] == procs[i].pid && line[1] == procs[i].ppid && line[|line| - 1] == top
    && (forall k | 0 <= k < |line| - 1 :: line[k] != top)
    && (forall k, l | 0 <= k && l == k + 1 < |line| :: Link(procs, line[k], line[l]))
  }

  /** Process `i` first meets `top` after exactly `d` steps up. */
  ghost predicate Below(procs: seq<Process>, top: int, i: nat, d: nat) {
    exists line :: Ancestry(procs, top, i, line) && |line| == d + 1
  }

  lemma BelowOne(procs: seq<Process>, top: int, i: nat)
    requires i < |procs|
    ensures Below(procs, top, i, 1) <==> procs[i].ppid == top && procs[i].pid != top
  {
    if procs[i].ppid == top && procs[i].pid != top {
      var line := [procs[i].pid, top];
      assert Ancestry(procs, top, i, line);
    }
  }

  lemma BelowUp(procs: seq<Process>, top: int, i: nat, j: nat, d: nat)
    requires i < |procs| && procs[i].pid != top && Below(procs, top, j, d) && procs[j].pid == procs[i].ppid
    ensures Below(procs, top, i, d + 1)
  {
    var line :| Ancestry(procs, top, j, line) && |line| == d + 1;
    var longer := [procs[i].pid] + line;
    forall k | 0 <= k < |longer| - 1
      ensures longer[k] != top && Link(procs, longer[k], longer[k + 1])
    {
      if k > 0 {
        assert longer[k] == line[k - 1] && longer[k + 1] == line[k];
        assert Link(procs, line[k - 1], line[k]);
      }
    }
    assert Ancestry(procs, top, i, longer);
  }

  lemma BelowDown(procs: seq<Process>, top: int, i: nat, d: nat) returns (j: nat)
    requires i < |procs| && d >= 1 && Below(procs, top, i, d + 1)
    ensures procs[i].pid != top && j < |procs| && Below(procs, top, j, d) && procs[j].pid == procs[i].ppid
  {
    var line :| Ancestry(procs, top, i, line) && |line| == d + 2;
    assert Link(procs, line[1], line[2]);
    var m :| 0 <= m < |procs| && procs[m].pid == line[1] && procs[m].ppid == line[2];
    j := m;
    var rest := line[1..];
    forall k | 0 <= k < |rest| - 1
      ensures rest[k] != top && Link(procs, rest[k], rest[k + 1])
    {
      assert rest[k] == line[k + 1] && rest[k + 1] == line[k + 2];
      assert Link(procs, line[k + 1], line[k + 2]);
    }
    assert Ancestry(procs, top, j, rest);
  }

  ghost predicate DistinctPids(procs: seq<Process>) {
    forall i, j | 0 <= i < j < |procs| :: procs[i].pid != procs[j].pid
  }

  /** With distinct pids a process has at most one distance, parent loops or not. */
  lemma {:induction false} DistanceIsUnique(procs: seq<Process>, top: int, i: nat, d: nat, e: nat)
    requires DistinctPids(procs) && 1 <= d && 1 <= e
    requires Below(procs, top, i, d) && Below(procs, top, i, e)
    ensures d == e
    decreases d
  {
    hide Below;
    BelowIsProcess(procs, top, i, d);
    BelowOne(procs, top, i);
    if d > 1 && e > 1 {
      var j := BelowDown(procs, top, i, d - 1);
      var k := BelowDown(procs, top, i, e - 1);
      assert j == k;
      DistanceIsUnique(procs, top, j, d - 1, e - 1);
    } else if d > 1 {
      var j := BelowDown(procs, top, i, d - 1);
      ParentIsNotTop(procs, top, j, d - 1);
    } else if e > 1 {
      var j := BelowDown(procs, top, i, e - 1);
      ParentIsNotTop(procs, top, j, e - 1);
    }
  }

  lemma BelowIsProcess(procs: seq<Process>, top: int, i: nat, d: nat)
    requires Below(procs, top, i, d)
    ensures i < |procs|
  {
  }

  lemma ParentIsNotTop(procs: seq<Process>, top: int, j: nat, d: nat)
    requires j < |procs| && Below(procs, top, j, d)
    ensures procs[j].pid != top
  {
  }

  // ---- The search ----

  /** The frontier holds exactly the pids at distance `d`. */
  ghost predicate FrontierAt(procs: seq<Process>, top: int, frontier: seq<int>, d: nat) {
    if d == 0 then frontier == [top]
    else forall pid :: pid in frontier <==> exists i :: 0 <= i < |procs| && procs[i].pid == pid && Below(procs, top, i, d)
  }

  /** The next level is made of the processes whose parent is on this one. */
  lemma NextLevel(procs: seq<Process>, top: int, frontier: seq<int>, d: nat, i: nat)
    requires FrontierAt(procs, top, frontier, d) && i < |procs|
    ensures Below(procs, top, i, d + 1) <==> procs[i].ppid in frontier && procs[i].pid != top
  {
    hide Below;
    if d == 0 {
      BelowOne(procs, top, i);
    } else {
      if procs[i].ppid in frontier && procs[i].pid != top {
        var j :| 0 <= j < |procs| && procs[j].pid == procs[i].ppid && Below(procs, top, j, d);
        BelowUp(procs, top, i, j, d);
      }
      if Below(procs, top, i, d + 1) {
        var j := BelowDown(procs, top, i, d);
      }
    }
  }

  /** A shell at distance `d`. */
  ghost predicate Candidate(procs: seq<Process>, top: int, i: nat, d: nat) {
    i < |procs| && Shell(procs[i]) && Below(procs, top, i, d)
  }

  /** Deeper, or as deep and younger. */
  predicate Better(procs: seq<Process>, i: nat, d: nat, j: nat, e: nat)
    requires i < |procs| && j < |procs|
  {
    d > e || (d == e && procs[i].start > procs[j].start)
  }

  datatype Best = NoShell | Found(at: nat, depth: nat)

  /** What the search knows: the best of the levels above `d`, and of the first `n` processes on level `d`. */
  ghost predicate BestSoFar(procs: seq<Process>, top: int, best: Best, d: nat, n: nat) {
    match best
    case NoShell =>
      forall i: nat, e: nat | 1 <= e <= d && (e < d || i < n) :: !Candidate(procs, top, i, e)
    case Found(b, depth) =>
      && b < |procs| && 1 <= depth <= d && Candidate(procs, top, b, depth) && (depth < d || b < n)
      && (forall i: nat, e: nat | 1 <= e <= d && (e < d || i < n) && i < |procs| && Candidate(procs, top, i, e) ::
            !Better(procs, i, e, b, depth) && (e == depth && procs[i].start == procs[b].start ==> b <= i))
  }

  /** One level: the next frontier, and the best shell with that level taken in. */
  method Level(procs: seq<Process>, top: int, frontier: seq<int>, before: Best, ghost d: nat, depth: nat)
    returns (next: seq<int>, best: Best)
    requires FrontierAt(procs, top, frontier, d) && depth == d + 1
    requires BestSoFar(procs, top, before, d, |procs|)
    ensures FrontierAt(procs, top, next, d + 1)
    ensures BestSoFar(procs, top, best, d + 1, |procs|)
  {
    hide FrontierAt, Below, IsShell;
    next, best := [], before;
    var i := 0;
    while i < |procs|
      invariant i <= |procs|
      invariant forall pid ::
        pid in next <==> exists k :: 0 <= k < i && procs[k].pid == pid && Below(procs, top, k, depth)
      invariant BestSoFar(procs, top, best, depth, i)
    {
      var e := procs[i];
      NextLevel(procs, top, frontier, d, i);
      if e.ppid in frontier && e.pid != top {
        next := next + [e.pid];
        if Shell(e) &&
           (best.NoShell? || depth > best.depth || (depth == best.depth && e.start > procs[best.at].start)) {
          best := Found(i, depth);
        }
      }
      i := i + 1;
    }
    FrontierDone(procs, top, next, depth);
  }

  lemma FrontierDone(procs: seq<Process>, top: int, next: seq<int>, depth: nat)
    requires depth > 0
    requires forall pid ::
      pid in next <==> exists k :: 0 <= k < |procs| && procs[k].pid == pid && Below(procs, top, k, depth)
    ensures FrontierAt(procs, top, next, depth)
  {
  }

  lemma CandidatesAreProcesses(procs: seq<Process>, top: int)
    ensures forall i: nat, d: nat | Candidate(procs, top, i, d) :: i < |procs|
  {
    hide Below, Shell;
  }

  /** The result of a whole search: the best live shell at distance 1 to 64, the first in the snapshot on a tie. */
  ghost predicate IsBestShell(procs: seq<Process>, top: int, best: Best) {
    BestSoFar(procs, top, best, MAX_DEPTH, |procs|)
  }

  /** Below an empty level there is nothing. */
  lemma {:induction false} NothingBelow(procs: seq<Process>, top: int, d: nat, e: nat, i: nat)
    requires FrontierAt(procs, top, [], d) && e > d && i < |procs|
    ensures !Below(procs, top, i, e)
    decreases e
  {
    if Below(procs, top, i, e) {
      if e == d + 1 {
        NextLevel(procs, top, [], d, i);
      } else {
        var j := BelowDown(procs, top, i, e - 1);
        NothingBelow(procs, top, d, e - 1, j);
      }
    }
  }

  method FindShell(procs: seq<Process>, top: int) returns (best: Best)
    ensures IsBestShell(procs, top, best)
  {
    hide FrontierAt, Below;
    best := NoShell;
    var frontier := [top];
    var depth := 0;
    FrontierStarts(procs, top);
    while frontier != [] && depth < MAX_DEPTH
      invariant depth <= MAX_DEPTH
      invariant FrontierAt(procs, top, frontier, depth)
      invariant BestSoFar(procs, top, best, depth, |procs|)
      decreases MAX_DEPTH - depth
    {
      frontier, best := Level(procs, top, frontier, best, depth, depth + 1);
      depth := depth + 1;
    }
    SearchEnds(procs, top, frontier, depth, best);
  }

  lemma SearchEnds(procs: seq<Process>, top: int, frontier: seq<int>, d: nat, best: Best)
    requires d <= MAX_DEPTH && FrontierAt(procs, top, frontier, d) && BestSoFar(procs, top, best, d, |procs|)
    requires frontier == [] || d == MAX_DEPTH
    ensures IsBestShell(procs, top, best)
  {
    hide Below, FrontierAt, IsShell, Better;
    if d < MAX_DEPTH {
      forall i: nat, e: nat | d < e && i < |procs| ensures !Candidate(procs, top, i, e) {
        NothingBelow(procs, top, d, e, i);
      }
    }
    CandidatesAreProcesses(procs, top);
  }

  lemma FrontierStarts(procs: seq<Process>, top: int)
    ensures FrontierAt(procs, top, [top], 0)
  {
  }

  /** The live shell that the window shows: 1 to 64 steps below, the deepest, then the youngest, then the first. */
  ghost predicate IsShown(procs: seq<Process>, top: int, b: nat, d: nat) {
    && b < |procs| && 1 <= d <= 64 && Candidate(procs, top, b, d)
    && forall i: nat, e: nat | i < |procs| && 1 <= e <= 64 && Candidate(procs, top, i, e) ::
         e < d || (e == d && (procs[i].start < procs[b].start || (procs[i].start == procs[b].start && b <= i)))
  }

  /** The shown shell has a directory that can be read. */
  ghost predicate HasDirectory(procs: seq<Process>, b: nat, cwd: map<int, string>) {
    b < |procs| && procs[b].pid > 0 && procs[b].pid in cwd
  }

  lemma BestIsShown(procs: seq<Process>, top: int, best: Best)
    requires IsBestShell(procs, top, best)
    ensures forall b: nat, d: nat :: IsShown(procs, top, b, d) <==> best == Found(b, d)
    ensures best.Found? ==> best.at < |procs|
  {
    hide Candidate;
    if best.Found? {
      assert IsShown(procs, top, best.at, best.depth);
    }
  }

  /**
   The directory the window is in: that of the shell it shows, and if there is no
   such shell or its directory cannot be read, the window process's own.
   */
  method FocusCwd(procs: seq<Process>, pid: int, cwd: map<int, string>) returns (dir: Option<string>)
    ensures pid <= 0 ==> dir == None
    ensures forall b: nat, d: nat | pid > 0 && IsShown(procs, pid, b, d) && HasDirectory(procs, b, cwd) ::
              dir == Some(cwd[procs[b].pid])
    ensures pid > 0 && (forall b: nat, d: nat | IsShown(procs, pid, b, d) :: !HasDirectory(procs, b, cwd)) ==>
              dir == if pid in cwd then Some(cwd[pid]) else None
  {
    hide IsShown, IsBestShell;
    if pid <= 0 {
      return None;
    }
    var best := FindShell(procs, pid);
    BestIsShown(procs, pid, best);
    if best.Found? && procs[best.at].pid > 0 && procs[best.at].pid in cwd {
      return Some(cwd[procs[best.at].pid]);
    }
    return if pid in cwd then Some(cwd[pid]) else None;
  }

  /** The search finds a shell exactly when there is a live one at distance 1 to 64, and finds the best. */
  lemma BestShellMeans(procs: seq<Process>, top: int, best: Best)
    requires IsBestShell(procs, top, best)
    ensures best.Found? <==> exists i, d: nat :: 1 <= d <= MAX_DEPTH && Candidate(procs, top, i, d)
    ensures best.Found? ==>
      Candidate(procs, top, best.at, best.depth) && 1 <= best.depth <= MAX_DEPTH &&
      forall i, d: nat | 1 <= d <= MAX_DEPTH && Candidate(procs, top, i, d) ::
        !Better(procs, i, d, best.at, best.depth)
  {
    hide Below, IsShell;
  }
}
