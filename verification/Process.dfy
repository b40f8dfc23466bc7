/**
  The process table and its ancestry walk (src/process.rs), and rule matching on top of
  them (src/detection.rs).
*/
module Process {
  import opened Prelude

  type u32 = x: int | 0 <= x < 0x1_0000_0000

  datatype EventKind = Exec | Fork | Exit | Setuid | FileOpen | LsmDeny | Unknown

  datatype KernelEvent = KernelEvent(
    kind: EventKind, tgid: u32, ppid: u32, uid: u32, euid: u32, cgroupId: nat, pidNs: nat, mntNs: nat,
    comm: string, path: Option<string>, exe: Option<string>, targetUid: Option<u32>,
    parentComm: Option<string>, parentExe: Option<string>, inContainer: bool)

  datatype ProcessIdentity = ProcessIdentity(
    pid: u32, ppid: u32, comm: string, exe: Option<string>, uid: u32, cgroupId: nat, pidNs: nat, mntNs: nat)

  type Entries = map<u32, ProcessIdentity>

  function IdentityOf(e: KernelEvent): ProcessIdentity {
    ProcessIdentity(e.tgid, e.ppid, e.comm, if e.exe.Some? then e.exe else e.path, e.euid,
                    e.cgroupId, e.pidNs, e.mntNs)
  }

  function Observed(t: Entries, e: KernelEvent): Entries {
    match e.kind
    case Exec | Fork => t[e.tgid := IdentityOf(e)]
    case Exit => t - {e.tgid}
    case _ => t
  }

  /** The table after a sequence of events. */
  function Replay(events: seq<KernelEvent>): Entries {
    if events == [] then map[] else Observed(Replay(events[..|events| - 1]), events[|events| - 1])
  }

  /** One step up the tree; the walk ends at pid 0, at a process that is its own parent, or outside the table. */
  function Parent(t: Entries, pid: u32): Option<u32>
    requires pid in t
  {
    var up := t[pid].ppid;
    if up == 0 || up == pid || up !in t then None else Some(up)
  }

  /** The bounded walk. */
  function Walk(t: Entries, pid: u32, depth: nat): seq<ProcessIdentity>
    decreases depth
  {
    if depth == 0 || pid !in t then []
    else if Parent(t, pid).None? then [t[pid]]
    else [t[pid]] + Walk(t, Parent(t, pid).value, depth - 1)
  }

  class ProcessTable {
    var entries: Entries
    ghost var history: seq<KernelEvent>

    ghost predicate Valid()
      reads this
    {
      entries == Replay(history)
    }

    constructor ()
      ensures Valid() && history == []
    {
      entries, history := map[], [];
    }

    method Observe(e: KernelEvent)
      requires Valid()
      modifies this
      ensures Valid() && history == old(history) + [e]
    {
      assert (history + [e])[..|history|] == history;
      match e.kind {
        case Exec | Fork =>
          entries := entries[e.tgid := IdentityOf(e)];
        case Exit =>
          entries := entries - {e.tgid};
        case _ =>
      }
      history := history + [e];
    }

    method Lineage(pid: u32, maxDepth: nat) returns (out: seq<ProcessIdentity>)
      ensures out == Walk(entries, pid, maxDepth)
    {
      out := [];
      var current := pid;
      for i := 0 to maxDepth
        invariant Walk(entries, pid, maxDepth) == out + Walk(entries, current, maxDepth - i)
      {
        if current !in entries {
          break;
        }
        var proc := entries[current];
        out := out + [proc];
        if proc.ppid == 0 || proc.ppid == current {
          return;
        }
        current := proc.ppid;
      }
    }
  }

  // ----- the table is a function of each process's own history -----

  predicate Lifecycle(e: KernelEvent, tgid: u32) {
    e.tgid == tgid && (e.kind.Exec? || e.kind.Fork? || e.kind.Exit?)
  }

  /** The exec, fork and exit events of one process, in order. */
  function Project(events: seq<KernelEvent>, tgid: u32): seq<KernelEvent> {
    if events == [] then [] else
      var last := events[|events| - 1];
      Project(events[..|events| - 1], tgid) + (if Lifecycle(last, tgid) then [last] else [])
  }

  /** An entry exists exactly when the process's last lifecycle event is not its exit, and carries that event's data. */
  lemma {:induction false} EntryIsLastEvent(events: seq<KernelEvent>, tgid: u32)
    ensures
      var own := Project(events, tgid);
      && (tgid in Replay(events) <==> own != [] && !own[|own| - 1].kind.Exit?)
      && (tgid in Replay(events) ==> Replay(events)[tgid] == IdentityOf(own[|own| - 1])
                                     && Replay(events)[tgid].pid == tgid)
  {
    if events != [] {
      EntryIsLastEvent(events[..|events| - 1], tgid);
      ProjectionIsOwn(events, tgid);
    }
  }

  lemma {:induction false} ProjectionIsOwn(events: seq<KernelEvent>, tgid: u32)
    ensures forall e | e in Project(events, tgid) :: Lifecycle(e, tgid)
  {
    if events != [] { ProjectionIsOwn(events[..|events| - 1], tgid); }
  }

  /** Event i is the last to start or end this process. */
  predicate LastChange(events: seq<KernelEvent>, i: nat, tgid: u32)
    requires i < |events|
  {
    && events[i].tgid == tgid && (events[i].kind.Exec? || events[i].kind.Fork? || events[i].kind.Exit?)
    && forall j | i < j < |events| && events[j].tgid == tgid ::
         !events[j].kind.Exec? && !events[j].kind.Fork? && !events[j].kind.Exit?
  }

  /** Field by field: a process is in the table with what its last exec or fork said, until its exit. */
  lemma {:induction false} EntryFields(events: seq<KernelEvent>, i: nat, tgid: u32)
    requires i < |events| && LastChange(events, i, tgid)
    ensures tgid in Replay(events) <==> events[i].kind == Exec || events[i].kind == Fork
    ensures tgid in Replay(events) ==>
              var entry, e := Replay(events)[tgid], events[i];
              && entry.pid == tgid && entry.ppid == e.ppid && entry.comm == e.comm && entry.uid == e.euid
              && entry.exe == (if e.exe == None then e.path else e.exe)
              && entry.cgroupId == e.cgroupId && entry.pidNs == e.pidNs && entry.mntNs == e.mntNs
    decreases |events|
  {
    if i < |events| - 1 { EntryFields(events[..|events| - 1], i, tgid); }
  }

  /** Nothing else is in the table. */
  lemma {:induction false} EntryHasEvent(events: seq<KernelEvent>, tgid: u32)
    requires tgid in Replay(events)
    ensures exists i: nat :: i < |events| && LastChange(events, i, tgid) && !events[i].kind.Exit?
  {
    var front, last := events[..|events| - 1], |events| - 1;
    if events[last].tgid == tgid && (events[last].kind.Exec? || events[last].kind.Fork?) {
      assert LastChange(events, last, tgid);
    } else {
      EntryHasEvent(front, tgid);
      var i: nat :| i < |front| && LastChange(front, i, tgid) && !front[i].kind.Exit?;
      assert LastChange(events, i, tgid);
    }
  }

  predicate SameEntry(s: Entries, t: Entries, tgid: u32) {
    (tgid in s <==> tgid in t) && (tgid in s ==> s[tgid] == t[tgid])
  }

  lemma EntryFromProjection(a: seq<KernelEvent>, b: seq<KernelEvent>, tgid: u32)
    requires Project(a, tgid) == Project(b, tgid)
    ensures SameEntry(Replay(a), Replay(b), tgid)
  {
    EntryIsLastEvent(a, tgid);
    EntryIsLastEvent(b, tgid);
  }

  lemma SameEntries(s: Entries, t: Entries)
    requires forall tgid: u32 :: SameEntry(s, t, tgid)
    ensures s == t
  {
    assert forall tgid: u32 :: tgid in s <==> tgid in t by {
      forall tgid: u32 ensures tgid in s <==> tgid in t { assert SameEntry(s, t, tgid); }
    }
    forall tgid: u32 | tgid in s ensures s[tgid] == t[tgid] { assert SameEntry(s, t, tgid); }
  }

  /** How the histories of different processes interleave is irrelevant. */
  lemma InterleavingIrrelevant(a: seq<KernelEvent>, b: seq<KernelEvent>)
    requires forall tgid: u32 :: Project(a, tgid) == Project(b, tgid)
    ensures Replay(a) == Replay(b)
  {
    forall tgid: u32 ensures SameEntry(Replay(a), Replay(b), tgid) {
      EntryFromProjection(a, b, tgid);
    }
    SameEntries(Replay(a), Replay(b));
  }

  // ----- the walk against the parent relation -----

  /** The n-th ancestor, counting the process itself as the zeroth. */
  function Ancestor(t: Entries, pid: u32, n: nat): (a: Option<u32>)
    ensures a.Some? ==> a.value in t
  {
    if n == 0 then if pid in t then Some(pid) else None
    else
      var below := Ancestor(t, pid, n - 1);
      if below.None? then None else Parent(t, below.value)
  }

  lemma {:induction false} AncestorCompose(t: Entries, pid: u32, m: nat, n: nat)
    requires Ancestor(t, pid, m).Some?
    ensures Ancestor(t, pid, m + n) == Ancestor(t, Ancestor(t, pid, m).value, n)
    decreases n
  {
    if n > 0 { AncestorCompose(t, pid, m, n - 1); }
  }

  /** Position n of the walk is the n-th ancestor, for as long as there is one and the depth allows. */
  lemma {:induction false} WalkIsAncestors(t: Entries, pid: u32, depth: nat, n: nat)
    requires n < depth
    ensures n < |Walk(t, pid, depth)| <==> Ancestor(t, pid, n).Some?
    ensures n < |Walk(t, pid, depth)| ==> Walk(t, pid, depth)[n] == t[Ancestor(t, pid, n).value]
    decreases n
  {
    if n > 0 && pid in t {
      assert Ancestor(t, pid, 1) == Parent(t, pid);
      if Parent(t, pid).None? {
        AncestorsUnbroken(t, pid, 1, n);
      } else {
        AncestorCompose(t, pid, 1, n - 1);
        WalkIsAncestors(t, Parent(t, pid).value, depth - 1, n - 1);
      }
    } else if n > 0 {
      AncestorsUnbroken(t, pid, 0, n);
    }
  }

  /** Below an ancestor there is an unbroken line. */
  lemma {:induction false} AncestorsUnbroken(t: Entries, pid: u32, m: nat, n: nat)
    requires m <= n
    ensures Ancestor(t, pid, n).Some? ==> Ancestor(t, pid, m).Some?
    decreases n
  {
    if m < n { AncestorsUnbroken(t, pid, m, n - 1); }
  }

  /** A smaller depth cuts the same walk shorter; a walk that ended early is complete. */
  lemma {:induction false} WalkPrefix(t: Entries, pid: u32, shallow: nat, deep: nat)
    requires shallow <= deep
    ensures Walk(t, pid, shallow) <= Walk(t, pid, deep)
    ensures |Walk(t, pid, shallow)| <= shallow
    ensures |Walk(t, pid, shallow)| < shallow ==> Walk(t, pid, shallow) == Walk(t, pid, deep)
    decreases shallow
  {
    if shallow > 0 && pid in t && Parent(t, pid).Some? {
      WalkPrefix(t, Parent(t, pid).value, shallow - 1, deep - 1);
    }
  }

  /** Each process on the walk is the parent of the one before. */
  lemma WalkClimbs(t: Entries, pid: u32, depth: nat, n: nat)
    requires forall k | k in t :: t[k].pid == k
    requires n < |Walk(t, pid, depth)|
    ensures n == 0 ==> Walk(t, pid, depth)[n].pid == pid
    ensures n > 0 ==> Walk(t, pid, depth)[n].pid == Walk(t, pid, depth)[n - 1].ppid
  {
    WalkPrefix(t, pid, depth, depth);
    WalkIsAncestors(t, pid, depth, n);
    if n > 0 { WalkIsAncestors(t, pid, depth, n - 1); }
  }

  /** Some process of this number is running after these events. */
  ghost predicate Running(events: seq<KernelEvent>, tgid: u32) {
    exists i: nat :: i < |events| && LastChange(events, i, tgid) && !events[i].kind.Exit?
  }

  lemma RunningIff(events: seq<KernelEvent>, tgid: u32)
    ensures tgid in Replay(events) <==> Running(events, tgid)
  {
    if tgid in Replay(events) { EntryHasEvent(events, tgid); }
    if i: nat :| i < |events| && LastChange(events, i, tgid) && !events[i].kind.Exit? { EntryFields(events, i, tgid); }
  }

  /**
    The lineage over a history: each process on it is described by its own last exec or fork,
    the next one is the parent named there, and it goes on exactly while the depth allows, the
    parent is neither 0 nor the process itself, and the parent is running.
  */
  lemma LineageOverHistory(events: seq<KernelEvent>, pid: u32, depth: nat, n: nat)
    requires n < |Walk(Replay(events), pid, depth)|
    ensures
      var w := Walk(Replay(events), pid, depth);
      var i := LastChangeOf(events, w[n].pid);
      && w[n].pid == (if n == 0 then pid else w[n - 1].ppid)
      && i < |events| && LastChange(events, i, w[n].pid) && events[i].kind != Exit
      && w[n].ppid == events[i].ppid && w[n].comm == events[i].comm && w[n].uid == events[i].euid
      && (n + 1 < |w| <==> n + 1 < depth && events[i].ppid != 0 && events[i].ppid != w[n].pid
                           && Running(events, events[i].ppid))
  {
    var t, w := Replay(events), Walk(Replay(events), pid, depth);
    forall k | k in t ensures t[k].pid == k { EntryIsLastEvent(events, k); }
    WalkClimbs(t, pid, depth, n);
    WalkPrefix(t, pid, depth, depth);
    WalkIsAncestors(t, pid, depth, n);
    if n + 1 < depth { WalkIsAncestors(t, pid, depth, n + 1); }
    EntryHasEvent(events, w[n].pid);
    LastChangeFound(events, w[n].pid);
    EntryFields(events, LastChangeOf(events, w[n].pid), w[n].pid);
    RunningIff(events, w[n].ppid);
  }

  lemma LineageStarts(events: seq<KernelEvent>, pid: u32, depth: nat)
    ensures Walk(Replay(events), pid, depth) != [] <==> depth >= 1 && Running(events, pid)
  {
    RunningIff(events, pid);
  }

  /** The position of the last event that started or ended a process; past the end when there is none. */
  function LastChangeOf(events: seq<KernelEvent>, tgid: u32): nat {
    if events == [] then 0 else
      var last := events[|events| - 1];
      if last.tgid == tgid && (last.kind.Exec? || last.kind.Fork? || last.kind.Exit?) then |events| - 1
      else
        var i := LastChangeOf(events[..|events| - 1], tgid);
        if i == |events| - 1 then |events| else i
  }

  lemma {:induction false} LastChangeFound(events: seq<KernelEvent>, tgid: u32)
    requires exists i: nat :: i < |events| && LastChange(events, i, tgid)
    ensures LastChangeOf(events, tgid) < |events| && LastChange(events, LastChangeOf(events, tgid), tgid)
  {
    var i: nat :| i < |events| && LastChange(events, i, tgid);
    if i < |events| - 1 {
      assert LastChange(events[..|events| - 1], i, tgid);
      LastChangeFound(events[..|events| - 1], tgid);
    }
  }

  /** Three processes started below each other: the lineage of the last is all of them, nearest first. */
  lemma ChainOfThree(a: KernelEvent, b: KernelEvent, c: KernelEvent, depth: nat)
    requires a.kind == Exec && b.kind == Exec && c.kind == Exec && depth >= 3
    requires a.tgid == 1 && a.ppid == 0 && b.tgid == 10 && b.ppid == 1 && c.tgid == 11 && c.ppid == 10
    ensures
      var w := Walk(Replay([a, b, c]), 11, depth);
      |w| == 3 && w[0].pid == 11 && w[1].pid == 10 && w[2].pid == 1
  {
    assert [a, b, c][..2] == [a, b] && [a, b][..1] == [a] && [a][..0] == [];
    var t := Replay([a, b, c]);
    assert Replay([a]) == map[1 := IdentityOf(a)];
    assert Replay([a, b]) == Replay([a])[10 := IdentityOf(b)];
    assert t == Replay([a, b])[11 := IdentityOf(c)];
    assert Parent(t, 11) == Some(10) && Parent(t, 10) == Some(1) && Parent(t, 1) == None;
    assert Walk(t, 1, depth - 2) == [t[1]];
    assert Walk(t, 10, depth - 1) == [t[10]] + Walk(t, 1, depth - 2);
    assert Walk(t, 11, depth) == [t[11]] + Walk(t, 10, depth - 1);
  }

  /** No process is its own proper ancestor. */
  ghost predicate Acyclic(t: Entries) {
    forall pid: u32, n: nat :: n > 0 && pid in t ==> Ancestor(t, pid, n) != Some(pid)
  }

  /** Where parents have the smaller numbers, or are none or the process itself, nothing is its own ancestor. */
  lemma RisingIsAcyclic(t: Entries)
    requires forall k | k in t :: t[k].ppid <= k
    ensures Acyclic(t)
  {
    forall pid: u32, n: nat | n > 0 && pid in t ensures Ancestor(t, pid, n) != Some(pid) {
      AncestorsFall(t, pid, n);
    }
  }

  lemma {:induction false} AncestorsFall(t: Entries, pid: u32, n: nat)
    requires forall k | k in t :: t[k].ppid <= k
    ensures n > 0 && Ancestor(t, pid, n).Some? ==> Ancestor(t, pid, n).value < pid
    decreases n
  {
    if n > 1 { AncestorsFall(t, pid, n - 1); }
  }

  lemma AcyclicWalkDistinct(t: Entries, pid: u32, depth: nat, i: nat, j: nat)
    requires forall k | k in t :: t[k].pid == k
    requires Acyclic(t) && i < j < |Walk(t, pid, depth)|
    ensures Walk(t, pid, depth)[i].pid != Walk(t, pid, depth)[j].pid
  {
    WalkPrefix(t, pid, depth, depth);
    WalkIsAncestors(t, pid, depth, i);
    WalkIsAncestors(t, pid, depth, j);
    AncestorCompose(t, pid, i, j - i);
  }

  lemma {:induction false} Pigeonhole(ps: seq<u32>, s: set<u32>)
    requires forall i, j | 0 <= i < j < |ps| :: ps[i] != ps[j]
    requires forall p | p in ps :: p in s
    ensures |ps| <= |s|
    decreases ps
  {
    if ps != [] {
      var front, last := ps[..|ps| - 1], ps[|ps| - 1];
      forall p | p in front ensures p in s - {last} {
        assert p in ps;
      }
      Pigeonhole(front, s - {last});
    }
  }

  lemma AcyclicWalkFits(t: Entries, pid: u32, depth: nat)
    requires forall k | k in t :: t[k].pid == k
    requires Acyclic(t)
    ensures |Walk(t, pid, depth)| <= |t|
  {
    var walk := Walk(t, pid, depth);
    var pids := seq(|walk|, i requires 0 <= i < |walk| => walk[i].pid);
    WalkPrefix(t, pid, depth, depth);
    forall i, j | 0 <= i < j < |pids| ensures pids[i] != pids[j] {
      AcyclicWalkDistinct(t, pid, depth, i, j);
    }
    forall p | p in pids ensures p in t.Keys {
      var i :| 0 <= i < |pids| && pids[i] == p;
      WalkIsAncestors(t, pid, depth, i);
    }
    Pigeonhole(pids, t.Keys);
    assert |t.Keys| == |t|;
  }

  /** On an acyclic table, a depth of the table's size already reaches the natural end. */
  lemma AcyclicWalkEnds(t: Entries, pid: u32, depth: nat)
    requires forall k | k in t :: t[k].pid == k
    requires Acyclic(t) && |t| <= depth
    ensures Walk(t, pid, depth) == Walk(t, pid, |t|) && |Walk(t, pid, depth)| <= |t|
  {
    AcyclicWalkFits(t, pid, depth);
    WalkPrefix(t, pid, |t|, depth);
  }

  /** A walk that ever comes upon a cycle runs to any depth it is given. */
  lemma CyclicWalkNeverEnds(t: Entries, pid: u32, m: nat, n: nat, depth: nat)
    requires n > 0 && Ancestor(t, pid, m).Some?
    requires Ancestor(t, Ancestor(t, pid, m).value, n) == Ancestor(t, pid, m)
    ensures |Walk(t, pid, depth)| == depth
  {
    WalkPrefix(t, pid, depth, depth);
    if depth > 0 {
      AncestorsCycle(t, Ancestor(t, pid, m).value, n, depth);
      AncestorCompose(t, pid, m, n * depth);
      AncestorsUnbroken(t, pid, depth - 1, m + n * depth);
      WalkIsAncestors(t, pid, depth, depth - 1);
    }
  }

  lemma {:induction false} AncestorsCycle(t: Entries, pid: u32, n: nat, k: nat)
    requires n > 0 && Ancestor(t, pid, n) == Some(pid)
    ensures Ancestor(t, pid, n * k) == Some(pid) && n * k >= k
    decreases k
  {
    if k == 0 {
      AncestorsUnbroken(t, pid, 0, n);
      assert n * k == 0;
    } else {
      AncestorsCycle(t, pid, n, k - 1);
      assert n * k == n * (k - 1) + n;
      AncestorCompose(t, pid, n * (k - 1), n);
    }
  }

  // ----- rules -----

  datatype Match = Match(
    event: Option<EventKind>, executablePrefix: Option<string>, executableSuffix: Option<string>,
    comm: Option<string>, parentComm: Option<string>, ancestorComm: Option<string>,
    uid: Option<u32>, euid: Option<u32>, targetUid: Option<u32>, container: Option<bool>,
    pathPrefix: Option<string>, pathExact: Option<string>, parentExecutableSuffix: Option<string>)

  datatype Severity = Info | Low | Medium | High | Critical

  datatype Rule = Rule(id: string, name: string, severity: Severity, score: u32, match_: Match,
                       tags: seq<string>, description: string)

  datatype Detection = Detection(ruleId: string, ruleName: string, severity: Severity, score: u32,
                                 description: string, tags: seq<string>, event: KernelEvent,
                                 lineage: seq<ProcessIdentity>)

  const LINEAGE_DEPTH: nat := 8

  predicate StartsWith(s: string, prefix: string) { prefix <= s }

  predicate EndsWith(s: string, suffix: string) {
    |suffix| <= |s| && s[|s| - |suffix|..] == suffix
  }

  function OrEmpty(s: Option<string>): string { if s.Some? then s.value else "" }

  predicate MatchesRule(m: Match, e: KernelEvent, t: Entries) {
    if m.event.Some? && m.event.value != e.kind then false
    else if m.uid.Some? && m.uid.value != e.uid then false
    else if m.euid.Some? && m.euid.value != e.euid then false
    else if m.targetUid.Some? && e.targetUid != m.targetUid then false
    else if m.container.Some? && m.container.value != e.inContainer then false
    else if m.comm.Some? && m.comm.value != e.comm then false
    else if m.parentComm.Some? && e.parentComm != m.parentComm then false
    else if m.ancestorComm.Some? && !HasComm(Walk(t, e.ppid, LINEAGE_DEPTH), m.ancestorComm.value) then false
    else
      var executable := OrEmpty(if e.exe.Some? then e.exe else e.path);
      if m.executablePrefix.Some? && !StartsWith(executable, m.executablePrefix.value) then false
      else if m.executableSuffix.Some? && !EndsWith(executable, m.executableSuffix.value) then false
      else if m.parentExecutableSuffix.Some?
              && !EndsWith(OrEmpty(e.parentExe), m.parentExecutableSuffix.value) then false
      else
        var path := OrEmpty(e.path);
        if m.pathPrefix.Some? && !StartsWith(path, m.pathPrefix.value) then false
        else if m.pathExact.Some? && path != m.pathExact.value then false
        else true
  }

  predicate HasComm(lineage: seq<ProcessIdentity>, comm: string) {
    exists p | p in lineage :: p.comm == comm
  }

  function Detect(r: Rule, e: KernelEvent, t: Entries): Detection {
    Detection(r.id, r.name, r.severity, if r.score < 100 then r.score else 100, r.description, r.tags, e,
              Walk(t, e.ppid, LINEAGE_DEPTH))
  }

  function Evaluate(rules: seq<Rule>, e: KernelEvent, t: Entries): seq<Detection> {
    if rules == [] then []
    else (if MatchesRule(rules[0].match_, e, t) then [Detect(rules[0], e, t)] else []) + Evaluate(rules[1..], e, t)
  }

  /** A process of this name lies fewer than `depth` steps up. */
  ghost predicate CommWithin(t: Entries, pid: u32, depth: nat, comm: string) {
    exists n: nat | n < depth :: Ancestor(t, pid, n).Some? && t[Ancestor(t, pid, n).value].comm == comm
  }

  lemma HasCommIff(t: Entries, pid: u32, depth: nat, comm: string)
    ensures HasComm(Walk(t, pid, depth), comm) <==> CommWithin(t, pid, depth, comm)
  {
    var w := Walk(t, pid, depth);
    WalkPrefix(t, pid, depth, depth);
    if HasComm(w, comm) {
      var n: nat :| n < |w| && w[n].comm == comm;
      WalkIsAncestors(t, pid, depth, n);
    }
    if CommWithin(t, pid, depth, comm) {
      var n: nat :| n < depth && Ancestor(t, pid, n).Some? && t[Ancestor(t, pid, n).value].comm == comm;
      WalkIsAncestors(t, pid, depth, n);
      assert w[n] in w;
    }
  }

  /** An ancestor condition holds exactly when a process of that name lies fewer than eight steps above the parent. */
  lemma AncestorCondition(m: Match, e: KernelEvent, t: Entries)
    ensures MatchesRule(m, e, t) <==>
            && MatchesRule(m.(ancestorComm := None), e, t)
            && (m.ancestorComm.Some? ==> CommWithin(t, e.ppid, LINEAGE_DEPTH, m.ancestorComm.value))
  {
    if m.ancestorComm.Some? {
      HasCommIff(t, e.ppid, LINEAGE_DEPTH, m.ancestorComm.value);
    }
  }

  lemma PrefixMeans(s: string, prefix: string)
    ensures StartsWith(s, prefix) <==> exists rest :: s == prefix + rest
  {
    if StartsWith(s, prefix) { assert s == prefix + s[|prefix|..]; }
  }

  lemma SuffixMeans(s: string, suffix: string)
    ensures EndsWith(s, suffix) <==> exists front :: s == front + suffix
  {
    if EndsWith(s, suffix) { assert s == s[..|s| - |suffix|] + suffix; }
    if front :| s == front + suffix { assert s[|s| - |suffix|..] == suffix; }
  }

  /** A rule matches exactly when every condition it sets holds; without an exe the event's path is the executable. */
  lemma MatchMeans(m: Match, e: KernelEvent, t: Entries)
    ensures
      var path := match e.path case Some(p) => p case None => "";
      var executable := match e.exe case Some(x) => x case None => path;
      var parentExe := match e.parentExe case Some(x) => x case None => "";
      MatchesRule(m, e, t) <==>
      && (m.event == None || m.event == Some(e.kind)) && (m.uid == None || m.uid == Some(e.uid))
      && (m.euid == None || m.euid == Some(e.euid)) && (m.targetUid == None || m.targetUid == e.targetUid)
      && (m.container == None || m.container == Some(e.inContainer)) && (m.comm == None || m.comm == Some(e.comm))
      && (m.parentComm == None || m.parentComm == e.parentComm)
      && (m.ancestorComm == None || CommWithin(t, e.ppid, 8, m.ancestorComm.value))
      && (m.executablePrefix == None || exists rest :: executable == m.executablePrefix.value + rest)
      && (m.executableSuffix == None || exists front :: executable == front + m.executableSuffix.value)
      && (m.parentExecutableSuffix == None || exists front :: parentExe == front + m.parentExecutableSuffix.value)
      && (m.pathPrefix == None || exists rest :: path == m.pathPrefix.value + rest)
      && (m.pathExact == None || path == m.pathExact.value)
  {
    hide StartsWith, EndsWith, HasComm, CommWithin, Walk;
    var path := OrEmpty(e.path);
    var executable := OrEmpty(if e.exe.Some? then e.exe else e.path);
    if m.ancestorComm.Some? { HasCommIff(t, e.ppid, 8, m.ancestorComm.value); }
    if m.executablePrefix.Some? { PrefixMeans(executable, m.executablePrefix.value); }
    if m.executableSuffix.Some? { SuffixMeans(executable, m.executableSuffix.value); }
    if m.parentExecutableSuffix.Some? { SuffixMeans(OrEmpty(e.parentExe), m.parentExecutableSuffix.value); }
    if m.pathPrefix.Some? { PrefixMeans(path, m.pathPrefix.value); }
  }

  /** One rule's part in the detections of an event: its own data, a score of at most 100, eight steps of lineage. */
  lemma EvaluateOne(r: Rule, e: KernelEvent, t: Entries)
    ensures Evaluate([r], e, t) ==
            if MatchesRule(r.match_, e, t)
            then [Detection(r.id, r.name, r.severity, if r.score <= 100 then r.score else 100, r.description, r.tags,
                            e, Walk(t, e.ppid, 8))]
            else []
  {
    assert [r][1..] == [] && Evaluate([], e, t) == [];
  }

  /** The detections an event raises depend on the table only through each process's own history. */
  lemma DetectionsAreHistory(rules: seq<Rule>, e: KernelEvent, a: seq<KernelEvent>, b: seq<KernelEvent>)
    requires forall tgid: u32 :: Project(a, tgid) == Project(b, tgid)
    ensures Evaluate(rules, e, Replay(a)) == Evaluate(rules, e, Replay(b))
  {
    InterleavingIrrelevant(a, b);
  }

  /** Detections come in rule order: rule sets evaluate independently and concatenate. */
  lemma {:induction false} EvaluateConcat(p: seq<Rule>, q: seq<Rule>, e: KernelEvent, t: Entries)
    ensures Evaluate(p + q, e, t) == Evaluate(p, e, t) + Evaluate(q, e, t)
    decreases p
  {
    if p == [] {
      assert p + q == q;
    } else {
      assert (p + q)[1..] == p[1..] + q;
      EvaluateConcat(p[1..], q, e, t);
    }
  }
}
