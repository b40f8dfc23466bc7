/**
  The Kubernetes client the controller acts through (cortex/internal/kubernetes/client.go)
  and the part of the API server it depends on: optimistic concurrency by resource version
  and strategic-merge patches of the container list.
*/
module Kubernetes {
  import opened Prelude
  import opened Ordering

  type Images = map<string, string>

  datatype Container = Container(name: string, image: string)

  datatype Deployment = Deployment(
    uid: string, resourceVersion: nat, generation: int, annotations: map<string, string>,
    replicas: int, matchLabels: map<string, string>, containers: seq<Container>,
    observedGeneration: int, updatedReplicas: int, readyReplicas: int)

  datatype Owner = Owner(uid: string, kind: string)

  /** `creationTimestamp` 0 stands for Go's zero time. */
  datatype ReplicaSet = ReplicaSet(annotations: map<string, string>, creationTimestamp: int,
                                   owners: seq<Owner>, containers: seq<Container>)

  datatype RollbackPlan = RollbackPlan(
    namespace: string, deployment: string, resourceVersion: nat, currentRevision: int, previousRevision: int,
    currentImages: Images, previousImages: Images, desiredReplicas: int, readyReplicas: int,
    currentRevisionCreatedAt: int)

  // ----- images -----

  /** Later containers of the same name win. */
  function ImagesOf(cs: seq<Container>): Images {
    if cs == [] then map[]
    else ImagesOf(cs[..|cs| - 1])[cs[|cs| - 1].name := cs[|cs| - 1].image]
  }

  method CollectImages(cs: seq<Container>) returns (m: Images)
    ensures m == ImagesOf(cs)
  {
    m := map[];
    for i := 0 to |cs|
      invariant m == ImagesOf(cs[..i])
    {
      assert cs[..i + 1][..i] == cs[..i];
      m := m[cs[i].name := cs[i].image];
    }
    assert cs[..|cs|] == cs;
  }

  /** Each name has the image of its last container, and no other name has any. */
  lemma {:induction false} ImagesAreLast(cs: seq<Container>, name: string)
    ensures name in ImagesOf(cs) <==> exists i :: 0 <= i < |cs| && cs[i].name == name
    ensures forall i | 0 <= i < |cs| && cs[i].name == name && (forall j | i < j < |cs| :: cs[j].name != name) ::
              name in ImagesOf(cs) && ImagesOf(cs)[name] == cs[i].image
  {
    if cs != [] {
      var front := cs[..|cs| - 1];
      ImagesAreLast(front, name);
      assert forall i | 0 <= i < |front| :: front[i] == cs[i];
    }
  }

  // ----- strategic merge of a container list, keyed by name -----

  function Replace(cs: seq<Container>, c: Container): seq<Container> {
    seq(|cs|, i requires 0 <= i < |cs| => if cs[i].name == c.name then c else cs[i])
  }

  function MergeOne(cs: seq<Container>, c: Container): seq<Container> {
    if c.name in ImagesOf(cs) then Replace(cs, c) else cs + [c]
  }

  function Merge(cs: seq<Container>, patch: seq<Container>): seq<Container> {
    if patch == [] then cs else MergeOne(Merge(cs, patch[..|patch| - 1]), patch[|patch| - 1])
  }

  lemma {:induction false} ReplaceImages(cs: seq<Container>, c: Container)
    ensures ImagesOf(Replace(cs, c)) ==
            if c.name in ImagesOf(cs) then ImagesOf(cs)[c.name := c.image] else ImagesOf(cs)
  {
    if cs != [] {
      ReplaceImages(cs[..|cs| - 1], c);
      assert Replace(cs, c)[..|cs| - 1] == Replace(cs[..|cs| - 1], c);
    }
  }

  lemma MergeOneImages(cs: seq<Container>, c: Container)
    ensures ImagesOf(MergeOne(cs, c)) == ImagesOf(cs)[c.name := c.image]
  {
    ReplaceImages(cs, c);
    assert (cs + [c])[..|cs|] == cs;
  }

  lemma PlusUpdate(m: Images, n: Images, k: string, v: string)
    ensures (m + n)[k := v] == m + n[k := v]
  {
  }

  /** On images, a merge is a map merge. */
  lemma {:induction false} MergeIsMapMerge(cs: seq<Container>, patch: seq<Container>)
    ensures ImagesOf(Merge(cs, patch)) == ImagesOf(cs) + ImagesOf(patch)
  {
    if patch != [] {
      var front, c := patch[..|patch| - 1], patch[|patch| - 1];
      MergeIsMapMerge(cs, front);
      MergeOneImages(Merge(cs, front), c);
      PlusUpdate(ImagesOf(cs), ImagesOf(front), c.name, c.image);
    }
  }

  function Listed(ks: seq<string>, m: Images): seq<Container>
    requires forall k | k in ks :: k in m
  {
    seq(|ks|, i requires 0 <= i < |ks| => Container(ks[i], m[ks[i]]))
  }

  lemma {:induction false} ListedImages(ks: seq<string>, m: Images)
    requires forall k | k in ks :: k in m
    ensures ImagesOf(Listed(ks, m)) == map k | k in ks :: m[k]
    decreases ks
  {
    if ks != [] {
      var front := ks[..|ks| - 1];
      ListedImages(front, m);
      assert Listed(ks, m)[..|ks| - 1] == Listed(front, m);
      assert forall k :: k in ks <==> k in front || k == ks[|ks| - 1];
    }
  }

  lemma ListedWhole(ks: seq<string>, m: Images)
    requires Lists(ks, m.Keys)
    ensures ImagesOf(Listed(ks, m)) == m
  {
    ListedImages(ks, m);
  }

  /** The container list of a patch body: one container a name, in order. */
  method ContainerList(imgs: Images) returns (containers: seq<Container>)
    ensures ImagesOf(containers) == imgs
  {
    var names := SortedKeys(imgs);
    containers := [];
    for i := 0 to |names|
      invariant containers == Listed(names[..i], imgs)
    {
      containers := containers + [Container(names[i], imgs[names[i]])];
    }
    assert names[..|names|] == names;
    ListedWhole(names, imgs);
  }

  // ----- the API server -----

  /** What becomes of a request: answered, refused by admission, or lost before or after it took effect. */
  datatype Fault = Delivered | Refused | RequestLost | ReplyLost

  /** One request: what other clients write before it is handled, and how it fares. */
  datatype Wire = Wire(outside: seq<Deployment>, fault: Fault)

  /** Every write, whoever makes it, moves the resource version. */
  function AfterWrites(d: Deployment, writes: seq<Deployment>): Deployment {
    if writes == [] then d
    else writes[|writes| - 1].(resourceVersion := d.resourceVersion + |writes|)
  }

  /** `after` is `base` with the images merged in, one version and one generation later. */
  ghost predicate Patched(base: Deployment, imgs: Images, after: Deployment) {
    && after == base.(resourceVersion := base.resourceVersion + 1, generation := base.generation + 1,
                      containers := after.containers)
    && ImagesOf(after.containers) == ImagesOf(base.containers) + imgs
  }

  /** The body and mode of a patch request. */
  datatype Request = Request(dryRun: bool, version: nat, images: Images)

  /**
    One exchange with the server, a patch or, without a request, a read: the deployment when
    it was handled and afterwards, and whether the client got a good answer.
  */
  datatype Exchange = Exchange(w: Wire, request: Option<Request>, before: Deployment, after: Deployment, ok: bool)

  /** The request changed the deployment, whether or not the client learned of it. */
  predicate Effective(x: Exchange) {
    && x.request.Some? && !x.request.value.dryRun && x.request.value.version == x.before.resourceVersion
    && (x.w.fault.Delivered? || x.w.fault.ReplyLost?)
  }

  /** What the server does with a request, and what the client hears of it. */
  ghost predicate Handled(x: Exchange) {
    && (x.ok <==> x.w.fault.Delivered? && (x.request.Some? ==> x.request.value.version == x.before.resourceVersion))
    && if Effective(x) then Patched(x.before, x.request.value.images, x.after) else x.after == x.before
  }

  function Reached(start: Deployment, log: seq<Exchange>): Deployment {
    if log == [] then start else log[|log| - 1].after
  }

  /** Between the logged exchanges only the outside writes they name took place. */
  ghost predicate Explains(start: Deployment, log: seq<Exchange>) {
    log == [] ||
    var front, x := log[..|log| - 1], log[|log| - 1];
    Explains(start, front) && x.before == AfterWrites(Reached(start, front), x.w.outside) && Handled(x)
  }

  /** The patch requests among the exchanges. */
  function Patches(log: seq<Exchange>): seq<Exchange> {
    if log == [] then [] else
      var x := log[|log| - 1];
      Patches(log[..|log| - 1]) + (if x.request.Some? then [x] else [])
  }

  lemma LogSnoc(start: Deployment, log: seq<Exchange>, x: Exchange)
    ensures Patches(log + [x]) == Patches(log) + (if x.request.Some? then [x] else [])
    ensures Explains(start, log) && x.before == AfterWrites(Reached(start, log), x.w.outside) && Handled(x)
            ==> Explains(start, log + [x])
  {
    assert (log + [x])[..|log|] == log;
  }

  class ApiServer {
    ghost const start: Deployment
    ghost var log: seq<Exchange>
    var d: Deployment

    /** The deployment is what the logged exchanges, and the writes they name, made of it. */
    ghost predicate Valid()
      reads this
    {
      Explains(start, log) && d == Reached(start, log)
    }

    constructor (d: Deployment)
      ensures Valid() && this.d == d && log == []
    {
      this.d, start, log := d, d, [];
    }

    method Settle(writes: seq<Deployment>)
      modifies this`d
      ensures d == AfterWrites(old(d), writes)
    {
      for i := 0 to |writes|
        invariant d == AfterWrites(old(d), writes[..i])
      {
        d := writes[i].(resourceVersion := d.resourceVersion + 1);
      }
      assert writes[..|writes|] == writes;
    }

    method Get(w: Wire) returns (r: Option<Deployment>)
      requires Valid()
      modifies this
      ensures Valid() && log == old(log) + [Exchange(w, None, d, d, r.Some?)]
      ensures d == AfterWrites(old(d), w.outside)
      ensures r == if w.fault.Delivered? then Some(d) else None
    {
      Settle(w.outside);
      r := if w.fault.Delivered? then Some(d) else None;
      LogSnoc(start, log, Exchange(w, None, d, d, r.Some?));
      log := log + [Exchange(w, None, d, d, r.Some?)];
    }

    /** A stale resource version is a conflict; a dry run stops short of storing. */
    method Patch(w: Wire, version: nat, patch: seq<Container>, dryRun: bool) returns (ok: bool)
      requires Valid()
      modifies this
      ensures Valid()
      ensures
        var x := Exchange(w, Some(Request(dryRun, version, ImagesOf(patch))), AfterWrites(old(d), w.outside), d, ok);
        log == old(log) + [x] && Handled(x)
    {
      Settle(w.outside);
      ghost var base := d;
      ok := Store(w.fault, version, patch, dryRun);
      ghost var x := Exchange(w, Some(Request(dryRun, version, ImagesOf(patch))), base, d, ok);
      LogSnoc(start, log, x);
      log := log + [x];
    }

    method Store(fault: Fault, version: nat, patch: seq<Container>, dryRun: bool) returns (ok: bool)
      modifies this`d
      ensures ok <==> fault.Delivered? && version == old(d).resourceVersion
      ensures if !dryRun && version == old(d).resourceVersion && (fault.Delivered? || fault.ReplyLost?)
              then Patched(old(d), ImagesOf(patch), d) else d == old(d)
    {
      if fault.RequestLost? || fault.Refused? || version != d.resourceVersion {
        return false;
      }
      if !dryRun {
        MergeIsMapMerge(d.containers, patch);
        d := d.(resourceVersion := d.resourceVersion + 1, generation := d.generation + 1,
                containers := Merge(d.containers, patch));
      }
      return fault.Delivered?;
    }
  }

  predicate RolledOut(d: Deployment) {
    && d.observedGeneration >= d.generation && d.readyReplicas >= d.replicas
    && d.updatedReplicas >= d.replicas && d.replicas > 0
  }

  function AfterPolls(d: Deployment, polls: seq<Wire>): Deployment {
    if polls == [] then d else AfterWrites(AfterPolls(d, polls[..|polls| - 1]), polls[|polls| - 1].outside)
  }

  /** Some answered poll finds the rollout complete. */
  predicate RolloutSeen(d: Deployment, polls: seq<Wire>) {
    exists k | 0 <= k < |polls| :: polls[k].fault.Delivered? && RolledOut(AfterPolls(d, polls[..k + 1]))
  }

  /** Where waiting ends: at the first answered poll that finds the rollout complete, or after the last poll. */
  function AfterWait(d: Deployment, polls: seq<Wire>): Deployment
    decreases |polls|
  {
    if polls == [] then d else
      var next := AfterWrites(d, polls[0].outside);
      if polls[0].fault.Delivered? && RolledOut(next) then next else AfterWait(next, polls[1..])
  }

  lemma NoPolls(d: Deployment)
    ensures AfterWait(d, []) == d && AfterPolls(d, []) == d
  {
  }

  lemma AfterWaitStep(d: Deployment, polls: seq<Wire>, i: nat)
    requires i < |polls|
    ensures
      var next := AfterWrites(d, polls[i].outside);
      AfterWait(d, polls[i..]) ==
        if polls[i].fault.Delivered? && RolledOut(next) then next else AfterWait(next, polls[i + 1..])
  {
    assert polls[i..][1..] == polls[i + 1..];
  }

  lemma PollStep(d: Deployment, polls: seq<Wire>, i: nat)
    requires i < |polls|
    ensures AfterPolls(d, polls[..i + 1]) == AfterWrites(AfterPolls(d, polls[..i]), polls[i].outside)
  {
    assert polls[..i + 1][..i] == polls[..i];
  }

  /** Every one of these writes, status updates say, leaves the images at `imgs`. */
  predicate Keep(writes: seq<Deployment>, imgs: Images) {
    forall d | d in writes :: ImagesOf(d.containers) == imgs
  }

  lemma KeepsImages(d: Deployment, writes: seq<Deployment>, imgs: Images)
    requires Keep(writes, imgs) && ImagesOf(d.containers) == imgs
    ensures ImagesOf(AfterWrites(d, writes).containers) == imgs
  {
    if writes != [] { assert writes[|writes| - 1] in writes; }
  }

  /**
    Waiting succeeds exactly when an answered poll finds the newest generation observed, at least
    one replica wanted, and as many as wanted both updated and ready.
  */
  lemma RolloutMeans(d: Deployment, polls: seq<Wire>)
    ensures RolloutSeen(d, polls) <==>
            exists k: nat :: k < |polls| && polls[k].fault.Delivered? &&
              var e := AfterPolls(d, polls[..k + 1]);
              e.generation <= e.observedGeneration && 1 <= e.replicas
              && !(e.updatedReplicas < e.replicas) && !(e.readyReplicas < e.replicas)
  {
    if k: nat :| k < |polls| && polls[k].fault.Delivered? && RolledOut(AfterPolls(d, polls[..k + 1])) {}
  }

  lemma {:induction false} QuietPolls(d: Deployment, polls: seq<Wire>)
    requires forall w | w in polls :: w.outside == []
    ensures AfterPolls(d, polls) == d
    decreases |polls|
  {
    if polls != [] {
      assert polls[|polls| - 1] in polls;
      QuietPolls(d, polls[..|polls| - 1]);
    }
  }

  /** The status from before a patch never passes for its rollout: as long as nobody updates it, waiting fails. */
  lemma StaleStatusWaits(before: Deployment, imgs: Images, d: Deployment, polls: seq<Wire>)
    requires Patched(before, imgs, d) && before.observedGeneration <= before.generation
    requires forall w | w in polls :: w.outside == []
    ensures !RolloutSeen(d, polls)
  {
    if k: nat :| k < |polls| && polls[k].fault.Delivered? && RolledOut(AfterPolls(d, polls[..k + 1])) {
      assert forall w | w in polls[..k + 1] :: w in polls;
      QuietPolls(d, polls[..k + 1]);
    }
  }

  // ----- rollback target selection -----

  const REVISION: string := "deployment.kubernetes.io/revision"
  const MAX_UINT64: nat := 0xFFFF_FFFF_FFFF_FFFF
  const MAX_INT64: nat := 0x7FFF_FFFF_FFFF_FFFF

  /** strconv's digit scan: it stops at the first overflow, and reports nothing for a non-digit. */
  function Digits(s: string, n: nat): Option<nat> {
    if s == "" then Some(n)
    else if !('0' <= s[0] <= '9') then None
    else
      var next := n * 10 + (s[0] - '0') as nat;
      if next > MAX_UINT64 then Some(MAX_UINT64) else Digits(s[1..], next)
  }

  /** strconv.Atoi with its error dropped: 0 for bad syntax, the nearest 64-bit integer when out of range. */
  function Atoi(s: string): int {
    var negative := s != "" && s[0] == '-';
    var digits := if s != "" && (s[0] == '-' || s[0] == '+') then s[1..] else s;
    if digits == "" then 0 else
      match Digits(digits, 0)
      case None => 0
      case Some(n) =>
        if negative then (if n > MAX_INT64 then -(MAX_INT64 as int) - 1 else -(n as int))
        else (if n > MAX_INT64 then MAX_INT64 else n)
  }

  function RevisionOf(annotations: map<string, string>): int {
    Atoi(if REVISION in annotations then annotations[REVISION] else "")
  }

  predicate Owns(d: Deployment, rs: ReplicaSet) {
    exists o | o in rs.owners :: o.uid == d.uid && o.kind == "Deployment"
  }

  predicate Eligible(d: Deployment, rs: ReplicaSet) {
    Owns(d, rs) && 0 < RevisionOf(rs.annotations) < RevisionOf(d.annotations)
  }

  predicate IsCurrent(d: Deployment, rs: ReplicaSet) {
    Owns(d, rs) && RevisionOf(rs.annotations) == RevisionOf(d.annotations)
  }

  /** When the current revision's ReplicaSet was created; the last one listed counts. */
  function CreatedAt(d: Deployment, rss: seq<ReplicaSet>): int {
    if rss == [] then 0
    else if IsCurrent(d, rss[|rss| - 1]) then rss[|rss| - 1].creationTimestamp
    else CreatedAt(d, rss[..|rss| - 1])
  }

  /** The plan goes back to the newest of the eligible revisions. */
  ghost predicate IsPlan(ns: string, name: string, d: Deployment, rss: seq<ReplicaSet>, p: RollbackPlan) {
    && p == RollbackPlan(ns, name, d.resourceVersion, RevisionOf(d.annotations), p.previousRevision,
                         ImagesOf(d.containers), p.previousImages, d.replicas, d.readyReplicas, CreatedAt(d, rss))
    && (exists rs | rs in rss :: Eligible(d, rs) && RevisionOf(rs.annotations) == p.previousRevision
                                 && ImagesOf(rs.containers) == p.previousImages)
    && (forall rs | rs in rss && Eligible(d, rs) :: RevisionOf(rs.annotations) <= p.previousRevision)
  }

  /** No earlier revision to go back to; the ReplicaSets are not even listed for a first revision. */
  ghost predicate NothingEarlier(d: Deployment, listing: Option<seq<ReplicaSet>>) {
    if listing.Some? then forall rs | rs in listing.value :: !Eligible(d, rs)
    else RevisionOf(d.annotations) <= 1
  }

  datatype PlanError = NoPreviousRevision | ReadFailed

  datatype Candidate = Candidate(rev: int, rs: ReplicaSet)

  method IsOwned(d: Deployment, rs: ReplicaSet) returns (owned: bool)
    ensures owned == Owns(d, rs)
  {
    owned := false;
    for k := 0 to |rs.owners|
      invariant forall j | 0 <= j < k :: !(rs.owners[j].uid == d.uid && rs.owners[j].kind == "Deployment")
    {
      if rs.owners[k].uid == d.uid && rs.owners[k].kind == "Deployment" {
        return true;
      }
    }
  }

  method SelectTarget(ns: string, name: string, d: Deployment, rss: seq<ReplicaSet>)
    returns (r: Result<RollbackPlan, PlanError>)
    ensures r.Ok? ==> IsPlan(ns, name, d, rss, r.value)
    ensures r.Err? ==> r.error == NoPreviousRevision
    ensures r.Err? <==> forall rs | rs in rss :: !Eligible(d, rs)
  {
    var currentRev := RevisionOf(d.annotations);
    var cs: seq<Candidate> := [];
    var currentCreated := 0;
    for i := 0 to |rss|
      invariant forall c | c in cs :: c.rs in rss && Eligible(d, c.rs) && c.rev == RevisionOf(c.rs.annotations)
      invariant forall k | 0 <= k < i && Eligible(d, rss[k]) :: Candidate(RevisionOf(rss[k].annotations), rss[k]) in cs
      invariant currentCreated == CreatedAt(d, rss[..i])
    {
      var rs := rss[i];
      assert rss[..i + 1][..i] == rss[..i];
      var owned := IsOwned(d, rs);
      if !owned {
        continue;
      }
      var rev := RevisionOf(rs.annotations);
      if rev == currentRev {
        currentCreated := rs.creationTimestamp;
      }
      if rev > 0 && rev < currentRev {
        cs := cs + [Candidate(rev, rs)];
      }
    }
    assert rss[..|rss|] == rss;
    if |cs| == 0 {
      return Err(NoPreviousRevision);
    }
    var sorted := Sort((a: Candidate, b: Candidate) => a.rev > b.rev, cs);
    SortedFirst(sorted, cs);
    var currentImages := CollectImages(d.containers);
    var previousImages := CollectImages(sorted[0].rs.containers);
    return Ok(RollbackPlan(ns, name, d.resourceVersion, currentRev, sorted[0].rev, currentImages, previousImages,
                           d.replicas, d.readyReplicas, currentCreated));
  }

  lemma SortedFirst(sorted: seq<Candidate>, cs: seq<Candidate>)
    requires cs != [] && multiset(sorted) == multiset(cs)
    requires Sorted((a: Candidate, b: Candidate) => a.rev > b.rev, sorted)
    ensures sorted != [] && sorted[0] in cs
    ensures forall c | c in cs :: c.rev <= sorted[0].rev
  {
    assert |sorted| == |multiset(sorted)| == |multiset(cs)|;
    assert sorted[0] in multiset(cs);
    forall c | c in cs ensures c.rev <= sorted[0].rev {
      assert c in multiset(sorted);
      var j :| 0 <= j < |sorted| && sorted[j] == c;
      if j > 0 { assert !((a: Candidate, b: Candidate) => a.rev > b.rev)(sorted[j], sorted[0]); }
    }
  }

  lemma {:induction false} CreatedAtIsSome(d: Deployment, rss: seq<ReplicaSet>)
    ensures (CreatedAt(d, rss) == 0 && forall rs | rs in rss :: !IsCurrent(d, rs))
            || exists rs :: rs in rss && IsCurrent(d, rs) && CreatedAt(d, rss) == rs.creationTimestamp
  {
    if rss != [] {
      CreatedAtIsSome(d, rss[..|rss| - 1]);
      assert rss == rss[..|rss| - 1] + [rss[|rss| - 1]];
      assert rss[|rss| - 1] in rss;
    }
  }

  /** When owned ReplicaSets carry distinct revisions, the order they are listed in does not matter. */
  lemma PlanIgnoresListOrder(ns: string, name: string, d: Deployment, a: seq<ReplicaSet>, b: seq<ReplicaSet>,
                             p: RollbackPlan, q: RollbackPlan)
    requires multiset(a) == multiset(b)
    requires forall r, s | r in a && s in a && Owns(d, r) && Owns(d, s)
                           && RevisionOf(r.annotations) == RevisionOf(s.annotations) :: r == s
    requires IsPlan(ns, name, d, a, p) && IsPlan(ns, name, d, b, q)
    ensures p == q
  {
    assert forall rs :: rs in a <==> rs in b by {
      forall rs ensures rs in a <==> rs in b {
        assert rs in a <==> rs in multiset(a);
        assert rs in b <==> rs in multiset(b);
      }
    }
    CreatedAtIsSome(d, a);
    CreatedAtIsSome(d, b);
  }

  // ----- the client -----

  class Client {
    const server: ApiServer

    constructor (server: ApiServer)
      ensures this.server == server
    {
      this.server := server;
    }

    /** `listing` is what the second read, of the ReplicaSets, returns. */
    method PlanRollback(ns: string, name: string, read: Wire, listing: Option<seq<ReplicaSet>>)
      returns (r: Result<RollbackPlan, PlanError>)
      requires server.Valid()
      modifies server
      ensures server.Valid() && Patches(server.log) == Patches(old(server.log))
      ensures server.d == AfterWrites(old(server.d), read.outside)
      ensures r == Err(NoPreviousRevision) <==> read.fault.Delivered? && NothingEarlier(server.d, listing)
      ensures r.Ok? <==> read.fault.Delivered? && listing.Some? && !NothingEarlier(server.d, listing)
      ensures r.Ok? ==> IsPlan(ns, name, server.d, listing.value, r.value)
    {
      LogSnoc(server.start, server.log, Exchange(read, None, AfterWrites(server.d, read.outside),
                                                 AfterWrites(server.d, read.outside), read.fault.Delivered?));
      var d := server.Get(read);
      if d.None? {
        return Err(ReadFailed);
      }
      if RevisionOf(d.value.annotations) <= 1 {
        return Err(NoPreviousRevision);
      }
      if listing.None? {
        return Err(ReadFailed);
      }
      r := SelectTarget(ns, name, d.value, listing.value);
    }

    method PatchImages(w: Wire, version: nat, imgs: Images, dryRun: bool) returns (ok: bool)
      requires server.Valid()
      modifies server
      ensures server.Valid()
      ensures
        var x := Exchange(w, Some(Request(dryRun, version, imgs)), AfterWrites(old(server.d), w.outside), server.d, ok);
        && Handled(x) && server.log == old(server.log) + [x]
        && Patches(server.log) == Patches(old(server.log)) + [x]
    {
      var containers := ContainerList(imgs);
      ghost var before, base := server.log, AfterWrites(server.d, w.outside);
      ok := server.Patch(w, version, containers, dryRun);
      LogSnoc(server.start, before, Exchange(w, Some(Request(dryRun, version, imgs)), base, server.d, ok));
    }

    /** Reads the resource version afresh, then patches against it. */
    method PatchCurrentImages(read: Wire, w: Wire, imgs: Images, dryRun: bool) returns (ok: bool)
      requires server.Valid()
      modifies server
      ensures server.Valid()
      ensures
        var seen := AfterWrites(old(server.d), read.outside);
        var x := Exchange(w, Some(Request(dryRun, seen.resourceVersion, imgs)),
                          AfterWrites(seen, w.outside), server.d, ok);
        if read.fault.Delivered? then Handled(x) && Patches(server.log) == Patches(old(server.log)) + [x]
        else !ok && server.d == seen && Patches(server.log) == Patches(old(server.log))
    {
      LogSnoc(server.start, server.log, Exchange(read, None, AfterWrites(server.d, read.outside),
                                                 AfterWrites(server.d, read.outside), read.fault.Delivered?));
      var d := server.Get(read);
      if d.None? {
        return false;
      }
      ok := PatchImages(w, d.value.resourceVersion, imgs, dryRun);
    }

    /** Polls until the rollout is complete or the polls, and with them the context, run out. */
    method WaitReady(polls: seq<Wire>) returns (ok: bool)
      requires server.Valid()
      modifies server
      ensures server.Valid() && Patches(server.log) == Patches(old(server.log))
      ensures ok <==> RolloutSeen(old(server.d), polls)
      ensures ok ==> RolledOut(server.d)
      ensures server.d == AfterWait(old(server.d), polls)
    {
      hide AfterWait, AfterPolls, Patches;
      ghost var start := server.d;
      assert polls[..0] == [] && polls[0..] == polls;
      NoPolls(start);
      for i := 0 to |polls|
        invariant server.Valid() && Patches(server.log) == Patches(old(server.log))
        invariant server.d == AfterPolls(start, polls[..i])
        invariant AfterWait(server.d, polls[i..]) == AfterWait(start, polls)
        invariant forall k | 0 <= k < i && polls[k].fault.Delivered? :: !RolledOut(AfterPolls(start, polls[..k + 1]))
      {
        AfterWaitStep(server.d, polls, i);
        PollStep(start, polls, i);
        var d := Poll(polls[i]);
        if d.Some? && RolledOut(d.value) {
          return true;
        }
      }
      assert polls[|polls|..] == [] && polls[..|polls|] == polls;
      NoPolls(server.d);
      return false;
    }

    method Poll(w: Wire) returns (r: Option<Deployment>)
      requires server.Valid()
      modifies server
      ensures server.Valid() && Patches(server.log) == Patches(old(server.log))
      ensures server.d == AfterWrites(old(server.d), w.outside)
      ensures r == if w.fault.Delivered? then Some(server.d) else None
    {
      ghost var log := server.log;
      r := server.Get(w);
      LogSnoc(server.start, log, Exchange(w, None, server.d, server.d, r.Some?));
    }
  }

  // ----- label selectors -----

  function Pairs(ks: seq<string>, m: map<string, string>): seq<string>
    requires forall k | k in ks :: k in m
  {
    seq(|ks|, i requires 0 <= i < |ks| => ks[i] + "=" + m[ks[i]])
  }

  function Join(ps: seq<string>): string {
    if ps == [] then "" else if |ps| == 1 then ps[0] else ps[0] + "," + Join(ps[1..])
  }

  /** `s` is what printing `m` yields. */
  ghost predicate Prints(m: map<string, string>, s: string) {
    exists ks :: Lists(ks, m.Keys) && s == Join(Pairs(ks, m))
  }

  method LabelSelector(m: map<string, string>) returns (s: string)
    ensures Prints(m, s)
  {
    var ks := SortedKeys(m);
    var p: seq<string> := [];
    for i := 0 to |ks|
      invariant p == Pairs(ks[..i], m)
    {
      p := p + [ks[i] + "=" + m[ks[i]]];
    }
    assert ks[..|ks|] == ks;
    return Join(p);
  }

  function Split(s: string, sep: char): (ps: seq<string>)
    ensures ps != []
  {
    if s == "" then [""] else
      var rest := Split(s[1..], sep);
      if s[0] == sep then [""] + rest else [[s[0]] + rest[0]] + rest[1..]
  }

  function KeyPart(p: string): string {
    if p == "" || p[0] == '=' then "" else [p[0]] + KeyPart(p[1..])
  }

  function ValuePart(p: string): string {
    if p == "" then "" else if p[0] == '=' then p[1..] else ValuePart(p[1..])
  }

  function ParsePairs(ps: seq<string>): map<string, string> {
    if ps == [] then map[]
    else ParsePairs(ps[..|ps| - 1])[KeyPart(ps[|ps| - 1]) := ValuePart(ps[|ps| - 1])]
  }

  /** Splits at the commas, then each piece at its first equals sign. */
  function ParseSelector(s: string): map<string, string> {
    if s == "" then map[] else ParsePairs(Split(s, ','))
  }

  /** No key holds a separator, and no value a comma. */
  predicate Printable(m: map<string, string>) {
    forall k | k in m :: '=' !in k && ',' !in k && ',' !in m[k]
  }

  lemma {:induction false} SplitPiece(p: string, rest: string)
    requires ',' !in p
    ensures Split(p, ',') == [p]
    ensures Split(p + "," + rest, ',') == [p] + Split(rest, ',')
    decreases p
  {
    if p == "" {
      assert p + "," + rest == "," + rest;
    } else {
      SplitPiece(p[1..], rest);
      assert (p + "," + rest)[1..] == p[1..] + "," + rest;
      assert [p[0]] + p[1..] == p;
    }
  }

  lemma {:induction false} SplitJoin(ps: seq<string>)
    requires ps != [] && forall p | p in ps :: ',' !in p
    ensures Split(Join(ps), ',') == ps
    decreases ps
  {
    SplitPiece(ps[0], if |ps| == 1 then "" else Join(ps[1..]));
    if |ps| > 1 {
      SplitJoin(ps[1..]);
    }
  }

  lemma {:induction false} PairParts(k: string, v: string)
    requires '=' !in k
    ensures KeyPart(k + "=" + v) == k && ValuePart(k + "=" + v) == v
    decreases k
  {
    if k == "" {
      assert k + "=" + v == "=" + v;
    } else {
      PairParts(k[1..], v);
      assert (k + "=" + v)[1..] == k[1..] + "=" + v;
    }
  }

  lemma {:induction false} ParsePrinted(ks: seq<string>, m: map<string, string>)
    requires forall k | k in ks :: k in m && '=' !in k
    ensures ParsePairs(Pairs(ks, m)) == map k | k in ks :: m[k]
    decreases ks
  {
    if ks != [] {
      var front, k := ks[..|ks| - 1], ks[|ks| - 1];
      ParsePrinted(front, m);
      PairParts(k, m[k]);
      assert Pairs(ks, m)[..|ks| - 1] == Pairs(front, m);
      assert forall x :: x in ks <==> x in front || x == k;
    }
  }

  lemma ParseListing(ks: seq<string>, m: map<string, string>)
    requires Lists(ks, m.Keys) && Printable(m)
    ensures ParsePairs(Pairs(ks, m)) == m
  {
    ParsePrinted(ks, m);
  }

  lemma PairsAreClean(ks: seq<string>, m: map<string, string>)
    requires Printable(m) && forall k | k in ks :: k in m
    ensures forall p | p in Pairs(ks, m) :: p != "" && ',' !in p
  {
    forall p | p in Pairs(ks, m) ensures p != "" && ',' !in p {
      var i :| 0 <= i < |ks| && p == ks[i] + "=" + m[ks[i]];
      assert ks[i] in ks;
    }
  }

  lemma {:induction false} SplitPieces(s: string)
    ensures forall p | p in Split(s, ',') :: ',' !in p
  {
    if s != "" {
      var rest := Split(s[1..], ',');
      SplitPieces(s[1..]);
      assert rest[0] in rest && forall p | p in rest[1..] :: p in rest;
    }
  }

  lemma {:induction false} PartsAreClean(p: string)
    requires ',' !in p
    ensures '=' !in KeyPart(p) && ',' !in KeyPart(p) && ',' !in ValuePart(p)
  {
    if p != "" && p[0] != '=' {
      assert forall c | c in p[1..] :: c in p;
      PartsAreClean(p[1..]);
    }
  }

  lemma {:induction false} ParsedIsPrintable(ps: seq<string>)
    requires forall p | p in ps :: ',' !in p
    ensures Printable(ParsePairs(ps))
    decreases ps
  {
    if ps != [] {
      var front, p := ps[..|ps| - 1], ps[|ps| - 1];
      assert p in ps && forall q | q in front :: q in ps;
      ParsedIsPrintable(front);
      PartsAreClean(p);
    }
  }

  lemma PrintableParses(m: map<string, string>, s: string)
    requires Prints(m, s) && Printable(m)
    ensures ParseSelector(s) == m
  {
    var ks :| Lists(ks, m.Keys) && s == Join(Pairs(ks, m));
    var ps := Pairs(ks, m);
    ParseListing(ks, m);
    if ps != [] {
      PairsAreClean(ks, m);
      SplitJoin(ps);
      assert ps[0] in ps;
    }
  }

  /** Parsing undoes printing exactly for printable maps. */
  lemma SelectorRoundTrip(m: map<string, string>, s: string)
    requires Prints(m, s)
    ensures ParseSelector(s) == m <==> Printable(m)
  {
    if Printable(m) { PrintableParses(m, s); }
    SplitPieces(s);
    ParsedIsPrintable(Split(s, ','));
  }

  /** The printed form does not depend on map iteration order, and determines the map. */
  lemma SelectorFaithful(m: map<string, string>, n: map<string, string>, s: string, t: string)
    requires Prints(m, s) && Prints(n, t)
    ensures m == n ==> s == t
    ensures Printable(m) && Printable(n) && s == t ==> m == n
  {
    if m == n {
      var ks :| Lists(ks, m.Keys) && s == Join(Pairs(ks, m));
      var ls :| Lists(ls, m.Keys) && t == Join(Pairs(ls, m));
      ListsUnique(ks, ls, m.Keys);
    }
    if Printable(m) && Printable(n) && s == t {
      SelectorRoundTrip(m, s);
      SelectorRoundTrip(n, s);
    }
  }

  /** A comma in a value breaks it: two different maps print alike. */
  lemma SelectorCollision()
    ensures Prints(map["a" := "b,c=d"], "a=b,c=d") && Prints(map["a" := "b", "c" := "d"], "a=b,c=d")
  {
    var m, n := map["a" := "b,c=d"], map["a" := "b", "c" := "d"];
    assert "a" + "=" + "b,c=d" == "a=b,c=d" && "a" + "=" + "b" == "a=b" && "c" + "=" + "d" == "c=d";
    assert Lists(["a"], m.Keys) && Pairs(["a"], m) == ["a=b,c=d"];
    assert Lists(["a", "c"], n.Keys) && Pairs(["a", "c"], n) == ["a=b", "c=d"];
    assert Join(["a=b", "c=d"]) == "a=b" + "," + Join(["c=d"]);
  }
}
