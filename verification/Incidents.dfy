/**
  Three first cycles of a controller on one concrete outage. They differ only in the fate of
  the rollback patch and in a cancellation.
*/
module Incidents {
  import opened Prelude
  import opened Kubernetes
  import opened Autonomy
  import opened Endings
  import opened Histories
  import opened Controllers
  import opened Revisions
  import opened AuditedHistories
  import AuditChain
  import Slo

  const NOW: int := 1_700_000_000 * SECOND
  const OWNER := Owner("d-1", "Deployment")

  /** Revision 10 runs app:2, on both of its replicas. */
  const BROKEN := Deployment("d-1", 7, 3, map[REVISION := Decimal(10)], 2, map[], [Container("app", "app:2")], 3, 2, 2)

  const REPLICA_SETS := [
    ReplicaSet(map[REVISION := Decimal(9)], NOW - 60 * MINUTE, [OWNER], [Container("app", "app:1")]),
    ReplicaSet(map[REVISION := Decimal(10)], NOW - MINUTE, [OWNER], [Container("app", "app:2")])]

  const SETTINGS := Config(
    "web", "shop", "web", 0.999, "errors", "", "traces", "", 0.0, 0, None, true, 1, 0, SECOND, 0, 0)

  const ANSWERED := Wire([], Delivered)

  /** Every request fails and traces show it; the first poll finds whatever was patched in rolled out. */
  function Outage(apply: Wire, cancelled: bool): Env {
    var status := BROKEN.(generation := 4, observedGeneration := 4, containers := [Container("app", "app:1")]);
    Env(NOW, ANSWERED, Some(REPLICA_SETS), Some(1.0), None, None, Some(1), ANSWERED, apply, [Wire([status], Delivered)],
        cancelled, Some(0.0), None, ANSWERED, ANSWERED, ANSWERED, ANSWERED,
        (a: Action) => Stamp(NOW, "sre-1", "null", AuditChain.Succeeds))
  }

  /** The context of a first cycle on the outage. */
  ghost predicate IsOutage(c: Context, apply: Wire, cancelled: bool) {
    MeetsOutage(c, apply, cancelled) && Informed(c) && c.rested
  }

  ghost predicate MeetsOutage(c: Context, apply: Wire, cancelled: bool) {
    && c.cfg == Defaulted(SETTINGS) && c.has == Providers(true, true, false, true)
    && c.env == Outage(apply, cancelled) && c.found == BROKEN
  }

  lemma OutageRevisions()
    ensures RevisionOf(REPLICA_SETS[0].annotations) == 9 && RevisionOf(REPLICA_SETS[1].annotations) == 10
    ensures RevisionOf(BROKEN.annotations) == 10
  {
    AtoiOfDecimal(9);
    AtoiOfDecimal(10);
  }

  lemma SingleImage(name: string, image: string)
    ensures ImagesOf([Container(name, image)]) == map[name := image]
  {
    assert [Container(name, image)][..0] == [];
  }

  lemma OutagePlan(c: Context, apply: Wire, cancelled: bool)
    requires IsOutage(c, apply, cancelled)
    ensures Samplable(c) && c.plan.value.currentImages == map["app" := "app:2"]
    ensures c.plan.value.previousImages == map["app" := "app:1"] && c.plan.value.previousRevision == 9
  {
    OutageRevisions();
    SingleImage("app", "app:1");
    SingleImage("app", "app:2");
    assert OWNER in REPLICA_SETS[0].owners && OWNER in REPLICA_SETS[1].owners;
    assert REPLICA_SETS[0] in REPLICA_SETS && Eligible(BROKEN, REPLICA_SETS[0]);
    assert CreatedAt(BROKEN, REPLICA_SETS) == NOW - MINUTE;
  }

  lemma OutageSample(c: Context, apply: Wire, cancelled: bool)
    requires IsOutage(c, apply, cancelled)
    ensures Exhausted(c) && TracesSeen(c)
  {
    Slo.RateExhaustedIff(0.999, 1.0, 1.0);
    assert 1.0 / 1.0 == 1.0;
  }

  lemma OutageAttempts(c: Context, apply: Wire, cancelled: bool)
    requires IsOutage(c, apply, cancelled) && c.streak >= 1
    ensures Guarded(c) && Clean(c.env.dryRun)
  {
    hide Confidence, Exhausted, TracesSeen, Recent, Informed, Planning;
    OutagePlan(c, apply, cancelled);
    OutageSample(c, apply, cancelled);
    DefaultBarNeedsEvidence(c, c.plan.value);
    OutageReplicas(c, apply, cancelled);
    OutageImages();
  }

  lemma OutageImages()
    ensures SwappableImages(map["app" := "app:2"], map["app" := "app:1"])
  {
    var current: Images, previous: Images := map["app" := "app:2"], map["app" := "app:1"];
    assert "app:2"[4] != "app:1"[4];
    assert "app" in previous && current["app"] != previous["app"];
    assert current.Keys == previous.Keys;
  }

  lemma OutageReplicas(c: Context, apply: Wire, cancelled: bool)
    requires IsOutage(c, apply, cancelled) && c.plan.Some?
    ensures EnoughReplicas(c.cfg, c.plan.value)
  {
  }

  /** In a first cycle no cooldown runs, and its one sample is a streak of one. */
  lemma FirstContext(run: Run, apply: Wire, cancelled: bool, res: RunResult, err: Option<RunError>)
    requires Lawful([run]) && Ends(run.ctx, run.events, res, err)
    requires MeetsOutage(run.ctx, apply, cancelled)
    ensures Informed(run.ctx) && run.ctx.rested && run.ctx.streak >= 1
  {
    var c := run.ctx;
    assert [run][..0] == [] && LastAttempt([]) == 0;
    OutagePlan(c, apply, cancelled);
    OutageSample(c, apply, cancelled);
    SampleIff(c, run.events, res, err);
    assert Samples([run]) == [Sample(c.plan.value.currentRevision, true)];
    assert BadSuffix(Samples([run]), 1);
  }

  /** What the outage comes to, with nobody else writing before the patch. */
  lemma OutageEnds(c: Context, apply: Wire, cancelled: bool)
    requires IsOutage(c, apply, cancelled) && c.streak >= 1 && apply.outside == []
    ensures EndingOf(c) ==
            if !apply.fault.Delivered? then Broken(ExecuteFailed)
            else if cancelled then Broken(Cancelled) else Finished(Remediated)
    ensures OthersKeepImages(c.env, c.plan.value)
    ensures Confirmed(c) <==> apply.fault.Delivered?
    ensures PreviousRemain(c) <==> apply.fault.Delivered? || apply.fault.ReplyLost?
  {
    OutagePlan(c, apply, cancelled);
    OutageAttempts(c, apply, cancelled);
    SingleImage("app", "app:1");
    var status := c.env.polls[0].outside[0];
    assert c.env.polls[..1][..0] == [];
    assert RolledOut(AfterPolls(Base(c).(generation := 4), c.env.polls[..0 + 1]));
  }

  lemma OutageReported(run: Run, apply: Wire, cancelled: bool, res: RunResult, err: Option<RunError>, left: Deployment)
    requires apply.outside == [] && Lawful([run]) && Ends(run.ctx, run.events, res, err)
    requires MeetsOutage(run.ctx, apply, cancelled) && Leaves(run.ctx, run.events, left)
    requires Attempts(run.events) <==> Guarded(run.ctx) && Clean(run.ctx.env.dryRun)
    ensures EndingOf(run.ctx) ==
            if !apply.fault.Delivered? then Broken(ExecuteFailed)
            else if cancelled then Broken(Cancelled) else Finished(Remediated)
    ensures Confirmed(run.ctx) <==> apply.fault.Delivered?
    ensures ImagesOf(left.containers) ==
            if apply.fault.Delivered? || apply.fault.ReplyLost? then map["app" := "app:1"] else map["app" := "app:2"]
  {
    FirstContext(run, apply, cancelled, res, err);
    OutagePlan(run.ctx, apply, cancelled);
    OutageAttempts(run.ctx, apply, cancelled);
    OutageEnds(run.ctx, apply, cancelled);
  }

  lemma {:induction false} AllFit(c: AuditChain.Codec, key: AuditChain.Bytes, ops: seq<AuditChain.Op>)
    requires forall e :: c.width(e) < 65_536
    ensures forall l :: l in AuditChain.Run(c, key, ops).store.lines ==> AuditChain.Fits(l)
  {
    if ops != [] { AllFit(c, key, ops[..|ops| - 1]); }
  }

  lemma {:induction false} NotedLand(env: Env, events: seq<Event>)
    requires forall a :: env.stamps(a).io == AuditChain.Succeeds
    ensures forall op :: op in Noted(env, events) ==> AuditChain.Lands(op)
  {
    if events != [] { NotedLand(env, events[..|events| - 1]); }
  }

  /** What the first cycle leaves in a new log. */
  lemma OutageLog(c: AuditChain.Codec, key: AuditChain.Bytes, run: Run)
    requires AuditChain.Faithful(c) && forall e :: c.width(e) < 65_536
    requires forall a :: run.ctx.env.stamps(a).io == AuditChain.Succeeds
    ensures ActionsOf(AuditChain.Entries(AuditChain.Run(c, key, [AuditChain.Reopen] + NotedBy([run])).store.lines))
         == Names(Trail(run.events))
  {
    hide NotedBy, Trails, Noted, Trail, AuditChain.Fits;
    var ops := [AuditChain.Reopen] + NotedBy([run]);
    AllFit(c, key, ops);
    NotedBySnoc([], run);
    TrailsSnoc([], run);
    NoRuns(run);
    NotedLand(run.ctx.env, run.events);
    RecordedActions(c, key, [AuditChain.Reopen], [run]);
    FreshLog(c, key);
  }

  lemma FreshLog(c: AuditChain.Codec, key: AuditChain.Bytes)
    ensures AuditChain.Run(c, key, [AuditChain.Reopen])
         == AuditChain.Session(AuditChain.Store(false, []), Some(""))
    ensures ActionsOf(AuditChain.Entries(AuditChain.Run(c, key, [AuditChain.Reopen]).store.lines)) == []
  {
    assert [AuditChain.Reopen][..0] == [];
    assert AuditChain.Run(c, key, []) == AuditChain.Session(AuditChain.Store(false, []), None);
  }

  lemma NoRuns(run: Run)
    ensures NotedBy([]) == [] && Concat(Trails([])) == [] && [] + [run] == [run]
  {
  }

  /** A controller on the broken deployment, with a log that does not exist yet. */
  method Install(codec: AuditChain.Codec, key: AuditChain.Bytes) returns (k: Controller)
    ensures fresh(k) && fresh(k.World()) && k.Valid() && k.runs == [] && k.earlier.noted == [AuditChain.Reopen]
    ensures k.config == SETTINGS && k.has == Providers(true, true, false, true)
    ensures k.client != null && k.client.server.d == BROKEN
    ensures k.auditor != null && k.auditor.codec == codec && k.auditor.key == key && k.auditor.file != null
  {
    hide AuditChain.Run, AuditChain.Entries;
    var server := new ApiServer(BROKEN);
    var client := new Client(server);
    var file := new AuditChain.LogFile();
    var auditor := new AuditChain.Chain(codec, key, file);
    FreshLog(codec, key);
    k := new Controller(SETTINGS, Providers(true, true, false, true), client, auditor, [AuditChain.Reopen]);
  }

  /**
    The first cycle of a new controller on the outage, with a new log. A lost reply and a
    cancellation both end in an error and leave the rollback in place, the former without
    counting it as executed; only the remediation is logged as verified.
  */
  method FirstCycle(apply: Wire, cancelled: bool, codec: AuditChain.Codec, key: AuditChain.Bytes)
    returns (res: RunResult, err: Option<RunError>, left: Deployment, log: seq<AuditChain.Line>)
    requires apply.outside == []
    requires AuditChain.Faithful(codec) && forall e :: codec.width(e) < 65_536
    ensures Reported(res, err) ==
            if !apply.fault.Delivered? then Broken(ExecuteFailed)
            else if cancelled then Broken(Cancelled) else Finished(Remediated)
    ensures res.executed <==> apply.fault.Delivered?
    ensures ImagesOf(left.containers) ==
            if apply.fault.Delivered? || apply.fault.ReplyLost? then map["app" := "app:1"] else map["app" := "app:2"]
    ensures ActionsOf(AuditChain.Entries(log)) ==
            if apply.fault.Delivered? && !cancelled then ["guardrails_passed", "execute_rollback", "verified"]
            else ["guardrails_passed", "execute_rollback"]
  {
    hide Ends, EndingOf, Leaves, Attempts, Guarded, Confirmed, Protocol, Sent, Now;
    hide Informed, Outage, SentBy, NotedBy, Trail, Names, ActionsOf, AuditChain.Run, AuditChain.Entries;
    var controller := Install(codec, key);
    res, err := controller.RunOnce(Outage(apply, cancelled));
    left, log := controller.client.server.d, controller.auditor.file.lines;
    ghost var run := controller.runs[0];
    assert controller.runs == [run];
    OutageReported(run, apply, cancelled, res, err, left);
    LoggedWords(run.ctx, run.events, res, err);
    OutageStamps(apply, cancelled);
    OutageLog(codec, key, run);
  }

  lemma OutageStamps(apply: Wire, cancelled: bool)
    ensures forall a :: Outage(apply, cancelled).stamps(a).io == AuditChain.Succeeds
  {
  }
}
