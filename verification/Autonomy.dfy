/**
  The autonomous rollback controller (cortex/internal/autonomy/controller.go): its
  configuration, the protocol every cycle follows, and the controller itself.

  Instants are nanoseconds, 0 being Go's zero time; rates and confidences are exact reals.
*/
module Autonomy {
  import opened Prelude
  import opened Kubernetes
  import AuditChain
  import Slo

  // ----- configuration -----

  datatype Config = Config(
    service: string, namespace: string, deployment: string, sloTarget: real, errorRateQuery: string,
    p95Query: string, traceQuery: string, logQuery: string, minConfidence: real, minReadyReplicas: int,
    protectedNamespaces: Option<seq<string>>, execute: bool, requiredBadCycles: int,
    rolloutTimeout: int, verifyDelay: int, maxRevisionAge: int, cooldown: int)

  const SECOND: int := 1_000_000_000
  const MINUTE: int := 60 * SECOND
  const MAX_DURATION: int := 0x7FFF_FFFF_FFFF_FFFF
  const MIN_DURATION: int := -MAX_DURATION - 1

  const SYSTEM_NAMESPACES: seq<string> := ["kube-system", "kube-public", "kube-node-lease"]

  const DEFAULT_MIN_CONFIDENCE: real := 0.9

  /** No field is left at its zero value. */
  predicate Complete(c: Config) {
    && c.sloTarget != 0.0 && c.minConfidence != 0.0 && c.minReadyReplicas != 0 && c.rolloutTimeout != 0
    && c.requiredBadCycles != 0 && c.maxRevisionAge != 0 && c.cooldown != 0 && c.protectedNamespaces.Some?
  }

  function Defaulted(c: Config): Config {
    c.(sloTarget := if c.sloTarget == 0.0 then 0.999 else c.sloTarget,
       minConfidence := if c.minConfidence == 0.0 then DEFAULT_MIN_CONFIDENCE else c.minConfidence,
       minReadyReplicas := if c.minReadyReplicas == 0 then 2 else c.minReadyReplicas,
       rolloutTimeout := if c.rolloutTimeout == 0 then 2 * MINUTE else c.rolloutTimeout,
       requiredBadCycles := if c.requiredBadCycles == 0 then 2 else c.requiredBadCycles,
       maxRevisionAge := if c.maxRevisionAge == 0 then 30 * MINUTE else c.maxRevisionAge,
       cooldown := if c.cooldown == 0 then 10 * MINUTE else c.cooldown,
       protectedNamespaces := if c.protectedNamespaces.None? then Some(SYSTEM_NAMESPACES) else c.protectedNamespaces)
  }

  method Defaults(c: Config) returns (r: Config)
    ensures r == Defaulted(c)
  {
    r := c;
    if r.sloTarget == 0.0 { r := r.(sloTarget := 0.999); }
    if r.minConfidence == 0.0 { r := r.(minConfidence := DEFAULT_MIN_CONFIDENCE); }
    if r.minReadyReplicas == 0 { r := r.(minReadyReplicas := 2); }
    if r.rolloutTimeout == 0 { r := r.(rolloutTimeout := 2 * MINUTE); }
    if r.requiredBadCycles == 0 { r := r.(requiredBadCycles := 2); }
    if r.maxRevisionAge == 0 { r := r.(maxRevisionAge := 30 * MINUTE); }
    if r.cooldown == 0 { r := r.(cooldown := 10 * MINUTE); }
    if r.protectedNamespaces.None? { r := r.(protectedNamespaces := Some(SYSTEM_NAMESPACES)); }
  }

  /** Every unset field gets a value, and what is set stays; so defaulting twice changes nothing more. */
  lemma DefaultedFills(c: Config)
    ensures Complete(Defaulted(c))
    ensures Complete(c) <==> Defaulted(c) == c
    ensures Defaulted(Defaulted(c)) == Defaulted(c)
  {
  }

  predicate ValidConfig(c: Config) {
    && c.service != "" && c.namespace != "" && c.deployment != "" && c.errorRateQuery != ""
    && 0.0 < c.sloTarget < 1.0
  }

  // ----- the scans -----

  method Protected(ns: string, list: seq<string>) returns (r: bool)
    ensures r <==> ns in list
  {
    for i := 0 to |list|
      invariant ns !in list[..i]
    {
      if ns == list[i] {
        return true;
      }
    }
    return false;
  }

  method SameKeys(a: Images, b: Images) returns (r: bool)
    ensures r <==> a.Keys == b.Keys
  {
    if |a| != |b| {
      return false;
    }
    var todo := a.Keys;
    while todo != {}
      invariant todo <= a.Keys
      invariant a.Keys - todo <= b.Keys
      decreases |todo|
    {
      var k :| k in todo;
      if k !in b {
        return false;
      }
      todo := todo - {k};
    }
    SubsetOfSameSize(a.Keys, b.Keys);
    return true;
  }

  lemma SubsetOfSameSize<T>(s: set<T>, t: set<T>)
    requires s <= t && |s| == |t|
    ensures s == t
  {
    assert t == s + (t - s);
    assert |t| == |s| + |t - s|;
  }

  /** Indexing a Go map: a missing key reads as the empty string. */
  function Lookup(m: Images, k: string): string { if k in m then m[k] else "" }

  method EqualImages(a: Images, b: Images) returns (r: bool)
    ensures r <==> |a| == |b| && forall k | k in a :: Lookup(b, k) == a[k]
    ensures a.Keys == b.Keys ==> (r <==> a == b)
  {
    if |a| != |b| {
      return false;
    }
    var todo := a.Keys;
    while todo != {}
      invariant todo <= a.Keys
      invariant forall k | k in a.Keys - todo :: Lookup(b, k) == a[k]
      decreases |todo|
    {
      var k :| k in todo;
      if Lookup(b, k) != a[k] {
        return false;
      }
      todo := todo - {k};
    }
    return true;
  }

  /** Alone, the comparison confuses a missing image with an empty one. */
  lemma EqualImagesIsNotEquality()
    ensures
      var a: Images, b: Images := map["app" := ""], map["web" := ""];
      a != b && |a| == |b| && forall k | k in a :: Lookup(b, k) == a[k]
  {
    var a: Images, b: Images := map["app" := ""], map["web" := ""];
    assert "app" in a && "app" !in b;
    assert |a.Keys| == |{"app"}| && |b.Keys| == |{"web"}|;
  }

  predicate SwappableImages(current: Images, previous: Images) {
    previous != map[] && current.Keys == previous.Keys && current != previous
  }

  /** The guard of the rollback: the same containers, at least one, with at least one different image. */
  method ImagesGuard(current: Images, previous: Images) returns (blocked: bool)
    ensures blocked <==> !SwappableImages(current, previous)
  {
    if |previous| == 0 {
      return true;
    }
    assert previous != map[];
    var same := SameKeys(current, previous);
    if !same {
      return true;
    }
    blocked := EqualImages(current, previous);
  }

  // ----- one cycle: what it is given, what it does -----

  /** Time subtraction saturates at the range of a duration. */
  function Sub(t: int, u: int): int {
    var d := t - u;
    if d > MAX_DURATION then MAX_DURATION else if d < MIN_DURATION then MIN_DURATION else d
  }

  datatype Action =
    | Blocked | Observe | Cooldown | ApprovalRequired | DryRunRejected
    | GuardrailsPassed | ExecuteRollback | Verified | VerificationFailed | Compensated

  /** The action as it stands in the log. */
  function Name(a: Action): string {
    match a
    case Blocked => "blocked"
    case Observe => "observe"
    case Cooldown => "cooldown"
    case ApprovalRequired => "approval_required"
    case DryRunRejected => "dry_run_rejected"
    case GuardrailsPassed => "guardrails_passed"
    case ExecuteRollback => "execute_rollback"
    case Verified => "verified"
    case VerificationFailed => "verification_failed"
    case Compensated => "compensated"
  }

  /** Different actions have different names, so a log of names is a log of actions. */
  lemma NamesTellActions(a: Action, b: Action)
    requires Name(a) == Name(b)
    ensures a == b
  {
    assert |Name(a)| == |Name(b)|;
    assert Name(a)[0] == Name(b)[0] && Name(a)[1] == Name(b)[1];
  }

  /** The rest of an audit entry, and how its append fares. */
  datatype Stamp = Stamp(at: int, incident: string, payload: string, io: AuditChain.AppendIo)

  /** Everything one cycle reads from its surroundings; None is a failed read. */
  datatype Env = Env(
    now: int, planRead: Wire, replicaSets: Option<seq<ReplicaSet>>,
    errorRate: Option<real>, p95: Option<real>, logs: Option<nat>, traces: Option<nat>,
    dryRun: Wire, apply: Wire, polls: seq<Wire>, cancelled: bool,
    errorRateAfter: Option<real>, p95After: Option<real>,
    dryRead: Wire, undoDryRun: Wire, undoRead: Wire, undo: Wire, stamps: Action -> Stamp)

  function DraftOf(env: Env, a: Action): AuditChain.Draft {
    var s := env.stamps(a);
    AuditChain.Draft(s.at, s.incident, Name(a), s.payload)
  }

  /**
    A cycle's steps, with the exchange each patch request was, and the deployment at the end
    of a wait. An undo whose read of the version failed sends nothing.
  */
  datatype Event =
    | Sampled(revision: int, exhausted: bool)
    | Audited(action: Action)
    | Patch(dryRun: bool, x: Exchange)
    | Waited(ok: bool, seen: Deployment)
    | Undo(dryRun: bool, sent: Option<Exchange>)

  datatype Providers = Providers(metrics: bool, cluster: bool, logs: bool, traces: bool)

  /**
    What a cycle decides on: settings, readings, the deployment as the cycle found it, its
    plan (or `refused`, when there is no earlier revision to plan for), and the controller's
    memory at that point.
  */
  datatype Context = Context(cfg: Config, has: Providers, env: Env, found: Deployment,
                             plan: Option<RollbackPlan>, refused: bool, rested: bool, streak: int)

  predicate Started(c: Context) { ValidConfig(c.cfg) && c.has.metrics && c.has.cluster }

  predicate InProtectedNamespace(c: Config) {
    c.protectedNamespaces.Some? && c.namespace in c.protectedNamespaces.value
  }

  /** The cycle gets as far as planning. */
  predicate Planning(c: Context) { Started(c) && !InProtectedNamespace(c.cfg) }

  /** The deployment as the plan's read saw it. */
  function Base(c: Context): Deployment {
    if Planning(c) then AfterWrites(c.found, c.env.planRead.outside) else c.found
  }

  /** The plan is the right one for the deployment as read, and missing only for its reason. */
  ghost predicate Informed(c: Context) {
    var answered, listing := c.env.planRead.fault.Delivered?, c.env.replicaSets;
    && (c.refused <==> Planning(c) && answered && NothingEarlier(Base(c), listing))
    && (c.plan.Some? <==> Planning(c) && answered && listing.Some? && !NothingEarlier(Base(c), listing))
    && (c.plan.Some? ==> IsPlan(c.cfg.namespace, c.cfg.deployment, Base(c), listing.value, c.plan.value))
  }

  /** The plan describes this very deployment. */
  ghost predicate PlannedOn(p: RollbackPlan, d: Deployment) {
    p.resourceVersion == d.resourceVersion && p.currentImages == ImagesOf(d.containers)
  }

  predicate Recent(c: Config, p: RollbackPlan, now: int) {
    && p.currentRevisionCreatedAt != 0
    && 0 <= Sub(now, p.currentRevisionCreatedAt) <= c.maxRevisionAge
  }

  predicate Rested(lastAction: int, now: int, cooldown: int) {
    lastAction == 0 || Sub(now, lastAction) >= cooldown
  }

  predicate TracesSeen(c: Context) {
    c.has.traces && c.cfg.traceQuery != "" && c.env.traces.Some? && c.env.traces.value > 0
  }

  predicate LogsSeen(c: Context) {
    c.has.logs && c.cfg.logQuery != "" && c.env.logs.Some? && c.env.logs.value > 0
  }

  predicate LatencySeen(c: Context) { c.cfg.p95Query != "" && c.env.p95.Some? }

  function Confidence(c: Context, p: RollbackPlan, exhausted: bool): real {
    var sum := 0.55
               + (if exhausted then 0.2 else 0.0)
               + (if p.previousRevision > 0 then 0.1 else 0.0)
               + (if TracesSeen(c) then 0.1 else 0.0)
               + (if LogsSeen(c) then 0.05 else 0.0)
               + (if LatencySeen(c) then 0.03 else 0.0)
               + (if p.readyReplicas >= p.desiredReplicas && p.desiredReplicas > 0 then 0.02 else 0.0);
    if sum < 0.99 then sum else 0.99
  }

  predicate EnoughReplicas(c: Config, p: RollbackPlan) {
    p.desiredReplicas >= c.minReadyReplicas && p.readyReplicas >= c.minReadyReplicas
  }

  /** The bar a rollback must clear to be called verified. */
  predicate Postconditions(c: Context) {
    && c.env.errorRateAfter.Some? && c.env.errorRateAfter.value <= 1.0 - c.cfg.sloTarget
    && (LatencySeen(c) && c.env.p95After.Some? ==> c.env.p95After.value <= c.env.p95.value * 1.2)
  }

  /** Cancelled while it waits to measure again; without a delay nobody looks. */
  predicate Interrupted(c: Context) { c.env.cancelled && c.cfg.verifyDelay > 0 }

  // ----- the protocol -----

  function Last(past: seq<Event>): Option<Event> {
    if past == [] then None else Some(past[|past| - 1])
  }

  /** A real rollback patch, as opposed to its dry run. */
  predicate Attempt(e: Event) { e.Patch? && !e.dryRun }

  predicate Attempts(events: seq<Event>) { exists e | e in events :: Attempt(e) }

  /** The server's good answer to a patch request. */
  predicate Accepted(e: Event) {
    (e.Patch? && e.x.ok) || (e.Undo? && e.sent.Some? && e.sent.value.ok)
  }

  /** A real rollback patch was answered well. */
  ghost predicate Executed(events: seq<Event>) { exists e :: e in events && Attempt(e) && Accepted(e) }

  /** The deployment after one more step. */
  function Moved(c: Context, d: Deployment, e: Event): Deployment {
    match e
    case Patch(_, x) => x.after
    case Waited(_, seen) => seen
    case Undo(dryRun, sent) =>
      if sent.Some? then sent.value.after
      else AfterWrites(d, (if dryRun then c.env.dryRead else c.env.undoRead).outside)
    case Sampled(_, _) | Audited(_) => d
  }

  function Now(c: Context, events: seq<Event>): Deployment {
    if events == [] then Base(c) else Moved(c, Now(c, events[..|events| - 1]), events[|events| - 1])
  }

  /** One exchange: the planned version, the previous images, on the deployment `d` plus what others write. */
  ghost predicate IsRollback(c: Context, d: Deployment, dryRun: bool, x: Exchange)
    requires c.plan.Some?
  {
    && Handled(x) && x.w == (if dryRun then c.env.dryRun else c.env.apply)
    && x.request == Some(Request(dryRun, c.plan.value.resourceVersion, c.plan.value.previousImages))
    && x.before == AfterWrites(d, x.w.outside)
  }

  /** A read and, if it is answered, one exchange: the version just read, the original images. */
  ghost predicate IsUndo(c: Context, d: Deployment, dryRun: bool, sent: Option<Exchange>)
    requires c.plan.Some?
  {
    var read := if dryRun then c.env.dryRead else c.env.undoRead;
    var seen := AfterWrites(d, read.outside);
    && (sent.Some? <==> read.fault.Delivered?)
    && (sent.Some? ==>
          var x := sent.value;
          && Handled(x) && x.w == (if dryRun then c.env.undoDryRun else c.env.undo)
          && x.request == Some(Request(dryRun, seen.resourceVersion, c.plan.value.currentImages))
          && x.before == AfterWrites(seen, x.w.outside))
  }

  /** When a cycle may stop and say so. */
  ghost predicate MayAudit(c: Context, past: seq<Event>, a: Action) {
    var last := Last(past);
    match a
    case Blocked =>
      if past == [] then Started(c) && InProtectedNamespace(c.cfg) else
        && |past| == 1 && last.value.Sampled? && last.value.exhausted && c.plan.Some?
        && c.streak >= c.cfg.requiredBadCycles && Confidence(c, c.plan.value, true) >= c.cfg.minConfidence
        && !(EnoughReplicas(c.cfg, c.plan.value)
             && SwappableImages(c.plan.value.currentImages, c.plan.value.previousImages))
    case Observe =>
      if past == [] then
        && Started(c) && !InProtectedNamespace(c.cfg)
        && if c.plan.Some? then !Recent(c.cfg, c.plan.value, c.env.now) else c.refused
      else
        |past| == 1 && last.value.Sampled? && (!last.value.exhausted || c.streak < c.cfg.requiredBadCycles)
    case Cooldown =>
      && past == [] && Started(c) && !InProtectedNamespace(c.cfg)
      && c.plan.Some? && Recent(c.cfg, c.plan.value, c.env.now) && !c.rested
    case ApprovalRequired =>
      && |past| == 1 && last.value.Sampled? && last.value.exhausted && c.plan.Some?
      && c.streak >= c.cfg.requiredBadCycles && Confidence(c, c.plan.value, true) < c.cfg.minConfidence
    case DryRunRejected => last.Some? && last.value.Patch? && last.value.dryRun && !Accepted(last.value)
    case GuardrailsPassed => last.Some? && last.value.Patch? && last.value.dryRun && Accepted(last.value)
    case ExecuteRollback => last == Some(Audited(GuardrailsPassed)) && c.cfg.execute
    case Verified => last.Some? && last.value.Waited? && last.value.ok && !Interrupted(c) && Postconditions(c)
    case VerificationFailed =>
      last.Some? && last.value.Waited? && (last.value.ok ==> !Interrupted(c) && !Postconditions(c))
    case Compensated => last.Some? && last.value.Undo? && !last.value.dryRun && Accepted(last.value)
  }

  /** When the rollback may be tried, and when it may be carried out. */
  predicate MayPatch(c: Context, past: seq<Event>, dryRun: bool) {
    && c.plan.Some?
    && if dryRun then
         && |past| == 1 && past[0].Sampled? && past[0].exhausted
         && c.streak >= c.cfg.requiredBadCycles && Confidence(c, c.plan.value, true) >= c.cfg.minConfidence
         && EnoughReplicas(c.cfg, c.plan.value)
         && SwappableImages(c.plan.value.currentImages, c.plan.value.previousImages)
       else
         Last(past) == Some(Audited(ExecuteRollback))
  }

  predicate MayUndo(c: Context, past: seq<Event>, dryRun: bool) {
    var last := Last(past);
    && c.plan.Some?
    && if dryRun then last == Some(Audited(VerificationFailed))
       else last.Some? && last.value.Undo? && last.value.dryRun && Accepted(last.value)
  }

  /** Which step may come next after `past`. */
  ghost predicate May(c: Context, past: seq<Event>, e: Event) {
    var last := Last(past);
    match e
    case Sampled(revision, exhausted) =>
      && past == [] && Planning(c) && c.plan.Some? && PlannedOn(c.plan.value, Base(c))
      && revision == c.plan.value.currentRevision
      && Recent(c.cfg, c.plan.value, c.env.now) && c.rested && c.env.errorRate.Some?
      && exhausted == Slo.EvaluateErrorRate(c.cfg.sloTarget, c.env.errorRate.value).exhausted
    case Audited(a) => MayAudit(c, past, a)
    case Patch(dryRun, x) => MayPatch(c, past, dryRun) && IsRollback(c, Now(c, past), dryRun, x)
    case Waited(ok, seen) =>
      && last.Some? && last.value.Patch? && !last.value.dryRun && Accepted(last.value)
      && (ok <==> RolloutSeen(Now(c, past), c.env.polls)) && seen == AfterWait(Now(c, past), c.env.polls)
    case Undo(dryRun, sent) => MayUndo(c, past, dryRun) && IsUndo(c, Now(c, past), dryRun, sent)
  }

  ghost predicate Protocol(c: Context, events: seq<Event>) {
    events == [] || (Protocol(c, events[..|events| - 1]) && May(c, events[..|events| - 1], events[|events| - 1]))
  }

  lemma ProtocolSnoc(c: Context, events: seq<Event>, e: Event)
    requires Protocol(c, events) && May(c, events, e)
    ensures Protocol(c, events + [e])
  {
    assert (events + [e])[..|events|] == events;
  }

  datatype Verdict =
    | Unset | BlockedVerdict | ObserveVerdict | CooldownVerdict | HumanApprovalRequired
    | GuardrailsPassedVerdict | Verifying | Remediated | CompensatedVerdict

  datatype RunError =
    | InvalidConfig | MissingProviders | PlanFailed | QueryFailed | ExecuteFailed | Cancelled
    | UndoDryRunFailed | UndoFailed

  datatype RunResult = RunResult(
    verdict: Verdict, confidence: real, budget: Slo.Budget, plan: Option<RollbackPlan>,
    errorRateBefore: real, errorRateAfter: Option<real>, p95Before: Option<real>, p95After: Option<real>,
    executed: bool, compensated: bool)

  const EMPTY: RunResult := RunResult(Unset, 0.0, Slo.Blank(0.0), None, 0.0, None, None, None, false, false)

  /** The verdict that goes with the audit entry a cycle ends on; None when a cycle cannot end there. */
  function FinalVerdict(c: Context, a: Action): Option<Verdict> {
    match a
    case Blocked | DryRunRejected => Some(BlockedVerdict)
    case Observe => Some(ObserveVerdict)
    case Cooldown => Some(CooldownVerdict)
    case ApprovalRequired => Some(HumanApprovalRequired)
    case GuardrailsPassed => if c.cfg.execute then None else Some(GuardrailsPassedVerdict)
    case Verified => Some(Remediated)
    case Compensated => Some(CompensatedVerdict)
    case ExecuteRollback | VerificationFailed => None
  }

  /** How a cycle may end: on an audit entry its verdict repeats, or on the step its error reports. */
  ghost predicate Ends(c: Context, events: seq<Event>, res: RunResult, err: Option<RunError>) {
    var last := Last(events);
    match err
    case None =>
      && last.Some? && last.value.Audited? && FinalVerdict(c, last.value.action) == Some(res.verdict)
    case Some(e) =>
      match e
      case InvalidConfig => events == [] && !ValidConfig(c.cfg)
      case MissingProviders => events == [] && ValidConfig(c.cfg) && !(c.has.metrics && c.has.cluster)
      case PlanFailed => events == [] && Planning(c) && c.plan.None? && !c.refused
      case QueryFailed =>
        && events == [] && Planning(c) && c.plan.Some? && Recent(c.cfg, c.plan.value, c.env.now)
        && c.rested && c.env.errorRate.None?
      case ExecuteFailed => last.Some? && last.value.Patch? && !last.value.dryRun && !Accepted(last.value)
      case Cancelled => last.Some? && last.value.Waited? && last.value.ok && Interrupted(c)
      case UndoDryRunFailed => last.Some? && last.value.Undo? && last.value.dryRun && !Accepted(last.value)
      case UndoFailed => last.Some? && last.value.Undo? && !last.value.dryRun && !Accepted(last.value)
  }
}
