/**
  How a cycle ends and which images it leaves behind, as functions of what the cycle is
  given: settings, readings, the fate of its requests, and its memory. The protocol says
  step by step what may follow what; these lemmas say what that amounts to.
*/
module Endings {
  import opened Prelude
  import opened Kubernetes
  import opened Autonomy
  import Slo

  // ----- guards -----

  /** The cycle gets as far as counting a sample. */
  predicate Samplable(c: Context) {
    && Planning(c) && c.plan.Some? && Recent(c.cfg, c.plan.value, c.env.now) && c.rested && c.env.errorRate.Some?
  }

  predicate Exhausted(c: Context) {
    c.env.errorRate.Some? && Slo.EvaluateErrorRate(c.cfg.sloTarget, c.env.errorRate.value).exhausted
  }

  predicate Persistent(c: Context) { Exhausted(c) && c.streak >= c.cfg.requiredBadCycles }

  predicate PassesGates(c: Context) {
    && Samplable(c) && Persistent(c)
    && Confidence(c, c.plan.value, true) >= c.cfg.minConfidence
    && EnoughReplicas(c.cfg, c.plan.value)
    && SwappableImages(c.plan.value.currentImages, c.plan.value.previousImages)
  }

  /** Everything that must have been established before the cluster may be changed. */
  predicate Guarded(c: Context) { PassesGates(c) && c.cfg.execute }

  // ----- the fate of the requests -----

  /** Answered, and nobody wrote since the version it names was read. */
  predicate Clean(w: Wire) { w.fault.Delivered? && w.outside == [] }

  /** Takes effect, whether or not the reply arrives. */
  predicate Applies(w: Wire) { w.outside == [] && (w.fault.Delivered? || w.fault.ReplyLost?) }

  predicate UndoAgreed(env: Env) { env.dryRead.fault.Delivered? && Clean(env.undoDryRun) }

  predicate UndoConfirmed(env: Env) { UndoAgreed(env) && env.undoRead.fault.Delivered? && Clean(env.undo) }

  predicate UndoApplies(env: Env) { UndoAgreed(env) && env.undoRead.fault.Delivered? && Applies(env.undo) }

  /** Some poll finds the patched deployment rolled out; the patch itself only adds a generation. */
  predicate Ready(c: Context) {
    RolloutSeen(Base(c).(generation := Base(c).generation + 1), c.env.polls)
  }

  /** The rollback was applied, and the controller knows. */
  predicate Confirmed(c: Context) { Guarded(c) && Clean(c.env.dryRun) && Clean(c.env.apply) }

  /** A confirmed rollback is left in place. */
  predicate Kept(c: Context) { Ready(c) && (Interrupted(c) || Postconditions(c)) }

  // ----- endings -----

  datatype Ending = Finished(verdict: Verdict) | Broken(error: RunError)

  function Reported(res: RunResult, err: Option<RunError>): Ending {
    if err.None? then Finished(res.verdict) else Broken(err.value)
  }

  /** The decision table of a cycle that attempts no rollback. */
  function StopEnding(c: Context): Ending {
    if !ValidConfig(c.cfg) then Broken(InvalidConfig)
    else if !(c.has.metrics && c.has.cluster) then Broken(MissingProviders)
    else if InProtectedNamespace(c.cfg) then Finished(BlockedVerdict)
    else if c.plan.None? then (if c.refused then Finished(ObserveVerdict) else Broken(PlanFailed))
    else if !Recent(c.cfg, c.plan.value, c.env.now) then Finished(ObserveVerdict)
    else if !c.rested then Finished(CooldownVerdict)
    else if c.env.errorRate.None? then Broken(QueryFailed)
    else if !Persistent(c) then Finished(ObserveVerdict)
    else if Confidence(c, c.plan.value, true) < c.cfg.minConfidence then Finished(HumanApprovalRequired)
    else if !PassesGates(c) || !Clean(c.env.dryRun) then Finished(BlockedVerdict)
    else Finished(GuardrailsPassedVerdict)
  }

  /** And of one that does. */
  function AttemptEnding(c: Context): Ending {
    if !Clean(c.env.apply) then Broken(ExecuteFailed)
    else if Ready(c) && Interrupted(c) then Broken(Cancelled)
    else if Kept(c) then Finished(Remediated)
    else if !UndoAgreed(c.env) then Broken(UndoDryRunFailed)
    else if !UndoConfirmed(c.env) then Broken(UndoFailed)
    else Finished(CompensatedVerdict)
  }

  function EndingOf(c: Context): Ending {
    if Guarded(c) && Clean(c.env.dryRun) then AttemptEnding(c) else StopEnding(c)
  }

  /** What a cycle that stands at its step `last`, with the deployment at `now`, has established. */
  ghost predicate Known(c: Context, last: Option<Event>, now: Deployment) {
    if last.None? then now == Base(c) else
    match last.value
    case Sampled(_, exhausted) =>
      Samplable(c) && PlannedOn(c.plan.value, Base(c)) && (exhausted <==> Exhausted(c)) && now == Base(c)
    case Patch(dryRun, x) =>
      && PassesGates(c) && PlannedOn(c.plan.value, Base(c)) && now == x.after
      && if dryRun then now == AfterWrites(Base(c), c.env.dryRun.outside) && (x.ok <==> Clean(c.env.dryRun))
         else
           && c.cfg.execute && Clean(c.env.dryRun) && Handled(x)
           && x.before == AfterWrites(Base(c), c.env.apply.outside)
           && (x.ok <==> Clean(c.env.apply)) && (Effective(x) <==> Applies(c.env.apply))
    case Waited(ok, seen) => Confirmed(c) && now == seen && (ok <==> Ready(c))
    case Undo(dryRun, sent) =>
      && Confirmed(c) && !Kept(c)
      && if dryRun then Accepted(last.value) <==> UndoAgreed(c.env)
         else
           && UndoAgreed(c.env) && (Accepted(last.value) <==> UndoConfirmed(c.env))
           && (sent.Some? && Effective(sent.value) <==> UndoApplies(c.env))
    case Audited(a) =>
      match a
      case Blocked | Observe | Cooldown | ApprovalRequired =>
        Finished(FinalVerdict(c, a).value) == StopEnding(c) && !PassesGates(c) && now == Base(c)
      case DryRunRejected =>
        PassesGates(c) && !Clean(c.env.dryRun) && now == AfterWrites(Base(c), c.env.dryRun.outside)
      case GuardrailsPassed | ExecuteRollback =>
        && PassesGates(c) && (a.ExecuteRollback? ==> c.cfg.execute)
        && PlannedOn(c.plan.value, Base(c)) && Clean(c.env.dryRun) && now == Base(c)
      case Verified => Confirmed(c) && Ready(c) && !Interrupted(c) && Postconditions(c)
      case VerificationFailed => Confirmed(c) && !Kept(c)
      case Compensated => Confirmed(c) && !Kept(c) && UndoConfirmed(c.env)
  }

  /** Rollout status does not depend on version or containers. */
  ghost predicate SameStatus(d: Deployment, e: Deployment) {
    e == d.(resourceVersion := e.resourceVersion, containers := e.containers)
  }

  lemma {:induction false} PollsKeepStatus(d: Deployment, e: Deployment, polls: seq<Wire>)
    requires SameStatus(d, e)
    ensures SameStatus(AfterPolls(d, polls), AfterPolls(e, polls))
    decreases |polls|
  {
    if polls != [] { PollsKeepStatus(d, e, polls[..|polls| - 1]); }
  }

  lemma StatusDecides(d: Deployment, e: Deployment, polls: seq<Wire>)
    requires SameStatus(d, e)
    ensures RolloutSeen(d, polls) <==> RolloutSeen(e, polls)
  {
    if k: nat :| k < |polls| && polls[k].fault.Delivered?
                 && (RolledOut(AfterPolls(d, polls[..k + 1])) || RolledOut(AfterPolls(e, polls[..k + 1]))) {
      PollsKeepStatus(d, e, polls[..k + 1]);
    }
  }

  lemma WaitStep(c: Context, past: seq<Event>, e: Event)
    requires Known(c, Last(past), Now(c, past)) && May(c, past, e) && e.Waited?
    ensures Known(c, Some(e), Moved(c, Now(c, past), e))
  {
    hide RolloutSeen, AfterWait, PassesGates;
    var patched := Now(c, past);
    StatusDecides(Base(c).(generation := Base(c).generation + 1), patched, c.env.polls);
  }

  lemma UndoStep(c: Context, past: seq<Event>, e: Event)
    requires Known(c, Last(past), Now(c, past)) && May(c, past, e) && e.Undo?
    ensures Known(c, Some(e), Moved(c, Now(c, past), e))
  {
  }

  lemma AuditStep(c: Context, past: seq<Event>, e: Event)
    requires Known(c, Last(past), Now(c, past)) && May(c, past, e) && e.Audited?
    ensures Known(c, Some(e), Moved(c, Now(c, past), e))
  {
  }

  lemma PatchStep(c: Context, past: seq<Event>, e: Event)
    requires Known(c, Last(past), Now(c, past)) && May(c, past, e) && e.Patch?
    ensures Known(c, Some(e), Moved(c, Now(c, past), e))
  {
  }

  /** Whatever step a cycle has reached, its environment and memory are as that step says. */
  lemma {:induction false} Knowledge(c: Context, events: seq<Event>)
    requires Protocol(c, events)
    ensures Known(c, Last(events), Now(c, events))
  {
    if events != [] {
      var past, e := events[..|events| - 1], events[|events| - 1];
      Knowledge(c, past);
      match e {
        case Sampled(_, _) =>
        case Patch(_, _) => PatchStep(c, past, e);
        case Waited(_, _) => WaitStep(c, past, e);
        case Undo(_, _) => UndoStep(c, past, e);
        case Audited(_) => AuditStep(c, past, e);
      }
    }
  }

  /** The steps from the real patch on. */
  predicate Late(last: Option<Event>) {
    last.Some? &&
    match last.value
    case Sampled(_, _) => false
    case Patch(dryRun, _) => !dryRun
    case Waited(_, _) | Undo(_, _) => true
    case Audited(a) => a.Verified? || a.VerificationFailed? || a.Compensated?
  }

  lemma LateStep(c: Context, past: seq<Event>, e: Event)
    requires May(c, past, e)
    ensures Late(Some(e)) <==> Late(Last(past)) || Attempt(e)
  {
  }

  lemma NoAttempts()
    ensures !Attempts([])
  {
  }

  lemma AttemptsSnoc(past: seq<Event>, e: Event)
    ensures Attempts(past + [e]) <==> Attempts(past) || Attempt(e)
  {
    assert e in past + [e] && forall f :: f in past + [e] <==> f in past || f == e;
  }

  lemma {:induction false} LateIsAttempted(c: Context, events: seq<Event>)
    requires Protocol(c, events)
    ensures Late(Last(events)) <==> Attempts(events)
  {
    hide May, Attempts;
    if events == [] {
      NoAttempts();
    } else {
      var past, e := events[..|events| - 1], events[|events| - 1];
      LateIsAttempted(c, past);
      LateStep(c, past, e);
      AttemptsSnoc(past, e);
      assert events == past + [e];
    }
  }

  lemma ExecutedSnoc(past: seq<Event>, e: Event)
    ensures Executed(past + [e]) <==> Executed(past) || (Attempt(e) && Accepted(e))
  {
    assert e in past + [e] && forall f :: f in past + [e] <==> f in past || f == e;
  }

  lemma LateNext(c: Context, past: seq<Event>, e: Event)
    requires May(c, past, e)
    ensures Late(Last(past)) ==> Accepted(Last(past).value) || !Last(past).value.Patch?
  {
  }

  lemma {:induction false} LateIsExecuted(c: Context, events: seq<Event>)
    requires Protocol(c, events)
    ensures Executed(events) <==>
            Late(Last(events)) && (Accepted(Last(events).value) || !Last(events).value.Patch?)
  {
    if events != [] {
      hide May, Executed, Late;
      var past, e := events[..|events| - 1], events[|events| - 1];
      LateIsExecuted(c, past);
      LateNext(c, past, e);
      LateStep(c, past, e);
      ExecutedSnoc(past, e);
      LatePatch(e);
      assert events == past + [e];
    }
  }

  lemma LatePatch(e: Event)
    ensures e.Patch? ==> (Late(Some(e)) <==> Attempt(e))
  {
  }

  /** The controller counts a rollback as executed exactly when the patch, too, was answered at the planned version. */
  lemma ExecutedIff(c: Context, events: seq<Event>, res: RunResult, err: Option<RunError>)
    requires Protocol(c, events) && Ends(c, events, res, err)
    ensures Executed(events) <==> Confirmed(c)
  {
    Knowledge(c, events);
    LateIsExecuted(c, events);
  }

  /**
    A finished cycle attempted a rollback exactly when every guard held and the dry run was
    answered at the planned version.
  */
  lemma AttemptsIff(c: Context, events: seq<Event>, res: RunResult, err: Option<RunError>)
    requires Protocol(c, events) && Ends(c, events, res, err)
    ensures Attempts(events) <==> Guarded(c) && Clean(c.env.dryRun)
  {
    Knowledge(c, events);
    LateIsAttempted(c, events);
  }

  /** The ending of a cycle is a function of what it was given. */
  lemma EndingIsDetermined(c: Context, events: seq<Event>, res: RunResult, err: Option<RunError>)
    requires Protocol(c, events) && Ends(c, events, res, err)
    ensures Reported(res, err) == EndingOf(c)
  {
    Knowledge(c, events);
  }

  /** Without an attempt the deployment is as read, or as the others left it before the dry run. */
  lemma Untouched(c: Context, events: seq<Event>, res: RunResult, err: Option<RunError>)
    requires Protocol(c, events) && Ends(c, events, res, err) && !Attempts(events)
    ensures Now(c, events) == if PassesGates(c) then AfterWrites(Base(c), c.env.dryRun.outside) else Base(c)
  {
    Knowledge(c, events);
    LateIsAttempted(c, events);
  }

  // ----- the images a cycle leaves -----

  /** Others may write, rollout status say, but keep the original images up to the patch and the previous ones after. */
  predicate OthersKeepImages(env: Env, p: RollbackPlan) {
    && Keep(env.dryRun.outside, p.currentImages) && Keep(env.apply.outside, p.currentImages)
    && (forall w | w in env.polls :: Keep(w.outside, p.previousImages))
    && Keep(env.dryRead.outside, p.previousImages) && Keep(env.undoDryRun.outside, p.previousImages)
    && Keep(env.undoRead.outside, p.previousImages) && Keep(env.undo.outside, p.previousImages)
  }

  /**
    An attempted rollback stays in place: applied with its reply lost; or applied and either
    rolled out and then cancelled or verified, or not and the undo does not take effect.
  */
  predicate PreviousRemain(c: Context) {
    || (c.env.apply.fault.ReplyLost? && c.env.apply.outside == [])
    || (Clean(c.env.apply) && (Kept(c) || !UndoApplies(c.env)))
  }

  function ImagesAt(c: Context, last: Option<Event>): Images
    requires c.plan.Some?
  {
    var p := c.plan.value;
    if !Late(last) then p.currentImages else
    match last.value
    case Patch(_, _) => if Applies(c.env.apply) then p.previousImages else p.currentImages
    case Undo(dryRun, _) => if !dryRun && UndoApplies(c.env) then p.currentImages else p.previousImages
    case Audited(a) => if a.Compensated? then p.currentImages else p.previousImages
    case Waited(_, _) | Sampled(_, _) => p.previousImages
  }

  /** A patch of the planned version, with the same containers, leaves exactly the images it names. */
  lemma PatchedImages(before: Deployment, imgs: Images, after: Deployment)
    requires Patched(before, imgs, after) && ImagesOf(before.containers).Keys == imgs.Keys
    ensures ImagesOf(after.containers) == imgs
  {
    assert ImagesOf(before.containers) + imgs == imgs;
  }

  lemma {:induction false} WaitKeepsImages(d: Deployment, polls: seq<Wire>, imgs: Images)
    requires (forall w | w in polls :: Keep(w.outside, imgs)) && ImagesOf(d.containers) == imgs
    ensures ImagesOf(AfterWait(d, polls).containers) == imgs
    decreases |polls|
  {
    if polls != [] {
      assert polls[0] in polls && forall w | w in polls[1..] :: w in polls;
      KeepsImages(d, polls[0].outside, imgs);
      WaitKeepsImages(AfterWrites(d, polls[0].outside), polls[1..], imgs);
    }
  }

  lemma PatchImagesStep(c: Context, past: seq<Event>, e: Event)
    requires Known(c, Last(past), Now(c, past)) && May(c, past, e) && e.Patch? && OthersKeepImages(c.env, c.plan.value)
    ensures ImagesOf(Moved(c, Now(c, past), e).containers) == ImagesAt(c, Some(e))
  {
    var p := c.plan.value;
    PatchStep(c, past, e);
    KeepsImages(Base(c), e.x.w.outside, p.currentImages);
    if Effective(e.x) { PatchedImages(e.x.before, p.previousImages, e.x.after); }
  }

  lemma UndoImagesStep(c: Context, past: seq<Event>, e: Event)
    requires Known(c, Last(past), Now(c, past)) && May(c, past, e) && e.Undo? && OthersKeepImages(c.env, c.plan.value)
    requires ImagesOf(Now(c, past).containers) == c.plan.value.previousImages
    ensures ImagesOf(Moved(c, Now(c, past), e).containers) == ImagesAt(c, Some(e))
  {
    var p, env := c.plan.value, c.env;
    var read := if e.dryRun then env.dryRead else env.undoRead;
    UndoStep(c, past, e);
    KeepsImages(Now(c, past), read.outside, p.previousImages);
    if e.sent.Some? {
      var x := e.sent.value;
      KeepsImages(AfterWrites(Now(c, past), read.outside), x.w.outside, p.previousImages);
      if Effective(x) { PatchedImages(x.before, p.currentImages, x.after); }
    }
  }

  lemma {:induction false} ImagesFollow(c: Context, events: seq<Event>)
    requires Protocol(c, events) && c.plan.Some? && PlannedOn(c.plan.value, Base(c))
    requires OthersKeepImages(c.env, c.plan.value)
    ensures ImagesOf(Now(c, events).containers) == ImagesAt(c, Last(events))
  {
    if events != [] {
      var past, e := events[..|events| - 1], events[|events| - 1];
      ImagesFollow(c, past);
      Knowledge(c, past);
      match e {
        case Patch(_, _) => PatchImagesStep(c, past, e);
        case Waited(_, _) => WaitKeepsImages(Now(c, past), c.env.polls, c.plan.value.previousImages);
        case Undo(_, _) => UndoImagesStep(c, past, e);
        case Sampled(_, _) =>
        case Audited(_) => AuditStep(c, past, e);
      }
    }
  }

  /**
    Which images a cycle leaves when the others keep theirs: the previous ones exactly when it
    attempted a rollback that remains, and the original ones otherwise.
  */
  lemma ImagesLeft(c: Context, events: seq<Event>, res: RunResult, err: Option<RunError>)
    requires Protocol(c, events) && Ends(c, events, res, err)
    requires c.plan.Some? && PlannedOn(c.plan.value, Base(c)) && OthersKeepImages(c.env, c.plan.value)
    ensures ImagesOf(Now(c, events).containers) ==
            if Attempts(events) && PreviousRemain(c) then c.plan.value.previousImages else c.plan.value.currentImages
  {
    Knowledge(c, events);
    LateIsAttempted(c, events);
    ImagesFollow(c, events);
  }
}
