/** The controller of cortex/internal/autonomy/controller.go, with its history as ghost state. */
module Controllers {
  import opened Prelude
  import opened Kubernetes
  import opened Autonomy
  import opened Endings
  import opened Criteria
  import opened Histories
  import AuditChain
  import Slo

  // ----- what a cycle promises -----

  /** One step more, told without naming the sequence. */
  ghost predicate Extends(past: seq<Event>, e: Event, events: seq<Event>) {
    && past <= events && |events| == |past| + 1 && Last(events) == Some(e)
    && (Attempts(events) <==> Attempts(past) || Attempt(e))
    && (Executed(events) <==> Executed(past) || (Attempt(e) && Accepted(e)))
  }

  lemma ExtendsSnoc(past: seq<Event>, e: Event)
    ensures Extends(past, e, past + [e])
  {
    AttemptsSnoc(past, e);
    ExecutedSnoc(past, e);
  }

  /** After a sample the result carries the plan and everything that was weighed. */
  ghost predicate Measured(c: Context, res: RunResult) {
    Samplable(c) ==>
      && res.plan == c.plan && res.errorRateBefore == c.env.errorRate.value
      && res.budget == Slo.EvaluateErrorRate(c.cfg.sloTarget, c.env.errorRate.value)
      && res.confidence == Confidence(c, c.plan.value, Exhausted(c))
      && res.p95Before == if LatencySeen(c) then c.env.p95 else None
  }

  /**
    The cycle ends the way its result says; an executed rollback without an error either has
    the rate back within the objective or was undone.
  */
  ghost predicate Outcome(c: Context, events: seq<Event>, res: RunResult, err: Option<RunError>) {
    && Ends(c, events, res, err) && Measured(c, res)
    && (res.executed <==> Executed(events))
    && (res.compensated <==> err.None? && res.verdict.CompensatedVerdict?)
    && (err.None? && res.executed ==>
          || (res.verdict.Remediated? && res.errorRateAfter.Some?
              && res.errorRateAfter.value <= 1.0 - c.cfg.sloTarget)
          || (res.verdict.CompensatedVerdict? && res.compensated))
  }

  /** Where a finished cycle leaves the deployment: an attempt alone changes it, and keeps or restores its images. */
  ghost predicate Leaves(c: Context, events: seq<Event>, d: Deployment) {
    && (!Attempts(events) ==> d == if PassesGates(c) then AfterWrites(Base(c), c.env.dryRun.outside) else Base(c))
    && (c.plan.Some? && OthersKeepImages(c.env, c.plan.value) ==>
          ImagesOf(d.containers) ==
            if Attempts(events) && PreviousRemain(c) then c.plan.value.previousImages else c.plan.value.currentImages)
  }

  /** The lemmas about endings, for one finished cycle. */
  lemma CycleEnds(c: Context, events: seq<Event>, res: RunResult, err: Option<RunError>)
    requires Protocol(c, events) && Ends(c, events, res, err) && Informed(c)
    ensures Reported(res, err) == EndingOf(c)
    ensures Attempts(events) <==> Guarded(c) && Clean(c.env.dryRun)
    ensures Executed(events) <==> Confirmed(c)
    ensures Leaves(c, events, Now(c, events))
  {
    EndingIsDetermined(c, events, res, err);
    AttemptsIff(c, events, res, err);
    ExecutedIff(c, events, res, err);
    if !Attempts(events) { Untouched(c, events, res, err); }
    if c.plan.Some? && OthersKeepImages(c.env, c.plan.value) { ImagesLeft(c, events, res, err); }
  }

  // ----- the controller's memory -----

  /** How a cycle moves the memory: not at all before its sample, by sample and attempt after it. */
  ghost predicate Advanced(c: Context, events: seq<Event>, streak0: int, revision0: int, action0: int,
                           streak: int, revision: int, action: int)
  {
    && Protocol(c, events)
    && if SamplesIn(events) == [] then
         !Attempts(events) && streak == streak0 && revision == revision0 && action == action0
       else
         && streak == c.streak == NextStreak(streak0, revision0, SamplesIn(events)[0])
         && revision == SamplesIn(events)[0].revision
         && action == if Attempts(events) then c.env.now else action0
  }

  /** The memory stays what the history says. */
  lemma AdvancedRemembers(runs: seq<Run>, run: Run, streak0: int, revision0: int, action0: int)
    requires Remembers(runs, streak0, revision0, action0) && Informed(run.ctx)
    requires run.ctx.rested == Rested(action0, run.ctx.env.now, run.ctx.cfg.cooldown)
    ensures forall streak, revision, action |
              Advanced(run.ctx, run.events, streak0, revision0, action0, streak, revision, action) ::
              Remembers(runs + [run], streak, revision, action)
  {
    var all := runs + [run];
    assert all[..|runs|] == runs;
    if SamplesIn(run.events) == [] {
      assert Samples(all) == Samples(runs);
    } else {
      assert SamplesIn(run.events) == [SamplesIn(run.events)[0]];
      StreakSnoc(Samples(runs), SamplesIn(run.events)[0], streak0);
    }
  }

  // ----- the controller -----

  /** What was asked of the server and of the auditor: the patches it handled, the appends made. */
  datatype Books = Books(sent: seq<Exchange>, noted: seq<AuditChain.Op>)

  /** The same, some steps of a cycle later. */
  function Further(books: Books, c: Context, events: seq<Event>): Books {
    Books(books.sent + Sent(events), books.noted + Noted(c.env, events))
  }

  /** What has been asked by the end of a history. */
  function Told(earlier: Books, runs: seq<Run>): Books {
    Books(earlier.sent + SentBy(runs), earlier.noted + NotedBy(runs))
  }

  lemma ToldSnoc(earlier: Books, runs: seq<Run>, run: Run)
    ensures Told(earlier, runs + [run]) == Further(Told(earlier, runs), run.ctx, run.events)
  {
    hide SentBy, NotedBy, Sent, Noted;
    SentBySnoc(runs, run);
    NotedBySnoc(runs, run);
  }

  lemma NothingYet(books: Books, c: Context)
    ensures Further(books, c, []) == books
  {
  }

  class Controller {
    const has: Providers
    const client: Client?
    const auditor: AuditChain.Chain?
    var config: Config
    var badStreak: int
    var lastRevision: int
    var lastAction: int
    ghost var runs: seq<Run>
    /** What server and auditor had been asked before this controller came. */
    ghost const earlier: Books

    /** The memory is what the history says, and server and auditor were asked exactly what it says. */
    ghost predicate Valid()
      reads this, World()
    {
      && has.cluster == (client != null) && Remembers(runs, badStreak, lastRevision, lastAction)
      && Tallies(Told(earlier, runs))
    }

    /** The objects around the controller. */
    ghost function World(): set<object> {
      (if client == null then {} else {client.server})
      + (if auditor == null then {} else if auditor.file == null then {auditor} else {auditor, auditor.file})
    }

    /** The patches the server handled and, when there is a log, the appends made to it are these. */
    ghost predicate Tallies(books: Books)
      reads World()
    {
      && (client != null ==> client.server.Valid() && Patches(client.server.log) == books.sent)
      && (auditor != null && auditor.file != null ==>
            auditor.State() == AuditChain.Run(auditor.codec, auditor.key, books.noted))
    }

    /** `noted` is what the auditor's log went through so far. */
    constructor (config: Config, has: Providers, client: Client?, auditor: AuditChain.Chain?,
                 ghost noted: seq<AuditChain.Op>)
      requires has.cluster == (client != null) && (client != null ==> client.server.Valid())
      requires auditor != null && auditor.file != null ==>
                 auditor.State() == AuditChain.Run(auditor.codec, auditor.key, noted)
      ensures Valid() && runs == [] && earlier.noted == noted
      ensures this.config == config && this.has == has && this.client == client && this.auditor == auditor
    {
      this.config, this.has, this.client, this.auditor := config, has, client, auditor;
      badStreak, lastRevision, lastAction, runs := 0, 0, 0, [];
      earlier := Books(if client == null then [] else Patches(client.server.log), noted);
      new;
      assert earlier.sent + [] == earlier.sent && earlier.noted + [] == earlier.noted;
    }

    /** Server and auditor were asked exactly what the cycle logged so far, and the deployment is as that left it. */
    ghost predicate InStep(books: Books, c: Context, events: seq<Event>)
      reads World()
    {
      && Protocol(c, events) && Tallies(Further(books, c, events))
      && (client != null ==> client.server.d == Now(c, events))
    }

    method RunOnce(env: Env) returns (res: RunResult, err: Option<RunError>)
      requires Valid()
      modifies this`badStreak, this`lastRevision, this`lastAction, this`runs
      modifies World()
      // The history grows by this cycle; memory, server and auditor keep up with it.
      ensures Valid()
      ensures |runs| == |old(runs)| + 1 && runs[..|old(runs)|] == old(runs)
      ensures
        var run := runs[|runs| - 1];
        && run.ctx.cfg == Defaulted(config) && run.ctx.has == has && run.ctx.env == env
        && Outcome(run.ctx, run.events, res, err) && Reported(res, err) == EndingOf(run.ctx)
        && (Attempts(run.events) <==> Guarded(run.ctx) && Clean(env.dryRun))
        && (res.executed <==> Confirmed(run.ctx))
        && (Confirmed(run.ctx) && Ready(run.ctx) && !(env.cancelled && 1 <= run.ctx.cfg.verifyDelay) ==>
              (err.None? && res.verdict == Remediated <==>
                && env.errorRateAfter.Some? && env.errorRateAfter.value + run.ctx.cfg.sloTarget <= 1.0
                && (run.ctx.cfg.p95Query == "" || env.p95.None? || env.p95After.None?
                    || 5.0 * env.p95After.value <= 6.0 * env.p95.value)))
        && (client != null ==>
              && run.ctx.found == old(client.server.d)
              && Patches(client.server.log) == old(Patches(client.server.log)) + Sent(run.events)
              && client.server.d == Now(run.ctx, run.events) && Leaves(run.ctx, run.events, client.server.d))
    {
      ghost var c, events;
      hide SentBy, NotedBy, Sent, Noted, Remembers, AuditChain.Run;
      res, err, c, events := Cycle(Told(earlier, runs), env);
      CycleEnds(c, events, res, err);
      if Confirmed(c) && Ready(c) { RemediationCriterion(c); }
      Record(Run(c, events), old(badStreak), old(lastRevision), old(lastAction));
    }

    /** The history grows by this cycle. */
    ghost method Record(run: Run, streak0: int, revision0: int, action0: int)
      requires Remembers(runs, streak0, revision0, action0) && Informed(run.ctx)
      requires run.ctx.rested == Rested(action0, run.ctx.env.now, run.ctx.cfg.cooldown)
      requires Advanced(run.ctx, run.events, streak0, revision0, action0, badStreak, lastRevision, lastAction)
      modifies this`runs
      ensures Remembers(runs, badStreak, lastRevision, lastAction)
      ensures |runs| == |old(runs)| + 1 && runs[..|old(runs)|] == old(runs) && runs[|runs| - 1] == run
      ensures Told(earlier, runs) == Further(Told(earlier, old(runs)), run.ctx, run.events)
    {
      hide Told, Further, Remembers;
      AdvancedRemembers(runs, run, streak0, revision0, action0);
      ToldSnoc(earlier, runs, run);
      runs := runs + [run];
    }

    /** `RunOnce` under its lock. */
    method Cycle(ghost books: Books, env: Env)
      returns (res: RunResult, err: Option<RunError>, ghost c: Context, ghost events: seq<Event>)
      requires has.cluster == (client != null) && Tallies(books)
      modifies this`badStreak, this`lastRevision, this`lastAction
      modifies World()
      ensures Advanced(c, events, old(badStreak), old(lastRevision), old(lastAction),
                       badStreak, lastRevision, lastAction)
      ensures c.cfg == Defaulted(config) && c.has == has && c.env == env && Informed(c)
      ensures c.rested == Rested(old(lastAction), env.now, c.cfg.cooldown)
      ensures Outcome(c, events, res, err)
      ensures client != null ==> c.found == old(client.server.d)
      ensures InStep(books, c, events)
    {
      hide Sent, Noted, Patches, AuditChain.Run;
      var cfg := Defaults(config);
      ghost var rested := Rested(lastAction, env.now, cfg.cooldown);
      ghost var found: Deployment := *;
      if client != null { found := client.server.d; }
      c, events := Context(cfg, has, env, found, None, false, rested, 0), [];
      NothingYet(books, c);
      if !ValidConfig(cfg) {
        return EMPTY, Some(InvalidConfig), c, events;
      }
      if !has.metrics || client == null {
        return EMPTY, Some(MissingProviders), c, events;
      }
      var inProtected := Protected(cfg.namespace, cfg.protectedNamespaces.value);
      if inProtected {
        events := Audit(books, c, env, [], Blocked);
        return EMPTY.(verdict := BlockedVerdict), None, c, events;
      }
      res, err, c, events := PlanAndConsider(books, c, env, cfg);
    }

    /** Plans the rollback; having nothing to go back to is an observation, not an error. */
    method PlanAndConsider(ghost books: Books, ghost c0: Context, env: Env, cfg: Config)
      returns (res: RunResult, err: Option<RunError>, ghost c: Context, ghost events: seq<Event>)
      requires client != null && Tallies(books)
      requires c0 == Context(cfg, has, env, client.server.d, None, false, Rested(lastAction, env.now, cfg.cooldown), 0)
      requires Planning(c0)
      modifies this`badStreak, this`lastRevision, this`lastAction, World()
      ensures Advanced(c, events, old(badStreak), old(lastRevision), old(lastAction),
                       badStreak, lastRevision, lastAction)
      ensures c == c0.(plan := c.plan, refused := c.refused, streak := c.streak) && Informed(c)
      ensures Outcome(c, events, res, err)
      ensures InStep(books, c, events)
    {
      hide Tallies, Further;
      events := [];
      var planned;
      planned, c := ReadPlan(books, c0, env, cfg);
      if planned.Err? {
        if planned.error == NoPreviousRevision {
          events := Audit(books, c, env, [], Observe);
          return EMPTY.(verdict := ObserveVerdict), None, c, events;
        }
        return EMPTY, Some(PlanFailed), c, events;
      }
      res, err, c, events := Consider(books, c, env, cfg, planned.value);
    }

    /** From the plan on: deploy correlation, cooldown, and the error-rate sample. */
    method Consider(ghost books: Books, ghost c0: Context, env: Env, cfg: Config, plan: RollbackPlan)
      returns (res: RunResult, err: Option<RunError>, ghost c: Context, ghost events: seq<Event>)
      requires client != null && InStep(books, c0, [])
      requires c0 == Context(cfg, has, env, c0.found, Some(plan), false,
                             Rested(lastAction, env.now, cfg.cooldown), 0)
      requires Planning(c0) && PlannedOn(plan, Base(c0))
      modifies this`badStreak, this`lastRevision, this`lastAction, World()
      ensures Advanced(c, events, old(badStreak), old(lastRevision), old(lastAction),
                       badStreak, lastRevision, lastAction)
      ensures c == c0.(streak := c.streak)
      ensures Outcome(c, events, res, err)
      ensures InStep(books, c, events)
    {
      hide Sent, Noted, Patches, AuditChain.Run;
      c, events := c0, [];
      if plan.currentRevisionCreatedAt == 0 || Sub(env.now, plan.currentRevisionCreatedAt) < 0
         || Sub(env.now, plan.currentRevisionCreatedAt) > cfg.maxRevisionAge {
        events := Audit(books, c, env, [], Observe);
        return EMPTY.(verdict := ObserveVerdict, plan := Some(plan)), None, c, events;
      }
      if lastAction != 0 && Sub(env.now, lastAction) < cfg.cooldown {
        events := Audit(books, c, env, [], Cooldown);
        return EMPTY.(verdict := CooldownVerdict, plan := Some(plan)), None, c, events;
      }
      if env.errorRate.None? {
        return EMPTY, Some(QueryFailed), c, events;
      }
      res, err, c, events := SampleAndDecide(books, c, env, cfg, plan);
    }

    /** Samples the error rate, counts it, and decides. */
    method SampleAndDecide(ghost books: Books, ghost c0: Context, env: Env, cfg: Config, plan: RollbackPlan)
      returns (res: RunResult, err: Option<RunError>, ghost c: Context, ghost events: seq<Event>)
      requires client != null && InStep(books, c0, [])
      requires c0 == Context(cfg, has, env, c0.found, Some(plan), false, true, 0)
      requires Planning(c0) && PlannedOn(plan, Base(c0)) && Rested(lastAction, env.now, cfg.cooldown)
      requires Recent(cfg, plan, env.now) && env.errorRate.Some?
      modifies this`badStreak, this`lastRevision, this`lastAction, World()
      ensures Advanced(c, events, old(badStreak), old(lastRevision), old(lastAction),
                       badStreak, lastRevision, lastAction)
      ensures c == c0.(streak := c.streak)
      ensures Outcome(c, events, res, err)
      ensures InStep(books, c, events)
    {
      hide Sent, Noted;
      var budget := Slo.EvaluateErrorRate(cfg.sloTarget, env.errorRate.value);
      CountSample(plan.currentRevision, budget.exhausted);
      c := c0.(streak := badStreak);
      events := Log(books, c, [], Sampled(plan.currentRevision, budget.exhausted));
      res, err, events := Decide(books, c, env, cfg, plan, budget, events);
    }

    /** The streak counter, one sample further. */
    method CountSample(revision: int, exhausted: bool)
      modifies this`badStreak, this`lastRevision
      ensures badStreak == NextStreak(old(badStreak), old(lastRevision), Sample(revision, exhausted))
      ensures lastRevision == revision
    {
      if exhausted {
        if lastRevision == revision {
          badStreak := badStreak + 1;
        } else {
          lastRevision := revision;
          badStreak := 1;
        }
      } else {
        badStreak := 0;
        lastRevision := revision;
      }
    }

    /** Weighs the evidence; failed or absent sources only withhold their share. */
    method Correlate(ghost c: Context, cfg: Config, env: Env, plan: RollbackPlan, exhausted: bool)
      returns (confidence: real, p95: Option<real>)
      requires c.cfg == cfg && c.env == env && c.has == has
      ensures confidence == Confidence(c, plan, exhausted)
      ensures p95 == if LatencySeen(c) then env.p95 else None
    {
      p95 := None;
      if cfg.p95Query != "" && env.p95.Some? {
        p95 := env.p95;
      }
      var logCount, traceCount := 0, 0;
      if has.logs && cfg.logQuery != "" && env.logs.Some? {
        logCount := env.logs.value;
      }
      if has.traces && cfg.traceQuery != "" && env.traces.Some? {
        traceCount := env.traces.value;
      }
      confidence := 0.55;
      if exhausted { confidence := confidence + 0.2; }
      if plan.previousRevision > 0 { confidence := confidence + 0.1; }
      if traceCount > 0 { confidence := confidence + 0.1; }
      if logCount > 0 { confidence := confidence + 0.05; }
      if p95.Some? { confidence := confidence + 0.03; }
      if plan.readyReplicas >= plan.desiredReplicas && plan.desiredReplicas > 0 {
        confidence := confidence + 0.02;
      }
      if confidence > 0.99 { confidence := 0.99; }
    }

    /** From the sample on: the gates, then the mutating path. */
    method Decide(ghost books: Books, ghost c: Context, env: Env, cfg: Config, plan: RollbackPlan, budget: Slo.Budget,
                  ghost past: seq<Event>)
      returns (res: RunResult, err: Option<RunError>, ghost events: seq<Event>)
      requires client != null && c.cfg == cfg && c.env == env && c.has == has && c.plan == Some(plan)
      requires InStep(books, c, past) && |past| == 1
      requires Last(past) == Some(Sampled(plan.currentRevision, budget.exhausted))
      requires !Attempts(past) && !Executed(past) && c.streak == badStreak && env.errorRate.Some?
      requires budget == Slo.EvaluateErrorRate(cfg.sloTarget, env.errorRate.value)
      modifies this`lastAction, World()
      ensures InStep(books, c, events) && past <= events
      ensures lastAction == if Attempts(events) then env.now else old(lastAction)
      ensures Outcome(c, events, res, err)
    {
      hide Sent, Noted;
      var confidence, p95 := Correlate(c, cfg, env, plan, budget.exhausted);
      res := EMPTY.(verdict := ObserveVerdict, confidence := confidence, budget := budget, plan := Some(plan),
                    errorRateBefore := env.errorRate.value, p95Before := p95);
      err := None;
      if !budget.exhausted || badStreak < cfg.requiredBadCycles {
        events := Audit(books, c, env, past, Observe);
        return;
      }
      if confidence < cfg.minConfidence {
        res := res.(verdict := HumanApprovalRequired);
        events := Audit(books, c, env, past, ApprovalRequired);
        return;
      }
      if plan.desiredReplicas < cfg.minReadyReplicas || plan.readyReplicas < cfg.minReadyReplicas {
        res := res.(verdict := BlockedVerdict);
        events := Audit(books, c, env, past, Blocked);
        return;
      }
      var blocked := ImagesGuard(plan.currentImages, plan.previousImages);
      if blocked {
        res := res.(verdict := BlockedVerdict);
        events := Audit(books, c, env, past, Blocked);
        return;
      }
      res, err, events := Act(books, c, env, cfg, plan, res, p95, past);
    }

    /** Dry run, and the rollback itself when execution is enabled. */
    method Act(ghost books: Books, ghost c: Context, env: Env, cfg: Config, plan: RollbackPlan,
               res0: RunResult, p95: Option<real>, ghost past: seq<Event>)
      returns (res: RunResult, err: Option<RunError>, ghost events: seq<Event>)
      requires client != null && c.cfg == cfg && c.env == env && c.has == has && c.plan == Some(plan)
      requires InStep(books, c, past) && |past| == 1 && Last(past) == Some(Sampled(plan.currentRevision, true))
      requires !Attempts(past) && !Executed(past)
      requires c.streak >= cfg.requiredBadCycles && Confidence(c, plan, true) >= cfg.minConfidence
      requires EnoughReplicas(cfg, plan) && SwappableImages(plan.currentImages, plan.previousImages)
      requires p95 == if LatencySeen(c) then env.p95 else None
      requires !res0.executed && !res0.compensated && Measured(c, res0)
      modifies this`lastAction, World()
      ensures InStep(books, c, events) && past <= events
      ensures lastAction == if Attempts(events) then env.now else old(lastAction)
      ensures Outcome(c, events, res, err)
    {
      hide Sent, Noted;
      res, err, events := res0, None, past;
      var ok;
      ok, events := SendRollback(books, c, env, plan, true, events);
      if !ok {
        res := res.(verdict := BlockedVerdict);
        events := Audit(books, c, env, events, DryRunRejected);
        return;
      }
      res := res.(verdict := GuardrailsPassedVerdict);
      events := Audit(books, c, env, events, GuardrailsPassed);
      if !cfg.execute {
        return;
      }
      res, err, events := Apply(books, c, env, cfg, plan, res, p95, events);
    }

    /** The rollback itself, announced first; from here on the cooldown runs, whatever becomes of the patch. */
    method Apply(ghost books: Books, ghost c: Context, env: Env, cfg: Config, plan: RollbackPlan,
               res0: RunResult, p95: Option<real>, ghost past: seq<Event>)
      returns (res: RunResult, err: Option<RunError>, ghost events: seq<Event>)
      requires client != null && c.cfg == cfg && c.env == env && c.plan == Some(plan)
      requires InStep(books, c, past) && !Attempts(past) && !Executed(past)
      requires Last(past) == Some(Audited(GuardrailsPassed)) && cfg.execute
      requires SwappableImages(plan.currentImages, plan.previousImages)
      requires p95 == if LatencySeen(c) then env.p95 else None
      requires !res0.executed && !res0.compensated && Measured(c, res0)
      modifies this`lastAction, World()
      ensures InStep(books, c, events) && past <= events
      ensures Attempts(events) && lastAction == env.now
      ensures Outcome(c, events, res, err)
    {
      hide Sent, Noted;
      res, err, events := res0, None, past;
      events := Audit(books, c, env, events, ExecuteRollback);
      lastAction := env.now;
      var ok;
      ok, events := SendRollback(books, c, env, plan, false, events);
      if !ok {
        return res, Some(ExecuteFailed), events;
      }
      res := res.(executed := true, verdict := Verifying);
      res, err, events := CheckRollout(books, c, env, cfg, plan, res, p95, events);
    }

    /** Waits for the rollout, measures again, and undoes the rollback unless all is well. */
    method CheckRollout(ghost books: Books, ghost c: Context, env: Env, cfg: Config, plan: RollbackPlan,
               res0: RunResult, p95: Option<real>, ghost past: seq<Event>)
      returns (res: RunResult, err: Option<RunError>, ghost events: seq<Event>)
      requires client != null && c.cfg == cfg && c.env == env && c.plan == Some(plan)
      requires InStep(books, c, past) && Last(past).Some? && Attempt(Last(past).value) && Accepted(Last(past).value)
      requires p95 == if LatencySeen(c) then env.p95 else None
      requires res0.executed && !res0.compensated && Executed(past) && Measured(c, res0)
      modifies World()
      ensures InStep(books, c, events) && past <= events
      ensures Outcome(c, events, res, err)
    {
      hide Sent, Noted, Patches, AuditChain.Run;
      res, err, events := res0, None, past;
      var ready;
      ready, events := AwaitRollout(books, c, env, events);
      if !ready {
        res, err, events := Compensate(books, c, env, plan, res, events);
        return;
      }
      if cfg.verifyDelay > 0 && env.cancelled {
        return res, Some(Cancelled), events;
      }
      var verified;
      res, verified := Measure(c, env, cfg, res, p95);
      if !verified {
        res, err, events := Compensate(books, c, env, plan, res, events);
        return;
      }
      res := res.(verdict := Remediated);
      events := Audit(books, c, env, events, Verified);
    }

    /** Measures again; a failed error-rate query verifies nothing, a failed latency query is let pass. */
    method Measure(ghost c: Context, env: Env, cfg: Config, res0: RunResult, p95: Option<real>)
      returns (res: RunResult, verified: bool)
      requires c.cfg == cfg && c.env == env
      requires p95 == if LatencySeen(c) then env.p95 else None
      ensures verified <==> Postconditions(c)
      ensures res == res0.(errorRateAfter := res.errorRateAfter, p95After := res.p95After)
      ensures verified ==> res.errorRateAfter == env.errorRateAfter
    {
      res := res0;
      if env.errorRateAfter.None? {
        return res, false;
      }
      var after := env.errorRateAfter.value;
      res := res.(errorRateAfter := Some(after));
      var p95After: Option<real> := None;
      if cfg.p95Query != "" && env.p95After.Some? {
        p95After := env.p95After;
        res := res.(p95After := env.p95After);
      }
      var allowed := 1.0 - cfg.sloTarget;
      var latencyOk := p95.None? || p95After.None? || p95After.value <= p95.value * 1.2;
      verified := !(after > allowed || !latencyOk);
    }

    /** Puts the original images back, against whatever version the deployment has by then. */
    method Compensate(ghost books: Books, ghost c: Context, env: Env, plan: RollbackPlan, res0: RunResult,
                   ghost past: seq<Event>)
      returns (res: RunResult, err: Option<RunError>, ghost events: seq<Event>)
      requires client != null && c.env == env && c.plan == Some(plan)
      requires InStep(books, c, past) && MayAudit(c, past, VerificationFailed)
      requires res0.executed && !res0.compensated && Executed(past) && Measured(c, res0)
      modifies World()
      ensures InStep(books, c, events) && past <= events
      ensures Outcome(c, events, res, err)
    {
      hide Sent, Noted;
      res, err, events := res0, None, past;
      events := Audit(books, c, env, events, VerificationFailed);
      var ok;
      ok, events := SendUndo(books, c, env, plan, true, events);
      if !ok {
        return res, Some(UndoDryRunFailed), events;
      }
      res, err, events := Restore(books, c, env, plan, res, events);
    }

    /** The compensating patch itself, once its dry run is accepted. */
    method Restore(ghost books: Books, ghost c: Context, env: Env, plan: RollbackPlan, res0: RunResult,
                   ghost past: seq<Event>)
      returns (res: RunResult, err: Option<RunError>, ghost events: seq<Event>)
      requires client != null && c.env == env && c.plan == Some(plan)
      requires InStep(books, c, past) && Last(past).Some?
      requires Last(past).value.Undo? && Last(past).value.dryRun && Accepted(Last(past).value)
      requires res0.executed && !res0.compensated && Executed(past) && Measured(c, res0)
      modifies World()
      ensures InStep(books, c, events) && past <= events
      ensures Outcome(c, events, res, err)
    {
      hide Sent, Noted;
      res, err, events := res0, None, past;
      var ok;
      ok, events := SendUndo(books, c, env, plan, false, events);
      if !ok {
        return res, Some(UndoFailed), events;
      }
      res := res.(compensated := true, verdict := CompensatedVerdict);
      events := Audit(books, c, env, events, Compensated);
    }

    // ----- single steps: each does one thing and records it -----

    /** The `audit` helper: without an auditor nothing, and nobody looks at a failed append. */
    method Audit(ghost books: Books, ghost c: Context, env: Env, ghost past: seq<Event>, a: Action)
      returns (ghost events: seq<Event>)
      requires InStep(books, c, past) && c.env == env && MayAudit(c, past, a)
      modifies World()
      ensures InStep(books, c, events) && Extends(past, Audited(a), events)
    {
      hide Sent, Noted;
      events := Log(books, c, past, Audited(a));
      if auditor != null {
        if auditor.file != null {
          AuditChain.RunSnoc(auditor.codec, auditor.key, Further(books, c, past).noted,
                             AuditChain.Write(DraftOf(env, a), env.stamps(a).io));
        }
        var _ := auditor.Append(DraftOf(env, a), env.stamps(a).io);
      }
    }

    method ReadPlan(ghost books: Books, ghost c0: Context, env: Env, cfg: Config)
      returns (planned: Result<RollbackPlan, PlanError>, ghost c: Context)
      requires client != null && Tallies(books) && Planning(c0)
      requires c0 == Context(cfg, has, env, client.server.d, None, false, c0.rested, 0)
      modifies World()
      ensures c == c0.(plan := if planned.Ok? then Some(planned.value) else None,
                       refused := planned == Err(NoPreviousRevision))
      ensures InStep(books, c, []) && Informed(c)
      ensures planned.Ok? ==> PlannedOn(planned.value, Base(c))
    {
      planned := client.PlanRollback(cfg.namespace, cfg.deployment, env.planRead, env.replicaSets);
      c := c0.(plan := if planned.Ok? then Some(planned.value) else None,
               refused := planned == Err(NoPreviousRevision));
      NothingYet(books, c);
    }

    method SendRollback(ghost books: Books, ghost c: Context, env: Env, plan: RollbackPlan, dryRun: bool,
                        ghost past: seq<Event>)
      returns (ok: bool, ghost events: seq<Event>)
      requires client != null && InStep(books, c, past) && c.env == env && c.plan == Some(plan)
      requires MayPatch(c, past, dryRun)
      modifies World()
      ensures InStep(books, c, events) && Last(events).Some? && Extends(past, Last(events).value, events)
      ensures Last(events).value.Patch? && Last(events).value.dryRun == dryRun && Accepted(Last(events).value) == ok
    {
      hide Sent, Noted;
      var w := if dryRun then env.dryRun else env.apply;
      ok := client.PatchImages(w, plan.resourceVersion, plan.previousImages, dryRun);
      events := Log(books, c, past, Patch(dryRun, LastSent()));
    }

    method AwaitRollout(ghost books: Books, ghost c: Context, env: Env, ghost past: seq<Event>)
      returns (ok: bool, ghost events: seq<Event>)
      requires client != null && InStep(books, c, past) && c.env == env
      requires Last(past).Some? && Attempt(Last(past).value) && Accepted(Last(past).value)
      modifies World()
      ensures InStep(books, c, events) && Last(events).Some? && Extends(past, Last(events).value, events)
      ensures Last(events).value.Waited? && Last(events).value.ok == ok
    {
      hide Sent, Noted;
      ok := client.WaitReady(env.polls);
      events := Log(books, c, past, Waited(ok, client.server.d));
    }

    method SendUndo(ghost books: Books, ghost c: Context, env: Env, plan: RollbackPlan, dryRun: bool,
                    ghost past: seq<Event>)
      returns (ok: bool, ghost events: seq<Event>)
      requires client != null && InStep(books, c, past) && c.env == env && c.plan == Some(plan)
      requires MayUndo(c, past, dryRun)
      modifies World()
      ensures InStep(books, c, events) && Last(events).Some? && Extends(past, Last(events).value, events)
      ensures Last(events).value.Undo? && Last(events).value.dryRun == dryRun && Accepted(Last(events).value) == ok
    {
      hide Sent, Noted;
      var read, w := if dryRun then env.dryRead else env.undoRead, if dryRun then env.undoDryRun else env.undo;
      ok := client.PatchCurrentImages(read, w, plan.currentImages, dryRun);
      events := Log(books, c, past, Undo(dryRun, if read.fault.Delivered? then Some(LastSent()) else None));
    }

    /** The patch request the server handled last. */
    ghost function LastSent(): Exchange
      requires client != null && Patches(client.server.log) != []
      reads client.server
    {
      Patches(client.server.log)[|Patches(client.server.log)| - 1]
    }

    /** Records the next step of the cycle. */
    ghost method Log(books: Books, c: Context, past: seq<Event>, e: Event) returns (events: seq<Event>)
      requires Protocol(c, past) && May(c, past, e)
      ensures Protocol(c, events) && Extends(past, e, events)
      ensures Further(books, c, events) ==
              Books(Further(books, c, past).sent + SentIn(e), Further(books, c, past).noted + NotedIn(c.env, e))
      ensures SentIn(e) == [] ==> Further(books, c, events).sent == Further(books, c, past).sent
      ensures !e.Audited? ==> Further(books, c, events).noted == Further(books, c, past).noted
      ensures Now(c, events) == Moved(c, Now(c, past), e)
    {
      ProtocolSnoc(c, past, e);
      ExtendsSnoc(past, e);
      hide Extends, Protocol;
      events := past + [e];
      assert events[..|past|] == past;
    }
  }

  /**
    In every state a controller can reach: whatever real patch the server has handled since it
    came is one of a guarded cycle, and comes right after an accepted dry run of the same images.
  */
  lemma EveryPatchIsJustified(k: Controller, n: nat)
    requires k.Valid() && k.client != null
    requires |k.earlier.sent| <= n < |Patches(k.client.server.log)|
    ensures
      var log := Patches(k.client.server.log);
      && log[n].request.Some?
      && (!log[n].request.value.dryRun ==>
            n > |k.earlier.sent| && exists run :: run in k.runs && Justified(run, log[n - 1], log[n]))
  {
    hide SentBy, Justified, Lawful, Patches;
    NoUnguardedMutation(k.runs, n - |k.earlier.sent|);
  }
}
