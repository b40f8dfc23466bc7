/**
  The controller's decisions in plain numbers: what each guard, threshold and default amounts
  to in terms of settings, readings and clock alone.
*/
module Criteria {
  import opened Prelude
  import opened Kubernetes
  import opened Autonomy
  import opened Endings
  import Slo

  // ----- settings -----

  /** The values an unset field gets, durations in nanoseconds. */
  lemma DefaultValues(c: Config)
    ensures
      var d := Defaulted(c);
      && d.sloTarget * 1000.0 == (if c.sloTarget == 0.0 then 999.0 else c.sloTarget * 1000.0)
      && d.minConfidence * 10.0 == (if c.minConfidence == 0.0 then 9.0 else c.minConfidence * 10.0)
      && d.minReadyReplicas == (if c.minReadyReplicas == 0 then 2 else c.minReadyReplicas)
      && d.requiredBadCycles == (if c.requiredBadCycles == 0 then 2 else c.requiredBadCycles)
      && d.rolloutTimeout == (if c.rolloutTimeout == 0 then 120_000_000_000 else c.rolloutTimeout)
      && d.maxRevisionAge == (if c.maxRevisionAge == 0 then 1_800_000_000_000 else c.maxRevisionAge)
      && d.cooldown == (if c.cooldown == 0 then 600_000_000_000 else c.cooldown)
      && d.verifyDelay == c.verifyDelay && d.execute == c.execute
      && d.service == c.service && d.namespace == c.namespace && d.deployment == c.deployment
      && d.errorRateQuery == c.errorRateQuery && d.p95Query == c.p95Query
      && d.traceQuery == c.traceQuery && d.logQuery == c.logQuery
  {
  }

  /** With no list given the three system namespaces are protected, and no other; an empty list protects nothing. */
  lemma ProtectedByDefault(c: Config)
    ensures InProtectedNamespace(Defaulted(c)) <==>
            match c.protectedNamespaces
            case None =>
              c.namespace == "kube-system" || c.namespace == "kube-public" || c.namespace == "kube-node-lease"
            case Some(list) => exists i :: 0 <= i < |list| && list[i] == c.namespace
  {
    var d := Defaulted(c);
    var list := d.protectedNamespaces.value;
    assert c.protectedNamespaces.None? ==> list == ["kube-system", "kube-public", "kube-node-lease"];
    assert InProtectedNamespace(d) <==> c.namespace in list;
  }

  /** Which settings and providers a cycle refuses to start with. */
  lemma StartCriteria(c: Context)
    ensures EndingOf(c) == Broken(InvalidConfig) <==>
            || c.cfg.service == "" || c.cfg.namespace == "" || c.cfg.deployment == "" || c.cfg.errorRateQuery == ""
            || c.cfg.sloTarget <= 0.0 || c.cfg.sloTarget >= 1.0
    ensures EndingOf(c) == Broken(MissingProviders) ==> !c.has.metrics || !c.has.cluster
    ensures !c.has.metrics || !c.has.cluster ==>
              EndingOf(c) == Broken(InvalidConfig) || EndingOf(c) == Broken(MissingProviders)
  {
  }

  // ----- clocks -----

  /** Dated, not from the future, and no older than allowed; a difference beyond 292 years counts as 292 years. */
  lemma RecentCriterion(c: Config, p: RollbackPlan, now: int)
    ensures Recent(c, p, now) <==>
            && p.currentRevisionCreatedAt != 0 && p.currentRevisionCreatedAt <= now
            && (now - p.currentRevisionCreatedAt <= c.maxRevisionAge || 9_223_372_036_854_775_807 <= c.maxRevisionAge)
  {
  }

  /** Likewise: a cooldown below what a duration can hold is over at once, one beyond it never. */
  lemma RestedCriterion(lastAction: int, now: int, cooldown: int)
    ensures Rested(lastAction, now, cooldown) <==>
            || lastAction == 0 || cooldown <= -9_223_372_036_854_775_808
            || (cooldown <= 9_223_372_036_854_775_807 && lastAction + cooldown <= now)
  {
  }

  // ----- evidence -----

  /** The budget counts as exhausted from the objective's own failure rate on. */
  lemma ExhaustedCriterion(c: Context)
    requires 0.0 < c.cfg.sloTarget < 1.0
    ensures Exhausted(c) <==> c.env.errorRate.Some? && c.env.errorRate.value + c.cfg.sloTarget >= 1.0
  {
    if c.env.errorRate.Some? {
      Slo.Quotient(Slo.Clamp01(c.env.errorRate.value), 0.0, 1.0 - c.cfg.sloTarget, 1.0);
    }
  }

  /** Confidence in percent: a share for each kind of evidence obtained, and never more than 99. */
  lemma ConfidencePoints(c: Context, p: RollbackPlan, exhausted: bool)
    ensures
      var traces := c.has.traces && c.cfg.traceQuery != "" && c.env.traces.Some? && c.env.traces.value >= 1;
      var logs := c.has.logs && c.cfg.logQuery != "" && c.env.logs.Some? && c.env.logs.value >= 1;
      var latency := c.cfg.p95Query != "" && c.env.p95.Some?;
      var full := 1 <= p.desiredReplicas <= p.readyReplicas;
      var points := 55 + (if exhausted then 20 else 0) + (if p.previousRevision >= 1 then 10 else 0)
                    + (if traces then 10 else 0) + (if logs then 5 else 0) + (if latency then 3 else 0)
                    + (if full then 2 else 0);
      Confidence(c, p, exhausted) * 100.0 == (if points <= 99 then points else 99) as real
  {
  }

  // ----- guards -----

  /** Everything that must hold before the cluster may be changed. */
  lemma AttemptCriteria(c: Context)
    requires Planning(c)
    ensures Guarded(c) <==>
            && c.plan.Some? && c.cfg.execute && c.rested
            && c.plan.value.currentRevisionCreatedAt != 0 && c.plan.value.currentRevisionCreatedAt <= c.env.now
            && (c.env.now - c.plan.value.currentRevisionCreatedAt <= c.cfg.maxRevisionAge
                || 9_223_372_036_854_775_807 <= c.cfg.maxRevisionAge)
            && c.env.errorRate.Some? && c.env.errorRate.value + c.cfg.sloTarget >= 1.0
            && c.cfg.requiredBadCycles <= c.streak
            && c.cfg.minConfidence <= Confidence(c, c.plan.value, true)
            && c.cfg.minReadyReplicas <= c.plan.value.desiredReplicas
            && c.cfg.minReadyReplicas <= c.plan.value.readyReplicas
            && (exists k :: k in c.plan.value.previousImages)
            && (forall k :: k in c.plan.value.previousImages <==> k in c.plan.value.currentImages)
            && (exists k :: k in c.plan.value.currentImages && k in c.plan.value.previousImages
                            && c.plan.value.currentImages[k] != c.plan.value.previousImages[k])
  {
    hide Confidence;
    ExhaustedCriterion(c);
    if c.plan.Some? {
      RecentCriterion(c.cfg, c.plan.value, c.env.now);
      ImagesDiffer(c.plan.value.currentImages, c.plan.value.previousImages);
    }
  }

  lemma ImagesDiffer(a: Images, b: Images)
    ensures SwappableImages(a, b) <==>
            && (exists k :: k in b) && (forall k :: k in b <==> k in a)
            && (exists k :: k in a && k in b && a[k] != b[k])
  {
    if a.Keys == b.Keys && a != b {
      var k :| k in a && a[k] != b[k];
      assert k in b;
    }
    if forall k :: k in b <==> k in a { assert a.Keys == b.Keys; }
  }

  /** What short of a mutation a started cycle with a plan answers, in the order the code asks. */
  lemma StopCriteria(c: Context)
    requires Planning(c) && c.plan.Some? && Recent(c.cfg, c.plan.value, c.env.now)
    ensures EndingOf(c) == Finished(CooldownVerdict) <==> !c.rested
    ensures EndingOf(c) == Broken(QueryFailed) <==> c.rested && c.env.errorRate.None?
    ensures EndingOf(c) == Finished(HumanApprovalRequired) <==>
            && c.rested && c.env.errorRate.Some? && c.env.errorRate.value + c.cfg.sloTarget >= 1.0
            && c.cfg.requiredBadCycles <= c.streak && Confidence(c, c.plan.value, true) < c.cfg.minConfidence
    ensures EndingOf(c) == Finished(ObserveVerdict) <==>
            && c.rested && c.env.errorRate.Some?
            && (c.env.errorRate.value + c.cfg.sloTarget < 1.0 || c.streak < c.cfg.requiredBadCycles)
  {
    hide Confidence, Recent, Ready, Postconditions;
    ExhaustedCriterion(c);
  }

  // ----- after the patch -----

  /**
    A confirmed and rolled-out rollback is called a remediation exactly when the new error rate
    is known and within the objective, and the new latency, where both are known, at most six
    fifths of the old.
  */
  lemma RemediationCriterion(c: Context)
    requires Confirmed(c) && Ready(c)
    ensures EndingOf(c) == Broken(Cancelled) <==> c.env.cancelled && 1 <= c.cfg.verifyDelay
    ensures EndingOf(c) == Finished(Remediated) <==>
            && !(c.env.cancelled && 1 <= c.cfg.verifyDelay)
            && c.env.errorRateAfter.Some? && c.env.errorRateAfter.value + c.cfg.sloTarget <= 1.0
            && (c.cfg.p95Query == "" || c.env.p95.None? || c.env.p95After.None?
                || 5.0 * c.env.p95After.value <= 6.0 * c.env.p95.value)
  {
    hide Ready, Confidence;
  }
}
