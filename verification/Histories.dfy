/**
  What the protocol implies for whole cycles and whole histories of cycles: the grammar of
  the audit trail, the guards behind every mutation, the spacing of mutations, and the
  persistence of the signal behind them.
*/
module Histories {
  import opened Prelude
  import opened Kubernetes
  import opened Autonomy
  import opened Endings
  import AuditChain

  // ----- one cycle -----

  /** The one place in a cycle a step on the mutating path can stand at. */
  function Slot(e: Event): Option<nat> {
    match e
    case Sampled(_, _) => Some(0)
    case Patch(dryRun, _) => Some(if dryRun then 1 else 4)
    case Waited(_, _) => Some(5)
    case Undo(dryRun, _) => Some(if dryRun then 7 else 8)
    case Audited(a) =>
      match a
      case GuardrailsPassed | DryRunRejected => Some(2)
      case ExecuteRollback => Some(3)
      case Verified | VerificationFailed => Some(6)
      case Compensated => Some(9)
      case _ => None
  }

  lemma {:induction false} ProtocolAt(c: Context, events: seq<Event>, i: nat)
    requires Protocol(c, events) && i < |events|
    ensures Protocol(c, events[..i]) && May(c, events[..i], events[i])
    decreases |events|
  {
    if i < |events| - 1 {
      ProtocolAt(c, events[..|events| - 1], i);
      assert events[..|events| - 1][..i] == events[..i];
    }
  }

  lemma {:induction false} SlotIsPosition(c: Context, events: seq<Event>, i: nat)
    requires Protocol(c, events) && i < |events|
    ensures Slot(events[i]).Some? ==> Slot(events[i]).value == i
    decreases i
  {
    ProtocolAt(c, events, i);
    if i > 0 {
      SlotIsPosition(c, events, i - 1);
      assert Last(events[..i]) == Some(events[i - 1]);
    }
  }

  lemma Precedes(c: Context, events: seq<Event>, i: nat)
    requires Protocol(c, events) && 0 < i < |events|
    ensures Last(events[..i]) == Some(events[i - 1]) && |events[..i]| == i && May(c, events[..i], events[i])
    ensures Known(c, Some(events[i - 1]), Now(c, events[..i]))
  {
    ProtocolAt(c, events, i);
    Knowledge(c, events[..i]);
  }

  /** The way to a real rollback patch: its sample, its accepted dry run, and two audit entries. */
  lemma PathToAttempt(c: Context, events: seq<Event>, i: nat)
    requires Protocol(c, events) && i < |events| && Attempt(events[i])
    ensures i == 4 && Guarded(c)
    ensures events[0] == Sampled(c.plan.value.currentRevision, true)
    ensures events[1].Patch? && events[1].dryRun && Accepted(events[1])
    ensures events[2] == Audited(GuardrailsPassed) && events[3] == Audited(ExecuteRollback)
  {
    SlotIsPosition(c, events, i);
    Precedes(c, events, 4);
    Precedes(c, events, 3);
    Precedes(c, events, 2);
    Precedes(c, events, 1);
    ProtocolAt(c, events, 0);
  }

  /** The way to an undo: a rollback the server answered well, a wait, and the failed verification. */
  lemma PathToDryUndo(c: Context, events: seq<Event>)
    requires Protocol(c, events) && |events| > 7 && events[7].Undo?
    ensures Guarded(c) && Attempt(events[4]) && Accepted(events[4]) && events[5].Waited?
    ensures events[6] == Audited(VerificationFailed)
  {
    hide Protocol;
    SlotIsPosition(c, events, 7);
    Precedes(c, events, 7);
    Precedes(c, events, 6);
    Precedes(c, events, 5);
  }

  /** And to the real one: the same, and an accepted dry run. */
  lemma PathToUndo(c: Context, events: seq<Event>, i: nat)
    requires Protocol(c, events) && i < |events| && events[i].Undo? && !events[i].dryRun
    ensures i == 8 && Confirmed(c) && !Kept(c)
    ensures events[7].Undo? && events[7].dryRun && Accepted(events[7])
  {
    hide Protocol;
    SlotIsPosition(c, events, i);
    Precedes(c, events, 8);
  }

  /**
    What the default confidence bar of 0.90 amounts to: deploy correlation and an exhausted
    budget never suffice; traces, or logs, or latency together with full readiness must add to them.
  */
  lemma DefaultBarNeedsEvidence(c: Context, p: RollbackPlan)
    requires p.previousRevision > 0
    ensures Confidence(c, p, true) >= DEFAULT_MIN_CONFIDENCE <==>
            || TracesSeen(c) || LogsSeen(c)
            || (LatencySeen(c) && p.readyReplicas >= p.desiredReplicas && p.desiredReplicas > 0)
    ensures Confidence(c, p, false) < DEFAULT_MIN_CONFIDENCE
  {
    var full := p.readyReplicas >= p.desiredReplicas && p.desiredReplicas > 0;
    assert TracesSeen(c) ==> Confidence(c, p, true) >= 0.95;
    assert !TracesSeen(c) && !LogsSeen(c) && !(LatencySeen(c) && full) ==> Confidence(c, p, true) <= 0.88;
  }

  // ----- the requests of one cycle -----

  function SentIn(e: Event): seq<Exchange> {
    match e
    case Patch(_, x) => [x]
    case Undo(_, sent) => if sent.Some? then [sent.value] else []
    case _ => []
  }

  /** The patch requests a cycle sends, dry runs included. */
  function Sent(events: seq<Event>): seq<Exchange> {
    if events == [] then [] else Sent(events[..|events| - 1]) + SentIn(events[|events| - 1])
  }

  function SentUpTo(last: Option<Event>): nat {
    if last.None? then 0 else
    match last.value
    case Sampled(_, _) => 0
    case Patch(dryRun, _) => if dryRun then 1 else 2
    case Waited(_, _) => 2
    case Undo(dryRun, sent) => (if dryRun then 2 else 3) + (if sent.Some? then 1 else 0)
    case Audited(a) =>
      match a
      case GuardrailsPassed | DryRunRejected | ExecuteRollback => 1
      case Verified | VerificationFailed => 2
      case Compensated => 4
      case _ => 0
  }

  lemma SentStep(c: Context, past: seq<Event>, e: Event)
    requires May(c, past, e)
    ensures SentUpTo(Some(e)) == SentUpTo(Last(past)) + |SentIn(e)|
  {
  }

  lemma {:induction false} SentCount(c: Context, events: seq<Event>)
    requires Protocol(c, events)
    ensures |Sent(events)| == SentUpTo(Last(events)) <= 4
  {
    if events != [] {
      SentCount(c, events[..|events| - 1]);
      SentStep(c, events[..|events| - 1], events[|events| - 1]);
    }
  }

  /** Where the steps that send requests stand. */
  const PLACES: seq<nat> := [1, 4, 7, 8]

  lemma SendsHaveSlots(e: Event)
    ensures SentIn(e) != [] ==> Slot(e).Some?
  {
  }

  lemma SentPlaceStep(c: Context, past: seq<Event>, e: Event)
    requires May(c, past, e) && Slot(e) == Some(|past|) && SentIn(e) != []
    ensures SentUpTo(Last(past)) < 4 && PLACES[SentUpTo(Last(past))] == |past| && |SentIn(e)| == 1
  {
  }

  lemma {:induction false} SentPlace(c: Context, events: seq<Event>, n: nat)
    requires Protocol(c, events) && n < |Sent(events)|
    ensures n < 4 && PLACES[n] < |events| && SentIn(events[PLACES[n]]) == [Sent(events)[n]]
    decreases |events|
  {
    hide May, Slot, SentIn, SentUpTo;
    var past, e := events[..|events| - 1], events[|events| - 1];
    if n < |Sent(past)| {
      SentPlace(c, past, n);
    } else {
      SentCount(c, past);
      SendsHaveSlots(e);
      SlotIsPosition(c, events, |events| - 1);
      SentPlaceStep(c, past, e);
    }
  }

  /** The planned revision is in place and has become exactly the previous one. */
  ghost predicate Landed(p: RollbackPlan, x: Exchange) {
    && x.before.resourceVersion == p.resourceVersion && ImagesOf(x.before.containers) == p.currentImages
    && x.after.resourceVersion == x.before.resourceVersion + 1 && ImagesOf(x.after.containers) == p.previousImages
  }

  /** Every container the plan knew carries its original image again; no other container changed. */
  ghost predicate Restored(p: RollbackPlan, x: Exchange) {
    ImagesOf(x.after.containers) == ImagesOf(x.before.containers) + p.currentImages
  }

  /** A cycle's request n: dry runs and real patches alternate, first for the rollback, then for the undo. */
  ghost predicate IsRequest(c: Context, x: Exchange, n: nat)
    requires c.plan.Some?
  {
    var p := c.plan.value;
    && Handled(x) && x.request.Some? && x.request.value.dryRun == (n % 2 == 0)
    && x.request.value.images == (if n < 2 then p.previousImages else p.currentImages)
    && (n < 2 ==> x.request.value.version == p.resourceVersion)
    && (n == 1 && Effective(x) ==> Landed(p, x))
    && (n == 3 && Effective(x) ==> Restored(p, x))
  }

  lemma PatchIsRequest(c: Context, past: seq<Event>, e: Event)
    requires Known(c, Last(past), Now(c, past)) && May(c, past, e) && e.Patch?
    ensures PassesGates(c) && IsRequest(c, e.x, if e.dryRun then 0 else 1)
  {
    PatchStep(c, past, e);
    if Effective(e.x) { PatchedImages(e.x.before, c.plan.value.previousImages, e.x.after); }
  }

  lemma UndoIsRequest(c: Context, past: seq<Event>, e: Event)
    requires Known(c, Last(past), Now(c, past)) && May(c, past, e) && e.Undo? && e.sent.Some?
    ensures Confirmed(c) && !Kept(c) && IsRequest(c, e.sent.value, if e.dryRun then 2 else 3)
  {
    UndoStep(c, past, e);
  }

  /** The event behind a request, and what had been established when it was sent. */
  lemma RequestStep(c: Context, events: seq<Event>, n: nat)
    requires Protocol(c, events) && n < |Sent(events)|
    ensures n < 4 && PLACES[n] < |events| && SentIn(events[PLACES[n]]) == [Sent(events)[n]]
    ensures
      var past, e := events[..PLACES[n]], events[PLACES[n]];
      Known(c, Last(past), Now(c, past)) && May(c, past, e) && Slot(e) == Some(PLACES[n])
  {
    SentPlace(c, events, n);
    Precedes(c, events, PLACES[n]);
    SlotIsPosition(c, events, PLACES[n]);
  }

  lemma RequestIsLawful(c: Context, events: seq<Event>, n: nat)
    requires Protocol(c, events) && n < |Sent(events)|
    ensures n < 4 && PassesGates(c) && IsRequest(c, Sent(events)[n], n)
    ensures n >= 2 ==> Confirmed(c) && !Kept(c)
  {
    hide Protocol, Sent;
    RequestStep(c, events, n);
    var past, e := events[..PLACES[n]], events[PLACES[n]];
    if n < 2 { PatchIsRequest(c, past, e); } else { UndoIsRequest(c, past, e); }
  }

  /** Each request but the first follows a good answer to the one before it. */
  lemma RequestFollows(c: Context, events: seq<Event>, n: nat)
    requires Protocol(c, events) && 0 < n < |Sent(events)|
    ensures Guarded(c) && Sent(events)[n - 1].ok
  {
    hide Protocol, Sent;
    SentPlace(c, events, n);
    SentPlace(c, events, n - 1);
    SlotIsPosition(c, events, PLACES[n]);
    if n == 1 { PathToAttempt(c, events, 4); }
    if n >= 2 {
      SlotIsPosition(c, events, 7);
      PathToDryUndo(c, events);
    }
    if n == 3 { PathToUndo(c, events, 8); }
  }

  /** At most one real rollback patch and one real compensation in a cycle. */
  lemma SinglePatch(c: Context, events: seq<Event>, i: nat, j: nat)
    requires Protocol(c, events) && i < |Sent(events)| && j < |Sent(events)|
    requires Sent(events)[i].request.Some? && Sent(events)[j].request.Some?
    requires
      var a, b := Sent(events)[i].request.value, Sent(events)[j].request.value;
      !a.dryRun && !b.dryRun && a.images == b.images
    ensures i == j
  {
    hide Protocol, Sent;
    RequestIsLawful(c, events, i);
    RequestIsLawful(c, events, j);
  }

  /** A cycle counts as an attempt exactly when its second request, the real rollback, was sent. */
  lemma AttemptIsSent(c: Context, events: seq<Event>)
    requires Protocol(c, events)
    ensures Attempts(events) <==> |Sent(events)| > 1
    ensures Attempts(events) ==> Guarded(c) && IsRequest(c, Sent(events)[1], 1)
  {
    hide Protocol, Sent;
    SentCount(c, events);
    LateIsAttempted(c, events);
    if |Sent(events)| > 1 {
      RequestIsLawful(c, events, 1);
      RequestFollows(c, events, 1);
    }
  }

  /** A compensation comes after a rollback that landed and whose verification failed, in the same cycle. */
  lemma UndoFollowsFailure(c: Context, events: seq<Event>)
    requires Protocol(c, events) && |Sent(events)| > 2
    ensures Confirmed(c) && !Kept(c)
    ensures Sent(events)[1].ok && Effective(Sent(events)[1]) && Landed(c.plan.value, Sent(events)[1])
    ensures |events| > 7 && events[6] == Audited(VerificationFailed)
  {
    hide Protocol, Sent;
    RequestIsLawful(c, events, 1);
    RequestIsLawful(c, events, 2);
    RequestFollows(c, events, 2);
    SentPlace(c, events, 2);
    SlotIsPosition(c, events, 7);
    PathToDryUndo(c, events);
  }

  /**
    Undoing a landed rollback: every container of the plan carries its original image again;
    and with nobody changing images in between, the images are exactly the original ones.
  */
  lemma UndoIsInverse(c: Context, events: seq<Event>)
    requires Protocol(c, events) && |Sent(events)| == 4 && Effective(Sent(events)[3])
    ensures c.plan.Some? && Landed(c.plan.value, Sent(events)[1])
    ensures
      var original, undone := c.plan.value.currentImages, ImagesOf(Sent(events)[3].after.containers);
      && ImagesOf(Sent(events)[1].before.containers) == original
      && (forall k | k in original :: k in undone && undone[k] == original[k])
      && (ImagesOf(Sent(events)[3].before.containers) == ImagesOf(Sent(events)[1].after.containers) ==>
            undone == original)
  {
    hide Protocol, Sent;
    RequestIsLawful(c, events, 3);
    UndoFollowsFailure(c, events);
    var p, before := c.plan.value, ImagesOf(Sent(events)[3].before.containers);
    if before == p.previousImages { assert before + p.currentImages == p.currentImages; }
  }

  // ----- the audit trail -----

  function Trail(events: seq<Event>): seq<Action> {
    if events == [] then [] else
      var last := events[|events| - 1];
      Trail(events[..|events| - 1]) + (if last.Audited? then [last.action] else [])
  }

  /** The append an audit step asks the auditor for. */
  function NotedIn(env: Env, e: Event): seq<AuditChain.Op> {
    if e.Audited? then [AuditChain.Write(DraftOf(env, e.action), env.stamps(e.action).io)] else []
  }

  function Noted(env: Env, events: seq<Event>): seq<AuditChain.Op> {
    if events == [] then [] else Noted(env, events[..|events| - 1]) + NotedIn(env, events[|events| - 1])
  }

  const COMPENSATED_PATH := [GuardrailsPassed, ExecuteRollback, VerificationFailed, Compensated]
  const VERIFIED_PATH := [GuardrailsPassed, ExecuteRollback, Verified]

  /** The words a single cycle may write: a stopping action alone, or a path into mutation, cut anywhere. */
  predicate IsWord(w: seq<Action>) {
    || w <= COMPENSATED_PATH || w <= VERIFIED_PATH
    || (|w| == 1 && w[0] in [Blocked, Observe, Cooldown, ApprovalRequired, DryRunRejected])
  }

  function WordUpTo(last: Option<Event>): seq<Action> {
    if last.None? then [] else
    match last.value
    case Sampled(_, _) => []
    case Patch(dryRun, _) => if dryRun then [] else [GuardrailsPassed, ExecuteRollback]
    case Waited(_, _) => [GuardrailsPassed, ExecuteRollback]
    case Undo(_, _) => [GuardrailsPassed, ExecuteRollback, VerificationFailed]
    case Audited(a) =>
      match a
      case ExecuteRollback => [GuardrailsPassed, ExecuteRollback]
      case Verified => [GuardrailsPassed, ExecuteRollback, Verified]
      case VerificationFailed => [GuardrailsPassed, ExecuteRollback, VerificationFailed]
      case Compensated => [GuardrailsPassed, ExecuteRollback, VerificationFailed, Compensated]
      case _ => [a]
  }

  lemma WordStep(c: Context, past: seq<Event>, e: Event)
    requires May(c, past, e)
    ensures WordUpTo(Some(e)) == WordUpTo(Last(past)) + (if e.Audited? then [e.action] else [])
  {
  }

  lemma {:induction false} TrailIsWord(c: Context, events: seq<Event>)
    requires Protocol(c, events)
    ensures Trail(events) == WordUpTo(Last(events)) && IsWord(Trail(events))
  {
    if events != [] {
      TrailIsWord(c, events[..|events| - 1]);
      WordStep(c, events[..|events| - 1], events[|events| - 1]);
    }
  }

  function Concat<T>(words: seq<seq<T>>): seq<T> {
    if words == [] then [] else Concat(words[..|words| - 1]) + words[|words| - 1]
  }

  function Count(t: seq<Action>, a: Action): nat { multiset(t)[a] }

  predicate Balanced(t: seq<Action>) {
    && Count(t, Compensated) <= Count(t, VerificationFailed) <= Count(t, ExecuteRollback) <= Count(t, GuardrailsPassed)
    && Count(t, Verified) + Count(t, VerificationFailed) <= Count(t, ExecuteRollback)
  }

  lemma BalancedConcat(s: seq<Action>, t: seq<Action>)
    requires Balanced(s) && Balanced(t)
    ensures Balanced(s + t)
  {
    assert multiset(s + t) == multiset(s) + multiset(t);
  }

  lemma WordPrefix(w: seq<Action>, n: nat)
    requires IsWord(w) && n <= |w|
    ensures IsWord(w[..n])
  {
    if n == |w| { assert w[..n] == w; }
  }

  lemma SingleBalanced(a: Action)
    requires IsWord([a])
    ensures Balanced([a])
  {
    assert multiset([a]) == multiset{a};
  }

  lemma PathBalanced()
    ensures Balanced([]) && Balanced([GuardrailsPassed, ExecuteRollback])
  {
    assert multiset([GuardrailsPassed, ExecuteRollback]) == multiset{GuardrailsPassed, ExecuteRollback};
  }

  lemma VerifiedBalanced()
    ensures Balanced(VERIFIED_PATH)
  {
    assert multiset(VERIFIED_PATH) == multiset{GuardrailsPassed, ExecuteRollback, Verified};
  }

  lemma FailedBalanced()
    ensures Balanced([GuardrailsPassed, ExecuteRollback, VerificationFailed])
  {
    assert multiset([GuardrailsPassed, ExecuteRollback, VerificationFailed])
        == multiset{GuardrailsPassed, ExecuteRollback, VerificationFailed};
  }

  lemma CompensatedBalanced()
    ensures Balanced(COMPENSATED_PATH)
  {
    assert multiset(COMPENSATED_PATH)
        == multiset{GuardrailsPassed, ExecuteRollback, VerificationFailed, Compensated};
  }

  lemma WordBalanced(w: seq<Action>)
    requires IsWord(w)
    ensures Balanced(w)
  {
    PathBalanced();
    VerifiedBalanced();
    FailedBalanced();
    CompensatedBalanced();
    if |w| == 1 {
      assert w == [w[0]];
      SingleBalanced(w[0]);
    } else {
      assert w == [] || w == [GuardrailsPassed, ExecuteRollback] || w == VERIFIED_PATH
          || w == [GuardrailsPassed, ExecuteRollback, VerificationFailed] || w == COMPENSATED_PATH;
    }
  }

  /** Cut the trail of any number of cycles anywhere: no effect is logged more often than its cause. */
  lemma {:induction false} TrailPrefixBalanced(words: seq<seq<Action>>, n: nat)
    requires forall w | w in words :: IsWord(w)
    requires n <= |Concat(words)|
    ensures Balanced(Concat(words)[..n])
    decreases |words|
  {
    if words == [] {
      assert Concat(words)[..n] == [];
    } else {
      var front, last := words[..|words| - 1], words[|words| - 1];
      var done := Concat(front);
      if n <= |done| {
        TrailPrefixBalanced(front, n);
        assert Concat(words)[..n] == done[..n];
      } else {
        TrailPrefixBalanced(front, |done|);
        assert done[..|done|] == done;
        WordPrefix(last, n - |done|);
        WordBalanced(last[..n - |done|]);
        BalancedConcat(done, last[..n - |done|]);
        assert Concat(words)[..n] == done + last[..n - |done|];
      }
    }
  }

  // ----- samples and streaks -----

  datatype Sample = Sample(revision: int, exhausted: bool)

  datatype Run = Run(ctx: Context, events: seq<Event>)

  function SamplesIn(events: seq<Event>): seq<Sample> {
    if events != [] && events[0].Sampled? then [Sample(events[0].revision, events[0].exhausted)] else []
  }

  /** A finished cycle counts a sample exactly when nothing stops it before, and it counts what it read. */
  lemma SampleIff(c: Context, events: seq<Event>, res: RunResult, err: Option<RunError>)
    requires Protocol(c, events) && Ends(c, events, res, err)
    ensures SamplesIn(events) == if Samplable(c) then [Sample(c.plan.value.currentRevision, Exhausted(c))] else []
  {
    if events != [] { ProtocolAt(c, events, 0); }
  }

  function Samples(runs: seq<Run>): seq<Sample> {
    if runs == [] then [] else Samples(runs[..|runs| - 1]) + SamplesIn(runs[|runs| - 1].events)
  }

  /** The last n samples are all exhausted and belong to one revision. */
  ghost predicate BadSuffix(s: seq<Sample>, n: int) {
    && 0 <= n <= |s|
    && forall i | |s| - n <= i < |s| :: s[i].exhausted && s[i].revision == s[|s| - 1].revision
  }

  /** n is the length of the longest bad suffix. */
  ghost predicate IsStreak(s: seq<Sample>, n: int) {
    BadSuffix(s, n) && forall m | BadSuffix(s, m) :: m <= n
  }

  function LastRevision(s: seq<Sample>): int {
    if s == [] then 0 else s[|s| - 1].revision
  }

  /** The controller's counter, one sample further. */
  function NextStreak(streak: int, lastRevision: int, x: Sample): int {
    if !x.exhausted then 0 else if lastRevision == x.revision then streak + 1 else 1
  }

  lemma BadSuffixSnoc(s: seq<Sample>, x: Sample, n: int)
    requires n > 0
    ensures BadSuffix(s + [x], n) <==>
            x.exhausted && BadSuffix(s, n - 1) && (n > 1 ==> LastRevision(s) == x.revision)
  {
    var t := s + [x];
    if BadSuffix(t, n) {
      assert t[|s|] == x;
      forall i | |s| - (n - 1) <= i < |s| ensures s[i].exhausted && s[i].revision == x.revision {
        assert t[i] == s[i];
      }
    }
  }

  lemma StreakSnoc(s: seq<Sample>, x: Sample, n: int)
    requires IsStreak(s, n)
    ensures IsStreak(s + [x], NextStreak(n, LastRevision(s), x))
  {
    assert BadSuffix(s, 0) && BadSuffix(s + [x], 0);
    forall m | BadSuffix(s + [x], m) ensures m <= NextStreak(n, LastRevision(s), x) {
      if m > 0 { BadSuffixSnoc(s, x, m); }
    }
    var next := NextStreak(n, LastRevision(s), x);
    if next > 0 { BadSuffixSnoc(s, x, next); }
  }

  // ----- lawful histories -----

  /** When the last real rollback attempt began; 0 when there was none. */
  function LastAttempt(runs: seq<Run>): int {
    if runs == [] then 0
    else if Attempts(runs[|runs| - 1].events) then runs[|runs| - 1].ctx.env.now
    else LastAttempt(runs[..|runs| - 1])
  }

  /** Every cycle keeps to the protocol, with its memory of earlier cycles as the history has it. */
  ghost predicate Lawful(runs: seq<Run>) {
    runs == [] ||
    var earlier, run := runs[..|runs| - 1], runs[|runs| - 1];
    && Lawful(earlier)
    && Protocol(run.ctx, run.events) && Informed(run.ctx)
    && run.ctx.rested == Rested(LastAttempt(earlier), run.ctx.env.now, run.ctx.cfg.cooldown)
    && (SamplesIn(run.events) != [] ==> IsStreak(Samples(runs), run.ctx.streak))
  }

  /** The controller's whole memory is a function of its history. */
  ghost predicate Remembers(runs: seq<Run>, badStreak: int, lastRevision: int, lastAction: int) {
    && Lawful(runs)
    && IsStreak(Samples(runs), badStreak)
    && lastRevision == LastRevision(Samples(runs))
    && lastAction == LastAttempt(runs)
  }

  lemma {:induction false} LawfulAt(runs: seq<Run>, k: nat)
    requires Lawful(runs) && k < |runs|
    ensures Lawful(runs[..k + 1]) && runs[..k + 1][..k] == runs[..k]
    ensures Protocol(runs[k].ctx, runs[k].events) && Informed(runs[k].ctx)
    decreases |runs|
  {
    if k == |runs| - 1 {
      assert runs[..k + 1] == runs;
    } else {
      LawfulAt(runs[..|runs| - 1], k);
      assert runs[..|runs| - 1][..k + 1] == runs[..k + 1];
    }
  }

  function Trails(runs: seq<Run>): seq<seq<Action>> {
    seq(|runs|, k requires 0 <= k < |runs| => Trail(runs[k].events))
  }

  /** The audit trail of a lawful history, cut anywhere. */
  lemma AuditTrailGrammar(runs: seq<Run>, n: nat)
    requires Lawful(runs) && n <= |Concat(Trails(runs))|
    ensures forall w | w in Trails(runs) :: IsWord(w)
    ensures Balanced(Concat(Trails(runs))[..n])
  {
    forall w | w in Trails(runs) ensures IsWord(w) {
      var k :| 0 <= k < |runs| && w == Trail(runs[k].events);
      LawfulAt(runs, k);
      TrailIsWord(runs[k].ctx, runs[k].events);
    }
    TrailPrefixBalanced(Trails(runs), n);
  }

  /**
    Behind every real rollback attempt, back to back, stand at least the required number of
    exhausted samples of the planned revision.
  */
  lemma AttemptsAreProvoked(runs: seq<Run>, k: nat)
    requires Lawful(runs) && k < |runs| && Attempts(runs[k].events)
    ensures
      var s, c := Samples(runs[..k + 1]), runs[k].ctx;
      && c.cfg.requiredBadCycles <= |s| && c.plan.Some?
      && forall i | |s| - c.cfg.requiredBadCycles <= i < |s| ::
           s[i] == Sample(c.plan.value.currentRevision, true)
  {
    hide Protocol;
    LawfulAt(runs, k);
    var run, upTo := runs[k], runs[..k + 1];
    var i :| 0 <= i < |run.events| && Attempt(run.events[i]);
    PathToAttempt(run.ctx, run.events, i);
    assert upTo[|upTo| - 1] == run;
    assert Samples(upTo)[|Samples(upTo)| - 1] == Sample(run.ctx.plan.value.currentRevision, true);
  }

  // ----- the requests of a history -----

  function SentBy(runs: seq<Run>): seq<Exchange> {
    Concat(seq(|runs|, k requires 0 <= k < |runs| => Sent(runs[k].events)))
  }

  lemma SentBySnoc(runs: seq<Run>, run: Run)
    ensures SentBy(runs + [run]) == SentBy(runs) + Sent(run.events)
  {
    var all := runs + [run];
    var words := seq(|all|, k requires 0 <= k < |all| => Sent(all[k].events));
    assert words[..|runs|] == seq(|runs|, k requires 0 <= k < |runs| => Sent(runs[k].events));
  }

  function NotedBy(runs: seq<Run>): seq<AuditChain.Op> {
    Concat(seq(|runs|, k requires 0 <= k < |runs| => Noted(runs[k].ctx.env, runs[k].events)))
  }

  lemma NotedBySnoc(runs: seq<Run>, run: Run)
    ensures NotedBy(runs + [run]) == NotedBy(runs) + Noted(run.ctx.env, run.events)
  {
    var all := runs + [run];
    var words := seq(|all|, k requires 0 <= k < |all| => Noted(all[k].ctx.env, all[k].events));
    assert words[..|runs|] == seq(|runs|, k requires 0 <= k < |runs| => Noted(runs[k].ctx.env, runs[k].events));
  }

  /** Element n of a concatenation is element m of its k-th word, and the word's earlier ones stand before it. */
  lemma {:induction false} FindInWord<T>(words: seq<seq<T>>, n: nat) returns (k: nat, m: nat)
    requires n < |Concat(words)|
    ensures k < |words| && m < |words[k]| && m <= n && Concat(words)[n] == words[k][m]
    ensures m > 0 ==> Concat(words)[n - 1] == words[k][m - 1]
    decreases |words|
  {
    var front := words[..|words| - 1];
    if n < |Concat(front)| {
      k, m := FindInWord(front, n);
    } else {
      k, m := |front|, n - |Concat(front)|;
    }
  }

  /**
    Two requests of one guarded cycle: the accepted dry run and the real patch of its rollback,
    or those of the undo of a rollback that was confirmed and must not be kept.
  */
  ghost predicate Justified(run: Run, trial: Exchange, x: Exchange) {
    && Guarded(run.ctx) && trial in Sent(run.events) && x in Sent(run.events) && trial.ok
    && (|| (IsRequest(run.ctx, trial, 0) && IsRequest(run.ctx, x, 1))
        || (Confirmed(run.ctx) && !Kept(run.ctx) && IsRequest(run.ctx, trial, 2) && IsRequest(run.ctx, x, 3)))
  }

  /**
    No unguarded mutation: in everything a lawful history sends, each real patch comes right
    after an accepted dry run of the same images, and both belong to a cycle whose guards held.
  */
  lemma NoUnguardedMutation(runs: seq<Run>, n: nat)
    requires Lawful(runs) && n < |SentBy(runs)|
    ensures SentBy(runs)[n].request.Some?
    ensures !SentBy(runs)[n].request.value.dryRun ==>
              n > 0 && exists run :: run in runs && Justified(run, SentBy(runs)[n - 1], SentBy(runs)[n])
  {
    var k, m := FindInWord(seq(|runs|, k requires 0 <= k < |runs| => Sent(runs[k].events)), n);
    LawfulAt(runs, k);
    RequestIsJustified(runs[k], m);
    assert runs[k] in runs;
  }

  lemma RequestIsJustified(run: Run, m: nat)
    requires Protocol(run.ctx, run.events) && m < |Sent(run.events)|
    ensures Sent(run.events)[m].request.Some?
    ensures !Sent(run.events)[m].request.value.dryRun ==>
              m > 0 && Justified(run, Sent(run.events)[m - 1], Sent(run.events)[m])
  {
    hide Protocol, Sent;
    RequestIsLawful(run.ctx, run.events, m);
    if m % 2 == 1 {
      RequestIsLawful(run.ctx, run.events, m - 1);
      RequestFollows(run.ctx, run.events, m);
    }
  }

  // ----- spacing -----

  /** The start times of the cycles that attempted a real rollback. */
  function AttemptTimes(runs: seq<Run>): seq<int> {
    if runs == [] then [] else
      var run := runs[|runs| - 1];
      AttemptTimes(runs[..|runs| - 1]) + (if Attempts(run.events) then [run.ctx.env.now] else [])
  }

  lemma {:induction false} LastAttemptTime(runs: seq<Run>)
    ensures LastAttempt(runs) == (var ts := AttemptTimes(runs); if ts == [] then 0 else ts[|ts| - 1])
    ensures forall t | t in AttemptTimes(runs) :: exists r :: r in runs && r.ctx.env.now == t
  {
    if runs != [] {
      var front := runs[..|runs| - 1];
      LastAttemptTime(front);
      assert runs == front + [runs[|runs| - 1]];
      assert runs[|runs| - 1] in runs;
    }
  }

  /** The newest attempt keeps its cooldown from the one before. */
  lemma NewestGap(runs: seq<Run>, gap: int)
    requires runs != [] && Lawful(runs)
    requires forall r | r in runs :: r.ctx.env.now != 0
    requires
      var earlier, run := AttemptTimes(runs[..|runs| - 1]), runs[|runs| - 1];
      Attempts(run.events) && earlier != [] && 0 < gap <= run.ctx.cfg.cooldown
    ensures
      var earlier, run := AttemptTimes(runs[..|runs| - 1]), runs[|runs| - 1];
      run.ctx.env.now - earlier[|earlier| - 1] >= gap
  {
    var front, run := runs[..|runs| - 1], runs[|runs| - 1];
    LastAttemptTime(front);
    AttemptIsRested(run);
    var last := AttemptTimes(front)[|AttemptTimes(front)| - 1];
    assert last in AttemptTimes(front);
    var r :| r in front && r.ctx.env.now == last;
    assert r in runs;
  }

  /** Neighbours lie at least `gap` apart, going forward. */
  predicate Spaced(ts: seq<int>, gap: int) {
    forall k | 0 <= k < |ts| - 1 :: ts[k + 1] - ts[k] >= gap
  }

  lemma SpacedSnoc(ts: seq<int>, t: int, gap: int)
    requires Spaced(ts, gap) && (ts != [] ==> t - ts[|ts| - 1] >= gap)
    ensures Spaced(ts + [t], gap)
  {
  }

  lemma {:induction false} SpacedFar(ts: seq<int>, gap: int, i: nat, j: nat)
    requires Spaced(ts, gap) && i <= j < |ts|
    ensures ts[j] - ts[i] >= (j - i) * gap
    decreases j
  {
    if i < j {
      SpacedFar(ts, gap, i, j - 1);
      assert ts[(j - 1) + 1] - ts[j - 1] >= gap;
      assert (j - i) * gap == (j - 1 - i) * gap + gap;
    }
  }

  lemma {:induction false} AttemptsSpaced(runs: seq<Run>, gap: int)
    requires Lawful(runs) && 0 < gap
    requires forall r | r in runs :: r.ctx.cfg.cooldown >= gap && r.ctx.env.now != 0
    ensures Spaced(AttemptTimes(runs), gap)
    decreases |runs|
  {
    if runs != [] {
      var front, run := runs[..|runs| - 1], runs[|runs| - 1];
      assert run in runs && forall r | r in front :: r in runs;
      AttemptsSpaced(front, gap);
      if Attempts(run.events) {
        if AttemptTimes(front) != [] { NewestGap(runs, gap); }
        SpacedSnoc(AttemptTimes(front), run.ctx.env.now, gap);
      }
    }
  }

  /**
    Mutations are spaced: with a cooldown of at least `gap` throughout, and whatever the
    clock does short of reading zero, attempts i and j lie (j - i) gaps apart.
  */
  lemma MutationSpacing(runs: seq<Run>, gap: int, i: nat, j: nat)
    requires Lawful(runs) && 0 < gap
    requires forall r | r in runs :: r.ctx.cfg.cooldown >= gap && r.ctx.env.now != 0
    requires i < j < |AttemptTimes(runs)|
    ensures AttemptTimes(runs)[j] - AttemptTimes(runs)[i] >= (j - i) * gap
  {
    AttemptsSpaced(runs, gap);
    SpacedFar(AttemptTimes(runs), gap, i, j);
  }

  lemma AttemptIsRested(run: Run)
    requires Protocol(run.ctx, run.events) && Attempts(run.events)
    ensures run.ctx.rested
  {
    var i :| 0 <= i < |run.events| && Attempt(run.events[i]);
    PathToAttempt(run.ctx, run.events, i);
  }
}
