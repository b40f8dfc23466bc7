/**
  The controller's trail written through the MAC chain: what an auditor holding a file and
  the key may conclude about the cycles behind it.
*/
module AuditedHistories {
  import opened Prelude
  import opened Autonomy
  import opened Endings
  import opened Histories
  import opened Controllers
  import AuditChain

  function Names(t: seq<Action>): seq<string> {
    seq(|t|, i requires 0 <= i < |t| => Name(t[i]))
  }

  function ActionsOf(es: seq<AuditChain.Entry>): seq<string> {
    seq(|es|, i requires 0 <= i < |es| => es[i].action)
  }

  /** Every append these cycles asked for reached the file. */
  predicate AllLand(runs: seq<Run>) { forall op | op in NotedBy(runs) :: AuditChain.Lands(op) }

  /** Appends that carry these actions, one each. */
  ghost predicate Carry(ops: seq<AuditChain.Op>, t: seq<Action>) {
    |ops| == |t| && forall i | 0 <= i < |t| :: ops[i].Write? && ops[i].draft.action == Name(t[i])
  }

  lemma {:induction false} NotedIsTrail(env: Env, events: seq<Event>)
    ensures Carry(Noted(env, events), Trail(events))
  {
    if events != [] { NotedIsTrail(env, events[..|events| - 1]); }
  }

  lemma CarryConcat(ops: seq<AuditChain.Op>, more: seq<AuditChain.Op>, t: seq<Action>, u: seq<Action>)
    requires Carry(ops, t) && Carry(more, u)
    ensures Carry(ops + more, t + u)
  {
    forall i | 0 <= i < |t + u|
      ensures (ops + more)[i].Write? && (ops + more)[i].draft.action == Name((t + u)[i])
    {
      if i < |t| {
        assert ops[i].draft.action == Name(t[i]);
      } else {
        assert more[i - |t|].draft.action == Name(u[i - |t|]);
      }
    }
  }

  lemma TrailsSnoc(runs: seq<Run>, run: Run)
    ensures Concat(Trails(runs + [run])) == Concat(Trails(runs)) + Trail(run.events)
  {
    assert Trails(runs + [run])[..|runs|] == Trails(runs);
  }

  lemma {:induction false} NotedByIsTrail(runs: seq<Run>)
    ensures Carry(NotedBy(runs), Concat(Trails(runs)))
  {
    if runs != [] {
      hide NotedBy, Trails, Concat, Carry, Noted, Trail;
      var front, run := runs[..|runs| - 1], runs[|runs| - 1];
      NotedByIsTrail(front);
      NotedIsTrail(run.ctx.env, run.events);
      NotedBySnoc(front, run);
      TrailsSnoc(front, run);
      CarryConcat(NotedBy(front), Noted(run.ctx.env, run.events), Concat(Trails(front)), Trail(run.events));
      assert runs == front + [run];
    }
  }

  /** `ops` added at most one draft each, and exactly one each, with these actions, when all of them landed. */
  ghost predicate Grown(first: seq<AuditChain.Draft>, all: seq<AuditChain.Draft>, ops: seq<AuditChain.Op>,
                        t: seq<Action>)
  {
    && first <= all && |all| <= |first| + |t|
    && ((forall op | op in ops :: AuditChain.Lands(op)) <==> |all| == |first| + |t|)
    && (|all| == |first| + |t| ==> forall i | 0 <= i < |t| :: all[|first| + i].action == Name(t[i]))
  }

  lemma GrownSnoc(first: seq<AuditChain.Draft>, all: seq<AuditChain.Draft>, ops: seq<AuditChain.Op>, t: seq<Action>,
                  op: AuditChain.Op, a: Action, d: AuditChain.Draft)
    requires Grown(first, all, ops, t) && d.action == Name(a)
    ensures Grown(first, all + (if AuditChain.Lands(op) then [d] else []), ops + [op], t + [a])
  {
    assert forall o :: o in ops + [op] <==> o in ops || o == op;
  }

  lemma SplitLast<T>(before: seq<T>, s: seq<T>)
    requires s != []
    ensures
      var front, last := s[..|s| - 1], s[|s| - 1];
      s == front + [last] && before + s == (before + front) + [last]
  {
  }

  lemma {:induction false} LandedAdds(c: AuditChain.Codec, before: seq<AuditChain.Op>, ops: seq<AuditChain.Op>,
                                      t: seq<Action>)
    requires AuditChain.Reopen in before && Carry(ops, t)
    ensures Grown(AuditChain.Landed(c, before), AuditChain.Landed(c, before + ops), ops, t)
    decreases |ops|
  {
    hide AuditChain.Landed;
    if ops == [] {
      assert before + ops == before;
    } else {
      var front, last := ops[..|ops| - 1], ops[|ops| - 1];
      var done, a := t[..|t| - 1], t[|t| - 1];
      LandedAdds(c, before, front, done);
      AuditChain.LandedSnoc(c, before + front, last);
      SplitLast(before, ops);
      SplitLast([], t);
      GrownSnoc(AuditChain.Landed(c, before), AuditChain.Landed(c, before + front), front, done, last, a,
                last.draft.(payload := c.compact(last.draft.payload)));
    }
  }

  /** What each ending leaves in the log, word for word. */
  lemma LoggedWords(c: Context, events: seq<Event>, res: RunResult, err: Option<RunError>)
    requires Protocol(c, events) && Ends(c, events, res, err)
    ensures Names(Trail(events)) ==
            match EndingOf(c)
            case Finished(verdict) => (
              match verdict
              case BlockedVerdict => [if PassesGates(c) then "dry_run_rejected" else "blocked"]
              case ObserveVerdict => ["observe"]
              case CooldownVerdict => ["cooldown"]
              case HumanApprovalRequired => ["approval_required"]
              case GuardrailsPassedVerdict => ["guardrails_passed"]
              case Remediated => ["guardrails_passed", "execute_rollback", "verified"]
              case CompensatedVerdict =>
                ["guardrails_passed", "execute_rollback", "verification_failed", "compensated"]
              case _ => [])
            case Broken(error) => (
              match error
              case ExecuteFailed | Cancelled => ["guardrails_passed", "execute_rollback"]
              case UndoDryRunFailed | UndoFailed => ["guardrails_passed", "execute_rollback", "verification_failed"]
              case _ => [])
  {
    hide Protocol, Trail, EndingOf, Ready, Postconditions, Confidence, SwappableImages, Informed;
    TrailIsWord(c, events);
    EndingIsDetermined(c, events, res, err);
    Knowledge(c, events);
  }

  lemma WrittenActions(c: AuditChain.Codec, key: AuditChain.Bytes, ops: seq<AuditChain.Op>)
    requires AuditChain.Faithful(c)
    requires forall l :: l in AuditChain.Run(c, key, ops).store.lines ==> AuditChain.Fits(l)
    ensures
      var written, drafts := AuditChain.Entries(AuditChain.Run(c, key, ops).store.lines), AuditChain.Landed(c, ops);
      |written| == |drafts| && forall i | 0 <= i < |drafts| :: written[i].action == drafts[i].action
  {
    var written := AuditChain.Entries(AuditChain.Run(c, key, ops).store.lines);
    AuditChain.LogIsLandedDrafts(c, key, ops);
    assert |written| == |AuditChain.Contents(written)|;
    forall i | 0 <= i < |written| ensures written[i].action == AuditChain.Landed(c, ops)[i].action {
      assert AuditChain.Contents(written)[i] == AuditChain.Landed(c, ops)[i];
    }
  }

  lemma ActionsSplit(first: seq<AuditChain.Entry>, all: seq<AuditChain.Entry>, t: seq<Action>)
    requires |first| <= |all| <= |first| + |t|
    requires forall i | 0 <= i < |first| :: all[i].action == first[i].action
    requires |all| == |first| + |t| ==> forall i | 0 <= i < |t| :: all[|first| + i].action == Name(t[i])
    ensures ActionsOf(first) <= ActionsOf(all)
    ensures ActionsOf(all) == ActionsOf(first) + Names(t) <==> |all| == |first| + |t|
  {
    if |all| == |first| + |t| {
      forall i | 0 <= i < |all| ensures ActionsOf(all)[i] == (ActionsOf(first) + Names(t))[i] {
        if i >= |first| { assert all[|first| + (i - |first|)] == all[i]; }
      }
    } else {
      assert |ActionsOf(first) + Names(t)| == |first| + |t|;
    }
  }

  /** A controller's log is what was there before, followed by its trail, exactly when every append landed. */
  lemma RecordedActions(c: AuditChain.Codec, key: AuditChain.Bytes, before: seq<AuditChain.Op>, runs: seq<Run>)
    requires AuditChain.Faithful(c) && AuditChain.Reopen in before
    requires forall l :: l in AuditChain.Run(c, key, before + NotedBy(runs)).store.lines ==> AuditChain.Fits(l)
    ensures
      var first := ActionsOf(AuditChain.Entries(AuditChain.Run(c, key, before).store.lines));
      var all := ActionsOf(AuditChain.Entries(AuditChain.Run(c, key, before + NotedBy(runs)).store.lines));
      first <= all && (all == first + Names(Concat(Trails(runs))) <==> AllLand(runs))
  {
    hide AuditChain.Run, AuditChain.Entries, AuditChain.Landed, Concat;
    AuditChain.NothingLost(c, key, before, NotedBy(runs));
    WrittenActions(c, key, before);
    WrittenActions(c, key, before + NotedBy(runs));
    NotedByIsTrail(runs);
    LandedAdds(c, before, NotedBy(runs), Concat(Trails(runs)));
    ActionsSplit(AuditChain.Entries(AuditChain.Run(c, key, before).store.lines),
                 AuditChain.Entries(AuditChain.Run(c, key, before + NotedBy(runs)).store.lines), Concat(Trails(runs)));
  }

  lemma SameActions(c: AuditChain.Codec, a: seq<AuditChain.Entry>, b: seq<AuditChain.Entry>)
    requires AuditChain.SameRecords(c, a, b)
    ensures ActionsOf(a) == ActionsOf(b)
  {
    forall i | 0 <= i < |a| ensures a[i].action == b[i].action {
      assert AuditChain.Canonical(c, a[i]) == AuditChain.Canonical(c, b[i]);
    }
  }

  lemma BeyondFirst(es: seq<AuditChain.Entry>, written: seq<AuditChain.Entry>,
                    first: seq<AuditChain.Entry>, t: seq<Action>)
    requires ActionsOf(written) == ActionsOf(first) + Names(t)
    requires |first| <= |es| <= |written| && ActionsOf(es) == ActionsOf(written[..|es|])
    ensures ActionsOf(es)[|first|..] == Names(t[..|es| - |first|])
  {
    assert |written| == |ActionsOf(written)| == |first| + |t|;
    assert ActionsOf(written[..|es|]) == ActionsOf(written)[..|es|];
    assert Names(t[..|es| - |first|]) == Names(t)[..|es| - |first|];
  }

  /** The part of a file that goes beyond the log `first` tells the beginning of the trail, and a consistent one. */
  ghost predicate Tells(file: seq<AuditChain.Line>, first: seq<AuditChain.Entry>, trail: seq<Action>) {
    var n := |AuditChain.Entries(file)| - |first|;
    && n <= |trail|
    && (n >= 0 ==> ActionsOf(AuditChain.Entries(file))[|first|..] == Names(trail[..n]) && Balanced(trail[..n]))
  }

  /**
    Any file that verifies and ends in a MAC of this log tells a consistent story, even if its
    end has been cut off: its actions are the beginning of the controller's trail, and no
    compensation, verification or mutation in it lacks the entries that must precede it.
  */
  lemma VerifiedFileIsConsistent(c: AuditChain.Codec, key: AuditChain.Bytes, before: seq<AuditChain.Op>,
                                 runs: seq<Run>, file: seq<AuditChain.Line>)
    requires Lawful(runs) && AllLand(runs) && AuditChain.Reopen in before
    requires AuditChain.Ideal(c, key) && AuditChain.Faithful(c) && AuditChain.Accepted(c, key, file)
    requires forall l :: l in AuditChain.Run(c, key, before + NotedBy(runs)).store.lines ==> AuditChain.Fits(l)
    requires
      var written := AuditChain.Entries(AuditChain.Run(c, key, before + NotedBy(runs)).store.lines);
      file == [] || exists e :: e in written && e.mac == AuditChain.Tail(AuditChain.Entries(file))
    ensures Tells(file, AuditChain.Entries(AuditChain.Run(c, key, before).store.lines), Concat(Trails(runs)))
  {
    hide AuditChain.Run, AuditChain.Entries, Concat, Lawful, Balanced;
    var trail, es := Concat(Trails(runs)), AuditChain.Entries(file);
    var first := AuditChain.Entries(AuditChain.Run(c, key, before).store.lines);
    var written := AuditChain.Entries(AuditChain.Run(c, key, before + NotedBy(runs)).store.lines);
    RecordedActions(c, key, before, runs);
    AuditChain.VerifiedFileIsHistory(c, key, before + NotedBy(runs), file);
    assert |written| == |ActionsOf(written)| == |first| + |trail|;
    SameActions(c, es, written[..|es|]);
    if |es| >= |first| {
      BeyondFirst(es, written, first, trail);
      AuditTrailGrammar(runs, |es| - |first|);
    }
  }

  /** In every state a controller can reach, its log file and any verified copy or beginning of it tell its trail. */
  lemma ControllerLog(k: Controller, file: seq<AuditChain.Line>)
    requires k.Valid() && k.auditor != null && k.auditor.file != null
    requires AuditChain.Faithful(k.auditor.codec) && AuditChain.Ideal(k.auditor.codec, k.auditor.key)
    requires AuditChain.Reopen in k.earlier.noted && AllLand(k.runs)
    requires forall l :: l in k.auditor.file.lines ==> AuditChain.Fits(l)
    requires AuditChain.Accepted(k.auditor.codec, k.auditor.key, file)
    requires
      file == [] || exists e :: e in AuditChain.Entries(k.auditor.file.lines)
                                && e.mac == AuditChain.Tail(AuditChain.Entries(file))
    ensures
      var first := AuditChain.Entries(AuditChain.Run(k.auditor.codec, k.auditor.key, k.earlier.noted).store.lines);
      && ActionsOf(AuditChain.Entries(k.auditor.file.lines)) == ActionsOf(first) + Names(Concat(Trails(k.runs)))
      && Tells(file, first, Concat(Trails(k.runs)))
  {
    RecordedActions(k.auditor.codec, k.auditor.key, k.earlier.noted, k.runs);
    VerifiedFileIsConsistent(k.auditor.codec, k.auditor.key, k.earlier.noted, k.runs, file);
  }
}
