/**
  From runtime detections and SLO counters to a verdict: the heuristic reasoner
  (cortex/internal/reasoning/reasoner.go), the governor (governor/governor.go) and the
  engine that composes them (agent/engine.go).
*/
module Decision {
  import opened Prelude
  import Slo

  datatype KernelEvent = KernelEvent(tgid: nat, cgroupId: nat, comm: string, path: Option<string>,
                                     parentComm: Option<string>, exe: Option<string>,
                                     inContainer: bool, containerId: Option<string>)

  datatype Detection = Detection(ruleId: string, severity: string, score: nat, event: KernelEvent,
                                 lineage: seq<string>)  // the ancestors' comm, nearest first

  // ----- the reasoner's predicates -----

  /**
    strings.ToLower, as far as a comparison with an ASCII word can tell: beside A to Z only
    U+0130 and U+212A have an ASCII lower-case form.
  */
  function LowerChar(c: char): char {
    if 'A' <= c <= 'Z' then c + ('a' - 'A')
    else if c == '\U{0130}' then 'i'
    else if c == '\U{212A}' then 'k'
    else c
  }

  function Lower(s: string): string {
    seq(|s|, i requires 0 <= i < |s| => LowerChar(s[i]))
  }

  predicate HasSuffix(s: string, suffix: string) {
    |suffix| <= |s| && s[|s| - |suffix|..] == suffix
  }

  function Deref(v: Option<string>): string { if v.Some? then v.value else "" }

  predicate NamesDownloader(value: string) {
    var v := Lower(value);
    HasSuffix(v, "/curl") || HasSuffix(v, "/wget") || v == "curl" || v == "wget"
  }

  predicate IsDownloader(e: KernelEvent) {
    NamesDownloader(e.comm) || NamesDownloader(Deref(e.exe)) || NamesDownloader(Deref(e.path))
  }

  predicate WebProcess(comm: string) {
    Lower(comm) in ["nginx", "apache2", "httpd", "caddy", "node", "gunicorn", "uvicorn"]
  }

  predicate HasWebAncestor(d: Detection) {
    || (exists comm | comm in d.lineage :: WebProcess(comm))
    || (d.event.parentComm.Some? && WebProcess(d.event.parentComm.value))
  }

  // ----- the hypothesis -----

  datatype Cause = InsufficientEvidence | UnresolvedAnomaly | DownloaderInWebTree

  datatype Note =
    | Saw(ruleId: string, severity: string, score: nat, process: string)
    | Correlated
    | SkepticPenalty

  datatype Hypothesis = Hypothesis(cause: Cause, confidence: real, evidence: seq<Note>)

  function Sighting(d: Detection): Note { Saw(d.ruleId, d.severity, d.score, d.event.comm) }

  function Min(x: real, y: real): real { if x < y then x else y }

  /** The greatest score, as a fraction; zero when there is none. */
  function Top(ds: seq<Detection>): real {
    if ds == [] then 0.0 else Slo.Max(Top(ds[..|ds| - 1]), ds[|ds| - 1].score as real / 100.0)
  }

  predicate AnyContainer(ds: seq<Detection>) { exists d | d in ds :: d.event.inContainer }
  predicate AnyDownloader(ds: seq<Detection>) { exists d | d in ds :: IsDownloader(d.event) }
  predicate AnyWebTree(ds: seq<Detection>) { exists d | d in ds :: HasWebAncestor(d) }

  function CauseOf(ds: seq<Detection>): Cause {
    if ds == [] then InsufficientEvidence
    else if AnyWebTree(ds) && AnyDownloader(ds) then DownloaderInWebTree
    else UnresolvedAnomaly
  }

  function ConfidenceOf(ds: seq<Detection>): real {
    if ds == [] then 0.0 else
      var raw := Top(ds)
                 + (if AnyWebTree(ds) && AnyDownloader(ds) then 0.08 else 0.0)
                 + (if AnyContainer(ds) then 0.03 else 0.0)
                 + (if |ds| > 1 then 0.04 else -0.08);
      Slo.Max(0.0, Min(0.99, raw))
  }

  /** One sighting a detection, in order. */
  function Sightings(ds: seq<Detection>): seq<Note> {
    if ds == [] then [] else Sightings(ds[..|ds| - 1]) + [Sighting(ds[|ds| - 1])]
  }

  function EvidenceOf(ds: seq<Detection>): seq<Note> {
    if ds == [] then [] else Sightings(ds) + [if |ds| > 1 then Correlated else SkepticPenalty]
  }

  function HypothesisOf(ds: seq<Detection>): Hypothesis {
    Hypothesis(CauseOf(ds), ConfidenceOf(ds), EvidenceOf(ds))
  }

  /** What one pass over the detections accumulates. */
  datatype Signals = Signals(top: real, webTree: bool, downloader: bool, container: bool, evidence: seq<Note>)

  function SignalsOf(ds: seq<Detection>): Signals {
    Signals(Top(ds), AnyWebTree(ds), AnyDownloader(ds), AnyContainer(ds), Sightings(ds))
  }

  function Extend(s: Signals, d: Detection): Signals {
    Signals(Slo.Max(s.top, d.score as real / 100.0), s.webTree || HasWebAncestor(d),
            s.downloader || IsDownloader(d.event), s.container || d.event.inContainer, s.evidence + [Sighting(d)])
  }

  lemma SignalsSnoc(ds: seq<Detection>, d: Detection)
    ensures SignalsOf(ds + [d]) == Extend(SignalsOf(ds), d)
  {
    var all := ds + [d];
    assert all[..|ds|] == ds;
    assert d in all && forall x | x in ds :: x in all;
    assert forall x | x in all :: x in ds || x == d;
  }

  /** The loop over the detections. */
  method Gather(detections: seq<Detection>) returns (s: Signals)
    ensures s == SignalsOf(detections)
  {
    s := Signals(0.0, false, false, false, []);
    for i := 0 to |detections|
      invariant s == SignalsOf(detections[..i])
    {
      var d := detections[i];
      assert detections[..i + 1] == detections[..i] + [d];
      SignalsSnoc(detections[..i], d);
      s := s.(top := Slo.Max(s.top, d.score as real / 100.0));
      if d.event.inContainer { s := s.(container := true); }
      if IsDownloader(d.event) { s := s.(downloader := true); }
      if HasWebAncestor(d) { s := s.(webTree := true); }
      s := s.(evidence := s.evidence + [Sighting(d)]);
    }
    assert detections[..|detections|] == detections;
  }

  method Investigate(detections: seq<Detection>) returns (h: Hypothesis)
    ensures h == HypothesisOf(detections)
  {
    if |detections| == 0 {
      return Hypothesis(InsufficientEvidence, 0.0, []);
    }
    var s := Gather(detections);
    var confidence, cause, evidence := s.top, UnresolvedAnomaly, s.evidence;
    if s.webTree && s.downloader {
      cause := DownloaderInWebTree;
      confidence := confidence + 0.08;
    }
    if s.container {
      confidence := confidence + 0.03;
    }
    if |detections| > 1 {
      confidence := confidence + 0.04;
      evidence := evidence + [Correlated];
    } else {
      confidence := confidence - 0.08;
      evidence := evidence + [SkepticPenalty];
    }
    confidence := Slo.Max(0.0, Min(0.99, confidence));
    return Hypothesis(cause, confidence, evidence);
  }

  // ----- the governor -----

  datatype Verdict = Observe | HumanApprovalRequired | GuardrailsPassed
  datatype Action = QuarantineAndReplace | CollectMoreEvidence
  datatype Mode = ProposalOnly | SafeIfExecutorEnabled
  datatype Target = Container(id: string) | Cgroup(cgroup: nat) | Unresolved
  datatype Remediation = Remediation(action: Action, target: Target, mode: Mode)

  const DEFAULT_MIN_AUTONOMOUS_CONFIDENCE: real := 0.92

  function Rank(v: Verdict): nat {
    match v case Observe => 0 case HumanApprovalRequired => 1 case GuardrailsPassed => 2
  }

  predicate Locates(d: Detection) {
    (d.event.containerId.Some? && d.event.containerId.value != "") || d.event.cgroupId != 0
  }

  function TargetOf(e: KernelEvent): Target {
    if e.containerId.Some? && e.containerId.value != "" then Container(e.containerId.value) else Cgroup(e.cgroupId)
  }

  /** The first detection that locates a workload decides. */
  ghost predicate Targets(ds: seq<Detection>, t: Target) {
    if t.Unresolved? then forall d | d in ds :: !Locates(d)
    else exists i :: 0 <= i < |ds| && Locates(ds[i]) && (forall k | 0 <= k < i :: !Locates(ds[k]))
                     && t == TargetOf(ds[i].event)
  }

  method WorkloadTarget(ds: seq<Detection>) returns (t: Target)
    ensures Targets(ds, t)
  {
    for i := 0 to |ds|
      invariant forall k | 0 <= k < i :: !Locates(ds[k])
    {
      var e := ds[i].event;
      if e.containerId.Some? && e.containerId.value != "" {
        assert Locates(ds[i]);
        return Container(e.containerId.value);
      }
      if e.cgroupId != 0 {
        assert Locates(ds[i]);
        return Cgroup(e.cgroupId);
      }
    }
    return Unresolved;
  }

  function VerdictOf(minimum: real, confidence: real, exhausted: bool): Verdict {
    if confidence < 0.75 then Observe
    else if confidence < minimum || !exhausted then HumanApprovalRequired
    else GuardrailsPassed
  }

  method Plan(minimum: real, ds: seq<Detection>, h: Hypothesis, budget: Slo.Budget)
    returns (verdict: Verdict, r: Remediation)
    ensures verdict == VerdictOf(minimum, h.confidence, budget.exhausted)
    ensures r.mode.SafeIfExecutorEnabled? <==> verdict.GuardrailsPassed?
    ensures r.action.CollectMoreEvidence? <==> verdict.Observe?
    ensures Targets(ds, r.target)
  {
    var target := WorkloadTarget(ds);
    r := Remediation(QuarantineAndReplace, target, ProposalOnly);
    if h.confidence < 0.75 {
      r := r.(action := CollectMoreEvidence);
      return Observe, r;
    }
    if h.confidence < minimum {
      return HumanApprovalRequired, r;
    }
    if !budget.exhausted {
      return HumanApprovalRequired, r;
    }
    r := r.(mode := SafeIfExecutorEnabled);
    return GuardrailsPassed, r;
  }

  // ----- the engine -----

  datatype Outcome = Outcome(verdict: Verdict, hypothesis: Hypothesis, budget: Slo.Budget, remediation: Remediation)

  function Judgement(minimum: real, s: Slo.Snapshot, ds: seq<Detection>): Verdict {
    VerdictOf(minimum, ConfidenceOf(ds), Slo.Evaluate(s).exhausted)
  }

  method Analyze(minimum: real, s: Slo.Snapshot, ds: seq<Detection>) returns (d: Outcome)
    ensures d.verdict == Judgement(minimum, s, ds)
    ensures d.hypothesis == HypothesisOf(ds) && d.budget == Slo.Evaluate(s)
    ensures d.remediation.mode.SafeIfExecutorEnabled? <==> d.verdict.GuardrailsPassed?
    ensures Targets(ds, d.remediation.target)
  {
    var budget := Slo.Evaluate(s);
    var h := Investigate(ds);
    var verdict, remediation := Plan(minimum, ds, h, budget);
    return Outcome(verdict, h, budget, remediation);
  }

  // ----- more evidence never lowers the verdict -----

  lemma {:induction false} TopIsMaximum(ds: seq<Detection>)
    ensures 0.0 <= Top(ds)
    ensures forall d | d in ds :: d.score as real / 100.0 <= Top(ds)
    ensures Top(ds) == 0.0 || exists d :: d in ds && Top(ds) == d.score as real / 100.0
  {
    if ds != [] {
      var front := ds[..|ds| - 1];
      TopIsMaximum(front);
      assert ds == front + [ds[|ds| - 1]];
      assert ds[|ds| - 1] in ds;
    }
  }

  lemma Included<T>(a: seq<T>, b: seq<T>)
    requires multiset(a) <= multiset(b)
    ensures |a| <= |b| && forall x | x in a :: x in b
  {
    assert multiset(b) == multiset(a) + (multiset(b) - multiset(a));
    forall x | x in a ensures x in b {
      assert x in multiset(a);
      assert x in multiset(b);
    }
  }

  lemma ConfidenceMonotone(a: seq<Detection>, b: seq<Detection>)
    requires multiset(a) <= multiset(b)
    ensures ConfidenceOf(a) <= ConfidenceOf(b)
    ensures CauseOf(a).DownloaderInWebTree? ==> CauseOf(b).DownloaderInWebTree?
  {
    Included(a, b);
    TopIsMaximum(a);
    TopIsMaximum(b);
    assert Top(a) <= Top(b);
  }

  /**
    Adding detections anywhere, in any order, and losing good events of the same traffic can
    only raise the verdict.
  */
  lemma VerdictMonotone(minimum: real, s: Slo.Snapshot, fewer: nat, a: seq<Detection>, b: seq<Detection>)
    requires multiset(a) <= multiset(b) && fewer <= s.good
    ensures Rank(Judgement(minimum, s, a)) <= Rank(Judgement(minimum, s.(good := fewer), b))
  {
    ConfidenceMonotone(a, b);
    Slo.BudgetMonotone(s, fewer);
  }

  /** Nothing depends on the order detections arrive in. */
  lemma OrderIrrelevant(minimum: real, s: Slo.Snapshot, a: seq<Detection>, b: seq<Detection>)
    requires multiset(a) == multiset(b)
    ensures ConfidenceOf(a) == ConfidenceOf(b) && CauseOf(a) == CauseOf(b)
    ensures Judgement(minimum, s, a) == Judgement(minimum, s, b)
  {
    ConfidenceMonotone(a, b);
    ConfidenceMonotone(b, a);
    Included(a, b);
    Included(b, a);
  }

  /**
    The proof the governor attaches says production is never mutated on a single signal; one
    detection does pass the default guardrails, exactly when its score is high enough.
  */
  lemma SingleSignalPasses(s: Slo.Snapshot, d: Detection)
    ensures Judgement(DEFAULT_MIN_AUTONOMOUS_CONFIDENCE, s, [d]).GuardrailsPassed? <==>
            && Slo.Evaluate(s).exhausted
            && d.score + (if HasWebAncestor(d) && IsDownloader(d.event) then 8 else 0)
               + (if d.event.inContainer then 3 else 0) >= 100
  {
    assert [d][..0] == [];
    assert Top([d]) == d.score as real / 100.0;
    assert d in [d];
    assert AnyContainer([d]) == d.event.inContainer;
    assert AnyDownloader([d]) == IsDownloader(d.event);
    assert AnyWebTree([d]) == HasWebAncestor(d);
  }

  // ----- confidence and verdicts in points -----

  /** t is the greatest score. */
  predicate GreatestScore(ds: seq<Detection>, t: nat) {
    (exists d | d in ds :: d.score == t) && forall d | d in ds :: d.score <= t
  }

  lemma TopIsGreatest(ds: seq<Detection>, t: nat)
    requires GreatestScore(ds, t)
    ensures Top(ds) * 100.0 == t as real
  {
    TopIsMaximum(ds);
    var d :| d in ds && d.score == t;
    assert d.score as real / 100.0 <= Top(ds);
  }

  /** What the detections are worth, before it is brought between 0 and 99. */
  function Points(ds: seq<Detection>, t: nat): int {
    t + (if (exists d | d in ds :: HasWebAncestor(d)) && (exists d | d in ds :: IsDownloader(d.event)) then 8 else 0)
      + (if exists d | d in ds :: d.event.inContainer then 3 else 0)
      + (if |ds| >= 2 then 4 else -8)
  }

  /** The exact confidence, in percent: the greatest score, with each addition and the penalty at its size. */
  lemma ConfidencePoints(ds: seq<Detection>, t: nat)
    requires GreatestScore(ds, t)
    ensures
      var tree := (exists d | d in ds :: HasWebAncestor(d)) && (exists d | d in ds :: IsDownloader(d.event));
      var container := exists d | d in ds :: d.event.inContainer;
      var points := t + (if tree then 8 else 0) + (if container then 3 else 0) + (if |ds| >= 2 then 4 else -8);
      && points == Points(ds, t)
      && ConfidenceOf(ds) * 100.0 == (if points < 0 then 0 else if points < 99 then points else 99) as real
      && (CauseOf(ds) == DownloaderInWebTree <==> tree) && (CauseOf(ds) == UnresolvedAnomaly <==> !tree)
  {
    TopIsGreatest(ds, t);
  }

  /** Each verdict, exactly: 75 points to act at all, the configured bar and a spent budget to act alone. */
  lemma VerdictPoints(minimum: real, s: Slo.Snapshot, ds: seq<Detection>, t: nat)
    requires GreatestScore(ds, t)
    ensures
      var verdict, points := Judgement(minimum, s, ds), Points(ds, t);
      var bar := minimum * 100.0 <= (if points <= 99 then points else 99) as real;
      var spent := s.total > 0 && Slo.Round6(Slo.Allowance(s)) > 0.0
                   && Slo.Bad(s) as real >= 0.9999995 * Slo.Round6(Slo.Allowance(s));
      && (verdict == Observe <==> points <= 74)
      && (verdict == GuardrailsPassed <==> points >= 75 && bar && spent)
      && (verdict == HumanApprovalRequired <==> points >= 75 && !(bar && spent))
  {
    ConfidencePoints(ds, t);
    Slo.ExhaustedIff(s);
  }

  /** With the default bar: 92 points, so a score of 80 twice over is not enough, and 88 is. */
  lemma DefaultVerdictPoints(s: Slo.Snapshot, ds: seq<Detection>, t: nat)
    requires GreatestScore(ds, t)
    ensures Judgement(DEFAULT_MIN_AUTONOMOUS_CONFIDENCE, s, ds).GuardrailsPassed? <==>
            Points(ds, t) >= 92 && Slo.Evaluate(s).exhausted
  {
    ConfidencePoints(ds, t);
  }

  /** Without detections there is nothing to act on. */
  lemma NoDetections(minimum: real, s: Slo.Snapshot)
    ensures Judgement(minimum, s, []) == Observe && HypothesisOf([]) == Hypothesis(InsufficientEvidence, 0.0, [])
  {
  }

  /** The evidence lists every detection in order, then whether there was more than one. */
  lemma {:induction false} EvidenceMeans(ds: seq<Detection>, i: nat)
    requires i < |ds|
    ensures |EvidenceOf(ds)| == |ds| + 1
    ensures EvidenceOf(ds)[i] == Saw(ds[i].ruleId, ds[i].severity, ds[i].score, ds[i].event.comm)
    ensures EvidenceOf(ds)[|ds|] == if |ds| >= 2 then Correlated else SkepticPenalty
  {
    SightingAt(ds, i);
  }

  lemma {:induction false} SightingAt(ds: seq<Detection>, i: nat)
    requires i < |ds|
    ensures |Sightings(ds)| == |ds|
    ensures Sightings(ds)[i] == Saw(ds[i].ruleId, ds[i].severity, ds[i].score, ds[i].event.comm)
    decreases ds
  {
    var front := ds[..|ds| - 1];
    if i < |front| {
      SightingAt(front, i);
    } else if |front| > 0 {
      SightingAt(front, 0);
    }
  }

  /** The target in terms of events: nothing before detection i names a container or a cgroup, and i does. */
  lemma TargetMeans(ds: seq<Detection>, t: Target, i: nat)
    requires Targets(ds, t) && i < |ds|
    requires forall k | 0 <= k < i ::
               ds[k].event.cgroupId == 0 && (ds[k].event.containerId == None || ds[k].event.containerId == Some(""))
    ensures ds[i].event.containerId.Some? && ds[i].event.containerId.value != "" ==>
              t == Container(ds[i].event.containerId.value)
    ensures (ds[i].event.containerId == None || ds[i].event.containerId == Some("")) && ds[i].event.cgroupId != 0 ==>
              t == Cgroup(ds[i].event.cgroupId)
  {
    assert forall k | 0 <= k < i :: !Locates(ds[k]);
    assert ds[i] in ds;
  }

  // ----- the names the reasoner looks for -----

  /** What follows the last slash. */
  function LastComponent(path: string): string {
    if path == "" || path[|path| - 1] == '/' then ""
    else LastComponent(path[..|path| - 1]) + [path[|path| - 1]]
  }

  lemma {:induction false} LastComponentSplits(path: string)
    ensures '/' !in LastComponent(path)
    ensures path == LastComponent(path) || exists front :: path == front + "/" + LastComponent(path)
    decreases path
  {
    if path != "" && path[|path| - 1] != '/' {
      var shorter, c := path[..|path| - 1], path[|path| - 1];
      LastComponentSplits(shorter);
      assert path == shorter + [c];
      if shorter != LastComponent(shorter) {
        var front :| shorter == front + "/" + LastComponent(shorter);
        assert path == front + "/" + LastComponent(path);
      }
    } else if path != "" {
      assert path == path[..|path| - 1] + "/" + "";
    }
  }

  lemma {:induction false} LastComponentOf(front: string, name: string)
    requires '/' !in name
    ensures LastComponent(name) == name && LastComponent(front + "/" + name) == name
    decreases name
  {
    if name == "" {
      assert front + "/" + name == front + "/";
    } else {
      var shorter := name[..|name| - 1];
      LastComponentOf(front, shorter);
      assert (front + "/" + name)[..|front + "/" + name| - 1] == front + "/" + shorter;
    }
  }

  lemma SuffixMeans(v: string, front: string, suffix: string)
    ensures HasSuffix(front + suffix, suffix)
    ensures HasSuffix(v, suffix) ==> v == v[..|v| - |suffix|] + suffix
  {
  }

  lemma EndsInName(v: string, name: string)
    requires '/' !in name
    ensures LastComponent(v) == name <==> v == name || HasSuffix(v, "/" + name)
  {
    hide LastComponent, HasSuffix;
    LastComponentSplits(v);
    LastComponentOf("", name);
    SuffixMeans(v, "", "/" + name);
    if HasSuffix(v, "/" + name) {
      var front := v[..|v| - |"/" + name|];
      assert v == front + "/" + name;
      LastComponentOf(front, name);
    } else if LastComponent(v) == name && v != name {
      var front :| v == front + "/" + name;
      assert v == front + ("/" + name);
      SuffixMeans(v, front, "/" + name);
    }
  }

  /** A downloader is named by the last component of a path, whatever precedes it. */
  lemma DownloaderIsLastComponent(value: string)
    ensures NamesDownloader(value) <==> LastComponent(Lower(value)) == "curl" || LastComponent(Lower(value)) == "wget"
  {
    EndsInName(Lower(value), "curl");
    EndsInName(Lower(value), "wget");
  }

  /** The same letter in either case. */
  predicate SameLetter(a: char, b: char) {
    a == b || ('A' <= a <= 'Z' && b as int == a as int + 32) || ('A' <= b <= 'Z' && a as int == b as int + 32)
  }

  /** Case does not matter. */
  lemma CaseIsIgnored(s: string, t: string)
    requires |s| == |t| && forall i | 0 <= i < |s| :: SameLetter(s[i], t[i])
    ensures Lower(s) == Lower(t)
    ensures NamesDownloader(s) == NamesDownloader(t) && WebProcess(s) == WebProcess(t)
  {
    assert forall i | 0 <= i < |s| :: LowerChar(s[i]) == LowerChar(t[i]);
  }

  lemma {:induction false} LowerLeaves(s: string)
    requires forall i | 0 <= i < |s| :: 'a' <= s[i] <= 'z' || '0' <= s[i] <= '9' || s[i] == '/'
    ensures Lower(s) == s
  {
  }

  /** The names themselves, in lower case; `node` with anything added is another process. */
  lemma WebNames(comm: string)
    requires forall i | 0 <= i < |comm| :: 'a' <= comm[i] <= 'z' || '0' <= comm[i] <= '9'
    ensures WebProcess(comm) <==>
            || comm == "nginx" || comm == "apache2" || comm == "httpd" || comm == "caddy" || comm == "node"
            || comm == "gunicorn" || comm == "uvicorn"
  {
    LowerLeaves(comm);
  }

  /** The two letters beyond ASCII whose lower case is an ASCII letter. */
  lemma ForeignCapitals()
    ensures Lower("NG\U{0130}NX") == "nginx" && Lower("\U{212A}") == "k" && WebProcess("NG\U{0130}NX")
  {
    assert Lower("NG\U{0130}NX") == ['n', 'g', 'i', 'n', 'x'];
  }

  /** Where the reasoner looks: the process's name, its executable or the event's path; the ancestors and the parent. */
  lemma SignalsMean(d: Detection)
    ensures IsDownloader(d.event) <==>
            || NamesDownloader(d.event.comm)
            || (d.event.exe.Some? && NamesDownloader(d.event.exe.value))
            || (d.event.path.Some? && NamesDownloader(d.event.path.value))
    ensures HasWebAncestor(d) <==>
            || (exists i :: 0 <= i < |d.lineage| && WebProcess(d.lineage[i]))
            || (exists comm :: d.event.parentComm == Some(comm) && WebProcess(comm))
  {
    assert !NamesDownloader("") by { assert Lower("") == ""; }
    if d.event.parentComm.Some? { assert d.event.parentComm == Some(d.event.parentComm.value); }
  }
}
