/**
  Revision annotations as numbers: what strconv.Atoi, its error dropped, makes of a text, and
  what the choice of a rollback target comes to when annotations are printed numbers.
*/
module Revisions {
  import opened Prelude
  import opened Kubernetes

  // ----- numerals -----

  predicate IsDigit(c: char) { '0' <= c <= '9' }

  /** Decimal notation. */
  function Decimal(n: nat): string {
    if n < 10 then [(n as char) + '0'] else Decimal(n / 10) + Decimal(n % 10)
  }

  predicate AllDigits(s: string) { forall i | 0 <= i < |s| :: IsDigit(s[i]) }

  /** Positional value, least significant digit last. */
  function Number(s: string): nat
    requires AllDigits(s)
  {
    if s == "" then 0 else Number(s[..|s| - 1]) * 10 + (s[|s| - 1] - '0') as nat
  }

  lemma {:induction false} DecimalIsNumber(n: nat)
    ensures Decimal(n) != "" && AllDigits(Decimal(n)) && Number(Decimal(n)) == n
    decreases n
  {
    if n < 10 {
      assert Decimal(n)[..0] == "";
    } else {
      DecimalIsNumber(n / 10);
      var front, last := Decimal(n / 10), Decimal(n % 10);
      assert last == [((n % 10) as char) + '0'];
      assert Decimal(n)[..|front|] == front;
    }
  }

  // ----- strconv.Atoi -----

  const TOP: nat := 18_446_744_073_709_551_615

  function Capped(n: nat, cap: nat): nat { if n <= cap then n else cap }

  /** The scan passes a run of digits on as a number, until the number outgrows 64 bits: then it ends at once. */
  lemma {:induction false} ScanDigits(s: string, rest: string)
    requires AllDigits(s)
    ensures Digits(s + rest, 0) == if Number(s) <= TOP then Digits(rest, Number(s)) else Some(TOP)
    decreases |s|
  {
    if s == "" {
      assert s + rest == rest;
    } else {
      var front, c := s[..|s| - 1], s[|s| - 1];
      ScanDigits(front, [c] + rest);
      assert s + rest == front + ([c] + rest);
      assert ([c] + rest)[1..] == rest;
    }
  }

  /**
    Any text, cut into a sign, its leading digits and a rest: the number, brought into 64 bits;
    but 0 without digits, and 0 for a rest, unless the digits had overflowed before the scan got there.
  */
  lemma AtoiOfText(sign: string, s: string, rest: string)
    requires sign == "" || sign == "+" || sign == "-"
    requires AllDigits(s) && (rest != "" ==> !IsDigit(rest[0]))
    requires sign == "" && s == "" && rest != "" ==> rest[0] != '+' && rest[0] != '-'
    ensures Atoi(sign + s + rest) ==
            if s == "" || (rest != "" && Number(s) <= TOP) then 0
            else if sign == "-" then -(Capped(Number(s), 9_223_372_036_854_775_808) as int)
            else Capped(Number(s), 9_223_372_036_854_775_807)
  {
    var text, body := sign + s + rest, s + rest;
    ScanDigits(s, rest);
    assert sign != "" ==> text[0] == sign[0] && text[1..] == body;
    assert sign == "" ==> text == body;
    assert s != "" ==> IsDigit(s[0]) && body[0] == s[0];
    assert s == "" ==> body == rest;
  }

  /** Printing and parsing: exact on what 64 bits hold, the nearest 64-bit integer beyond. */
  lemma AtoiOfDecimal(n: nat)
    ensures Atoi(Decimal(n)) == Capped(n, 9_223_372_036_854_775_807)
    ensures Atoi("+" + Decimal(n)) == Capped(n, 9_223_372_036_854_775_807)
    ensures Atoi("-" + Decimal(n)) == -(Capped(n, 9_223_372_036_854_775_808) as int)
  {
    DecimalIsNumber(n);
    AtoiOfText("", Decimal(n), "");
    AtoiOfText("+", Decimal(n), "");
    AtoiOfText("-", Decimal(n), "");
    assert "" + Decimal(n) + "" == Decimal(n);
    assert "+" + Decimal(n) + "" == "+" + Decimal(n) && "-" + Decimal(n) + "" == "-" + Decimal(n);
  }

  /** A numeral followed by something else is no number; but one beyond 64 bits is cut off before the rest is seen. */
  lemma AtoiOfTail(n: nat, rest: string)
    requires rest != "" && !IsDigit(rest[0])
    ensures Atoi(Decimal(n) + rest) == if n <= 18_446_744_073_709_551_615 then 0 else 9_223_372_036_854_775_807
  {
    DecimalIsNumber(n);
    AtoiOfText("", Decimal(n), rest);
    assert "" + Decimal(n) + rest == Decimal(n) + rest;
  }

  // ----- rollback targets by number -----

  /** The annotations carry this revision number, printed. */
  predicate Numbered(annotations: map<string, string>, revision: nat) {
    && "deployment.kubernetes.io/revision" in annotations
    && annotations["deployment.kubernetes.io/revision"] == Decimal(revision)
    && revision <= 9_223_372_036_854_775_807
  }

  predicate OwnedBy(rs: ReplicaSet, uid: string) {
    exists i :: 0 <= i < |rs.owners| && rs.owners[i] == Owner(uid, "Deployment")
  }

  lemma RevisionNumber(annotations: map<string, string>, revision: nat)
    requires Numbered(annotations, revision)
    ensures RevisionOf(annotations) == revision
  {
    AtoiOfDecimal(revision);
  }

  lemma OwnsIsOwnedBy(d: Deployment, rs: ReplicaSet)
    ensures Owns(d, rs) <==> OwnedBy(rs, d.uid)
  {
    if Owns(d, rs) {
      var o :| o in rs.owners && o.uid == d.uid && o.kind == "Deployment";
      var i :| 0 <= i < |rs.owners| && rs.owners[i] == o;
      assert rs.owners[i] == Owner(d.uid, "Deployment");
    }
  }

  /** The listed ReplicaSets carry these revisions. */
  predicate AllNumbered(rss: seq<ReplicaSet>, revisions: seq<nat>) {
    |revisions| == |rss| && forall i | 0 <= i < |rss| :: Numbered(rss[i].annotations, revisions[i])
  }

  /** ReplicaSet i belongs to the deployment and precedes revision `current`. */
  predicate Earlier(rss: seq<ReplicaSet>, revisions: seq<nat>, i: nat, uid: string, current: nat)
    requires |revisions| == |rss| && i < |rss|
  {
    OwnedBy(rss[i], uid) && 1 <= revisions[i] < current
  }

  lemma EligibleIsEarlier(d: Deployment, current: nat, rss: seq<ReplicaSet>, revisions: seq<nat>, i: nat)
    requires Numbered(d.annotations, current) && AllNumbered(rss, revisions) && i < |rss|
    ensures Eligible(d, rss[i]) <==> Earlier(rss, revisions, i, d.uid, current)
    ensures IsCurrent(d, rss[i]) <==> OwnedBy(rss[i], d.uid) && revisions[i] == current
  {
    OwnsIsOwnedBy(d, rss[i]);
    RevisionNumber(d.annotations, current);
    RevisionNumber(rss[i].annotations, revisions[i]);
  }

  /** The plan goes back to the greatest positive revision below the current one, among the deployment's own. */
  lemma PlanInNumbers(ns: string, name: string, d: Deployment, current: nat, rss: seq<ReplicaSet>,
                      revisions: seq<nat>, p: RollbackPlan)
    requires Numbered(d.annotations, current) && AllNumbered(rss, revisions) && IsPlan(ns, name, d, rss, p)
    ensures p.currentRevision == current && p.resourceVersion == d.resourceVersion
    ensures p.currentImages == ImagesOf(d.containers)
    ensures p.desiredReplicas == d.replicas && p.readyReplicas == d.readyReplicas
    ensures exists i: nat :: i < |rss| && Earlier(rss, revisions, i, d.uid, current)
                             && revisions[i] == p.previousRevision && ImagesOf(rss[i].containers) == p.previousImages
    ensures forall i: nat :: i < |rss| && Earlier(rss, revisions, i, d.uid, current) ==>
                               revisions[i] <= p.previousRevision
  {
    hide RevisionOf, Numbered, Eligible, Earlier;
    RevisionNumber(d.annotations, current);
    var rs :| rs in rss && Eligible(d, rs) && RevisionOf(rs.annotations) == p.previousRevision
              && ImagesOf(rs.containers) == p.previousImages;
    var i: nat :| i < |rss| && rss[i] == rs;
    EligibleIsEarlier(d, current, rss, revisions, i);
    RevisionNumber(rss[i].annotations, revisions[i]);
    forall k: nat | k < |rss| && Earlier(rss, revisions, k, d.uid, current)
      ensures revisions[k] <= p.previousRevision
    {
      EligibleIsEarlier(d, current, rss, revisions, k);
      RevisionNumber(rss[k].annotations, revisions[k]);
      assert rss[k] in rss;
    }
  }

  /** There is nothing to go back to exactly when no own ReplicaSet precedes the current revision. */
  lemma NoTargetInNumbers(d: Deployment, current: nat, rss: seq<ReplicaSet>, revisions: seq<nat>)
    requires Numbered(d.annotations, current) && AllNumbered(rss, revisions)
    ensures NothingEarlier(d, Some(rss)) <==>
            forall i: nat :: i < |rss| ==> !Earlier(rss, revisions, i, d.uid, current)
    ensures NothingEarlier(d, None) <==> current <= 1
  {
    hide Numbered, Eligible, Earlier;
    RevisionNumber(d.annotations, current);
    forall i: nat | i < |rss| ensures Eligible(d, rss[i]) <==> Earlier(rss, revisions, i, d.uid, current) {
      EligibleIsEarlier(d, current, rss, revisions, i);
    }
    if NothingEarlier(d, Some(rss)) {
      forall i: nat | i < |rss| ensures !Earlier(rss, revisions, i, d.uid, current) { assert rss[i] in rss; }
    }
  }

  predicate CarriesCurrent(rss: seq<ReplicaSet>, revisions: seq<nat>, i: nat, uid: string, current: nat)
    requires |revisions| == |rss| && i < |rss|
  {
    OwnedBy(rss[i], uid) && revisions[i] == current
  }

  /** The current revision's age is that of its own ReplicaSet, the last one listed. */
  lemma {:induction false} AgeInNumbers(d: Deployment, current: nat, rss: seq<ReplicaSet>, revisions: seq<nat>, i: nat)
    requires Numbered(d.annotations, current) && AllNumbered(rss, revisions)
    requires i < |rss| && CarriesCurrent(rss, revisions, i, d.uid, current)
    requires forall j: nat | i < j < |rss| :: !CarriesCurrent(rss, revisions, j, d.uid, current)
    ensures CreatedAt(d, rss) == rss[i].creationTimestamp
    decreases |rss|
  {
    hide Numbered, IsCurrent, OwnedBy;
    var last := |rss| - 1;
    EligibleIsEarlier(d, current, rss, revisions, last);
    if i < last {
      forall j: nat | i < j < last ensures !CarriesCurrent(rss[..last], revisions[..last], j, d.uid, current) {
        assert !CarriesCurrent(rss, revisions, j, d.uid, current);
      }
      assert !CarriesCurrent(rss, revisions, last, d.uid, current);
      AgeInNumbers(d, current, rss[..last], revisions[..last], i);
    }
  }

  /** Without such a ReplicaSet the age is unknown, and nothing is ever recent enough. */
  lemma {:induction false} UnknownAge(d: Deployment, current: nat, rss: seq<ReplicaSet>, revisions: seq<nat>)
    requires Numbered(d.annotations, current) && AllNumbered(rss, revisions)
    requires forall j: nat | j < |rss| :: !CarriesCurrent(rss, revisions, j, d.uid, current)
    ensures CreatedAt(d, rss) == 0
    decreases |rss|
  {
    hide Numbered, IsCurrent, OwnedBy;
    if rss != [] {
      var last := |rss| - 1;
      EligibleIsEarlier(d, current, rss, revisions, last);
      forall j: nat | j < last ensures !CarriesCurrent(rss[..last], revisions[..last], j, d.uid, current) {
        assert !CarriesCurrent(rss, revisions, j, d.uid, current);
      }
      assert !CarriesCurrent(rss, revisions, last, d.uid, current);
      UnknownAge(d, current, rss[..last], revisions[..last]);
    }
  }
}
