/**
  The MAC-chained audit log (cortex/internal/audit/chain.go).

  A log is the sequence of its lines. The MAC, JSON compaction and the printed width of
  an entry are parameters; `Ideal` and `Faithful` state what the theorems ask of them.
*/
module AuditChain {
  import opened Prelude

  type Bytes = seq<bv8>

  datatype Entry = Entry(at: int, incident: string, action: string, payload: Option<string>,
                         previous: string, mac: string)

  /** What the MAC is computed over: every field of the entry but the MAC itself. */
  datatype Record = Record(at: int, incident: string, action: string, payload: string, previous: string)

  datatype Codec = Codec(mac: (Bytes, Record) -> string, compact: string -> string, width: Entry -> nat)

  /** HMAC (section 2 of RFC 2104) idealised: no collisions, and never the empty string. */
  ghost predicate Ideal(c: Codec, key: Bytes) {
    && (forall r :: c.mac(key, r) != "")
    && (forall r, q :: c.mac(key, r) == c.mac(key, q) ==> r == q)
  }

  /** Compacting JSON twice is compacting it once. */
  ghost predicate Faithful(c: Codec) {
    forall t :: c.compact(c.compact(t)) == c.compact(t)
  }

  /** A missing payload is marshalled as `null`. */
  function Canonical(c: Codec, e: Entry): Record {
    Record(e.at, e.incident, e.action, c.compact(if e.payload.Some? then e.payload.value else "null"), e.previous)
  }

  // ----- linked sequences of entries -----

  function Tail(es: seq<Entry>): string {
    if es == [] then "" else es[|es| - 1].mac
  }

  ghost predicate LinkAt(c: Codec, key: Bytes, es: seq<Entry>, i: nat)
    requires i < |es|
  {
    && es[i].previous == (if i == 0 then "" else es[i - 1].mac)
    && es[i].mac == c.mac(key, Canonical(c, es[i]))
  }

  ghost predicate Linked(c: Codec, key: Bytes, es: seq<Entry>) {
    forall i | 0 <= i < |es| :: LinkAt(c, key, es, i)
  }

  lemma LinkedPrefix(c: Codec, key: Bytes, es: seq<Entry>, n: nat)
    requires Linked(c, key, es) && n <= |es|
    ensures Linked(c, key, es[..n])
  {
    forall i | 0 <= i < n ensures LinkAt(c, key, es[..n], i) {
      assert LinkAt(c, key, es, i);
    }
  }

  lemma LinkedSnoc(c: Codec, key: Bytes, es: seq<Entry>, e: Entry)
    ensures Linked(c, key, es + [e]) <==>
            Linked(c, key, es) && e.previous == Tail(es) && e.mac == c.mac(key, Canonical(c, e))
  {
    var all := es + [e];
    assert all[..|es|] == es;
    if Linked(c, key, all) {
      LinkedPrefix(c, key, all, |es|);
      assert LinkAt(c, key, all, |es|);
    }
    if Linked(c, key, es) && e.previous == Tail(es) && e.mac == c.mac(key, Canonical(c, e)) {
      forall i | 0 <= i < |all| ensures LinkAt(c, key, all, i) {
        if i < |es| { assert LinkAt(c, key, es, i); }
      }
    }
  }

  /** No MAC occurs twice along a chain: equal MACs descend to the empty first `previous`. */
  lemma {:induction false} MacsDistinct(c: Codec, key: Bytes, es: seq<Entry>, i: nat, j: nat)
    requires Ideal(c, key) && Linked(c, key, es)
    requires i < j < |es|
    ensures es[i].mac != es[j].mac
  {
    assert LinkAt(c, key, es, i) && LinkAt(c, key, es, j);
    assert LinkAt(c, key, es, j - 1);
    if i > 0 {
      MacsDistinct(c, key, es, i - 1, j - 1);
    }
  }

  /** Same MAC and same record, entry by entry. */
  ghost predicate SameRecords(c: Codec, a: seq<Entry>, b: seq<Entry>) {
    && |a| == |b|
    && forall i | 0 <= i < |a| :: a[i].mac == b[i].mac && Canonical(c, a[i]) == Canonical(c, b[i])
  }

  lemma LastLink(c: Codec, key: Bytes, es: seq<Entry>)
    requires Linked(c, key, es) && es != []
    ensures Linked(c, key, es[..|es| - 1])
    ensures Canonical(c, es[|es| - 1]).previous == Tail(es[..|es| - 1])
    ensures Tail(es) == c.mac(key, Canonical(c, es[|es| - 1]))
  {
    assert LinkAt(c, key, es, |es| - 1);
    LinkedPrefix(c, key, es, |es| - 1);
  }

  lemma SameRecordsSnoc(c: Codec, a: seq<Entry>, b: seq<Entry>)
    requires a != [] && b != [] && SameRecords(c, a[..|a| - 1], b[..|b| - 1])
    requires Tail(a) == Tail(b) && Canonical(c, a[|a| - 1]) == Canonical(c, b[|b| - 1])
    ensures SameRecords(c, a, b)
  {
    var a', b' := a[..|a| - 1], b[..|b| - 1];
    forall i | 0 <= i < |a| ensures a[i].mac == b[i].mac && Canonical(c, a[i]) == Canonical(c, b[i]) {
      if i < |a'| { assert a'[i] == a[i] && b'[i] == b[i]; }
    }
  }

  /** The last MAC commits to the whole log. */
  lemma {:induction false} Binding(c: Codec, key: Bytes, a: seq<Entry>, b: seq<Entry>)
    requires Ideal(c, key) && Linked(c, key, a) && Linked(c, key, b)
    requires Tail(a) == Tail(b)
    ensures SameRecords(c, a, b)
    decreases |a|
  {
    if a != [] { LastLink(c, key, a); }
    if b != [] { LastLink(c, key, b); }
    if a != [] && b != [] {
      Binding(c, key, a[..|a| - 1], b[..|b| - 1]);
      SameRecordsSnoc(c, a, b);
    }
  }

  /**
    Whoever cannot compute MACs can only end a log in one the writer issued; such a log is
    accepted only when it is, record for record, what the writer had written by then.
  */
  lemma TamperEvidence(c: Codec, key: Bytes, log: seq<Entry>, s: seq<Entry>)
    requires Ideal(c, key) && Linked(c, key, log) && Linked(c, key, s)
    requires s == [] || exists e :: e in log && e.mac == Tail(s)
    ensures |s| <= |log| && SameRecords(c, s, log[..|s|])
  {
    if s != [] {
      var j :| 0 <= j < |log| && log[j].mac == Tail(s);
      LinkedPrefix(c, key, log, j + 1);
      Binding(c, key, s, log[..j + 1]);
    }
  }

  /** Entries copied out of a log form an acceptable log exactly when they are a prefix of it. */
  lemma OnlyPrefixesSurvive(c: Codec, key: Bytes, log: seq<Entry>, s: seq<Entry>)
    requires Ideal(c, key) && Linked(c, key, log)
    requires forall e :: e in s ==> e in log
    ensures Linked(c, key, s) <==> s <= log
  {
    if Linked(c, key, s) {
      if s != [] { assert s[|s| - 1] in log; }
      TamperEvidence(c, key, log, s);
      forall i | 0 <= i < |s| ensures s[i] == log[i] {
        assert s[i] in log;
        var j :| 0 <= j < |log| && log[j] == s[i];
        assert log[..|s|][i] == log[i];
        if i < j { MacsDistinct(c, key, log, i, j); }
        if j < i { MacsDistinct(c, key, log, j, i); }
      }
    }
    if s <= log {
      LinkedPrefix(c, key, log, |s|);
      assert s == log[..|s|];
    }
  }

  // ----- files -----

  /** bufio.MaxScanTokenSize: a line this long, newline excluded, no longer fits the scanner. */
  const MAX_SCAN_TOKEN_SIZE: nat := 64 * 1024

  /** A line of the file; `entry` is None when it is not the JSON of an entry. */
  datatype Line = Line(entry: Option<Entry>, width: nat)

  predicate Fits(l: Line) { l.width < MAX_SCAN_TOKEN_SIZE }

  function Entries(lines: seq<Line>): seq<Entry> {
    if lines == [] then [] else
      var last := lines[|lines| - 1].entry;
      Entries(lines[..|lines| - 1]) + (if last.Some? then [last.value] else [])
  }

  /** Every line is an entry, and the entries are linked. */
  ghost predicate Sealed(c: Codec, key: Bytes, lines: seq<Line>) {
    (forall l :: l in lines ==> l.entry.Some?) && Linked(c, key, Entries(lines))
  }

  ghost predicate Accepted(c: Codec, key: Bytes, lines: seq<Line>) {
    Sealed(c, key, lines) && forall l :: l in lines ==> Fits(l)
  }

  lemma EntriesSnoc(lines: seq<Line>, l: Line)
    ensures Entries(lines + [l]) == Entries(lines) + (if l.entry.Some? then [l.entry.value] else [])
  {
    assert (lines + [l])[..|lines|] == lines;
  }

  lemma AcceptedSnoc(c: Codec, key: Bytes, lines: seq<Line>, l: Line)
    ensures Entries(lines + [l]) == Entries(lines) + (if l.entry.Some? then [l.entry.value] else [])
    ensures Sealed(c, key, lines + [l]) <==>
            && Sealed(c, key, lines) && l.entry.Some?
            && l.entry.value.previous == Tail(Entries(lines))
            && l.entry.value.mac == c.mac(key, Canonical(c, l.entry.value))
    ensures Accepted(c, key, lines + [l]) <==>
            Accepted(c, key, lines) && Sealed(c, key, lines + [l]) && Fits(l)
  {
    var all := lines + [l];
    EntriesSnoc(lines, l);
    assert l in all;
    assert forall k :: k in all <==> k in lines || k == l;
    if l.entry.Some? {
      LinkedSnoc(c, key, Entries(lines), l.entry.value);
    }
  }

  lemma {:induction false} AcceptedPrefix(c: Codec, key: Bytes, lines: seq<Line>, n: nat)
    requires Accepted(c, key, lines) && n <= |lines|
    ensures Accepted(c, key, lines[..n])
    decreases |lines|
  {
    if n < |lines| {
      var front := lines[..|lines| - 1];
      assert lines == front + [lines[|lines| - 1]];
      AcceptedSnoc(c, key, front, lines[|lines| - 1]);
      AcceptedPrefix(c, key, front, n);
      assert front[..n] == lines[..n];
    } else {
      assert lines[..n] == lines;
    }
  }

  datatype VerifyError =
    | CannotOpen
    | BadJson(line: nat)
    | ChainDiscontinuity(line: nat)
    | InvalidMac(line: nat)
    | LineTooLong

  /** Line n (counted from 0) is the first the checker objects to, and `err` says why. */
  ghost predicate FirstFault(c: Codec, key: Bytes, lines: seq<Line>, n: nat, err: VerifyError) {
    && n < |lines| && Accepted(c, key, lines[..n]) && !Accepted(c, key, lines[..n + 1])
    && match err
       case CannotOpen => false
       case LineTooLong => !Fits(lines[n])
       case BadJson(k) => k == n + 1 && Fits(lines[n]) && lines[n].entry.None?
       case ChainDiscontinuity(k) =>
         && k == n + 1 && Fits(lines[n]) && lines[n].entry.Some?
         && lines[n].entry.value.previous != Tail(Entries(lines[..n]))
       case InvalidMac(k) =>
         && k == n + 1 && Fits(lines[n]) && lines[n].entry.Some?
         && lines[n].entry.value.previous == Tail(Entries(lines[..n]))
         && lines[n].entry.value.mac != c.mac(key, Canonical(c, lines[n].entry.value))
  }

  /** The first line the checker objects to is at fault in this way. */
  ghost predicate Faulty(c: Codec, key: Bytes, lines: seq<Line>, err: VerifyError) {
    exists n :: FirstFault(c, key, lines, n, err)
  }

  class LogFile {
    var present: bool
    var lines: seq<Line>

    constructor ()
      ensures !present && lines == []
    {
      present, lines := false, [];
    }
  }

  method Verify(c: Codec, key: Bytes, file: LogFile) returns (err: Option<VerifyError>)
    ensures err.None? <==> file.present && Accepted(c, key, file.lines)
    ensures err == Some(CannotOpen) <==> !file.present
    ensures file.present ==> forall e :: Faulty(c, key, file.lines, e) <==> err == Some(e)
  {
    if !file.present {
      return Some(CannotOpen);
    }
    var lines := file.lines;
    var prev, line := "", 0;
    while line < |lines|
      invariant 0 <= line <= |lines|
      invariant Accepted(c, key, lines[..line])
      invariant prev == Tail(Entries(lines[..line]))
    {
      var l := lines[line];
      assert lines[..line + 1] == lines[..line] + [l];
      AcceptedSnoc(c, key, lines[..line], l);
      ghost var n := line;
      err := None;
      if !Fits(l) {
        err := Some(LineTooLong);
      } else if l.entry.None? {
        err := Some(BadJson(line + 1));
      } else if l.entry.value.previous != prev {
        err := Some(ChainDiscontinuity(line + 1));
      } else if l.entry.value.mac != c.mac(key, Canonical(c, l.entry.value)) {
        err := Some(InvalidMac(line + 1));
      }
      if err.Some? {
        NotAcceptedBeyond(c, key, lines, n + 1);
        OnlyFault(c, key, lines, n, err.value);
        return;
      }
      line, prev := line + 1, l.entry.value.mac;
    }
    assert lines[..line] == lines;
    FaultRejects(c, key, lines);
    err := None;
  }

  lemma OnlyFault(c: Codec, key: Bytes, lines: seq<Line>, n: nat, err: VerifyError)
    requires FirstFault(c, key, lines, n, err)
    ensures forall e :: Faulty(c, key, lines, e) <==> e == err
  {
    forall e, m | FirstFault(c, key, lines, m, e) ensures e == err { FaultUnique(c, key, lines, n, err, m, e); }
  }

  lemma FaultRejects(c: Codec, key: Bytes, lines: seq<Line>)
    ensures forall e :: Faulty(c, key, lines, e) ==> !Accepted(c, key, lines)
  {
    forall m: nat, e | FirstFault(c, key, lines, m, e) ensures !Accepted(c, key, lines) {
      NotAcceptedBeyond(c, key, lines, m + 1);
    }
  }

  lemma NotAcceptedBeyond(c: Codec, key: Bytes, lines: seq<Line>, n: nat)
    requires n <= |lines| && !Accepted(c, key, lines[..n])
    ensures !Accepted(c, key, lines)
  {
    if Accepted(c, key, lines) { AcceptedPrefix(c, key, lines, n); }
  }

  /** The answer is determined: one first fault, one reason. */
  lemma FaultUnique(c: Codec, key: Bytes, lines: seq<Line>, n: nat, err: VerifyError, m: nat, other: VerifyError)
    requires FirstFault(c, key, lines, n, err) && FirstFault(c, key, lines, m, other)
    ensures n == m && err == other
  {
    if n < m { AcceptedShorter(c, key, lines, m, n + 1); }
    if m < n { AcceptedShorter(c, key, lines, n, m + 1); }
  }

  lemma AcceptedShorter(c: Codec, key: Bytes, lines: seq<Line>, m: nat, n: nat)
    requires n <= m <= |lines| && Accepted(c, key, lines[..m])
    ensures Accepted(c, key, lines[..n])
  {
    AcceptedPrefix(c, key, lines[..m], n);
    assert lines[..m][..n] == lines[..n];
  }

  // ----- what the MAC covers -----

  /** The payload as the MAC sees it: compacted, a missing one read as null. */
  function Text(c: Codec, e: Entry): string {
    match e.payload case None => c.compact("null") case Some(p) => c.compact(p)
  }

  /** Entries that agree in every field; payloads up to compaction. */
  predicate SameContent(c: Codec, a: Entry, b: Entry) {
    && a.at == b.at && a.incident == b.incident && a.action == b.action && a.previous == b.previous
    && Text(c, a) == Text(c, b)
  }

  /** The record is the content: logs that agree record for record agree field by field. */
  lemma RecordsAreContents(c: Codec, a: seq<Entry>, b: seq<Entry>)
    ensures SameRecords(c, a, b) <==>
            |a| == |b| && forall i | 0 <= i < |a| :: a[i].mac == b[i].mac && SameContent(c, a[i], b[i])
  {
    if |a| == |b| {
      forall i | 0 <= i < |a| ensures Canonical(c, a[i]) == Canonical(c, b[i]) <==> SameContent(c, a[i], b[i]) {
        ContentIsRecord(c, a[i], b[i]);
      }
    }
  }

  /** What equal records leave open: nothing but the layout of the payload. */
  lemma FieldsAgree(c: Codec, a: seq<Entry>, b: seq<Entry>, i: nat)
    requires SameRecords(c, a, b) && i < |a|
    ensures a[i].at == b[i].at && a[i].incident == b[i].incident && a[i].action == b[i].action
    ensures a[i].previous == b[i].previous && a[i].mac == b[i].mac
    ensures c.compact(if a[i].payload.Some? then a[i].payload.value else "null")
         == c.compact(if b[i].payload.Some? then b[i].payload.value else "null")
  {
    ContentIsRecord(c, a[i], b[i]);
  }

  lemma ContentIsRecord(c: Codec, a: Entry, b: Entry)
    ensures Canonical(c, a) == Canonical(c, b) <==> SameContent(c, a, b)
  {
  }

  /** A line of an accepted log, replaced by another that fits the scanner. */
  function Edited(lines: seq<Line>, i: nat, e: Entry, width: nat): seq<Line>
    requires i < |lines|
  {
    lines[i := Line(Some(e), width)]
  }

  lemma LineOf(c: Codec, key: Bytes, lines: seq<Line>, i: nat)
    requires Accepted(c, key, lines) && i < |lines|
    ensures Accepted(c, key, lines[..i]) && lines[i].entry.Some?
    ensures lines[i].entry.value.previous == Tail(Entries(lines[..i]))
    ensures lines[i].entry.value.mac == c.mac(key, Canonical(c, lines[i].entry.value))
  {
    AcceptedPrefix(c, key, lines, i + 1);
    assert lines[..i + 1] == lines[..i] + [lines[i]];
    AcceptedSnoc(c, key, lines[..i], lines[i]);
  }

  /**
    Tampering shows where it happened: in an accepted log, put another content under an entry's
    MAC, or another MAC under its content, and the checker rejects exactly that line.
  */
  lemma EditFailsAtItsLine(c: Codec, key: Bytes, lines: seq<Line>, i: nat, e: Entry, width: nat)
    requires Ideal(c, key) && Accepted(c, key, lines) && i < |lines| && width < 65_536
    requires lines[i].entry.Some? && (e.mac == lines[i].entry.value.mac) != SameContent(c, e, lines[i].entry.value)
    ensures FirstFault(c, key, Edited(lines, i, e, width), i,
                       if e.previous != lines[i].entry.value.previous then ChainDiscontinuity(i + 1)
                       else InvalidMac(i + 1))
  {
    var edited := Edited(lines, i, e, width);
    LineOf(c, key, lines, i);
    ContentIsRecord(c, e, lines[i].entry.value);
    assert edited[..i] == lines[..i] && edited[..i + 1] == lines[..i] + [edited[i]];
    AcceptedSnoc(c, key, lines[..i], edited[i]);
  }

  /** So do lines that are no entries, and lines beyond the scanner's limit. */
  lemma GarbageFailsAtItsLine(c: Codec, key: Bytes, lines: seq<Line>, i: nat, l: Line)
    requires Accepted(c, key, lines) && i < |lines|
    ensures l.width >= 65_536 ==> FirstFault(c, key, lines[i := l], i, LineTooLong)
    ensures l.width < 65_536 && l.entry == None ==> FirstFault(c, key, lines[i := l], i, BadJson(i + 1))
  {
    var edited := lines[i := l];
    LineOf(c, key, lines, i);
    assert edited[..i] == lines[..i] && edited[..i + 1] == lines[..i] + [l];
    AcceptedSnoc(c, key, lines[..i], l);
  }

  /** Nothing but the layout of a payload can be edited unnoticed. */
  lemma {:induction false} EditAcceptedIff(c: Codec, key: Bytes, lines: seq<Line>, i: nat, e: Entry, width: nat)
    requires Ideal(c, key) && Accepted(c, key, lines) && i < |lines| && width < 65_536
    requires lines[i].entry.Some? && e.mac == lines[i].entry.value.mac
    ensures Accepted(c, key, Edited(lines, i, e, width)) <==> SameContent(c, e, lines[i].entry.value)
    decreases |lines|
  {
    var edited := Edited(lines, i, e, width);
    if !SameContent(c, e, lines[i].entry.value) {
      EditFailsAtItsLine(c, key, lines, i, e, width);
      NotAcceptedBeyond(c, key, edited, i + 1);
    } else {
      EditKeepsAcceptance(c, key, lines, i, e, width);
    }
  }

  lemma {:induction false} EditKeepsAcceptance(c: Codec, key: Bytes, lines: seq<Line>, i: nat, e: Entry, width: nat)
    requires Accepted(c, key, lines) && i < |lines| && width < 65_536
    requires lines[i].entry.Some? && e.mac == lines[i].entry.value.mac && SameContent(c, e, lines[i].entry.value)
    ensures Accepted(c, key, Edited(lines, i, e, width))
    ensures Tail(Entries(Edited(lines, i, e, width))) == Tail(Entries(lines))
    decreases |lines|
  {
    var edited, last := Edited(lines, i, e, width), |lines| - 1;
    LineOf(c, key, lines, last);
    assert lines == lines[..last] + [lines[last]] && edited == edited[..last] + [edited[last]];
    AcceptedSnoc(c, key, lines[..last], lines[last]);
    if i < last {
      EditKeepsAcceptance(c, key, lines[..last], i, e, width);
      assert edited[..last] == Edited(lines[..last], i, e, width);
    } else {
      ContentIsRecord(c, e, lines[i].entry.value);
      assert edited[..last] == lines[..last];
    }
    AcceptedSnoc(c, key, edited[..last], edited[last]);
  }

  // ----- the writer -----

  /** How far one append gets; a write either lands whole or not at all. */
  datatype AppendIo = MarshalFails | MkdirFails | OpenFails | WriteFails | SyncFails | Succeeds

  datatype Draft = Draft(at: int, incident: string, action: string, payload: string)

  function Seal(c: Codec, key: Bytes, d: Draft, previous: string): Entry {
    var e := Entry(d.at, d.incident, d.action, Some(d.payload), previous, "");
    e.(mac := c.mac(key, Canonical(c, e)))
  }

  /** Marshalling the entry compacts its payload once more. */
  function Printed(c: Codec, e: Entry): Line {
    var p := e.(payload := if e.payload.Some? then Some(c.compact(e.payload.value)) else None);
    Line(Some(p), c.width(p))
  }

  /** Printing and reading an entry back changes nothing the MAC covers. */
  lemma PrintedFaithfully(c: Codec, e: Entry)
    requires Faithful(c) && e.payload.Some?
    ensures
      var p := Printed(c, e).entry;
      && p.Some? && p.value.previous == e.previous && p.value.mac == e.mac
      && Canonical(c, p.value) == Canonical(c, e)
  {
  }

  datatype Store = Store(present: bool, lines: seq<Line>)

  /** The file and, when a chain is open on it, the chain's `previous`. */
  datatype Session = Session(store: Store, writer: Option<string>)

  function Appended(c: Codec, key: Bytes, s: Session, d: Draft, io: AppendIo): Session
    requires s.writer.Some?
  {
    match io
    case MarshalFails | MkdirFails | OpenFails => s
    case WriteFails => s.(store := s.store.(present := true))
    case SyncFails | Succeeds =>
      var e := Seal(c, key, d, s.writer.value);
      Session(Store(true, s.store.lines + [Printed(c, e)]), Some(e.mac))
  }

  /**
    What an append comes to, by how far it got. Until the write nothing happens, save that opening
    creates the file; from the write on the entry is in the file and the next one links to it, even
    when the sync after it fails and the caller is told so.
  */
  lemma AppendOutcome(c: Codec, key: Bytes, s: Session, d: Draft, io: AppendIo)
    requires s.writer.Some?
    ensures
      var t, written := Appended(c, key, s, d, io), io.SyncFails? || io.Succeeds?;
      && t.store.present == (s.store.present || written || io.WriteFails?)
      && if !written then t.store.lines == s.store.lines && t.writer == s.writer
         else
           && |t.store.lines| == |s.store.lines| + 1 && t.store.lines[..|s.store.lines|] == s.store.lines
           && t.store.lines[|s.store.lines|].entry.Some?
           && var e := t.store.lines[|s.store.lines|].entry.value;
              && e.at == d.at && e.incident == d.incident && e.action == d.action
              && e.payload == Some(c.compact(d.payload)) && e.previous == s.writer.value && Some(e.mac) == t.writer
              && e.mac == c.mac(key, Record(d.at, d.incident, d.action, c.compact(d.payload), s.writer.value))
  {
  }

  /** Where a writer resumes; None when the existing chain does not verify. */
  ghost function Resumed(c: Codec, key: Bytes, store: Store): Option<string> {
    if !store.present then Some("")
    else if Accepted(c, key, store.lines) then Some(Tail(Entries(store.lines)))
    else None
  }

  class Chain {
    const codec: Codec
    const key: Bytes
    const file: LogFile?
    var previous: string

    constructor (codec: Codec, key: Bytes, file: LogFile?)
      ensures this.codec == codec && this.key == key && this.file == file && previous == ""
    {
      this.codec, this.key, this.file, this.previous := codec, key, file, "";
    }

    ghost function State(): Session
      requires file != null
      reads this, file
    {
      Session(Store(file.present, file.lines), Some(previous))
    }

    /** `New`: an empty path is a chain that logs nothing. */
    static method Open(codec: Codec, key: Bytes, file: LogFile?) returns (r: Result<Chain, VerifyError>)
      ensures r.Ok? ==> fresh(r.value) && r.value.codec == codec && r.value.key == key && r.value.file == file
      ensures file == null ==> r.Ok? && r.value.previous == ""
      ensures file != null ==>
                (if r.Ok? then Some(r.value.previous) else None)
                == Resumed(codec, key, Store(file.present, file.lines))
    {
      var c := new Chain(codec, key, file);
      if file == null || !file.present {
        return Ok(c);
      }
      var err := Verify(codec, key, file);
      if err.Some? {
        return Err(err.value);
      }
      for i := 0 to |file.lines|
        invariant c.previous == Tail(Entries(file.lines[..i]))
      {
        assert file.lines[..i + 1][..i] == file.lines[..i];
        if file.lines[i].entry.Some? {
          c.previous := file.lines[i].entry.value.mac;
        }
      }
      assert file.lines[..|file.lines|] == file.lines;
      return Ok(c);
    }

    method Append(d: Draft, io: AppendIo) returns (ok: bool)
      modifies this, file
      ensures file == null ==> ok && previous == old(previous)
      ensures file != null ==> State() == Appended(codec, key, old(State()), d, io)
      ensures file != null ==> (ok <==> io.Succeeds?)
    {
      if file == null {
        return true;
      }
      if io.MarshalFails? {
        return false;
      }
      var e := Entry(d.at, d.incident, d.action, Some(d.payload), previous, "");
      e := e.(mac := codec.mac(key, Canonical(codec, e)));
      var line := Printed(codec, e);
      if io.MkdirFails? || io.OpenFails? {
        return false;
      }
      file.present := true;
      if io.WriteFails? {
        return false;
      }
      file.lines := file.lines + [line];
      previous := e.mac;
      return io.Succeeds?;
    }
  }

  // ----- whole sessions -----

  datatype Op = Reopen | Write(draft: Draft, io: AppendIo)

  ghost function Step(c: Codec, key: Bytes, s: Session, op: Op): Session {
    match op
    case Reopen => s.(writer := Resumed(c, key, s.store))
    case Write(d, io) => if s.writer.None? then s else Appended(c, key, s, d, io)
  }

  /** Any sequence of restarts and appends, starting with no file. */
  ghost function Run(c: Codec, key: Bytes, ops: seq<Op>): Session {
    if ops == [] then Session(Store(false, []), None)
    else Step(c, key, Run(c, key, ops[..|ops| - 1]), ops[|ops| - 1])
  }

  lemma RunSnoc(c: Codec, key: Bytes, ops: seq<Op>, op: Op)
    ensures Run(c, key, ops + [op]) == Step(c, key, Run(c, key, ops), op)
  {
    assert (ops + [op])[..|ops|] == ops;
  }

  ghost predicate Coherent(c: Codec, key: Bytes, s: Session) {
    && Sealed(c, key, s.store.lines)
    && (!s.store.present ==> s.store.lines == [])
    && (s.writer.Some? ==> s.writer.value == Tail(Entries(s.store.lines)))
  }

  lemma StepCoherent(c: Codec, key: Bytes, s: Session, op: Op)
    requires Faithful(c) && Coherent(c, key, s)
    ensures Coherent(c, key, Step(c, key, s, op))
  {
    if op.Write? && s.writer.Some? && (op.io.SyncFails? || op.io.Succeeds?) {
      var e := Seal(c, key, op.draft, s.writer.value);
      PrintedFaithfully(c, e);
      AcceptedSnoc(c, key, s.store.lines, Printed(c, e));
      var es := Entries(s.store.lines);
      assert Tail(es + [Printed(c, e).entry.value]) == e.mac;
    }
  }

  /**
    After any run the file is one unbroken chain and an open writer stands at its end;
    the checker accepts the file exactly when every line fits its scanner.
  */
  lemma {:induction false} RoundTrip(c: Codec, key: Bytes, ops: seq<Op>)
    requires Faithful(c)
    ensures Coherent(c, key, Run(c, key, ops))
    ensures Accepted(c, key, Run(c, key, ops).store.lines) <==>
            forall l :: l in Run(c, key, ops).store.lines ==> Fits(l)
  {
    if ops != [] {
      RoundTrip(c, key, ops[..|ops| - 1]);
      StepCoherent(c, key, Run(c, key, ops[..|ops| - 1]), ops[|ops| - 1]);
    }
  }

  /** Lines are only ever added. */
  lemma {:induction false} NothingLost(c: Codec, key: Bytes, ops: seq<Op>, more: seq<Op>)
    ensures Run(c, key, ops).store.lines <= Run(c, key, ops + more).store.lines
    decreases |more|
  {
    if more == [] {
      assert ops + more == ops;
    } else {
      var front := more[..|more| - 1];
      NothingLost(c, key, ops, front);
      assert (ops + more)[..|ops + more| - 1] == ops + front;
    }
  }

  // ----- what the log holds -----

  function Contents(es: seq<Entry>): seq<Draft> {
    seq(|es|, i requires 0 <= i < |es| =>
      Draft(es[i].at, es[i].incident, es[i].action, if es[i].payload.Some? then es[i].payload.value else "null"))
  }

  predicate Lands(op: Op) { op.Write? && (op.io.SyncFails? || op.io.Succeeds?) }

  /** The drafts whose line reached the file, in order: an open chain, and a write that landed. */
  function Landed(c: Codec, ops: seq<Op>): seq<Draft> {
    if ops == [] then [] else
      var front, last := ops[..|ops| - 1], ops[|ops| - 1];
      Landed(c, front) +
      (if Reopen in front && Lands(last)
       then [last.draft.(payload := c.compact(last.draft.payload))] else [])
  }

  lemma LandedSnoc(c: Codec, ops: seq<Op>, op: Op)
    ensures Landed(c, ops + [op]) ==
            Landed(c, ops) + (if Reopen in ops && Lands(op)
                              then [op.draft.(payload := c.compact(op.draft.payload))] else [])
  {
    assert (ops + [op])[..|ops|] == ops;
  }

  lemma StepContents(c: Codec, key: Bytes, s: Session, op: Op)
    ensures Contents(Entries(Step(c, key, s, op).store.lines)) ==
            Contents(Entries(s.store.lines)) +
            (if s.writer.Some? && Lands(op) then [op.draft.(payload := c.compact(op.draft.payload))] else [])
  {
    if s.writer.Some? && Lands(op) {
      EntriesSnoc(s.store.lines, Printed(c, Seal(c, key, op.draft, s.writer.value)));
    }
  }

  /** Only a restart opens a writer, and nothing but a failed restart closes one. */
  lemma StepOpens(c: Codec, key: Bytes, s: Session, op: Op)
    ensures op.Write? ==> (Step(c, key, s, op).writer.Some? <==> s.writer.Some?)
    ensures op.Reopen? ==> (Step(c, key, s, op).writer.Some? <==> !s.store.present || Accepted(c, key, s.store.lines))
    ensures op.Reopen? ==> Step(c, key, s, op).store == s.store
  {
  }

  /** While lines fit the scanner, the log is exactly the landed drafts: none lost, doubled or reordered. */
  lemma {:induction false} LogIsLandedDrafts(c: Codec, key: Bytes, ops: seq<Op>)
    requires Faithful(c)
    requires forall l :: l in Run(c, key, ops).store.lines ==> Fits(l)
    ensures Contents(Entries(Run(c, key, ops).store.lines)) == Landed(c, ops)
    ensures Run(c, key, ops).writer.Some? <==> Reopen in ops
  {
    if ops != [] {
      hide Landed, Run, Contents, Entries, Appended;
      var front, last := ops[..|ops| - 1], ops[|ops| - 1];
      var s := Run(c, key, front);
      assert ops == front + [last];
      assert forall op :: op in ops <==> op in front || op == last;
      NothingLost(c, key, front, [last]);
      LogIsLandedDrafts(c, key, front);
      RoundTrip(c, key, front);
      StepContents(c, key, s, last);
      StepOpens(c, key, s, last);
      RunSnoc(c, key, front, last);
      LandedSnoc(c, front, last);
    }
  }

  /** One line too long for the scanner locks every later restart out, whatever happens next. */
  lemma OversizedLineLocksOut(c: Codec, key: Bytes, ops: seq<Op>, more: seq<Op>)
    requires Faithful(c)
    requires exists l :: l in Run(c, key, ops).store.lines && 65_536 <= l.width
    ensures Run(c, key, ops + more + [Reopen]).writer.None?
  {
    NothingLost(c, key, ops, more);
    RoundTrip(c, key, ops + more);
    var l :| l in Run(c, key, ops).store.lines && 65_536 <= l.width;
    assert l in Run(c, key, ops + more).store.lines;
    assert (ops + more + [Reopen])[..|ops + more|] == ops + more;
  }

  /**
    The two sides together: a file that verifies and ends in a MAC some session issued
    holds, record for record, the beginning of what that session wrote.
  */
  lemma VerifiedFileIsHistory(c: Codec, key: Bytes, ops: seq<Op>, file: seq<Line>)
    requires Ideal(c, key) && Faithful(c) && Accepted(c, key, file)
    requires
      var written := Entries(Run(c, key, ops).store.lines);
      file == [] || exists e :: e in written && e.mac == Tail(Entries(file))
    ensures
      var written := Entries(Run(c, key, ops).store.lines);
      |Entries(file)| <= |written| && SameRecords(c, Entries(file), written[..|Entries(file)|])
  {
    RoundTrip(c, key, ops);
    TamperEvidence(c, key, Entries(Run(c, key, ops).store.lines), Entries(file));
  }

  // ----- such codecs exist -----

  /** A text that tells where it ends. */
  function Marked(s: string): string {
    if s == "" then "." else "-" + [s[0]] + Marked(s[1..])
  }

  lemma {:induction false} MarkedTells(s: string, t: string, x: string, y: string)
    requires Marked(s) + x == Marked(t) + y
    ensures s == t && x == y
    decreases |s|
  {
    var u, v := Marked(s) + x, Marked(t) + y;
    assert u[0] == (if s == "" then '.' else '-') && v[0] == (if t == "" then '.' else '-');
    if s == "" {
      assert u[1..] == x && v[1..] == y;
    } else {
      assert u[1] == s[0] && v[1] == t[0];
      assert u[2..] == Marked(s[1..]) + x && v[2..] == Marked(t[1..]) + y;
      MarkedTells(s[1..], t[1..], x, y);
      assert s == [s[0]] + s[1..] && t == [t[0]] + t[1..];
    }
  }

  /** An instant, in strokes. */
  function Tally(at: int): string {
    if at < 0 then seq(1 - at, i => '<') else seq(at, i => '>')
  }

  lemma TallyTells(a: int, b: int)
    requires Tally(a) == Tally(b)
    ensures a == b
  {
    assert a < 0 ==> Tally(a)[0] == '<';
    assert b < 0 ==> Tally(b)[0] == '<';
    assert a > 0 ==> Tally(a)[0] == '>';
    assert b > 0 ==> Tally(b)[0] == '>';
  }

  function Written(r: Record): string {
    Marked(Tally(r.at)) + (Marked(r.incident) + (Marked(r.action) + (Marked(r.payload) + (Marked(r.previous) + ""))))
  }

  lemma WrittenTells(r: Record, q: Record)
    requires Written(r) == Written(q)
    ensures r == q
  {
    var r1, q1 := Marked(r.previous) + "", Marked(q.previous) + "";
    var r2, q2 := Marked(r.payload) + r1, Marked(q.payload) + q1;
    var r3, q3 := Marked(r.action) + r2, Marked(q.action) + q2;
    MarkedTells(Tally(r.at), Tally(q.at), Marked(r.incident) + r3, Marked(q.incident) + q3);
    MarkedTells(r.incident, q.incident, r3, q3);
    MarkedTells(r.action, q.action, r2, q2);
    MarkedTells(r.payload, q.payload, r1, q1);
    MarkedTells(r.previous, q.previous, "", "");
    TallyTells(r.at, q.at);
  }

  /** What the theorems ask of a codec can be had; they are not about nothing. */
  lemma IdealExists(key: Bytes)
    ensures
      var c := Codec((k: Bytes, r: Record) => Written(r), (t: string) => t, (e: Entry) => 0);
      Ideal(c, key) && Faithful(c)
  {
    forall r, q | Written(r) == Written(q) ensures r == q { WrittenTells(r, q); }
    forall r: Record ensures Written(r) != "" { assert Marked(Tally(r.at)) != ""; }
  }
}
