/** The alert path of the enrichment write: one fingerprint, a batch in one
    transaction, the occurrence upsert with its bounded retry, and the service above
    that publishes what it stored. */
module AlertEnrichment {
  import opened Values
  import opened Normalization
  import opened LastAlertRows

  /** Who did what, for the audit trail; `enabled` is `audit_enabled`. */
  datatype Act = Act(callee: string, action: string, description: string, enabled: bool)

  datatype Audit = Audit(fingerprint: string, callee: string, action: string, description: string)

  datatype Outcome = Written | UnknownKeys | NullInRequiredColumn

  datatype Table = Table(rows: map<string, Row>, audits: seq<Audit>)

  predicate ValidTable(t: Table) {
    forall f :: f in t.rows ==> ValidRow(t.rows[f]) && Storable(t.rows[f].user)
  }

  // ---------------------------------------------------------------- specification

  function AuditsOf(fps: seq<string>, act: Act): seq<Audit> {
    if act.enabled then seq(|fps|, i requires 0 <= i < |fps| => Audit(fps[i], act.callee, act.action, act.description))
    else []
  }

  function Named(fps: seq<string>): set<string> {
    set f | f in fps
  }

  function Enriched(r: Row, named: bool, n: Dict, force: bool): Row {
    if named then r.(user := Write(r.user, n, force)) else r
  }

  function WriteRows(rows: map<string, Row>, fps: set<string>, n: Dict, force: bool): map<string, Row> {
    map f | f in rows :: Enriched(rows[f], f in fps, n, force)
  }

  /** One fingerprint: the row is written if there is one, the audit entry always. */
  function WriteOne(t: Table, fp: string, n: Dict, act: Act, force: bool): (Table, Outcome) {
    if fp in t.rows && !Storable(Write(t.rows[fp].user, n, force)) then (t, NullInRequiredColumn)
    else (Table(WriteRows(t.rows, {fp}, n, force), t.audits + AuditsOf([fp], act)), Written)
  }

  function EnrichOne(t: Table, fp: string, e: Dict, act: Act, force: bool, strict: bool): (Table, Outcome) {
    match Normalize(e, strict)
    case Rejected(_) => (t, UnknownKeys)
    case Accepted(n) => WriteOne(t, fp, n, act, force)
  }

  /** The fingerprints one after the other, each in its own transaction, up to the first failure. */
  function EnrichEach(t: Table, fps: seq<string>, e: Dict, act: Act, force: bool, strict: bool): (Table, Outcome)
    decreases |fps|
  {
    if fps == [] then (t, Written)
    else
      var (t', r) := EnrichOne(t, fps[0], e, act, force, strict);
      if r == Written then EnrichEach(t', fps[1..], e, act, force, strict) else (t', r)
  }

  predicate SomeRefused(rows: map<string, Row>, fps: seq<string>, n: Dict) {
    exists f :: f in fps && f in rows && !Storable(Write(rows[f].user, n, false))
  }

  /** All fingerprints in one transaction: either every row and every audit entry, or nothing. */
  function WriteAll(t: Table, fps: seq<string>, n: Dict, act: Act): (Table, Outcome) {
    if SomeRefused(t.rows, fps, n) then (t, NullInRequiredColumn)
    else (Table(WriteRows(t.rows, Named(fps), n, false), t.audits + AuditsOf(fps, act)), Written)
  }

  function EnrichAll(t: Table, fps: seq<string>, e: Dict, act: Act, strict: bool): (Table, Outcome) {
    match Normalize(e, strict)
    case Rejected(_) => (t, UnknownKeys)
    case Accepted(n) => WriteAll(t, fps, n, act)
  }

  // ---------------------------------------------------------------- the code

  datatype DbFault = NoFault | Transient | Fatal

  function RowOf(rows: map<string, Row>, f: string): Option<Row> {
    if f in rows then Some(rows[f]) else None
  }

  class AlertStore {
    var rows: map<string, Row>
    var audits: seq<Audit>

    function View(): Table
      reads this
    {
      Table(rows, audits)
    }

    constructor ()
      ensures View() == Table(map[], [])
    {
      rows, audits := map[], [];
    }

    method EnrichEntity(fingerprint: string, enrichments: Dict, act: Act, force: bool, strict: bool)
      returns (outcome: Outcome)
      modifies this
      ensures (View(), outcome) == EnrichOne(old(View()), fingerprint, enrichments, act, force, strict)
    {
      var normalized := NormalizeEnrichments(enrichments, strict);
      if normalized.Rejected? {
        return UnknownKeys;
      }
      if fingerprint in rows {
        var lastAlert := new LastAlertRecord.Load(rows[fingerprint]);
        lastAlert.ApplyEnrichments(normalized.fields, force);
        if !Storable(lastAlert.user) {
          return NullInRequiredColumn;
        }
        rows := rows[fingerprint := lastAlert.View()];
      }
      assert rows == WriteRows(old(rows), {fingerprint}, normalized.fields, force);
      if act.enabled {
        audits := audits + [Audit(fingerprint, act.callee, act.action, act.description)];
      }
      assert audits == old(audits) + AuditsOf([fingerprint], act);
      return Written;
    }

    /** Loads the rows of a batch, one record object each. */
    method LoadRecords(fingerprints: seq<string>) returns (loaded: map<string, LastAlertRecord>)
      ensures forall f :: f in loaded <==> f in fingerprints && f in rows
      ensures forall f :: f in loaded ==> fresh(loaded[f]) && loaded[f].View() == rows[f]
      ensures forall f, g :: f in loaded && g in loaded && f != g ==> loaded[f] != loaded[g]
    {
      loaded := map[];
      for i := 0 to |fingerprints|
        invariant forall f :: f in loaded <==> f in fingerprints[..i] && f in rows
        invariant forall f :: f in loaded ==> fresh(loaded[f]) && loaded[f].View() == rows[f]
        invariant forall f, g :: f in loaded && g in loaded && f != g ==> loaded[f] != loaded[g]
      {
        var fp := fingerprints[i];
        if fp in rows && fp !in loaded {
          var record := new LastAlertRecord.Load(rows[fp]);
          loaded := loaded[fp := record];
        }
      }
    }

    /** Writes the dictionary on the record of every fingerprint that has one and
        collects the audit entries; a repeated fingerprint is written again. */
    method ApplyToRecords(loaded: map<string, LastAlertRecord>, fingerprints: seq<string>, n: Dict, act: Act)
      returns (entries: seq<Audit>)
      requires forall f, g :: f in loaded && g in loaded && f != g ==> loaded[f] != loaded[g]
      requires forall f :: f in loaded ==> f in rows && loaded[f].View() == rows[f]
      modifies set f | f in loaded :: loaded[f]
      ensures entries == AuditsOf(fingerprints, act)
      ensures forall f :: f in loaded ==>
        loaded[f].View() == Enriched(rows[f], f in fingerprints, n, false)
    {
      entries := [];
      for i := 0 to |fingerprints|
        invariant entries == AuditsOf(fingerprints[..i], act)
        invariant forall f :: f in loaded ==>
          loaded[f].View() == Enriched(rows[f], f in fingerprints[..i], n, false)
      {
        var fp := fingerprints[i];
        assert fingerprints[..i + 1] == fingerprints[..i] + [fp];
        if fp in loaded {
          WriteTwice(rows[fp].user, n, false);
          loaded[fp].ApplyEnrichments(n, false);
        }
        if act.enabled {
          entries := entries + [Audit(fp, act.callee, act.action, act.description)];
        }
      }
      assert fingerprints[..|fingerprints|] == fingerprints;
    }

    /** The transaction body of the batch, on an accepted dictionary. */
    method WriteBatch(fingerprints: seq<string>, n: Dict, act: Act) returns (outcome: Outcome)
      modifies this
      ensures (View(), outcome) == WriteAll(old(View()), fingerprints, n, act)
    {
      var loaded := LoadRecords(fingerprints);
      var entries := ApplyToRecords(loaded, fingerprints, n, act);
      var refused := exists f :: f in fingerprints && f in loaded && !Storable(loaded[f].user);
      if refused {
        return NullInRequiredColumn;
      }
      rows := map f | f in rows :: if f in loaded then loaded[f].View() else rows[f];
      FlushedRows(old(rows), rows, fingerprints, n);
      audits := audits + entries;
      return Written;
    }

    method BatchEnrich(fingerprints: seq<string>, enrichments: Dict, act: Act, strict: bool)
      returns (outcome: Outcome)
      modifies this
      ensures (View(), outcome) == EnrichAll(old(View()), fingerprints, enrichments, act, strict)
    {
      var normalized := NormalizeEnrichments(enrichments, strict);
      if normalized.Rejected? {
        return UnknownKeys;
      }
      outcome := WriteBatch(fingerprints, normalized.fields, act);
    }

    /** The transaction of one attempt, up to its commit. */
    method DeliverRecord(fingerprint: string, a: Alert, t: Tracking) returns (row: Row)
      ensures Some(row) == Deliver(RowOf(rows, fingerprint), a, t)
    {
      var record;
      if fingerprint in rows {
        record := new LastAlertRecord.Load(rows[fingerprint]);
        record.Repoint(a, t);
      } else {
        record := new LastAlertRecord.Create(a, t);
      }
      row := record.View();
    }

    /** `set_last_alert` with no other worker about: `faults[k]` is what the database
        does to attempt k + 1. */
    method SetLastAlert(fingerprint: string, a: Alert, t: Tracking, faults: seq<DbFault>) returns (done: bool)
      requires |faults| == 3
      modifies this
      ensures done <==>
        && !Refuses(RowOf(old(rows), fingerprint), a, t)
        && exists k :: 0 <= k < 3 && faults[k] == NoFault && forall j :: 0 <= j < k ==> faults[j] == Transient
      ensures audits == old(audits)
      ensures !done ==> rows == old(rows)
      ensures done ==> rows == old(rows)[fingerprint := Deliver(RowOf(old(rows), fingerprint), a, t).value]
    {
      for attempt := 0 to 3
        invariant View() == old(View())
        invariant Refuses(RowOf(rows, fingerprint), a, t) || forall j :: 0 <= j < attempt ==> faults[j] == Transient
      {
        var row := DeliverRecord(fingerprint, a, t);
        match faults[attempt]
        case NoFault =>
          if !Refuses(RowOf(rows, fingerprint), a, t) {
            rows := rows[fingerprint := row];
            return true;
          }
        case Transient =>
        case Fatal =>
          return false;
      }
      return false;
    }
  }

  // ---------------------------------------------------------------- what one write leaves

  /** The columns outside the dismissal after an accepted request is written: what was sent, a
      null or blank note only if forced, and what was there where nothing was sent. */
  lemma RequestWritten(user: Dict, e: Dict, strict: bool, force: bool, k: Key)
    requires Normalize(e, strict).Accepted?
    ensures var after := Write(user, Normalize(e, strict).fields, force);
      && (k in {Assignee, Deleted, StatusDisposable, TicketType, TicketUrl, TicketProviderId} ==>
            Kept(after, k) == if k in e then Some(e[k]) else Kept(user, k))
      && (k == Note ==>
            Kept(after, k) == if k in e && (force || (e[k] != Null && !BlankText(e[k]))) then Some(e[k])
                              else Kept(user, k))
  {
    OtherColumnsAreKept(e, strict, k);
    WriteLeaves(user, Normalize(e, strict).fields, force, k);
  }

  /** One write: a rejected or refused one changes nothing; any other changes at most the
      enrichment of the fingerprint's own row, and appends the audit entry of the action if
      auditing is on. */
  lemma EnrichOneLeaves(t: Table, fp: string, e: Dict, act: Act, force: bool, strict: bool)
    ensures var (t', r) := EnrichOne(t, fp, e, act, force, strict); var n := Normalize(e, strict);
      && (r == UnknownKeys <==> n.Rejected?)
      && (r == NullInRequiredColumn <==>
            n.Accepted? && fp in t.rows && !Storable(Write(t.rows[fp].user, n.fields, force)))
      && (r != Written ==> t' == t)
      && (r == Written ==>
            && t'.rows == (if fp in t.rows
                           then t.rows[fp := t.rows[fp].(user := Write(t.rows[fp].user, n.fields, force))] else t.rows)
            && t'.audits == t.audits + if act.enabled then [Audit(fp, act.callee, act.action, act.description)] else [])
  {
    assert AuditsOf([fp], act) == if act.enabled then [Audit(fp, act.callee, act.action, act.description)] else [];
    if Normalize(e, strict).Accepted? {
      var n := Normalize(e, strict).fields;
      OneRowWritten(t.rows, fp, n, force);
    }
  }

  lemma OneRowWritten(rows: map<string, Row>, fp: string, n: Dict, force: bool)
    ensures WriteRows(rows, {fp}, n, force) ==
            if fp in rows then rows[fp := rows[fp].(user := Write(rows[fp].user, n, force))] else rows
  {
  }

  // ---------------------------------------------------------------- batch against one at a time

  lemma WriteTwice(user: Dict, n: Dict, force: bool)
    ensures Write(Write(user, n, force), n, force) == Write(user, n, force)
  {
  }

  lemma FlushedRows(before: map<string, Row>, after: map<string, Row>, fps: seq<string>, n: Dict)
    requires after.Keys == before.Keys
    requires forall f :: f in before ==>
      after[f] == Enriched(before[f], f in fps, n, false)
    ensures after == WriteRows(before, Named(fps), n, false)
  {
  }

  lemma RowsInTwoSteps(rows: map<string, Row>, a: set<string>, b: set<string>, n: Dict)
    ensures WriteRows(WriteRows(rows, a, n, false), b, n, false) == WriteRows(rows, a + b, n, false)
  {
    forall f | f in rows { WriteTwice(rows[f].user, n, false); }
  }

  lemma AuditsInTwoSteps(fp: string, rest: seq<string>, act: Act)
    ensures AuditsOf([fp], act) + AuditsOf(rest, act) == AuditsOf([fp] + rest, act)
  {
  }

  lemma AuditsAppended(audits: seq<Audit>, fp: string, rest: seq<string>, act: Act)
    ensures audits + AuditsOf([fp], act) + AuditsOf(rest, act) == audits + AuditsOf([fp] + rest, act)
  {
    AuditsInTwoSteps(fp, rest, act);
  }

  function WriteEach(t: Table, fps: seq<string>, n: Dict, act: Act): (Table, Outcome)
    decreases |fps|
  {
    if fps == [] then (t, Written)
    else
      var (t', r) := WriteOne(t, fps[0], n, act, false);
      if r == Written then WriteEach(t', fps[1..], n, act) else (t', r)
  }

  lemma {:induction false} EachNormalizedOnce(t: Table, fps: seq<string>, e: Dict, act: Act, strict: bool)
    requires Normalize(e, strict).Accepted?
    ensures EnrichEach(t, fps, e, act, false, strict) == WriteEach(t, fps, Normalize(e, strict).fields, act)
    decreases |fps|
  {
    if fps != [] {
      EachNormalizedOnce(WriteOne(t, fps[0], Normalize(e, strict).fields, act, false).0, fps[1..], e, act, strict);
    }
  }

  /** When nothing is refused the sequential run writes every row once and appends every entry. */
  lemma {:induction false} EachWithoutRefusal(t: Table, fps: seq<string>, n: Dict, act: Act)
    requires !SomeRefused(t.rows, fps, n)
    ensures WriteEach(t, fps, n, act)
         == (Table(WriteRows(t.rows, Named(fps), n, false), t.audits + AuditsOf(fps, act)), Written)
    decreases |fps|
  {
    if fps == [] {
      assert WriteRows(t.rows, Named(fps), n, false) == t.rows;
      assert t.audits + AuditsOf(fps, act) == t.audits;
    } else {
      var fp, rest := fps[0], fps[1..];
      assert fp in fps;
      var (t', r) := WriteOne(t, fp, n, act, false);
      forall f | f in rest && f in t'.rows ensures Storable(Write(t'.rows[f].user, n, false)) {
        assert f in fps;
        WriteTwice(t.rows[f].user, n, false);
      }
      EachWithoutRefusal(t', rest, n, act);
      RowsInTwoSteps(t.rows, {fp}, Named(rest), n);
      assert {fp} + Named(rest) == Named(fps);
      assert [fp] + rest == fps;
      AuditsAppended(t.audits, fp, rest, act);
    }
  }

  /** How many fingerprints the sequential run audits before it reaches one with a row. */
  function LeadingMissing(rows: map<string, Row>, fps: seq<string>): (n: nat)
    ensures n <= |fps|
  {
    if fps == [] || fps[0] in rows then 0 else 1 + LeadingMissing(rows, fps[1..])
  }

  predicate RefusedByAll(rows: map<string, Row>, n: Dict) {
    forall f :: f in rows ==> !Storable(Write(rows[f].user, n, false))
  }

  lemma MissingIsAudited(t: Table, fp: string, n: Dict, act: Act)
    requires fp !in t.rows
    ensures WriteOne(t, fp, n, act, false) == (t.(audits := t.audits + AuditsOf([fp], act)), Written)
  {
    assert WriteRows(t.rows, {fp}, n, false) == t.rows;
  }

  /** When a null is refused, the sequential run has audited the fingerprints before the
      first row, and nothing else. */
  lemma {:induction false} EachWithRefusal(t: Table, fps: seq<string>, n: Dict, act: Act)
    requires RefusedByAll(t.rows, n) && exists f :: f in fps && f in t.rows
    ensures WriteEach(t, fps, n, act)
         == (t.(audits := t.audits + AuditsOf(fps[..LeadingMissing(t.rows, fps)], act)), NullInRequiredColumn)
    decreases |fps|
  {
    var fp, rest := fps[0], fps[1..];
    if fp in t.rows {
      assert t.audits + AuditsOf(fps[..0], act) == t.audits;
    } else {
      var t' := WriteOne(t, fp, n, act, false).0;
      MissingIsAudited(t, fp, n, act);
      EachWithRefusal(t', rest, n, act);
      var m := LeadingMissing(t.rows, rest);
      assert [fp] + rest[..m] == fps[..m + 1];
      AuditsAppended(t.audits, fp, rest[..m], act);
    }
  }

  lemma AllSameRefusal(t: Table, n: Dict)
    requires ValidTable(t) && n.Keys <= COLUMNS
    ensures if Writable(n) then forall f :: f in t.rows ==> Storable(Write(t.rows[f].user, n, false))
            else RefusedByAll(t.rows, n)
  {
    forall f | f in t.rows ensures Storable(Write(t.rows[f].user, n, false)) <==> Writable(n) {
      StorableExactlyWhen(t.rows[f].user, n, false);
    }
  }

  lemma RefusedPartExactlyWhen(t: Table, fps: seq<string>, n: Dict, act: Act)
    requires RefusedByAll(t.rows, n) && exists f :: f in fps && f in t.rows
    ensures WriteAll(t, fps, n, act) == WriteEach(t, fps, n, act) <==> !(act.enabled && fps[0] !in t.rows)
  {
    EachWithRefusal(t, fps, n, act);
    assert SomeRefused(t.rows, fps, n);
    var m := LeadingMissing(t.rows, fps);
    assert m > 0 <==> fps[0] !in t.rows;
    var extra := AuditsOf(fps[..m], act);
    assert |extra| == if act.enabled then m else 0;
    assert |t.audits + extra| == |t.audits| + |extra|;
    if |extra| == 0 { assert t.audits + extra == t.audits; }
  }

  lemma WritesPartExactlyWhen(t: Table, fps: seq<string>, n: Dict, act: Act)
    requires ValidTable(t) && n.Keys <= COLUMNS
    ensures WriteAll(t, fps, n, act) == WriteEach(t, fps, n, act) <==>
            !(!Writable(n) && act.enabled && (exists f :: f in fps && f in t.rows) && fps[0] !in t.rows)
  {
    AllSameRefusal(t, n);
    if !Writable(n) && exists f :: f in fps && f in t.rows {
      RefusedPartExactlyWhen(t, fps, n, act);
    } else {
      assert !SomeRefused(t.rows, fps, n);
      EachWithoutRefusal(t, fps, n, act);
    }
  }

  /** The batches on which the two differ: an empty one whose dictionary is rejected, and
      one that the database refuses after the sequential run has already audited a
      fingerprint without a row. */
  predicate BatchParts(t: Table, fps: seq<string>, e: Dict, act: Act, strict: bool) {
    match Normalize(e, strict)
    case Rejected(_) => fps == []
    case Accepted(n) =>
      !Writable(n) && act.enabled && (exists f :: f in fps && f in t.rows) && fps[0] !in t.rows
  }

  /** The batch gives the same rows, the same audit entries in the same order and the same
      outcome as one unforced write per fingerprint, duplicates and missing rows included,
      exactly when it is not one of those. */
  lemma BatchIsSequentialExactlyWhen(t: Table, fps: seq<string>, e: Dict, act: Act, strict: bool)
    requires ValidTable(t)
    ensures EnrichAll(t, fps, e, act, strict) == EnrichEach(t, fps, e, act, false, strict)
       <==> !BatchParts(t, fps, e, act, strict)
  {
    match Normalize(e, strict)
    case Rejected(_) =>
    case Accepted(n) =>
      AcceptedAgain(e, strict);
      EachNormalizedOnce(t, fps, e, act, strict);
      WritesPartExactlyWhen(t, fps, n, act);
  }

  /** Writing to fingerprints that have no row yet, in a batch or one by one, leaves the rows
      alone and audits every fingerprint. */
  lemma WithoutRowsOnlyAudits(t: Table, fps: seq<string>, e: Dict, act: Act, strict: bool)
    requires Normalize(e, strict).Accepted? && forall f :: f in fps ==> f !in t.rows
    ensures EnrichEach(t, fps, e, act, false, strict) == (t.(audits := t.audits + AuditsOf(fps, act)), Written)
    ensures EnrichAll(t, fps, e, act, strict) == (t.(audits := t.audits + AuditsOf(fps, act)), Written)
  {
    var n := Normalize(e, strict).fields;
    EachNormalizedOnce(t, fps, e, act, strict);
    EachWithoutRefusal(t, fps, n, act);
    assert WriteRows(t.rows, Named(fps), n, false) == t.rows;
  }
}
