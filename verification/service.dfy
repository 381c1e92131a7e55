/** The enrichment service above the database layer: it adds the dispose flag,
    normalises once for the published event, and lets the database layer normalise
    again for the row. */
module EnrichmentService {
  import opened Values
  import opened Normalization
  import opened LastAlertRows
  import P = LastAlertProtocol
  import S = StatusRefinement
  import opened AlertEnrichment

  datatype EventKind = ENRICH | BATCH_ENRICH

  /** A published event: the enrichment, who did what, and that the audit entry has been
      written already; `force` is absent from a batch event. */
  datatype Event = Event(kind: EventKind, fingerprints: seq<string>, fields: Dict, act: Act, force: Option<bool>)

  function ApplyDisposeOnNewAlert(enrichments: Dict, dispose: bool): Dict {
    if Status in enrichments || DismissMode in enrichments then enrichments[StatusDisposable := Bool(dispose)]
    else enrichments
  }

  /** The dictionary of the event, and what the service hands to the database layer. */
  function Published(e: Dict, dispose: bool, strict: bool): Result {
    Normalize(ApplyDisposeOnNewAlert(e, dispose), strict)
  }

  /** The dictionary the column writer finally gets. */
  function Stored(e: Dict, dispose: bool, strict: bool): Result {
    match Published(e, dispose, strict)
    case Rejected(u) => Rejected(u)
    case Accepted(p) => Normalize(p, strict)
  }

  class Service {
    const store: AlertStore
    var events: seq<Event>

    constructor (store: AlertStore)
      ensures this.store == store && events == []
    {
      this.store := store;
      events := [];
    }

    method EnrichEntity(fingerprint: string, enrichments: Dict, act: Act,
                        dispose: bool, force: bool, strict: bool, produceEvent: bool)
      returns (outcome: Outcome)
      modifies this, store
      ensures match Published(enrichments, dispose, strict)
        case Rejected(_) => outcome == UnknownKeys && store.View() == old(store.View()) && events == old(events)
        case Accepted(p) =>
          && (store.View(), outcome) == EnrichOne(old(store.View()), fingerprint, p, act, force, strict)
          && events == old(events) + if outcome == Written && produceEvent
                                     then [Event(ENRICH, [fingerprint], p, act.(enabled := false), Some(force))] else []
    {
      var flagged := ApplyDisposeOnNewAlert(enrichments, dispose);
      var normalized := NormalizeEnrichments(flagged, strict);
      if normalized.Rejected? {
        return UnknownKeys;
      }
      outcome := store.EnrichEntity(fingerprint, normalized.fields, act, force, strict);
      if outcome == Written && produceEvent {
        events := events + [Event(ENRICH, [fingerprint], normalized.fields, act.(enabled := false), Some(force))];
      }
    }

    /** One write per fingerprint without an event each, then one event for all. */
    method BatchEnrich(fingerprints: seq<string>, enrichments: Dict, act: Act,
                       dispose: bool, strict: bool, produceEvent: bool)
      returns (outcome: Outcome)
      modifies this, store
      ensures match Published(enrichments, dispose, strict)
        case Rejected(_) =>
          && store.View() == old(store.View()) && events == old(events)
          && outcome == if fingerprints == [] && !produceEvent then Written else UnknownKeys
        case Accepted(p) =>
          && (store.View(), outcome) == EnrichEach(old(store.View()), fingerprints, p, act, false, strict)
          && events == old(events) + if outcome == Written && produceEvent
                                     then [Event(BATCH_ENRICH, fingerprints, p, act.(enabled := false), None)] else []
    {
      ghost var published := Published(enrichments, dispose, strict);
      ghost var start := store.View();
      for i := 0 to |fingerprints|
        invariant events == old(events)
        invariant published.Rejected? ==> i == 0 && store.View() == start
        invariant published.Accepted? ==>
          EnrichEach(start, fingerprints, published.fields, act, false, strict)
          == EnrichEach(store.View(), fingerprints[i..], published.fields, act, false, strict)
      {
        outcome := EnrichEntity(fingerprints[i], enrichments, act, dispose, false, strict, false);
        if outcome != Written {
          return;
        }
        assert fingerprints[i..][1..] == fingerprints[i + 1..];
      }
      if produceEvent {
        var flagged := ApplyDisposeOnNewAlert(enrichments, dispose);
        var normalized := NormalizeEnrichments(flagged, strict);
        if normalized.Rejected? {
          return UnknownKeys;
        }
        events := events + [Event(BATCH_ENRICH, fingerprints, normalized.fields, act.(enabled := false), None)];
      }
      return Written;
    }
  }

  // ---------------------------------------------------------------- published against stored

  /** The service adds the dispose flag and changes nothing else. */
  lemma FlagLeaves(e: Dict, dispose: bool, k: Key)
    ensures Kept(ApplyDisposeOnNewAlert(e, dispose), k) ==
            if k == StatusDisposable && (Status in e || DismissMode in e) then Some(Bool(dispose)) else Kept(e, k)
  {
  }

  /** Outside the dismissal the event and the row get what was sent. */
  lemma OtherColumnsReachTheRow(e: Dict, dispose: bool, strict: bool, k: Key)
    requires Published(e, dispose, strict).Accepted?
    requires k in {Assignee, Note, Deleted, TicketType, TicketUrl, TicketProviderId}
    ensures Stored(e, dispose, strict).Accepted?
    ensures Kept(Published(e, dispose, strict).fields, k) == Kept(e, k) == Kept(Stored(e, dispose, strict).fields, k)
  {
    var f := ApplyDisposeOnNewAlert(e, dispose);
    AcceptedAgain(f, strict);
    OtherColumnsAreKept(f, strict, k);
    OtherColumnsAreKept(Published(e, dispose, strict).fields, strict, k);
  }

  lemma FlagChangesNoPass(e: Dict, dispose: bool)
    ensures NeedsSecondPass(ApplyDisposeOnNewAlert(e, dispose)) == NeedsSecondPass(e)
  {
  }

  /** The event carries exactly what the row is written with, exactly when normalising
      once was enough. */
  lemma PublishedIsStoredExactlyWhen(e: Dict, dispose: bool, strict: bool)
    requires Published(e, dispose, strict).Accepted?
    ensures Stored(e, dispose, strict).Accepted?
    ensures Published(e, dispose, strict) == Stored(e, dispose, strict) <==> !NeedsSecondPass(e)
  {
    var f := ApplyDisposeOnNewAlert(e, dispose);
    FlagChangesNoPass(e, dispose);
    AcceptedAgain(f, strict);
    IdempotentExactlyWhen(f, strict);
  }

  /** The columns of the stored dictionary the dispose rule is about. */
  lemma StoredColumns(e: Dict, dispose: bool, strict: bool)
    requires Published(e, dispose, strict).Accepted?
    ensures Stored(e, dispose, strict).Accepted?
      && var s := Stored(e, dispose, strict).fields;
         && s.Keys <= COLUMNS
         && (Status in s <==> Status in e || DismissMode in e || Dismissed in e
                              || (DismissUntil in e && Truthy(e[DismissUntil])))
         && Kept(s, StatusDisposable) ==
            if Status in e || DismissMode in e then Some(Bool(dispose)) else Kept(e, StatusDisposable)
  {
    var f := ApplyDisposeOnNewAlert(e, dispose);
    var p := Published(e, dispose, strict).fields;
    AcceptedAgain(f, strict);
    AcceptedAgain(p, strict);
    DismissColumns(f, strict);
    DismissColumns(p, strict);
    AcceptedColumns(f, strict, StatusDisposable);
    AcceptedColumns(p, strict, StatusDisposable);
  }

  /** Unless the caller sends the flag itself, every write of the service that makes a
      status stick also names the status. */
  lemma ServiceWritesAreDisciplined(e: Dict, dispose: bool, strict: bool, force: bool)
    requires StatusDisposable !in e && Published(e, dispose, strict).Accepted?
    ensures Stored(e, dispose, strict).Accepted?
      && S.Disciplined(P.Enrich(Stored(e, dispose, strict).fields, force))
  {
    StoredColumns(e, dispose, strict);
  }

  /** The service adds the flag before it translates: the caller's choice reaches the row
      exactly when a status or a mode was sent under its own name, or the flag itself with
      that value. */
  lemma DisposeFlagStoredExactlyWhen(e: Dict, dispose: bool, strict: bool)
    requires Published(e, dispose, strict).Accepted?
    ensures Stored(e, dispose, strict).Accepted?
    ensures Kept(Stored(e, dispose, strict).fields, StatusDisposable) == Some(Bool(dispose)) <==>
            Status in e || DismissMode in e || Kept(e, StatusDisposable) == Some(Bool(dispose))
  {
    StoredColumns(e, dispose, strict);
  }

  /** A legacy dismissal translated at the route first always carries it. */
  lemma RouteCarriesTheFlag(e: Dict, dispose: bool, strict: bool)
    requires Dismissed in e && Published(RouteTranslate(e), dispose, strict).Accepted?
    ensures Stored(RouteTranslate(e), dispose, strict).Accepted?
    ensures Kept(Stored(RouteTranslate(e), dispose, strict).fields, StatusDisposable) == Some(Bool(dispose))
  {
    DisposeFlagStoredExactlyWhen(RouteTranslate(e), dispose, strict);
    RouteColumns(e, Status);
  }
}
