/** The dismiss translation: `normalize_enrichments` in the database layer, its
    second implementation at the route, and the dispose flag added between them.

    The methods edit a dictionary step by step, as the source does.  Each is
    proved against a specification that says, column by column, what the caller
    asked for; the laws are lemmas about that specification. */
module Normalization {
  import opened Values

  datatype Result = Accepted(fields: Dict) | Rejected(unknown: set<Key>)

  // ---------------------------------------------------------------- specification

  /** What an enrichment asks to happen to the dismissal. */
  datatype Intent = Dismiss | Restore | LeaveAlone

  function IntentOf(e: Dict): Intent {
    if Dismissed in e then (if Truthy(e[Dismissed]) then Dismiss else Restore)
    else if DismissUntil in e then (if Truthy(e[DismissUntil]) then Dismiss else LeaveAlone)
    else if DismissMode in e then (if Truthy(e[DismissMode]) then Dismiss else Restore)
    else LeaveAlone
  }

  /** The end time a legacy request carries. */
  function Deadline(e: Dict): Val {
    if Dismissed in e && Get(e, DismissedUntil) != Null then e[DismissedUntil]
    else if Dismissed in e || DismissUntil in e then Get(e, DismissUntil)
    else Null
  }

  function KeptOr(e: Dict, k: Key, v: Val): Option<Val> {
    Some(if k in e then e[k] else v)
  }

  /** What the accepted dictionary binds column `k` to, if anything. */
  function Column(e: Dict, k: Key): Option<Val> {
    var intent := IntentOf(e);
    var timed := intent == Dismiss && Truthy(Deadline(e));
    match k
    case Status =>
      if intent == Dismiss then KeptOr(e, k, SUPPRESSED)
      else if intent == Restore then KeptOr(e, k, Null)
      else Kept(e, k)
    case DismissMode =>
      if timed then Some(DISMISS_UNTIL)
      else if Dismissed !in e then Kept(e, k)
      else if intent == Dismiss then KeptOr(e, k, PERMANENT)
      else Some(Null)
    case DismissedUntil =>
      if timed then Some(Deadline(e))
      else if intent == Restore then (if Dismissed in e then Some(Null) else KeptOr(e, k, Null))
      else Kept(e, k)
    case _ => Kept(e, k)
  }

  /** The keys with no column: foreign names, and a `dismiss_until` that a
      `dismissed_until` beside it kept from being consumed. */
  function Unknown(e: Dict): set<Key> {
    set k | k in e && (k.Other? || (k.DismissUntil? && Dismissed in e && Get(e, DismissedUntil) != Null))
  }

  function Normalize(e: Dict, strict: bool): Result {
    if strict && Unknown(e) != {} then Rejected(Unknown(e))
    else Accepted(map k | k in COLUMNS && Column(e, k).Some? :: Column(e, k).value)
  }

  // ---------------------------------------------------------------- the code

  function SetDefault(d: Dict, k: Key, v: Val): Dict {
    if k in d then d else d[k := v]
  }

  /** The translation of a request with the legacy `dismissed` key. */
  method TranslateDismissed(enrichments: Dict) returns (normalized: Dict)
    requires Dismissed in enrichments
    ensures forall k :: Enrichable(k) ==> Kept(normalized, k) == Column(enrichments, k)
    ensures (set k | k in normalized && !Enrichable(k)) == Unknown(enrichments)
  {
    normalized := enrichments;
    var dismissed := normalized[Dismissed];
    normalized := normalized - {Dismissed};
    var ts := Get(normalized, DismissedUntil);
    if ts == Null {
      ts := Get(normalized, DismissUntil);
      normalized := normalized - {DismissUntil};
    }
    if Truthy(dismissed) {
      normalized := SetDefault(normalized, Status, SUPPRESSED);
      if Truthy(ts) {
        normalized := normalized[DismissMode := DISMISS_UNTIL];
        normalized := normalized[DismissedUntil := ts];
      } else {
        normalized := SetDefault(normalized, DismissMode, PERMANENT);
      }
    } else {
      normalized := SetDefault(normalized, Status, Null);
      normalized := normalized[DismissMode := Null];
      normalized := normalized[DismissedUntil := Null];
    }
  }

  /** The dictionary after the translation and before the unknown keys are dealt with. */
  method TranslateLegacyKeys(enrichments: Dict) returns (normalized: Dict)
    ensures forall k :: Enrichable(k) ==> Kept(normalized, k) == Column(enrichments, k)
    ensures (set k | k in normalized && !Enrichable(k)) == Unknown(enrichments)
  {
    normalized := enrichments;
    if Dismissed in normalized {
      normalized := TranslateDismissed(enrichments);
    } else if DismissUntil in normalized {
      var ts := normalized[DismissUntil];
      normalized := normalized - {DismissUntil};
      if Truthy(ts) {
        normalized := SetDefault(normalized, Status, SUPPRESSED);
        normalized := normalized[DismissMode := DISMISS_UNTIL];
        normalized := normalized[DismissedUntil := ts];
      }
    } else if DismissMode in normalized {
      if Truthy(normalized[DismissMode]) {
        normalized := SetDefault(normalized, Status, SUPPRESSED);
      } else {
        normalized := SetDefault(normalized, Status, Null);
        normalized := SetDefault(normalized, DismissedUntil, Null);
      }
    }
  }

  method NormalizeEnrichments(enrichments: Dict, strict: bool) returns (r: Result)
    ensures r == Normalize(enrichments, strict)
  {
    var normalized := TranslateLegacyKeys(enrichments);
    var unknown := set k | k in normalized && !Enrichable(k);
    assert forall k :: k in normalized && !Enrichable(k) ==> k in unknown;
    if unknown != {} {
      if strict {
        return Rejected(unknown);
      }
      ghost var translated := normalized;
      while unknown != {}
        invariant forall k :: k in normalized && !Enrichable(k) ==> k in unknown
        invariant forall k :: k in unknown ==> k in normalized && !Enrichable(k)
        invariant forall k :: Enrichable(k) ==> Kept(normalized, k) == Kept(translated, k)
        decreases unknown
      {
        var key :| key in unknown;
        normalized := normalized - {key};
        unknown := unknown - {key};
      }
    }
    MapOfColumns(normalized, enrichments);
    r := Accepted(normalized);
  }

  lemma MapOfColumns(d: Dict, e: Dict)
    requires forall k :: k in d ==> Enrichable(k)
    requires forall k :: Enrichable(k) ==> Kept(d, k) == Column(e, k)
    ensures d == map k | k in COLUMNS && Column(e, k).Some? :: Column(e, k).value
  {
    var m := map k | k in COLUMNS && Column(e, k).Some? :: Column(e, k).value;
    forall k ensures Kept(d, k) == Kept(m, k) {
      if Enrichable(k) { assert Kept(d, k) == Column(e, k); }
    }
    SameDict(d, m);
  }

  // ---------------------------------------------------------------- laws of normalisation

  /** A request whose accepted form is not yet stable: a legacy key that dismisses
      without a deadline, or asks for nothing, beside an explicit `dismiss_mode`
      whose implied status or end time has still to be filled in. */
  predicate NeedsSecondPass(e: Dict) {
    && DismissMode in e
    && if Dismissed in e then
         && Truthy(e[Dismissed]) && !Truthy(Deadline(e)) && !Truthy(e[DismissMode])
         && DismissedUntil !in e
       else
         && DismissUntil in e && !Truthy(e[DismissUntil])
         && (Status !in e || (!Truthy(e[DismissMode]) && DismissedUntil !in e))
  }

  /** The accepted dictionary binds exactly the columns `Column` names. */
  lemma AcceptedColumns(e: Dict, strict: bool, k: Key)
    requires Normalize(e, strict).Accepted?
    ensures Kept(Normalize(e, strict).fields, k) == if Enrichable(k) then Column(e, k) else None
  {
    assert Enrichable(k) <==> k in COLUMNS;
  }

  /** Nothing but columns is emitted, so a second pass is never rejected. */
  lemma AcceptedAgain(e: Dict, strict: bool)
    requires Normalize(e, strict).Accepted?
    ensures var n := Normalize(e, strict).fields;
      n.Keys <= COLUMNS && Unknown(n) == {} && Normalize(n, strict).Accepted?
  {
    var n := Normalize(e, strict).fields;
    forall k | k in n ensures Enrichable(k) { AcceptedColumns(e, strict, k); }
  }

  // What an accepted dictionary holds, key by key, and which requests are rejected.

  /** Nothing outside the dismissal is dropped, changed or added. */
  lemma OtherColumnsAreKept(e: Dict, strict: bool, k: Key)
    requires Normalize(e, strict).Accepted?
    ensures k in {Assignee, Note, Deleted, StatusDisposable, TicketType, TicketUrl, TicketProviderId} ==>
      Kept(Normalize(e, strict).fields, k) == Kept(e, k)
    ensures k in {Dismissed, DismissUntil} || k.Other? ==> k !in Normalize(e, strict).fields
  {
    AcceptedColumns(e, strict, k);
  }

  /** The dismissal: a status that is sent wins; otherwise dismissing suppresses and restoring
      clears it.  The mode and the end time follow the legacy keys where there are any. */
  lemma DismissalWritten(e: Dict, strict: bool)
    requires Normalize(e, strict).Accepted?
    ensures var n := Normalize(e, strict).fields;
      var sent := if DismissedUntil in e then e[DismissedUntil] else Null;
      var legacy := if DismissUntil in e then e[DismissUntil] else Null;
      && (Status in e ==> Kept(n, Status) == Some(e[Status]))
      && (Dismissed in e && Truthy(e[Dismissed]) ==>
            var ts := if sent != Null then sent else legacy;
            && (Status !in e ==> Kept(n, Status) == Some(Text("suppressed")))
            && Kept(n, DismissMode) == (if Truthy(ts) then Some(Text("dismiss_until"))
                                        else if DismissMode in e then Some(e[DismissMode]) else Some(Text("permanent")))
            && Kept(n, DismissedUntil) == (if Truthy(ts) then Some(ts) else Kept(e, DismissedUntil)))
      && (Dismissed in e && !Truthy(e[Dismissed]) ==>
            && (Status !in e ==> Kept(n, Status) == Some(Null))
            && Kept(n, DismissMode) == Some(Null) && Kept(n, DismissedUntil) == Some(Null))
      && (Dismissed !in e && DismissUntil in e && Truthy(legacy) ==>
            && (Status !in e ==> Kept(n, Status) == Some(Text("suppressed")))
            && Kept(n, DismissMode) == Some(Text("dismiss_until")) && Kept(n, DismissedUntil) == Some(legacy))
      && (Dismissed !in e && DismissUntil !in e && DismissMode in e ==>
            && (Status !in e ==> Kept(n, Status) == Some(if Truthy(e[DismissMode]) then Text("suppressed") else Null))
            && Kept(n, DismissMode) == Some(e[DismissMode])
            && Kept(n, DismissedUntil) == (if DismissedUntil in e then Some(sent)
                                           else if Truthy(e[DismissMode]) then None else Some(Null)))
      && (Dismissed !in e && (if DismissUntil in e then !Truthy(legacy) else DismissMode !in e) ==>
            forall k :: k in {Status, DismissMode, DismissedUntil} ==> Kept(n, k) == Kept(e, k))
  {
    DismissColumns(e, strict);
  }

  /** Only a strict request is rejected, for its foreign names and for a `dismiss_until` beside
      `dismissed` and a `dismissed_until` that is not null. */
  lemma RejectedExactlyWhen(e: Dict, strict: bool)
    ensures var stray := Dismissed in e && DismissUntil in e && DismissedUntil in e && e[DismissedUntil] != Null;
      && (Normalize(e, strict).Rejected? <==> strict && (stray || exists name :: Other(name) in e))
      && (Normalize(e, strict).Rejected? ==>
            forall k :: k in Normalize(e, strict).unknown <==> k in e && (k.Other? || (k == DismissUntil && stray)))
  {
    if name :| Other(name) in e { assert Other(name) in Unknown(e); }
    if Dismissed in e && DismissUntil in e && Get(e, DismissedUntil) != Null { assert DismissUntil in Unknown(e); }
    if k :| k in Unknown(e) { if k.Other? { assert Other(k.name) in e; } }
  }

  /** Two dictionaries accepted as the same columns are the same dictionary. */
  lemma SameColumns(a: Dict, b: Dict)
    requires a.Keys <= COLUMNS && b.Keys <= COLUMNS
    requires forall k :: Enrichable(k) ==> Kept(a, k) == Kept(b, k)
    ensures a == b
  {
    forall k ensures Kept(a, k) == Kept(b, k) {
      if k in a || k in b { assert Enrichable(k); }
    }
    SameDict(a, b);
  }

  /** The columns of the accepted form that the translation looks at. */
  lemma DismissColumns(e: Dict, strict: bool)
    requires Normalize(e, strict).Accepted?
    ensures var n := Normalize(e, strict).fields;
      && Dismissed !in n && DismissUntil !in n
      && Kept(n, Status) == Column(e, Status)
      && Kept(n, DismissMode) == Column(e, DismissMode)
      && Kept(n, DismissedUntil) == Column(e, DismissedUntil)
  {
    AcceptedColumns(e, strict, Dismissed);
    AcceptedColumns(e, strict, DismissUntil);
    AcceptedColumns(e, strict, Status);
    AcceptedColumns(e, strict, DismissMode);
    AcceptedColumns(e, strict, DismissedUntil);
  }

  /** Normalising an accepted dictionary again changes nothing, exactly when the
      request does not belong to the family above. */
  lemma IdempotentExactlyWhen(e: Dict, strict: bool)
    requires Normalize(e, strict).Accepted?
    ensures var n := Normalize(e, strict).fields;
      Normalize(n, strict) == Accepted(n) <==> !NeedsSecondPass(e)
  {
    var n := Normalize(e, strict).fields;
    AcceptedAgain(e, strict);
    DismissColumns(e, strict);
    DismissColumns(n, strict);
    if !NeedsSecondPass(e) {
      forall k | Enrichable(k) ensures Kept(Normalize(n, strict).fields, k) == Kept(n, k) {
        AcceptedColumns(n, strict, k);
      }
      AcceptedAgain(n, strict);
      SameColumns(Normalize(n, strict).fields, n);
    }
  }

  /** A second pass always reaches the fixed point. */
  lemma FixedAfterTwoPasses(e: Dict, strict: bool)
    requires Normalize(e, strict).Accepted?
    ensures var n := Normalize(e, strict).fields;
      Normalize(n, strict).Accepted?
      && var m := Normalize(n, strict).fields;
         Normalize(m, strict) == Accepted(m)
  {
    var n := Normalize(e, strict).fields;
    AcceptedAgain(e, strict);
    DismissColumns(e, strict);
    IdempotentExactlyWhen(n, strict);
  }

  // ---------------------------------------------------------------- the route's translation

  /** How the route reads `dismissed`: booleans as they are, anything else by
      whether it prints as some capitalisation of "true". */
  predicate ReadsAsTrue(v: Val) {
    match v
    case Bool(b) => b
    case Text(s) => |s| == 4 && s[0] in "tT" && s[1] in "rR" && s[2] in "uU" && s[3] in "eE"
    case _ => false
  }

  /** What the route's translation binds key `k` to. */
  function RouteColumn(e: Dict, k: Key): Option<Val> {
    if Dismissed !in e then Kept(e, k)
    else
      var chosen := Truthy(Get(e, DismissedUntil));
      var ts := if chosen then e[DismissedUntil] else Get(e, DismissUntil);
      var dismissing := ReadsAsTrue(e[Dismissed]);
      match k
      case Dismissed => None
      case DismissUntil => if chosen then Kept(e, k) else None
      case Status => KeptOr(e, k, if dismissing then SUPPRESSED else Null)
      case DismissMode =>
        if !dismissing then Some(Null)
        else if Truthy(ts) then Some(DISMISS_UNTIL)
        else KeptOr(e, k, PERMANENT)
      case DismissedUntil =>
        if !dismissing then Some(Null) else if Truthy(ts) then Some(ts) else Kept(e, k)
      case _ => Kept(e, k)
  }

  /** The request without the legacy keys the route consumes. */
  function RouteConsumed(e: Dict): Dict {
    e - (if Truthy(Get(e, DismissedUntil)) then {Dismissed} else {Dismissed, DismissUntil})
  }

  function RouteTranslate(e: Dict): Dict {
    map k | k in e.Keys + {Status, DismissMode, DismissedUntil} && RouteColumn(e, k).Some?
      :: RouteColumn(e, k).value
  }

  /** The request body whose dictionary the route edits in place. */
  class EnrichRequest {
    var enrichments: Dict

    constructor (enrichments: Dict)
      ensures this.enrichments == enrichments
    {
      this.enrichments := enrichments;
    }

    method TranslateDismissEnrichments()
      modifies this
      ensures enrichments == RouteTranslate(old(enrichments))
    {
      ghost var e := enrichments;
      if Dismissed !in enrichments {
        return;
      }
      var raw := enrichments[Dismissed];
      enrichments := enrichments - {Dismissed};
      var dismissed := ReadsAsTrue(raw);
      var ts := Get(enrichments, DismissedUntil);
      if !Truthy(ts) {
        ts := Get(enrichments, DismissUntil);
        enrichments := enrichments - {DismissUntil};
      }
      assert enrichments == RouteConsumed(e);
      if dismissed {
        enrichments := SetDefault(enrichments, Status, SUPPRESSED);
        if Truthy(ts) {
          enrichments := enrichments[DismissMode := DISMISS_UNTIL];
          enrichments := enrichments[DismissedUntil := ts];
        } else {
          enrichments := SetDefault(enrichments, DismissMode, PERMANENT);
        }
      } else {
        enrichments := SetDefault(enrichments, Status, Null);
        enrichments := enrichments[DismissMode := Null];
        enrichments := enrichments[DismissedUntil := Null];
      }
      RouteTranslated(e, ts, enrichments);
    }
  }

  /** The edits that follow the consumption of the legacy keys complete the translation. */
  lemma RouteTranslated(e: Dict, ts: Val, t: Dict)
    requires Dismissed in e
    requires ts == if Truthy(Get(e, DismissedUntil)) then e[DismissedUntil] else Get(e, DismissUntil)
    requires var d := RouteConsumed(e);
      t == if ReadsAsTrue(e[Dismissed]) then
             var s := SetDefault(d, Status, SUPPRESSED);
             if Truthy(ts) then s[DismissMode := DISMISS_UNTIL][DismissedUntil := ts]
             else SetDefault(s, DismissMode, PERMANENT)
           else SetDefault(d, Status, Null)[DismissMode := Null][DismissedUntil := Null]
    ensures t == RouteTranslate(e)
  {
    forall k ensures Kept(t, k) == Kept(RouteTranslate(e), k) { assert Kept(t, k) == RouteColumn(e, k); }
    SameDict(t, RouteTranslate(e));
  }

  lemma RouteColumns(e: Dict, k: Key)
    ensures Kept(RouteTranslate(e), k) == RouteColumn(e, k)
  {
  }

  /** The route reads a boolean as it is and a text by its lower-case form. */
  lemma ReadsAsTrueExactlyWhen(v: Val)
    ensures ReadsAsTrue(v) <==> v == Bool(true) || (v.Text? && Lower(v.s) == "true")
  {
    if v.Text? && |v.s| == 4 {
      var l := Lower(v.s);
      assert l == [l[0], l[1], l[2], l[3]] && "true" == ['t', 'r', 'u', 'e'];
    }
  }

  /** What the route leaves: without `dismissed` the request as it is; otherwise every key
      outside the dismissal as it is, and the dismissal translated. */
  lemma RouteWrites(e: Dict, k: Key)
    ensures Dismissed !in e ==> RouteTranslate(e) == e
    ensures k !in {Status, DismissMode, DismissedUntil, Dismissed, DismissUntil} ==>
      Kept(RouteTranslate(e), k) == Kept(e, k)
    ensures Dismissed in e ==>
      var t := RouteTranslate(e);
      var sent := if DismissedUntil in e then e[DismissedUntil] else Null;
      var legacy := if DismissUntil in e then e[DismissUntil] else Null;
      var ts := if Truthy(sent) then sent else legacy;
      && Dismissed !in t && Kept(t, DismissUntil) == (if Truthy(sent) then Kept(e, DismissUntil) else None)
      && (Status in e ==> Kept(t, Status) == Some(e[Status]))
      && (if e[Dismissed] == Bool(true) || (e[Dismissed].Text? && Lower(e[Dismissed].s) == "true") then
            && (Status !in e ==> Kept(t, Status) == Some(Text("suppressed")))
            && Kept(t, DismissMode) == (if Truthy(ts) then Some(Text("dismiss_until"))
                                        else if DismissMode in e then Some(e[DismissMode]) else Some(Text("permanent")))
            && Kept(t, DismissedUntil) == (if Truthy(ts) then Some(ts) else Kept(e, DismissedUntil))
          else
            && (Status !in e ==> Kept(t, Status) == Some(Null))
            && Kept(t, DismissMode) == Some(Null) && Kept(t, DismissedUntil) == Some(Null))
  {
    forall j ensures Kept(RouteTranslate(e), j) == RouteColumn(e, j) { RouteColumns(e, j); }
    if Dismissed !in e {
      SameDict(RouteTranslate(e), e);
    } else {
      ReadsAsTrueExactlyWhen(e[Dismissed]);
      assert Kept(RouteTranslate(e), Dismissed) == None;
    }
  }

  /** A value the database layer takes for a dismissal and the route for the opposite. */
  predicate ReadApart(v: Val) {
    Truthy(v) && !ReadsAsTrue(v)
  }

  /** The requests the two still write alike although they read `dismissed` apart: the status
      is given, and either both end times are given and equal, or there is no legacy one and
      the other two columns are cleared explicitly. */
  predicate SpelledOut(e: Dict) {
    var until, legacy := Get(e, DismissedUntil), Get(e, DismissUntil);
    && Status in e
    && if Truthy(until) && Truthy(legacy) then legacy == until
       else !Truthy(legacy) && Kept(e, DismissMode) == Some(Null) && Kept(e, DismissedUntil) == Some(Null)
  }

  /** The requests on which the two implementations write different columns: they read
      `dismissed` apart and it is not spelled out; or both end times are given (the route
      consumes the legacy one only when the other is falsy, the database layer only when it
      is null); or a dismissal without a deadline comes with an explicit falsy `dismiss_mode`. */
  predicate ColumnsPart(e: Dict)
    requires Dismissed in e
  {
    var until, legacy := Get(e, DismissedUntil), Get(e, DismissUntil);
    if ReadApart(e[Dismissed]) then !SpelledOut(e)
    else if DismissUntil in e && until != Null then
      if Truthy(until) then Truthy(legacy) && !(Truthy(e[Dismissed]) && legacy == until)
      else Truthy(e[Dismissed]) && Truthy(legacy)
    else
      && Truthy(e[Dismissed]) && !Truthy(Deadline(e))
      && DismissMode in e && !Truthy(e[DismissMode]) && DismissedUntil !in e
  }

  predicate ForeignNames(e: Dict) {
    exists k :: k in e && k.Other?
  }

  /** The inputs on which the two implementations part: a strict request without foreign
      names that only the database layer rejects, or different columns. */
  predicate RouteParts(e: Dict, strict: bool) {
    && Dismissed in e && !(strict && ForeignNames(e))
    && ((strict && DismissUntil in e && Get(e, DismissedUntil) != Null) || ColumnsPart(e))
  }

  predicate SameResult(a: Result, b: Result) {
    (a.Rejected? && b.Rejected?) || a == b
  }

  /** A translated request is rejected only for its foreign names. */
  lemma RouteRejection(e: Dict, strict: bool)
    requires Dismissed in e
    ensures Normalize(RouteTranslate(e), strict).Rejected? <==> strict && ForeignNames(e)
  {
    var t := RouteTranslate(e);
    forall k ensures Kept(t, k) == RouteColumn(e, k) { RouteColumns(e, k); }
    if k :| k in e && k.Other? { assert Kept(t, k) == Some(e[k]); assert k in Unknown(t); }
    forall k | k in Unknown(t) ensures k in e && k.Other? { assert Kept(t, k) == RouteColumn(e, k); }
  }

  lemma DirectRejection(e: Dict, strict: bool)
    requires Dismissed in e
    ensures Normalize(e, strict).Rejected? <==>
            strict && (ForeignNames(e) || (DismissUntil in e && Get(e, DismissedUntil) != Null))
  {
    if k :| k in e && k.Other? { assert k in Unknown(e); }
    if DismissUntil in e && Get(e, DismissedUntil) != Null { assert DismissUntil in Unknown(e); }
  }

  /** The translated request and the request itself give the three dismiss columns
      the same content, exactly under the stated condition; the other columns always agree. */
  lemma RouteDismissColumns(e: Dict)
    requires Dismissed in e
    ensures (forall k :: Enrichable(k) ==> Column(RouteTranslate(e), k) == Column(e, k)) <==> !ColumnsPart(e)
  {
    var t := RouteTranslate(e);
    forall k ensures Kept(t, k) == RouteColumn(e, k) { RouteColumns(e, k); }
    assert Dismissed !in t by { assert Kept(t, Dismissed) == None; }
    assert Kept(t, DismissUntil) == RouteColumn(e, DismissUntil);
    assert Kept(t, DismissMode) == RouteColumn(e, DismissMode);
    assert Kept(t, DismissedUntil) == RouteColumn(e, DismissedUntil);
    assert Kept(t, Status) == RouteColumn(e, Status);
    forall k | Enrichable(k) && k !in {Status, DismissMode, DismissedUntil}
      ensures Column(t, k) == Column(e, k)
    {
      assert Kept(t, k) == RouteColumn(e, k);
    }
    assert Enrichable(Status) && Enrichable(DismissMode) && Enrichable(DismissedUntil);
    assert (&& Column(t, Status) == Column(e, Status) && Column(t, DismissMode) == Column(e, DismissMode)
            && Column(t, DismissedUntil) == Column(e, DismissedUntil)) <==> !ColumnsPart(e);
  }

  lemma SameAcceptedExactlyWhen(a: Dict, b: Dict, strict: bool)
    requires Normalize(a, strict).Accepted? && Normalize(b, strict).Accepted?
    ensures Normalize(a, strict) == Normalize(b, strict) <==> forall k :: Enrichable(k) ==> Column(a, k) == Column(b, k)
  {
    var x, y := Normalize(a, strict).fields, Normalize(b, strict).fields;
    forall k ensures Kept(x, k) == (if Enrichable(k) then Column(a, k) else None)
                  && Kept(y, k) == (if Enrichable(k) then Column(b, k) else None) {
      AcceptedColumns(a, strict, k);
      AcceptedColumns(b, strict, k);
    }
    if forall k :: Enrichable(k) ==> Column(a, k) == Column(b, k) {
      AcceptedAgain(a, strict);
      AcceptedAgain(b, strict);
      SameColumns(x, y);
    }
  }

  /** Translating at the route first gives what normalising alone gives, rejections
      included, exactly when the request is outside that family.  A request without
      `dismissed` is never in it. */
  lemma RouteAgreesExactlyWhen(e: Dict, strict: bool)
    ensures SameResult(Normalize(RouteTranslate(e), strict), Normalize(e, strict)) <==> !RouteParts(e, strict)
  {
    var t := RouteTranslate(e);
    if Dismissed !in e {
      forall k ensures Kept(t, k) == Kept(e, k) { RouteColumns(e, k); }
      SameDict(t, e);
    } else {
      RouteRejection(e, strict);
      DirectRejection(e, strict);
      if Normalize(t, strict).Accepted? && Normalize(e, strict).Accepted? {
        SameAcceptedExactlyWhen(t, e, strict);
        RouteDismissColumns(e);
      }
    }
  }

  /** The case the user interface sends: a boolean `dismissed`, at most one of the two
      timestamp keys, no explicit `dismiss_mode`. */
  lemma RouteAgreesOnPlainRequests(e: Dict, strict: bool)
    requires Dismissed in e && e[Dismissed].Bool? && DismissMode !in e
    requires DismissUntil !in e || DismissedUntil !in e
    ensures SameResult(Normalize(RouteTranslate(e), strict), Normalize(e, strict))
  {
    RouteAgreesExactlyWhen(e, strict);
  }

  /** The two read everything alike but non-empty texts that are no capitalisation of "true",
      non-zero numbers and non-empty lists. */
  lemma ReadApartExactlyWhen(v: Val)
    ensures ReadApart(v) <==>
      match v
      case Null => false
      case Bool(_) => false
      case Num(n) => n != 0
      case Text(s) => s != "" && !ReadsAsTrue(v)
      case List(items) => items != []
  {
  }

  /** A `dismissed` read apart, such as the text "false", writes opposite statuses: the route
      undismisses and the database layer suppresses. */
  lemma ReadApartWritesOpposites(e: Dict, strict: bool)
    requires Dismissed in e && ReadApart(e[Dismissed]) && Status !in e
    requires Normalize(RouteTranslate(e), strict).Accepted? && Normalize(e, strict).Accepted?
    ensures Kept(Normalize(RouteTranslate(e), strict).fields, Status) == Some(Null)
    ensures Kept(Normalize(e, strict).fields, Status) == Some(SUPPRESSED)
  {
    var t := RouteTranslate(e);
    RouteColumns(e, Dismissed);
    RouteColumns(e, Status);
    AcceptedColumns(t, strict, Status);
    AcceptedColumns(e, strict, Status);
  }
}
