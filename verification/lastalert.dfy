/** The LastAlert row: one per fingerprint, pointing at the newest occurrence and
    carrying the user's enrichment columns.  `Row` is the stored value;
    `LastAlertRecord` is the object a session loads, edits in place and flushes. */
module LastAlertRows {
  import opened Values

  datatype Track =
    | LastReceived | FiringCounter | UnresolvedCounter | StartedAt
    | FiringStartTime | FiringStartTimeSinceLastResolved
    | OtherTrack(name: string)

  type Tracking = Option<map<Track, Val>>

  /** One occurrence of an alert, as its Alert row records it. */
  datatype Alert = Alert(id: nat, timestamp: int, hash: Option<string>, status: Val)

  /** `tracking` binds the tracking columns an occurrence has written; the others hold their
      default. */
  datatype Row = Row(timestamp: int, firstTimestamp: int, alertId: nat, alertHash: Option<string>,
                     tracking: map<Track, Val>, user: Dict)

  predicate ValidRow(r: Row) {
    r.user.Keys == COLUMNS
  }

  /** The columns declared NOT NULL among the enrichable ones. */
  predicate Storable(user: Dict) {
    Get(user, StatusDisposable) != Null && Get(user, Deleted) != Null
  }

  /** No null for the two counters, which are NOT NULL too. */
  predicate CountersSet(t: Tracking) {
    t.Some? ==> forall k :: k in {FiringCounter, UnresolvedCounter} && k in t.value ==> t.value[k] != Null
  }

  const NO_ENRICHMENT: Dict :=
    map k | k in COLUMNS :: if k == StatusDisposable || k == Deleted then Bool(false) else Null

  // ---------------------------------------------------------------- specification

  /** The tracking keys that name a tracking column. */
  function Tracked(t: Tracking): map<Track, Val> {
    if t.None? then map[] else map k | k in t.value && !k.OtherTrack? :: t.value[k]
  }

  /** A new occurrence ends the override and the dismissal in force. */
  predicate EndsOverride(user: Dict, status: Val) {
    status == RESOLVED || Truthy(Get(user, StatusDisposable))
  }

  function AfterOccurrence(user: Dict, status: Val): Dict {
    if EndsOverride(user, status)
    then user + map[Status := status, StatusDisposable := Bool(true), DismissMode := Null, DismissedUntil := Null]
    else user
  }

  function NewRow(a: Alert, t: Tracking): Row {
    Row(a.timestamp, a.timestamp, a.id, a.hash, Tracked(t), NO_ENRICHMENT)
  }

  /** What one occurrence does to the row of its fingerprint. */
  function Deliver(row: Option<Row>, a: Alert, t: Tracking): Option<Row> {
    if row.None? then Some(NewRow(a, t))
    else if row.value.timestamp < a.timestamp then
      var r := row.value;
      Some(Row(a.timestamp, r.firstTimestamp, a.id, a.hash, r.tracking + Tracked(t),
               AfterOccurrence(r.user, a.status)))
    else row
  }

  /** The database refuses to flush what the occurrence would write. */
  predicate Refuses(row: Option<Row>, a: Alert, t: Tracking) {
    !CountersSet(t) && (row.None? || row.value.timestamp < a.timestamp)
  }

  /** A note that an automated write must not erase the user's note with. */
  predicate Guarded(k: Key, v: Val, force: bool) {
    k == Note && !force && (v == Null || BlankText(v))
  }

  /** The part of an enrichment that is written. */
  function Passed(e: Dict, force: bool): Dict {
    map k | k in e && !Guarded(k, e[k], force) :: e[k]
  }

  /** What a normalised enrichment does to the user columns. */
  function Write(user: Dict, e: Dict, force: bool): Dict {
    user + Passed(e, force)
  }

  /** No null for a column that takes none. */
  predicate Writable(e: Dict) {
    !(StatusDisposable in e && e[StatusDisposable] == Null) && !(Deleted in e && e[Deleted] == Null)
  }

  // ---------------------------------------------------------------- the code

  class LastAlertRecord {
    var timestamp: int
    var firstTimestamp: int
    var alertId: nat
    var alertHash: Option<string>
    var tracking: map<Track, Val>
    var user: Dict

    function View(): Row
      reads this
    {
      Row(timestamp, firstTimestamp, alertId, alertHash, tracking, user)
    }

    /** A record loaded from its stored row. */
    constructor Load(r: Row)
      ensures View() == r
    {
      timestamp, firstTimestamp, alertId, alertHash := r.timestamp, r.firstTimestamp, r.alertId, r.alertHash;
      tracking, user := r.tracking, r.user;
    }

    /** The record of a fingerprint seen for the first time. */
    constructor Create(a: Alert, t: Tracking)
      ensures View() == NewRow(a, t)
    {
      timestamp, firstTimestamp, alertId, alertHash := a.timestamp, a.timestamp, a.id, a.hash;
      tracking, user := map[], NO_ENRICHMENT;
      new;
      assert map[] + Tracked(t) == Tracked(t);
      WriteTracking(t);
    }

    method WriteTracking(t: Tracking)
      modifies this`tracking
      ensures tracking == old(tracking) + Tracked(t)
    {
      if t.None? {
        assert tracking + Tracked(t) == tracking;
        return;
      }
      var pending := t.value.Keys;
      while pending != {}
        invariant pending <= t.value.Keys
        invariant tracking == old(tracking) + Tracked(Some(t.value - pending))
        decreases pending
      {
        var col :| col in pending;
        pending := pending - {col};
        if !col.OtherTrack? {
          tracking := tracking[col := t.value[col]];
        }
      }
      assert t.value - {} == t.value;
    }

    method ApplyDismissLifecycle(alertStatus: Val) returns (mutated: bool)
      modifies this`user
      ensures mutated == EndsOverride(old(user), alertStatus)
      ensures user == AfterOccurrence(old(user), alertStatus)
    {
      var shouldClear;
      if alertStatus == RESOLVED {
        shouldClear := true;
      } else {
        shouldClear := Truthy(Get(user, StatusDisposable));
      }
      if !shouldClear {
        return false;
      }
      user := user[Status := alertStatus];
      user := user[StatusDisposable := Bool(true)];
      user := user[DismissMode := Null];
      user := user[DismissedUntil := Null];
      return true;
    }

    /** The branch of `set_last_alert` that found a row. */
    method Repoint(a: Alert, t: Tracking)
      modifies this
      ensures Some(View()) == Deliver(Some(old(View())), a, t)
    {
      if timestamp < a.timestamp {
        timestamp := a.timestamp;
        alertId := a.id;
        alertHash := a.hash;
        WriteTracking(t);
        var _ := ApplyDismissLifecycle(a.status);
      }
    }

    method ApplyEnrichments(enrichments: Dict, force: bool)
      modifies this`user
      ensures user == Write(old(user), enrichments, force)
    {
      var pending := enrichments.Keys;
      while pending != {}
        invariant pending <= enrichments.Keys
        invariant user == old(user) + Passed(enrichments - pending, force)
        decreases pending
      {
        var key :| key in pending;
        var value := enrichments[key];
        PassedWith(old(user), enrichments, pending, key, force);
        pending := pending - {key};
        if key == Note && !force {
          if value == Null || BlankText(value) {
            continue;
          }
        }
        user := user[key := value];
      }
      assert enrichments - {} == enrichments;
    }
  }

  /** What writing one more key adds to what has been written. */
  lemma PassedWith(user: Dict, e: Dict, pending: set<Key>, key: Key, force: bool)
    requires key in e && key in pending
    ensures user + Passed(e - (pending - {key}), force)
         == if Guarded(key, e[key], force) then user + Passed(e - pending, force)
            else (user + Passed(e - pending, force))[key := e[key]]
  {
    var before, after := Passed(e - pending, force), Passed(e - (pending - {key}), force);
    assert after == if Guarded(key, e[key], force) then before else before[key := e[key]];
    assert user + before[key := e[key]] == (user + before)[key := e[key]];
  }

  // ---------------------------------------------------------------- what one row holds

  /** After a write every key that was sent holds what was sent; a note only if the write is
      forced or the note is neither null nor blank; everything else is as before. */
  lemma WriteLeaves(user: Dict, e: Dict, force: bool, k: Key)
    ensures var after := Write(user, e, force);
      && (k !in e ==> Kept(after, k) == Kept(user, k))
      && (k in e && k != Note ==> Kept(after, k) == Some(e[k]))
      && (k in e && k == Note ==>
            Kept(after, k) == if force || (e[k] != Null && !BlankText(e[k])) then Some(e[k]) else Kept(user, k))
  {
  }

  /** A first occurrence makes a row that points at it and shows no enrichment; a newer one
      moves the pointer, and ends status and dismissal if it is resolved or the flag is set;
      any other leaves the row alone. */
  lemma OccurrenceLeaves(row: Option<Row>, a: Alert, t: Tracking)
    requires row.Some? ==> ValidRow(row.value)
    ensures Deliver(row, a, t).Some?
    ensures row.None? ==>
      var r := Deliver(row, a, t).value;
      && r.timestamp == r.firstTimestamp == a.timestamp && r.alertId == a.id && r.alertHash == a.hash
      && r.user == map[Status := Null, StatusDisposable := Bool(false), DismissMode := Null, DismissedUntil := Null,
                       Assignee := Null, Note := Null, Deleted := Bool(false), TicketType := Null, TicketUrl := Null,
                       TicketProviderId := Null]
    ensures row.Some? && a.timestamp <= row.value.timestamp ==> Deliver(row, a, t) == row
    ensures row.Some? && row.value.timestamp < a.timestamp ==>
      var before, r := row.value, Deliver(row, a, t).value;
      && r.timestamp == a.timestamp && r.alertId == a.id && r.alertHash == a.hash
      && r.firstTimestamp == before.firstTimestamp
      && r.user == if a.status == Text("resolved") || Truthy(before.user[StatusDisposable])
                   then before.user[Status := a.status][StatusDisposable := Bool(true)][DismissMode := Null]
                                   [DismissedUntil := Null]
                   else before.user
  {
    if row.None? {
      NewRowIsBlank();
    } else if row.value.timestamp < a.timestamp {
      assert Get(row.value.user, StatusDisposable) == row.value.user[StatusDisposable];
      FourColumns(row.value.user, a.status);
    }
  }

  lemma FourColumns(user: Dict, status: Val)
    ensures user + map[Status := status, StatusDisposable := Bool(true), DismissMode := Null, DismissedUntil := Null]
         == user[Status := status][StatusDisposable := Bool(true)][DismissMode := Null][DismissedUntil := Null]
  {
  }

  lemma NewRowIsBlank()
    ensures NO_ENRICHMENT ==
      map[Status := Null, StatusDisposable := Bool(false), DismissMode := Null, DismissedUntil := Null,
          Assignee := Null, Note := Null, Deleted := Bool(false), TicketType := Null, TicketUrl := Null,
          TicketProviderId := Null]
  {
  }

  /** The tracking column `k` after an occurrence that counts: what the occurrence brings for
      it, else what was there; a name that is no tracking column is never stored. */
  lemma OccurrenceTracks(row: Option<Row>, a: Alert, t: Tracking, k: Track)
    requires row.None? || row.value.timestamp < a.timestamp
    ensures Deliver(row, a, t).Some?
    ensures var r := Deliver(row, a, t).value; var had := row.Some? && k in row.value.tracking;
      if t.Some? && k in t.value && k in {LastReceived, FiringCounter, UnresolvedCounter, StartedAt, FiringStartTime,
                                          FiringStartTimeSinceLastResolved}
      then k in r.tracking && r.tracking[k] == t.value[k]
      else (k in r.tracking <==> had) && (had ==> r.tracking[k] == row.value.tracking[k])
  {
  }

  /** The database refuses a null exactly where a column takes none: the dispose flag and the
      deleted mark of a write, the two counters of an occurrence that counts. */
  lemma NullsAreRefusedExactlyWhen(user: Dict, e: Dict, force: bool, row: Option<Row>, a: Alert, t: Tracking)
    requires user.Keys == COLUMNS && Storable(user) && e.Keys <= COLUMNS
    ensures !Storable(Write(user, e, force)) <==>
            (StatusDisposable in e && e[StatusDisposable] == Null) || (Deleted in e && e[Deleted] == Null)
    ensures Refuses(row, a, t) <==>
            && (row.None? || row.value.timestamp < a.timestamp) && t.Some?
            && ((FiringCounter in t.value && t.value[FiringCounter] == Null)
                || (UnresolvedCounter in t.value && t.value[UnresolvedCounter] == Null))
  {
    StorableExactlyWhen(user, e, force);
    if t.Some? {
      assert FiringCounter in {FiringCounter, UnresolvedCounter};
      assert UnresolvedCounter in {FiringCounter, UnresolvedCounter};
    }
  }

  // ---------------------------------------------------------------- laws of one row

  lemma DeliverKeepsValid(row: Option<Row>, a: Alert, t: Tracking)
    requires row.Some? ==> ValidRow(row.value) && Storable(row.value.user)
    ensures Deliver(row, a, t).Some? && ValidRow(Deliver(row, a, t).value) && Storable(Deliver(row, a, t).value.user)
  {
    if row.Some? {
      OccurrenceKeepsColumns(row.value.user, a.status);
    } else {
      NewRowIsStorable();
    }
  }

  lemma NewRowIsStorable()
    ensures NO_ENRICHMENT.Keys == COLUMNS && Storable(NO_ENRICHMENT)
  {
    assert StatusDisposable in COLUMNS && Deleted in COLUMNS;
  }

  lemma OccurrenceKeepsColumns(user: Dict, status: Val)
    requires user.Keys == COLUMNS && Storable(user)
    ensures AfterOccurrence(user, status).Keys == COLUMNS && Storable(AfterOccurrence(user, status))
  {
  }

  /** The database takes a write exactly when the enrichment itself may be written. */
  lemma StorableExactlyWhen(user: Dict, e: Dict, force: bool)
    requires user.Keys == COLUMNS && Storable(user) && e.Keys <= COLUMNS
    ensures Storable(Write(user, e, force)) <==> Writable(e)
    ensures Write(user, e, force).Keys == COLUMNS
  {
  }

  /** Two enrichments in a row act as one merged dictionary in which a blank note of
      the later one does not override the note of the earlier. */
  lemma WritesMerge(user: Dict, e1: Dict, e2: Dict)
    ensures Write(Write(user, e1, false), e2, false) == Write(user, e1 + Passed(e2, false), false)
  {
    PassedTwice(e1, e2);
    assert (user + Passed(e1, false)) + Passed(e2, false) == user + (Passed(e1, false) + Passed(e2, false));
  }

  lemma PassedTwice(e1: Dict, e2: Dict)
    ensures Passed(e1 + Passed(e2, false), false) == Passed(e1, false) + Passed(e2, false)
  {
  }

  /** Every key is guarded or brings what the column already holds. */
  predicate NothingToWrite(user: Dict, e: Dict, force: bool) {
    !Writable(e) || forall k :: k in e ==> Guarded(k, e[k], force) || Get(user, k) == e[k]
  }

  lemma WriteChangesExactlyWhen(user: Dict, e: Dict, force: bool)
    requires user.Keys == COLUMNS && Storable(user) && e.Keys <= COLUMNS
    ensures Storable(Write(user, e, force)) && Write(user, e, force) != user <==> !NothingToWrite(user, e, force)
  {
    StorableExactlyWhen(user, e, force);
    var after := Write(user, e, force);
    forall k | k in user ensures after[k] == if k in Passed(e, force) then e[k] else user[k] {}
    if after == user {
      forall k | k in e ensures Guarded(k, e[k], force) || Get(user, k) == e[k] {
        assert k in user && after[k] == user[k];
      }
    }
  }

  // ---------------------------------------------------------------- reading back

  /** What the read-back shows of column `k` holding `v`: non-null columns, the dispose flag
      never, the deleted mark only when set; `wire` puts an end time on the wire. */
  function Shown(k: Key, v: Val, wire: Val -> Val): Option<Val> {
    if !Enrichable(k) || k == StatusDisposable then None
    else if k == Deleted then (if Truthy(v) then Some(Bool(true)) else None)
    else if v == Null then None
    else Some(if k == DismissedUntil then wire(v) else v)
  }

  function ReadBack(user: Dict, wire: Val -> Val): Dict {
    map k | k in user && Shown(k, user[k], wire).Some? :: Shown(k, user[k], wire).value
  }

  /** The columns shown as they are. */
  predicate PlainColumn(k: Key) {
    Enrichable(k) && k !in {StatusDisposable, DismissedUntil, Deleted}
  }

  method PlainColumns() returns (names: seq<Key>)
    ensures forall k :: k in names <==> PlainColumn(k)
  {
    names := [Status, Assignee, Note, DismissMode, TicketType, TicketUrl, TicketProviderId];
    assert names[0] == Status && names[1] == Assignee && names[2] == Note && names[3] == DismissMode
        && names[4] == TicketType && names[5] == TicketUrl && names[6] == TicketProviderId;
  }

  /** The columns shown as they are, where they are not null. */
  method PlainData(user: Dict) returns (data: Dict)
    requires user.Keys == COLUMNS
    ensures forall k :: Kept(data, k) == if PlainColumn(k) then NonNull(user[k]) else None
  {
    var names := PlainColumns();
    data := NonNullColumns(user, names);
  }

  method NonNullColumns(user: Dict, names: seq<Key>) returns (data: Dict)
    requires forall k :: k in names ==> k in user
    ensures data == map k | k in user && k in names && user[k] != Null :: user[k]
  {
    data := map[];
    for i := 0 to |names|
      invariant data == map k | k in user && k in names[..i] && user[k] != Null :: user[k]
    {
      assert names[..i + 1] == names[..i] + [names[i]];
      var val := user[names[i]];
      if val != Null {
        data := data[names[i] := val];
      }
    }
    assert names[..|names|] == names;
  }

  method LastAlertEnrichmentsDict(user: Dict, wire: Val -> Val) returns (data: Dict)
    requires user.Keys == COLUMNS
    ensures data == ReadBack(user, wire)
  {
    var plain := PlainData(user);
    data := plain;
    if user[DismissedUntil] != Null {
      data := data[DismissedUntil := wire(user[DismissedUntil])];
    }
    if Truthy(user[Deleted]) {
      data := data[Deleted := Bool(true)];
    }
    ReadBackIs(user, plain, data, wire);
  }

  lemma ReadBackIs(user: Dict, plain: Dict, data: Dict, wire: Val -> Val)
    requires user.Keys == COLUMNS
    requires forall k :: Kept(plain, k) == if PlainColumn(k) then NonNull(user[k]) else None
    requires forall k :: k != DismissedUntil && k != Deleted ==> Kept(data, k) == Kept(plain, k)
    requires Kept(data, DismissedUntil) == Shown(DismissedUntil, user[DismissedUntil], wire)
    requires Kept(data, Deleted) == Shown(Deleted, user[Deleted], wire)
    ensures data == ReadBack(user, wire)
  {
    forall k ensures Kept(data, k) == Kept(ReadBack(user, wire), k) {
      assert Kept(plain, k) == if PlainColumn(k) then NonNull(user[k]) else None;
    }
    SameDict(data, ReadBack(user, wire));
  }

  /** The read-back shows seven columns as they are where they are not null, the end time on
      the wire, the deleted mark when it is set, and nothing else. */
  lemma ReadBackShows(user: Dict, wire: Val -> Val, k: Key)
    requires user.Keys == COLUMNS
    ensures Kept(ReadBack(user, wire), k) ==
      match k
      case DismissedUntil => if user[k] == Null then None else Some(wire(user[k]))
      case Deleted => if Truthy(user[k]) then Some(Bool(true)) else None
      case StatusDisposable => None
      case Dismissed => None
      case DismissUntil => None
      case Other(_) => None
      case _ => if user[k] == Null then None else Some(user[k])
  {
    assert Enrichable(k) <==> k in COLUMNS;
  }

  /** Reading back after a write: a key that was sent, and is no unforced null or blank note,
      shows what was sent for it, so a null disappears; every other key shows what it did. */
  lemma ReadBackAfterWrite(user: Dict, e: Dict, force: bool, wire: Val -> Val, k: Key)
    requires user.Keys == COLUMNS && e.Keys <= COLUMNS
    ensures var before, after := ReadBack(user, wire), ReadBack(Write(user, e, force), wire);
      if k in e && (k != Note || force || (e[k] != Null && !BlankText(e[k]))) then
        Kept(after, k) ==
          match k
          case DismissedUntil => if e[k] == Null then None else Some(wire(e[k]))
          case Deleted => if Truthy(e[k]) then Some(Bool(true)) else None
          case StatusDisposable => None
          case _ => if e[k] == Null then None else Some(e[k])
      else Kept(after, k) == Kept(before, k)
  {
    assert Enrichable(k) <==> k in COLUMNS;
    ReadBackShows(user, wire, k);
    ReadBackShows(Write(user, e, force), wire, k);
    WriteLeaves(user, e, force, k);
  }
}
