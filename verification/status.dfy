/** What a user sees as the status of an alert, over any concurrent run: the override
    written by a user while one is pending, and the newest occurrence's own status
    otherwise.  The row keeps neither notion; it stores one nullable status, copies the
    provider's status into it when an override ends, and remembers a disposable flag. */
module StatusRefinement {
  import opened Values
  import opened LastAlertRows
  import opened LastAlertProtocol

  /** The newest occurrence, the user's pending override and dismissal, and what became of
      the provider's status in the row: `copied` while a disposable copy of it stands there,
      `pinned` once a write cleared the flag under such a copy, so that the copy stays. */
  datatype View = View(newest: Alert, override: Option<Val>, copied: bool, pinned: Option<Val>,
                       disposable: bool, mode: Val, until: Val)

  /** A newer occurrence replaces the newest; a resolved one ends the override and the
      dismissal, any other ends them only when they are disposable. */
  function Seen(v: View, a: Alert): View {
    if a.timestamp <= v.newest.timestamp then v
    else if a.status == RESOLVED || v.disposable then View(a, None, true, None, true, Null, Null)
    else v.(newest := a)
  }

  /** A write that names a status is the override from then on; one that only clears the
      flag pins what has been copied. */
  function Written(v: View, e: Dict): View {
    var pins := v.copied && Status !in e && StatusDisposable in e && !Truthy(e[StatusDisposable]);
    v.(override := if Status in e then NonNull(e[Status]) else v.override,
       copied := v.copied && Status !in e && !pins,
       pinned := if Status in e then None else if pins then NonNull(v.newest.status) else v.pinned,
       disposable := if StatusDisposable in e then Truthy(e[StatusDisposable]) else v.disposable,
       mode := if DismissMode in e then e[DismissMode] else v.mode,
       until := if DismissedUntil in e then e[DismissedUntil] else v.until)
  }

  function ViewStep(v: Option<View>, op: Op): Option<View> {
    match op
    case Occurrence(a, _) =>
      if v.None? then Some(View(a, None, false, None, false, Null, Null)) else Some(Seen(v.value, a))
    case Enrich(e, _) =>
      if v.None? || !Writable(e) then v else Some(Written(v.value, e))
  }

  function ViewOf(ops: seq<Op>, commits: seq<Committed>): Option<View>
    requires WorkersOf(ops, commits)
  {
    if commits == [] then None
    else
      var c := commits[|commits| - 1];
      var before := ViewOf(ops, commits[..|commits| - 1]);
      if c.onRow then ViewStep(before, ops[c.worker]) else before
  }

  /** The status a reader should be shown: the override if any, else the provider's. */
  function Shows(v: View): Option<Val> {
    Coalesce(v.override, NonNull(v.newest.status))
  }

  /** COALESCE(lastalert.status, alert.status). */
  function Effective(user: Dict, provider: Val): Option<Val> {
    Coalesce(NonNull(Get(user, Status)), NonNull(provider))
  }

  /** The view's account of the status column. */
  function StatusColumn(v: View): Option<Val> {
    Coalesce(v.override, Coalesce(v.pinned, if v.copied then NonNull(v.newest.status) else None))
  }

  /** A pinned copy stands over a newer occurrence that reports another status. */
  predicate Misleads(v: View) {
    v.pinned.Some? && v.pinned != NonNull(v.newest.status)
  }

  /** The row stores what the view says. */
  predicate Stores(r: Row, v: View) {
    && PointsAt(r, v.newest)
    && ValidRow(r) && Storable(r.user)
    && Truthy(r.user[StatusDisposable]) == v.disposable
    && r.user[DismissMode] == v.mode && r.user[DismissedUntil] == v.until
    && NonNull(r.user[Status]) == StatusColumn(v)
    && (v.copied ==> v.override.None? && v.pinned.None? && v.disposable)
    && (v.override.Some? ==> v.pinned.None?)
  }

  lemma OccurrenceStores(r: Row, v: View, a: Alert, t: Tracking)
    requires Stores(r, v)
    ensures Stores(Deliver(Some(r), a, t).value, Seen(v, a))
  {
    OccurrenceKeepsColumns(r.user, a.status);
    assert Get(r.user, StatusDisposable) == r.user[StatusDisposable];
  }

  lemma WriteStores(r: Row, v: View, e: Dict, force: bool)
    requires Stores(r, v) && e.Keys <= COLUMNS && Writable(e)
    ensures Storable(Write(r.user, e, force))
    ensures Stores(r.(user := Write(r.user, e, force)), Written(v, e))
  {
    StorableExactlyWhen(r.user, e, force);
  }

  lemma FirstOccurrenceStores(a: Alert, t: Tracking)
    ensures Stores(NewRow(a, t), View(a, None, false, None, false, Null, Null))
  {
    NewRowIsStorable();
  }

  /** Over any committed sequence of operations the row stores the view. */
  lemma {:induction false} RowStoresView(ops: seq<Op>, commits: seq<Committed>)
    requires WorkersOf(ops, commits) && FieldsAreColumns(ops)
    ensures Replay(ops, commits).None? <==> ViewOf(ops, commits).None?
    ensures Replay(ops, commits).Some? ==> Stores(Replay(ops, commits).value, ViewOf(ops, commits).value)
  {
    if commits != [] {
      var c := commits[|commits| - 1];
      RowStoresView(ops, commits[..|commits| - 1]);
      var before := Replay(ops, commits[..|commits| - 1]);
      if c.onRow { StepStores(before, ViewOf(ops, commits[..|commits| - 1]), ops[c.worker]); }
    }
  }

  lemma StepStores(row: Option<Row>, v: Option<View>, op: Op)
    requires row.None? <==> v.None?
    requires row.Some? ==> Stores(row.value, v.value)
    requires op.Enrich? ==> op.fields.Keys <= COLUMNS
    ensures Apply(row, op).None? <==> ViewStep(v, op).None?
    ensures Apply(row, op).Some? ==> Stores(Apply(row, op).value, ViewStep(v, op).value)
  {
    match op
    case Occurrence(a, t) =>
      if row.Some? { OccurrenceStores(row.value, v.value, a, t); } else { FirstOccurrenceStores(a, t); }
    case Enrich(e, force) =>
      if row.Some? {
        StorableExactlyWhen(row.value.user, e, force);
        if Writable(e) { WriteStores(row.value, v.value, e, force); }
      }
  }

  lemma ShownExactlyWhen(r: Row, v: View)
    requires Stores(r, v)
    ensures Effective(r.user, v.newest.status) == Shows(v) <==> !Misleads(v)
  {
  }

  /** In every interleaving of any number of workers, whatever they write: the row points at
      the newest occurrence and carries the pending dismissal, and the status shown is the
      pending override, else the newest occurrence's, exactly when no pinned copy stands
      over a different newest status. */
  lemma ShownStatusRefinesView(ops: seq<Op>, actions: seq<Action>)
    requires FieldsAreColumns(ops) && Exec(ops, Init(ops), actions).Some?
    ensures var s := Exec(ops, Init(ops), actions).value;
      WorkersOf(ops, s.commits) && (s.row.Some? ==>
        var v := ViewOf(ops, s.commits);
        v.Some? && PointsAt(s.row.value, v.value.newest)
        && (Effective(s.row.value.user, v.value.newest.status) == Shows(v.value) <==> !Misleads(v.value))
        && Get(s.row.value.user, DismissMode) == v.value.mode
        && Get(s.row.value.user, DismissedUntil) == v.value.until)
  {
    RunIsSerial(ops, actions);
    var s := Exec(ops, Init(ops), actions).value;
    RowStoresView(ops, s.commits);
    if s.row.Some? { ShownExactlyWhen(s.row.value, ViewOf(ops, s.commits).value); }
  }

  // ---------------------------------------------------------------- when a copy is pinned

  /** A write that makes the status stick also says which status. */
  predicate Disciplined(op: Op) {
    op.Enrich? && StatusDisposable in op.fields && !Truthy(op.fields[StatusDisposable]) ==> Status in op.fields
  }

  /** Where every write that makes the status stick names it, nothing is ever pinned, so the
      shown status is always right. */
  lemma {:induction false} DisciplineNeverPins(ops: seq<Op>, commits: seq<Committed>)
    requires WorkersOf(ops, commits) && forall c :: c in commits ==> Disciplined(ops[c.worker])
    ensures var v := ViewOf(ops, commits); v.Some? ==> v.value.pinned.None? && !Misleads(v.value)
  {
    if commits != [] {
      assert commits[|commits| - 1] in commits;
      DisciplineNeverPins(ops, commits[..|commits| - 1]);
    }
  }

  /** What the next occurrence shows after any accepted write: the right status, unless the
      occurrence does not resolve, neither an override nor a disposable flag is left, the
      write names no status, and the column holds a status other than the reported one. */
  lemma NextShowsRightExactlyWhen(r: Row, v: View, e: Dict, force: bool, a: Alert, t: Tracking)
    requires Stores(r, v) && e.Keys <= COLUMNS && Writable(e) && v.newest.timestamp < a.timestamp
    ensures var r' := Deliver(Some(r.(user := Write(r.user, e, force))), a, t).value;
      Effective(r'.user, a.status) == Shows(Seen(Written(v, e), a)) <==>
      !(&& a.status != RESOLVED && v.override.None? && Status !in e
        && !(if StatusDisposable in e then Truthy(e[StatusDisposable]) else v.disposable)
        && r.user[Status] != Null && r.user[Status] != a.status)
  {
    WriteStores(r, v, e, force);
    var written := r.(user := Write(r.user, e, force));
    OccurrenceStores(written, Written(v, e), a, t);
    ShownExactlyWhen(Deliver(Some(written), a, t).value, Seen(Written(v, e), a));
  }

  /** A status written by a user is shown over any provider status until it is written null,
      and over newer occurrences until one resolves or the flag is set; then, as without a
      status of the user's, the provider's is shown. */
  lemma OverrideShows(r: Row, e: Dict, force: bool, provider: Val, a: Alert, t: Tracking)
    requires ValidRow(r) && e.Keys <= COLUMNS && Status in e && r.timestamp < a.timestamp
    ensures var written := r.(user := Write(r.user, e, force));
      var flag := if StatusDisposable in e then e[StatusDisposable] else r.user[StatusDisposable];
      var next := Deliver(Some(written), a, t).value;
      && Effective(written.user, provider) == NonNull(if e[Status] != Null then e[Status] else provider)
      && Effective(next.user, a.status) ==
         NonNull(if e[Status] != Null && a.status != Text("resolved") && !Truthy(flag) then e[Status] else a.status)
  {
    var written := r.(user := Write(r.user, e, force));
    WriteLeaves(r.user, e, force, Status);
    WriteLeaves(r.user, e, force, StatusDisposable);
    assert written.user.Keys == COLUMNS;
    OccurrenceLeaves(Some(written), a, t);
  }
}
