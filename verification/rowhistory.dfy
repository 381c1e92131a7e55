/** What the LastAlert row remembers of its history: which occurrences counted, which user
    fields and tracking columns it carries, and what became of the note. */
module RowHistory {
  import opened Values
  import opened LastAlertRows
  import opened LastAlertProtocol

  lemma {:induction false} ReplayIsGood(ops: seq<Op>, commits: seq<Committed>)
    requires WorkersOf(ops, commits) && FieldsAreColumns(ops)
    ensures GoodRow(Replay(ops, commits))
  {
    if commits != [] {
      var n := |commits| - 1;
      ReplayIsGood(ops, commits[..n]);
      StepIsGood(Replay(ops, commits[..n]), ops[commits[n].worker]);
    }
  }

  lemma StepIsGood(row: Option<Row>, op: Op)
    requires GoodRow(row) && (op.Enrich? ==> op.fields.Keys <= COLUMNS)
    ensures GoodRow(Apply(row, op))
  {
    match op
    case Occurrence(a, t) => DeliverKeepsValid(row, a, t);
    case Enrich(e, force) => if row.Some? { StorableExactlyWhen(row.value.user, e, force); }
  }

  // ---------------------------------------------------------------- which occurrences count

  /** An occurrence committed before this one was at least as new. */
  predicate IsLate(ops: seq<Op>, before: seq<Committed>, c: Committed)
    requires WorkersOf(ops, before) && c.worker < |ops|
  {
    && IsOccurrence(ops, c)
    && exists j :: 0 <= j < |before| && IsOccurrence(ops, before[j]) && TimeOf(ops, c) <= TimeOf(ops, before[j])
  }

  /** Committing one more occurrence changes the row exactly when none committed before it
      was at least as new. */
  lemma OccurrenceCountsExactlyWhen(ops: seq<Op>, before: seq<Committed>, c: Committed)
    requires WorkersOf(ops, before) && c.worker < |ops| && IsOccurrence(ops, c)
    ensures WorkersOf(ops, before + [c])
      && (Replay(ops, before + [c]) != Replay(ops, before) <==> !IsLate(ops, before, c))
  {
    ReplaySnoc(ops, before, c);
    var i, f := NewestWins(ops, before);
    var row := Replay(ops, before);
    if row.Some? {
      assert IsOccurrence(ops, before[i]) && row.value.timestamp == TimeOf(ops, before[i]);
    }
  }

  /** The committed operations without the late occurrences. */
  function Timely(ops: seq<Op>, commits: seq<Committed>): (r: seq<Committed>)
    requires WorkersOf(ops, commits)
    ensures WorkersOf(ops, r)
  {
    if commits == [] then []
    else
      var before, c := commits[..|commits| - 1], commits[|commits| - 1];
      if IsLate(ops, before, c) then Timely(ops, before) else Timely(ops, before) + [c]
  }

  /** Late occurrences leave no trace in any column: without them the row is the same. */
  lemma {:induction false} LateOccurrencesLeaveNoTrace(ops: seq<Op>, commits: seq<Committed>)
    requires WorkersOf(ops, commits)
    ensures Replay(ops, Timely(ops, commits)) == Replay(ops, commits)
  {
    if commits != [] {
      var before, c := commits[..|commits| - 1], commits[|commits| - 1];
      LateOccurrencesLeaveNoTrace(ops, before);
      assert commits == before + [c];
      if IsLate(ops, before, c) {
        OccurrenceCountsExactlyWhen(ops, before, c);
      } else {
        ReplaySnoc(ops, Timely(ops, before), c);
      }
    }
  }

  // ---------------------------------------------------------------- which enrichments are lost

  /** The enrichment that committed here off the row had nothing to write on the row there was. */
  predicate NothingLostAt(ops: seq<Op>, commits: seq<Committed>, n: nat)
    requires WorkersOf(ops, commits) && n < |commits|
  {
    var row, op := Replay(ops, commits[..n]), ops[commits[n].worker];
    !commits[n].onRow && op.Enrich? && row.Some? ==> NothingToWrite(row.value.user, op.fields, op.force)
  }

  /** The row counts every committed operation, after each commit of a run, exactly when no
      enrichment committed off the row at a time when there was a row and it had something to
      write on it. */
  lemma {:induction false} NothingLostExactlyWhen(ops: seq<Op>, commits: seq<Committed>)
    requires WorkersOf(ops, commits) && FieldsAreColumns(ops)
    requires forall c :: c in commits && !c.onRow ==> ops[c.worker].Enrich?
    ensures (forall n :: 0 <= n <= |commits| ==> ReplayAll(ops, commits[..n]) == Replay(ops, commits[..n]))
       <==> forall n :: 0 <= n < |commits| ==> NothingLostAt(ops, commits, n)
  {
    if commits == [] {
      assert commits[..0] == [];
    } else {
      var m := |commits| - 1;
      var before := commits[..m];
      NothingLostExactlyWhen(ops, before);
      forall n | 0 <= n < m ensures NothingLostAt(ops, before, n) <==> NothingLostAt(ops, commits, n) {
        assert before[..n] == commits[..n];
      }
      if ReplayAll(ops, before) == Replay(ops, before) { OneMoreCounts(ops, before, commits[m]); }
      AllPrefixes(ops, commits);
    }
  }

  /** So it is in every interleaving. */
  lemma RunLosesNothingExactlyWhen(ops: seq<Op>, actions: seq<Action>)
    requires FieldsAreColumns(ops) && Exec(ops, Init(ops), actions).Some?
    ensures var commits := Exec(ops, Init(ops), actions).value.commits;
      WorkersOf(ops, commits)
      && ((forall n :: 0 <= n <= |commits| ==> ReplayAll(ops, commits[..n]) == Replay(ops, commits[..n]))
          <==> forall n :: 0 <= n < |commits| ==> NothingLostAt(ops, commits, n))
  {
    InitInv(ops);
    RunsAreSerial(ops, Init(ops), actions);
    NothingLostExactlyWhen(ops, Exec(ops, Init(ops), actions).value.commits);
  }

  /** What one more commit does to that agreement. */
  lemma OneMoreCounts(ops: seq<Op>, before: seq<Committed>, c: Committed)
    requires WorkersOf(ops, before) && FieldsAreColumns(ops) && c.worker < |ops| && (!c.onRow ==> ops[c.worker].Enrich?)
    requires ReplayAll(ops, before) == Replay(ops, before)
    ensures var all := before + [c];
      WorkersOf(ops, all)
      && (ReplayAll(ops, all) == Replay(ops, all) <==> NothingLostAt(ops, all, |before|))
  {
    assert (before + [c])[..|before|] == before;
    ReplayIsGood(ops, before);
    var row, op := Replay(ops, before), ops[c.worker];
    if op.Enrich? && row.Some? { ApplyChangesExactlyWhen(row.value, op.fields, op.force); }
  }

  lemma AllPrefixes(ops: seq<Op>, commits: seq<Committed>)
    requires WorkersOf(ops, commits) && commits != []
    ensures var m := |commits| - 1; var before := commits[..m];
      && before + [commits[m]] == commits && before[..m] == before
      && ((forall n :: 0 <= n <= |commits| ==> ReplayAll(ops, commits[..n]) == Replay(ops, commits[..n])) <==>
            ReplayAll(ops, commits) == Replay(ops, commits)
            && forall n :: 0 <= n <= m ==> ReplayAll(ops, before[..n]) == Replay(ops, before[..n]))
  {
    var m := |commits| - 1;
    assert commits[..|commits|] == commits;
    assert forall n :: 0 <= n <= m ==> commits[..m][..n] == commits[..n];
  }

  // ---------------------------------------------------------------- what the row carries

  /** Entry `n` is an occurrence that counted and brought a value for tracking column `k`. */
  predicate Brings(ops: seq<Op>, commits: seq<Committed>, n: nat, k: Track)
    requires WorkersOf(ops, commits) && n < |commits|
  {
    && IsOccurrence(ops, commits[n]) && !IsLate(ops, commits[..n], commits[n])
    && ops[commits[n].worker].tracking.Some? && k in ops[commits[n].worker].tracking.value
  }

  /** Entry `n` is the last that did. */
  predicate LastBrings(ops: seq<Op>, commits: seq<Committed>, n: nat, k: Track)
    requires WorkersOf(ops, commits)
  {
    n < |commits| && Brings(ops, commits, n, k) && forall m :: n < m < |commits| ==> !Brings(ops, commits, m, k)
  }

  lemma BringsBefore(ops: seq<Op>, commits: seq<Committed>, n: nat, k: Track)
    requires WorkersOf(ops, commits) && n < |commits| - 1
    ensures Brings(ops, commits[..|commits| - 1], n, k) <==> Brings(ops, commits, n, k)
  {
    assert commits[..|commits| - 1][..n] == commits[..n];
  }

  /** Whatever else was committed, a tracking column holds what the last occurrence that
      counted and had something for it brought, and nothing if none did; a name that is no
      tracking column is never held. */
  lemma {:induction false} RowTracks(ops: seq<Op>, commits: seq<Committed>, k: Track)
    requires WorkersOf(ops, commits)
    ensures var row := Replay(ops, commits);
      && (row.Some? && k in row.value.tracking <==> !k.OtherTrack? && exists n: nat :: LastBrings(ops, commits, n, k))
      && forall n: nat :: !k.OtherTrack? && LastBrings(ops, commits, n, k) ==>
           row.Some? && k in row.value.tracking
           && row.value.tracking[k] == ops[commits[n].worker].tracking.value[k]
  {
    if commits != [] {
      var m := |commits| - 1;
      var before, c := commits[..m], commits[m];
      RowTracks(ops, before, k);
      assert commits == before + [c];
      ReplaySnoc(ops, before, c);
      forall n | 0 <= n < m ensures Brings(ops, before, n, k) <==> Brings(ops, commits, n, k) {
        BringsBefore(ops, commits, n, k);
      }
      if Brings(ops, commits, m, k) {
        assert LastBrings(ops, commits, m, k);
        CountedTracks(ops, before, c, k);
      } else {
        forall n: nat ensures LastBrings(ops, before, n, k) <==> LastBrings(ops, commits, n, k) {}
        UncountedTracks(ops, before, c, k);
      }
    }
  }

  /** What one more commit does to a tracking column: the value an occurrence that counts
      brings for it replaces what is there. */
  lemma CountedTracks(ops: seq<Op>, before: seq<Committed>, c: Committed, k: Track)
    requires WorkersOf(ops, before) && c.worker < |ops| && IsOccurrence(ops, c) && !IsLate(ops, before, c)
    requires ops[c.worker].tracking.Some? && k in ops[c.worker].tracking.value
    ensures WorkersOf(ops, before + [c]) && var row := Replay(ops, before + [c]);
      && row.Some? && (k in row.value.tracking <==> !k.OtherTrack? || TrackedIn(Replay(ops, before), k))
      && (!k.OtherTrack? ==> row.value.tracking[k] == ops[c.worker].tracking.value[k])
  {
    OccurrenceCountsExactlyWhen(ops, before, c);
    ReplaySnoc(ops, before, c);
    TimelyIsNewer(ops, before, c);
    OccurrenceTracks(Replay(ops, before), ops[c.worker].alert, ops[c.worker].tracking, k);
  }

  lemma UncountedTracks(ops: seq<Op>, before: seq<Committed>, c: Committed, k: Track)
    requires WorkersOf(ops, before) && c.worker < |ops|
    requires IsOccurrence(ops, c) && !IsLate(ops, before, c) ==>
      ops[c.worker].tracking.None? || k !in ops[c.worker].tracking.value
    ensures WorkersOf(ops, before + [c]) && var row, had := Replay(ops, before + [c]), Replay(ops, before);
      && (TrackedIn(row, k) <==> TrackedIn(had, k))
      && (TrackedIn(had, k) ==> row.value.tracking[k] == had.value.tracking[k])
  {
    ReplaySnoc(ops, before, c);
    if IsOccurrence(ops, c) {
      OccurrenceCountsExactlyWhen(ops, before, c);
      if !IsLate(ops, before, c) {
        TimelyIsNewer(ops, before, c);
        OccurrenceTracks(Replay(ops, before), ops[c.worker].alert, ops[c.worker].tracking, k);
      }
    }
  }

  predicate TrackedIn(row: Option<Row>, k: Track) {
    row.Some? && k in row.value.tracking
  }

  lemma TimelyIsNewer(ops: seq<Op>, before: seq<Committed>, c: Committed)
    requires WorkersOf(ops, before) && c.worker < |ops| && IsOccurrence(ops, c) && !IsLate(ops, before, c)
    ensures var row := Replay(ops, before); row.None? || row.value.timestamp < ops[c.worker].alert.timestamp
  {
    var i, f := NewestWins(ops, before);
    var row := Replay(ops, before);
    if row.Some? {
      assert IsOccurrence(ops, before[i]) && row.value.timestamp == TimeOf(ops, before[i]);
    }
  }

  /** The columns only users write. */
  predicate UserOwned(k: Key) {
    k in {Assignee, Note, Deleted, TicketType, TicketUrl, TicketProviderId}
  }

  /** The accepted enrichments alone, one after the other, on the columns of a new row. */
  function WrittenFields(ops: seq<Op>, commits: seq<Committed>): Dict
    requires WorkersOf(ops, commits)
  {
    if commits == [] then NO_ENRICHMENT
    else
      var before, c := commits[..|commits| - 1], commits[|commits| - 1];
      var op, fields := ops[c.worker], WrittenFields(ops, before);
      if c.onRow && op.Enrich? && Replay(ops, before).Some? && Writable(op.fields)
      then Write(fields, op.fields, op.force)
      else fields
  }

  lemma OccurrenceLeavesField(r: Row, a: Alert, t: Tracking, k: Key)
    requires UserOwned(k)
    ensures Kept(Deliver(Some(r), a, t).value.user, k) == Kept(r.user, k)
  {
  }

  lemma FirstRowFields(a: Alert, t: Tracking)
    ensures Deliver(None, a, t).value.user == NO_ENRICHMENT
  {
  }

  lemma WriteOnField(user: Dict, fields: Dict, e: Dict, force: bool, k: Key)
    requires Kept(user, k) == Kept(fields, k)
    ensures Kept(Write(user, e, force), k) == Kept(Write(fields, e, force), k)
  {
  }

  /** In any run the assignee, the note, the ticket fields and the deleted mark are what the
      enrichments made them: no occurrence ever changes one. */
  lemma {:induction false} OccurrencesLeaveUserFields(ops: seq<Op>, commits: seq<Committed>, k: Key)
    requires WorkersOf(ops, commits) && FieldsAreColumns(ops) && UserOwned(k)
    ensures Replay(ops, commits).Some? ==>
      Kept(Replay(ops, commits).value.user, k) == Kept(WrittenFields(ops, commits), k)
    ensures Replay(ops, commits).None? ==> WrittenFields(ops, commits) == NO_ENRICHMENT
  {
    if commits != [] {
      var before, c := commits[..|commits| - 1], commits[|commits| - 1];
      OccurrencesLeaveUserFields(ops, before, k);
      ReplayIsGood(ops, before);
      var row := Replay(ops, before);
      match ops[c.worker]
      case Occurrence(a, t) =>
        if row.Some? { OccurrenceLeavesField(row.value, a, t, k); } else { FirstRowFields(a, t); }
      case Enrich(e, force) =>
        if row.Some? {
          StorableExactlyWhen(row.value.user, e, force);
          WriteOnField(row.value.user, WrittenFields(ops, before), e, force, k);
        }
    }
  }

  predicate SaysSomething(note: Val) {
    note != Null && !BlankText(note)
  }

  /** Once the note says something, it says something after any further operations, as long
      as no write is forced. */
  lemma {:induction false} NoteOutlivesRun(ops: seq<Op>, commits: seq<Committed>, n: nat)
    requires WorkersOf(ops, commits) && FieldsAreColumns(ops) && n <= |commits|
    requires Replay(ops, commits[..n]).Some? && SaysSomething(Get(Replay(ops, commits[..n]).value.user, Note))
    requires forall j :: n <= j < |commits| && ops[commits[j].worker].Enrich? ==> !ops[commits[j].worker].force
    ensures Replay(ops, commits).Some? && SaysSomething(Get(Replay(ops, commits).value.user, Note))
  {
    if n == |commits| {
      assert commits[..n] == commits;
    } else {
      var m := |commits| - 1;
      assert commits[..m][..n] == commits[..n];
      NoteOutlivesRun(ops, commits[..m], n);
      ReplayIsGood(ops, commits[..m]);
      StepKeepsNote(Replay(ops, commits[..m]).value, ops[commits[m].worker]);
    }
  }

  lemma StepKeepsNote(r: Row, op: Op)
    requires ValidRow(r) && SaysSomething(Get(r.user, Note)) && (op.Enrich? ==> !op.force)
    ensures Apply(Some(r), op).Some? && SaysSomething(Get(Apply(Some(r), op).value.user, Note))
  {
    match op
    case Occurrence(a, t) => OccurrenceLeavesField(r, a, t, Note);
    case Enrich(e, force) =>
  }

  // ---------------------------------------------------------------- before the first occurrence

  lemma StepWithoutAlert(ops: seq<Op>, s: State, a: Action)
    requires Inv(ops, s) && Step(ops, s, a).Some? && (forall op :: op in ops ==> op.Enrich?)
    requires s.row.None? && forall c :: c in s.commits ==> !c.onRow
    ensures var s' := Step(ops, s, a).value; s'.row.None? && forall c :: c in s'.commits ==> !c.onRow
  {
    assert WorkerOk(ops, s, a.w) && ops[a.w] in ops;
  }

  lemma {:induction false} RunWithoutAlert(ops: seq<Op>, s: State, actions: seq<Action>)
    requires Inv(ops, s) && Exec(ops, s, actions).Some? && (forall op :: op in ops ==> op.Enrich?)
    requires s.row.None? && forall c :: c in s.commits ==> !c.onRow
    ensures var s' := Exec(ops, s, actions).value; s'.row.None? && forall c :: c in s'.commits ==> !c.onRow
    decreases |actions|
  {
    if actions != [] {
      StepWithoutAlert(ops, s, actions[0]);
      StepKeepsInv(ops, s, actions[0]);
      RunWithoutAlert(ops, Step(ops, s, actions[0]).value, actions[1..]);
    }
  }

  /** Enrichments racing before the first occurrence make no row in any interleaving: each
      that commits writes its audit entry only. */
  lemma OnlyAuditsBeforeFirstAlert(ops: seq<Op>, actions: seq<Action>)
    requires FieldsAreColumns(ops) && (forall op :: op in ops ==> op.Enrich?)
    requires Exec(ops, Init(ops), actions).Some?
    ensures var s := Exec(ops, Init(ops), actions).value; s.row.None? && forall c :: c in s.commits ==> !c.onRow
  {
    InitInv(ops);
    RunWithoutAlert(ops, Init(ops), actions);
  }
}
