/** Workers racing on the LastAlert row of one fingerprint.

    `set_last_alert` reads the row under a row lock; when there is none it inserts,
    and the primary key lets one insert through and turns the others away, which
    then roll back and try again.  `_enrich_entity` reads under the same lock, and
    when there is no row it writes only its audit entry.  Each worker is a small
    step machine; an action is one database round trip of one worker, and any
    interleaving of actions is a run. */
module LastAlertProtocol {
  import opened Values
  import opened LastAlertRows

  const MAX_RETRIES: nat := 3

  datatype Op =
    | Occurrence(alert: Alert, tracking: Tracking)
    | Enrich(fields: Dict, force: bool)

  datatype Pc =
    | Ready(attempt: nat)               // about to select the row for update
    | SawAbsent(attempt: nat)           // selected nothing, about to insert
    | Inserting(attempt: nat)           // insert sent, not yet committed
    | Holding(attempt: nat, seen: Row)  // holds the row lock on what it read
    | AuditOnly                         // an enrichment that found no row
    | Done
    | Raised

  /** A committed operation, and whether it found or made a row to work on. */
  datatype Committed = Committed(worker: nat, onRow: bool)

  datatype State = State(row: Option<Row>, locked: Option<nat>, inserting: Option<nat>,
                         pcs: seq<Pc>, conflicts: seq<nat>, commits: seq<Committed>)

  /** A round trip of worker `w`, or an error it meets: `Fault` is one `set_last_alert`
      retries after, `Fatal` one it raises at once. */
  datatype Action = Read(w: nat) | Insert(w: nat) | Commit(w: nat) | Fault(w: nat) | Fatal(w: nat)

  function Init(ops: seq<Op>): State {
    State(None, None, None, seq(|ops|, _ => Ready(1)), seq(|ops|, _ => 0), [])
  }

  function Again(attempt: nat): Pc {
    if attempt < MAX_RETRIES then Ready(attempt + 1) else Raised
  }

  function At(s: State, w: nat, pc: Pc): State
    requires w < |s.pcs|
  {
    s.(pcs := s.pcs[w := pc])
  }

  /** The row lock and the pending insert a worker gives up when its transaction ends. */
  function Released(s: State, w: nat): State {
    s.(locked := if s.locked == Some(w) then None else s.locked,
       inserting := if s.inserting == Some(w) then None else s.inserting)
  }

  function Finish(s: State, w: nat, row: Option<Row>, onRow: bool): State
    requires w < |s.pcs|
  {
    At(Released(s, w), w, Done).(row := row, commits := s.commits + [Committed(w, onRow)])
  }

  function StepRead(ops: seq<Op>, s: State, w: nat): Option<State>
    requires w < |ops| == |s.pcs|
  {
    if !s.pcs[w].Ready? then None
    else if s.row.None? then
      Some(At(s, w, if ops[w].Occurrence? then SawAbsent(s.pcs[w].attempt) else AuditOnly))
    else if s.locked.Some? then None
    else Some(At(s, w, Holding(s.pcs[w].attempt, s.row.value)).(locked := Some(w)))
  }

  /** A row with a null counter is refused at once, whatever else is pending. */
  function StepInsert(ops: seq<Op>, s: State, w: nat): Option<State>
    requires w < |ops| == |s.pcs| == |s.conflicts|
  {
    if !s.pcs[w].SawAbsent? || !ops[w].Occurrence? then None
    else if !CountersSet(ops[w].tracking) then Some(At(s, w, Again(s.pcs[w].attempt)))
    else if s.inserting.Some? then None
    else if s.row.Some? then
      Some(At(s, w, Again(s.pcs[w].attempt)).(conflicts := s.conflicts[w := s.conflicts[w] + 1]))
    else Some(At(s, w, Inserting(s.pcs[w].attempt)).(inserting := Some(w)))
  }

  function StepCommit(ops: seq<Op>, s: State, w: nat): Option<State>
    requires w < |ops| == |s.pcs|
  {
    match s.pcs[w]
    case AuditOnly => Some(Finish(s, w, s.row, false))
    case Inserting(_) =>
      if ops[w].Occurrence? then Some(Finish(s, w, Deliver(None, ops[w].alert, ops[w].tracking), true)) else None
    case Holding(attempt, seen) =>
      if ops[w].Occurrence? then
        if Refuses(Some(seen), ops[w].alert, ops[w].tracking) then Some(At(Released(s, w), w, Again(attempt)))
        else Some(Finish(s, w, Deliver(Some(seen), ops[w].alert, ops[w].tracking), true))
      else
        var user := Write(seen.user, ops[w].fields, ops[w].force);
        if Storable(user) then Some(Finish(s, w, Some(seen.(user := user)), true))
        else Some(At(Released(s, w), w, Raised))
    case _ => None
  }

  /** An infrastructure error: the transaction rolls back; only `set_last_alert` retries. */
  function StepFault(ops: seq<Op>, s: State, w: nat): Option<State>
    requires w < |ops| == |s.pcs|
  {
    match s.pcs[w]
    case Done => None
    case Raised => None
    case AuditOnly => Some(At(s, w, Raised))
    case pc => Some(At(Released(s, w), w, if ops[w].Occurrence? then Again(pc.attempt) else Raised))
  }

  /** An error nobody retries: the transaction rolls back and the worker raises. */
  function StepFatal(s: State, w: nat): Option<State>
    requires w < |s.pcs|
  {
    if s.pcs[w].Done? || s.pcs[w].Raised? then None else Some(At(Released(s, w), w, Raised))
  }

  predicate Shaped(ops: seq<Op>, s: State) {
    |s.pcs| == |s.conflicts| == |ops|
  }

  function Step(ops: seq<Op>, s: State, a: Action): Option<State>
    requires Shaped(ops, s)
  {
    if a.w >= |ops| then None
    else match a
      case Read(w) => StepRead(ops, s, w)
      case Insert(w) => StepInsert(ops, s, w)
      case Commit(w) => StepCommit(ops, s, w)
      case Fault(w) => StepFault(ops, s, w)
      case Fatal(w) => StepFatal(s, w)
  }

  /** The state an interleaving leads to, if every action in it is possible. */
  function Exec(ops: seq<Op>, s: State, actions: seq<Action>): Option<State>
    requires Shaped(ops, s)
    decreases |actions|
  {
    if actions == [] then Some(s)
    else
      var next := Step(ops, s, actions[0]);
      if next.None? || !Shaped(ops, next.value) then None else Exec(ops, next.value, actions[1..])
  }

  // ---------------------------------------------------------------- one at a time

  /** One operation run alone. */
  function Apply(row: Option<Row>, op: Op): Option<Row> {
    match op
    case Occurrence(a, t) => Deliver(row, a, t)
    case Enrich(e, force) =>
      if row.None? || !Storable(Write(row.value.user, e, force)) then row
      else Some(row.value.(user := Write(row.value.user, e, force)))
  }

  predicate WorkersOf(ops: seq<Op>, commits: seq<Committed>) {
    forall c :: c in commits ==> c.worker < |ops|
  }

  /** The committed operations that worked on a row, run one at a time in commit order. */
  function Replay(ops: seq<Op>, commits: seq<Committed>): Option<Row>
    requires WorkersOf(ops, commits)
  {
    if commits == [] then None
    else
      var c := commits[|commits| - 1];
      var before := Replay(ops, commits[..|commits| - 1]);
      if c.onRow then Apply(before, ops[c.worker]) else before
  }

  /** All committed operations, run one at a time in commit order. */
  function ReplayAll(ops: seq<Op>, commits: seq<Committed>): Option<Row>
    requires WorkersOf(ops, commits)
  {
    if commits == [] then None
    else Apply(ReplayAll(ops, commits[..|commits| - 1]), ops[commits[|commits| - 1].worker])
  }

  // ---------------------------------------------------------------- invariant

  predicate Committing(pc: Pc) { pc.Holding? || pc.Inserting? }

  /** What each worker may be doing given its operation and its history. */
  predicate WorkerOk(ops: seq<Op>, s: State, w: nat)
    requires Shaped(ops, s) && w < |ops|
  {
    var pc := s.pcs[w];
    && (pc.Holding? <==> s.locked == Some(w))
    && (pc.Inserting? <==> s.inserting == Some(w))
    && (pc.Holding? ==> s.row == Some(pc.seen))
    && (pc.Inserting? ==> s.row.None?)
    && (pc.Ready? || pc.SawAbsent? || Committing(pc) ==> 1 <= pc.attempt <= MAX_RETRIES)
    && (ops[w].Enrich? ==> !pc.SawAbsent? && !pc.Inserting? && s.conflicts[w] == 0)
    && (ops[w].Occurrence? ==> !pc.AuditOnly?)
    && s.conflicts[w] <= 1
    && (s.conflicts[w] == 1 ==> s.row.Some? && !pc.SawAbsent? && !pc.Inserting?)
  }

  predicate GoodRow(row: Option<Row>) {
    row.Some? ==> ValidRow(row.value) && Storable(row.value.user)
  }

  predicate FieldsAreColumns(ops: seq<Op>) {
    forall w :: 0 <= w < |ops| && ops[w].Enrich? ==> ops[w].fields.Keys <= COLUMNS
  }

  /** Every committed worker is done, and committed once. */
  predicate CommitsOk(ops: seq<Op>, s: State)
    requires Shaped(ops, s)
  {
    && WorkersOf(ops, s.commits)
    && (forall i :: 0 <= i < |s.commits| ==> s.pcs[s.commits[i].worker] == Done)
    && (forall i, j :: 0 <= i < j < |s.commits| ==> s.commits[i].worker != s.commits[j].worker)
    && (forall w :: 0 <= w < |ops| && s.pcs[w] == Done ==>
          Committed(w, true) in s.commits || Committed(w, false) in s.commits)
    && (forall c :: c in s.commits && !c.onRow ==> ops[c.worker].Enrich?)
  }

  predicate Inv(ops: seq<Op>, s: State) {
    && Shaped(ops, s)
    && FieldsAreColumns(ops)
    && GoodRow(s.row)
    && (s.locked.Some? ==> s.locked.value < |ops|)
    && (s.inserting.Some? ==> s.inserting.value < |ops|)
    && (forall w :: 0 <= w < |ops| ==> WorkerOk(ops, s, w))
    && CommitsOk(ops, s)
    && Replay(ops, s.commits) == s.row
  }

  lemma ReplaySnoc(ops: seq<Op>, commits: seq<Committed>, c: Committed)
    requires WorkersOf(ops, commits) && c.worker < |ops|
    ensures WorkersOf(ops, commits + [c])
    ensures Replay(ops, commits + [c])
         == if c.onRow then Apply(Replay(ops, commits), ops[c.worker]) else Replay(ops, commits)
  {
    assert (commits + [c])[..|commits|] == commits;
  }

  /** Committing worker `w` keeps the commit record honest. */
  lemma FinishKeepsCommits(ops: seq<Op>, s: State, w: nat, row: Option<Row>, onRow: bool)
    requires Shaped(ops, s) && CommitsOk(ops, s) && w < |ops| && s.pcs[w] != Done
    requires !onRow ==> ops[w].Enrich?
    ensures CommitsOk(ops, Finish(s, w, row, onRow))
  {
    var s' := Finish(s, w, row, onRow);
    forall v | 0 <= v < |ops| && s'.pcs[v] == Done
      ensures Committed(v, true) in s'.commits || Committed(v, false) in s'.commits
    {
      if v == w { assert s'.commits[|s.commits|] == Committed(w, onRow); }
      else { assert s.pcs[v] == Done; }
    }
  }

  lemma MoveKeepsCommits(ops: seq<Op>, s: State, s': State, w: nat)
    requires Shaped(ops, s) && CommitsOk(ops, s) && w < |ops| && s.pcs[w] != Done
    requires Shaped(ops, s') && s'.commits == s.commits
    requires s'.pcs[w] != Done && s'.pcs == s.pcs[w := s'.pcs[w]]
    ensures CommitsOk(ops, s')
  {
  }

  lemma ReadKeepsInv(ops: seq<Op>, s: State, w: nat)
    requires Inv(ops, s) && w < |ops| && StepRead(ops, s, w).Some?
    ensures Inv(ops, StepRead(ops, s, w).value)
  {
    var s' := StepRead(ops, s, w).value;
    assert WorkerOk(ops, s, w);
    MoveKeepsCommits(ops, s, s', w);
    forall v | 0 <= v < |ops| ensures WorkerOk(ops, s', v) { assert WorkerOk(ops, s, v); }
  }

  lemma InsertKeepsInv(ops: seq<Op>, s: State, w: nat)
    requires Inv(ops, s) && w < |ops| && StepInsert(ops, s, w).Some?
    ensures Inv(ops, StepInsert(ops, s, w).value)
  {
    var s' := StepInsert(ops, s, w).value;
    MoveKeepsCommits(ops, s, s', w);
    forall v | 0 <= v < |ops| ensures WorkerOk(ops, s', v) { InsertKeepsWorker(ops, s, w, v); }
    InvFromParts(ops, s');
  }

  lemma InsertKeepsWorker(ops: seq<Op>, s: State, w: nat, v: nat)
    requires Shaped(ops, s) && w < |ops| && v < |ops| && WorkerOk(ops, s, w) && WorkerOk(ops, s, v)
    requires StepInsert(ops, s, w).Some?
    ensures WorkerOk(ops, StepInsert(ops, s, w).value, v)
  {
  }

  lemma FaultKeepsWorker(ops: seq<Op>, s: State, w: nat, v: nat)
    requires Shaped(ops, s) && w < |ops| && v < |ops| && WorkerOk(ops, s, w) && WorkerOk(ops, s, v)
    requires StepFault(ops, s, w).Some?
    ensures WorkerOk(ops, StepFault(ops, s, w).value, v)
  {
  }

  lemma FaultKeepsInv(ops: seq<Op>, s: State, w: nat)
    requires Inv(ops, s) && w < |ops| && StepFault(ops, s, w).Some?
    ensures Inv(ops, StepFault(ops, s, w).value)
  {
    var s' := StepFault(ops, s, w).value;
    MoveKeepsCommits(ops, s, s', w);
    forall v | 0 <= v < |ops| ensures WorkerOk(ops, s', v) { FaultKeepsWorker(ops, s, w, v); }
    InvFromParts(ops, s');
  }

  lemma FatalKeepsInv(ops: seq<Op>, s: State, w: nat)
    requires Inv(ops, s) && w < |ops| && StepFatal(s, w).Some?
    ensures Inv(ops, StepFatal(s, w).value)
  {
    var s' := StepFatal(s, w).value;
    assert WorkerOk(ops, s, w);
    MoveKeepsCommits(ops, s, s', w);
    forall v | 0 <= v < |ops| ensures WorkerOk(ops, s', v) { assert WorkerOk(ops, s, v); }
  }

  lemma CommitKeepsWorker(ops: seq<Op>, s: State, w: nat, v: nat)
    requires Shaped(ops, s) && w < |ops| && v < |ops| && WorkerOk(ops, s, w) && WorkerOk(ops, s, v)
    requires StepCommit(ops, s, w).Some?
    ensures WorkerOk(ops, StepCommit(ops, s, w).value, v)
  {
  }

  lemma CommitKeepsRecord(ops: seq<Op>, s: State, w: nat)
    requires Inv(ops, s) && w < |ops| && StepCommit(ops, s, w).Some?
    ensures CommitsOk(ops, StepCommit(ops, s, w).value)
  {
    var s' := StepCommit(ops, s, w).value;
    assert WorkerOk(ops, s, w);
    if s'.pcs[w] != Done {
      MoveKeepsCommits(ops, s, s', w);
    } else {
      FinishKeepsCommits(ops, s, w, s'.row, !s.pcs[w].AuditOnly?);
    }
  }

  lemma CommitReplays(ops: seq<Op>, s: State, w: nat)
    requires Inv(ops, s) && w < |ops| && StepCommit(ops, s, w).Some?
    ensures var s' := StepCommit(ops, s, w).value;
      GoodRow(s'.row) && WorkersOf(ops, s'.commits) && Replay(ops, s'.commits) == s'.row
  {
    assert WorkerOk(ops, s, w);
    var onRow := !s.pcs[w].AuditOnly?;
    ReplaySnoc(ops, s.commits, Committed(w, onRow));
    if ops[w].Occurrence? {
      DeliverKeepsValid(s.row, ops[w].alert, ops[w].tracking);
    } else if onRow {
      StorableExactlyWhen(s.row.value.user, ops[w].fields, ops[w].force);
    }
  }

  lemma CommitShape(ops: seq<Op>, s: State, w: nat)
    requires Shaped(ops, s) && w < |ops| && StepCommit(ops, s, w).Some?
    requires s.locked.Some? ==> s.locked.value < |ops|
    requires s.inserting.Some? ==> s.inserting.value < |ops|
    ensures var s' := StepCommit(ops, s, w).value;
      Shaped(ops, s') && (s'.locked.Some? ==> s'.locked.value < |ops|)
      && (s'.inserting.Some? ==> s'.inserting.value < |ops|)
  {
  }

  lemma CommitKeepsInv(ops: seq<Op>, s: State, w: nat)
    requires Inv(ops, s) && w < |ops| && StepCommit(ops, s, w).Some?
    ensures Inv(ops, StepCommit(ops, s, w).value)
  {
    CommitShape(ops, s, w);
    CommitKeepsRecord(ops, s, w);
    CommitReplays(ops, s, w);
    forall v | 0 <= v < |ops| ensures WorkerOk(ops, StepCommit(ops, s, w).value, v) {
      CommitKeepsWorker(ops, s, w, v);
    }
    InvFromParts(ops, StepCommit(ops, s, w).value);
  }

  lemma InvFromParts(ops: seq<Op>, s: State)
    requires Shaped(ops, s) && FieldsAreColumns(ops) && GoodRow(s.row)
    requires s.locked.Some? ==> s.locked.value < |ops|
    requires s.inserting.Some? ==> s.inserting.value < |ops|
    requires forall w :: 0 <= w < |ops| ==> WorkerOk(ops, s, w)
    requires CommitsOk(ops, s) && Replay(ops, s.commits) == s.row
    ensures Inv(ops, s)
  {
  }

  lemma StepKeepsInv(ops: seq<Op>, s: State, a: Action)
    requires Inv(ops, s) && Step(ops, s, a).Some?
    ensures Inv(ops, Step(ops, s, a).value)
  {
    match a
    case Read(w) => ReadKeepsInv(ops, s, w);
    case Insert(w) => InsertKeepsInv(ops, s, w);
    case Commit(w) => CommitKeepsInv(ops, s, w);
    case Fault(w) => FaultKeepsInv(ops, s, w);
    case Fatal(w) => FatalKeepsInv(ops, s, w);
  }

  lemma InitInv(ops: seq<Op>)
    requires FieldsAreColumns(ops)
    ensures Inv(ops, Init(ops))
  {
  }

  /** Every reachable state of every interleaving satisfies the invariant; so the row is
      always what running the committed operations one at a time, in commit order, gives
      (the enrichments that found no row left out), and no worker meets the uniqueness
      conflict twice, infrastructure errors or not. */
  lemma {:induction false} RunsAreSerial(ops: seq<Op>, s: State, actions: seq<Action>)
    requires Inv(ops, s) && Exec(ops, s, actions).Some?
    ensures Inv(ops, Exec(ops, s, actions).value)
    decreases |actions|
  {
    if actions != [] {
      StepKeepsInv(ops, s, actions[0]);
      RunsAreSerial(ops, Step(ops, s, actions[0]).value, actions[1..]);
    }
  }

  // ---------------------------------------------------------------- what a run guarantees

  /** From the start: no update is lost and each committed operation counts once. */
  lemma RunIsSerial(ops: seq<Op>, actions: seq<Action>)
    requires FieldsAreColumns(ops) && Exec(ops, Init(ops), actions).Some?
    ensures var s := Exec(ops, Init(ops), actions).value;
      && WorkersOf(ops, s.commits) && s.row == Replay(ops, s.commits)
      && (forall i, j :: 0 <= i < j < |s.commits| ==> s.commits[i].worker != s.commits[j].worker)
      && Shaped(ops, s) && (forall w :: 0 <= w < |ops| ==> s.conflicts[w] <= 1)
  {
    InitInv(ops);
    RunsAreSerial(ops, Init(ops), actions);
    var s := Exec(ops, Init(ops), actions).value;
    forall w | 0 <= w < |ops| ensures s.conflicts[w] <= 1 { assert WorkerOk(ops, s, w); }
  }

  predicate FaultFree(actions: seq<Action>) {
    forall a :: a in actions ==> !a.Fault? && !a.Fatal?
  }

  /** In a run without infrastructure errors a worker's attempt number counts its conflicts. */
  predicate WorkerUnfaulted(pc: Pc, conflicts: nat) {
    && pc != Raised
    && (pc.Ready? || pc.SawAbsent? || Committing(pc) ==> pc.attempt == 1 + conflicts)
  }

  predicate Unfaulted(ops: seq<Op>, s: State)
    requires Shaped(ops, s)
  {
    forall w :: 0 <= w < |ops| && ops[w].Occurrence? && CountersSet(ops[w].tracking) ==>
      WorkerUnfaulted(s.pcs[w], s.conflicts[w])
  }

  lemma StepKeepsUnfaulted(ops: seq<Op>, s: State, a: Action)
    requires Shaped(ops, s) && Unfaulted(ops, s) && !a.Fault? && !a.Fatal? && Step(ops, s, a).Some?
    requires WorkerOk(ops, s, a.w)
    ensures Shaped(ops, Step(ops, s, a).value) && Unfaulted(ops, Step(ops, s, a).value)
  {
    match a
    case Read(w) => ReadKeepsUnfaulted(ops, s, w);
    case Insert(w) => InsertKeepsUnfaulted(ops, s, w);
    case Commit(w) => CommitKeepsUnfaulted(ops, s, w);
  }

  lemma ReadKeepsUnfaulted(ops: seq<Op>, s: State, w: nat)
    requires Shaped(ops, s) && Unfaulted(ops, s) && w < |ops| && StepRead(ops, s, w).Some?
    ensures Shaped(ops, StepRead(ops, s, w).value) && Unfaulted(ops, StepRead(ops, s, w).value)
  {
  }

  lemma InsertKeepsUnfaulted(ops: seq<Op>, s: State, w: nat)
    requires Shaped(ops, s) && Unfaulted(ops, s) && w < |ops| && WorkerOk(ops, s, w) && StepInsert(ops, s, w).Some?
    ensures Shaped(ops, StepInsert(ops, s, w).value) && Unfaulted(ops, StepInsert(ops, s, w).value)
  {
  }

  lemma CommitKeepsUnfaulted(ops: seq<Op>, s: State, w: nat)
    requires Shaped(ops, s) && Unfaulted(ops, s) && w < |ops| && StepCommit(ops, s, w).Some?
    ensures Shaped(ops, StepCommit(ops, s, w).value) && Unfaulted(ops, StepCommit(ops, s, w).value)
  {
  }

  lemma {:induction false} FaultFreeRunsNeverRaise(ops: seq<Op>, s: State, actions: seq<Action>)
    requires Inv(ops, s) && Unfaulted(ops, s) && FaultFree(actions) && Exec(ops, s, actions).Some?
    ensures Shaped(ops, Exec(ops, s, actions).value) && Unfaulted(ops, Exec(ops, s, actions).value)
    decreases |actions|
  {
    if actions != [] {
      assert actions[0] in actions;
      StepKeepsInv(ops, s, actions[0]);
      assert WorkerOk(ops, s, actions[0].w);
      StepKeepsUnfaulted(ops, s, actions[0]);
      FaultFreeRunsNeverRaise(ops, Step(ops, s, actions[0]).value, actions[1..]);
    }
  }

  /** Three attempts suffice: without infrastructure errors no `set_last_alert` raises that
      brings no null for a counter. */
  lemma ThreeAttemptsSuffice(ops: seq<Op>, actions: seq<Action>)
    requires FieldsAreColumns(ops) && FaultFree(actions) && Exec(ops, Init(ops), actions).Some?
    ensures var s := Exec(ops, Init(ops), actions).value;
      Shaped(ops, s) && forall w :: 0 <= w < |ops| && ops[w].Occurrence? && CountersSet(ops[w].tracking) ==>
        s.pcs[w] != Raised
  {
    InitInv(ops);
    FaultFreeRunsNeverRaise(ops, Init(ops), actions);
  }

  /** While a worker is unfinished, some worker can take a step without a fault: waiting
      for the row lock or for another insert never becomes a deadlock. */
  lemma NoDeadlock(ops: seq<Op>, s: State, w: nat)
    requires Inv(ops, s) && w < |ops| && s.pcs[w] != Done && s.pcs[w] != Raised
    ensures exists a: Action :: !a.Fault? && !a.Fatal? && Step(ops, s, a).Some?
  {
    assert WorkerOk(ops, s, w);
    if s.locked.Some? {
      assert WorkerOk(ops, s, s.locked.value);
      assert Step(ops, s, Commit(s.locked.value)).Some?;
    } else if s.inserting.Some? {
      assert WorkerOk(ops, s, s.inserting.value);
      assert Step(ops, s, Commit(s.inserting.value)).Some?;
    } else {
      match s.pcs[w]
      case Ready(_) => assert Step(ops, s, Read(w)).Some?;
      case SawAbsent(_) => assert Step(ops, s, Insert(w)).Some?;
      case AuditOnly => assert Step(ops, s, Commit(w)).Some?;
    }
  }

  /** How many more steps a worker can take. */
  function Rank(pc: Pc): int {
    match pc
    case Ready(n) => 4 * (MAX_RETRIES - n) + 3
    case SawAbsent(n) => 4 * (MAX_RETRIES - n) + 2
    case Inserting(n) => 4 * (MAX_RETRIES - n) + 1
    case Holding(n, _) => 4 * (MAX_RETRIES - n) + 1
    case AuditOnly => 1
    case _ => 0
  }

  function TotalRank(pcs: seq<Pc>): int {
    if pcs == [] then 0 else Rank(pcs[0]) + TotalRank(pcs[1..])
  }

  lemma {:induction false} RankOfMove(pcs: seq<Pc>, w: nat, pc: Pc)
    requires w < |pcs|
    ensures TotalRank(pcs[w := pc]) == TotalRank(pcs) - Rank(pcs[w]) + Rank(pc)
  {
    if w == 0 {
      assert pcs[w := pc][1..] == pcs[1..];
    } else {
      assert pcs[w := pc][1..] == pcs[1..][w - 1 := pc];
      RankOfMove(pcs[1..], w - 1, pc);
    }
  }

  lemma {:induction false} RankNonNegative(ops: seq<Op>, s: State, n: nat)
    requires Inv(ops, s) && n <= |ops|
    ensures TotalRank(s.pcs[n..]) >= 0
    decreases |ops| - n
  {
    if n < |ops| {
      assert WorkerOk(ops, s, n);
      assert s.pcs[n..][1..] == s.pcs[n + 1..];
      RankNonNegative(ops, s, n + 1);
    }
  }

  /** A step moves one worker, and down. */
  predicate MovesDown(s: State, s': State, w: nat) {
    w < |s.pcs| == |s'.pcs| && s'.pcs == s.pcs[w := s'.pcs[w]] && Rank(s'.pcs[w]) < Rank(s.pcs[w])
  }

  lemma ReadMovesDown(ops: seq<Op>, s: State, w: nat)
    requires Inv(ops, s) && w < |ops| && StepRead(ops, s, w).Some?
    ensures MovesDown(s, StepRead(ops, s, w).value, w)
  {
    assert WorkerOk(ops, s, w);
  }

  lemma InsertMovesDown(ops: seq<Op>, s: State, w: nat)
    requires Inv(ops, s) && w < |ops| && StepInsert(ops, s, w).Some?
    ensures MovesDown(s, StepInsert(ops, s, w).value, w)
  {
    assert WorkerOk(ops, s, w);
  }

  lemma CommitMovesDown(ops: seq<Op>, s: State, w: nat)
    requires Shaped(ops, s) && w < |ops| && WorkerOk(ops, s, w) && StepCommit(ops, s, w).Some?
    ensures MovesDown(s, StepCommit(ops, s, w).value, w)
  {
  }

  lemma FaultMovesDown(ops: seq<Op>, s: State, w: nat)
    requires Inv(ops, s) && w < |ops| && StepFault(ops, s, w).Some?
    ensures MovesDown(s, StepFault(ops, s, w).value, w)
  {
    assert WorkerOk(ops, s, w);
  }

  lemma FatalMovesDown(ops: seq<Op>, s: State, w: nat)
    requires Inv(ops, s) && w < |ops| && StepFatal(s, w).Some?
    ensures MovesDown(s, StepFatal(s, w).value, w)
  {
    assert WorkerOk(ops, s, w);
  }

  lemma StepMovesDown(ops: seq<Op>, s: State, a: Action)
    requires Inv(ops, s) && Step(ops, s, a).Some?
    ensures MovesDown(s, Step(ops, s, a).value, a.w)
  {
    match a
    case Read(w) => ReadMovesDown(ops, s, w);
    case Insert(w) => InsertMovesDown(ops, s, w);
    case Commit(w) =>
      assert WorkerOk(ops, s, w);
      CommitMovesDown(ops, s, w);
    case Fault(w) => FaultMovesDown(ops, s, w);
    case Fatal(w) => FatalMovesDown(ops, s, w);
  }

  lemma StepLowersRank(ops: seq<Op>, s: State, a: Action)
    requires Inv(ops, s) && Step(ops, s, a).Some?
    ensures TotalRank(Step(ops, s, a).value.pcs) < TotalRank(s.pcs)
  {
    StepMovesDown(ops, s, a);
    LowerRank(s, Step(ops, s, a).value, a.w);
  }

  lemma LowerRank(s: State, s': State, w: nat)
    requires MovesDown(s, s', w)
    ensures TotalRank(s'.pcs) < TotalRank(s.pcs)
  {
    RankOfMove(s.pcs, w, s'.pcs[w]);
  }

  lemma {:induction false} RunsAreFinite(ops: seq<Op>, s: State, actions: seq<Action>)
    requires Inv(ops, s) && Exec(ops, s, actions).Some?
    ensures |actions| <= TotalRank(s.pcs)
    decreases |actions|
  {
    if actions == [] {
      assert s.pcs[0..] == s.pcs;
      RankNonNegative(ops, s, 0);
    } else {
      StepLowersRank(ops, s, actions[0]);
      StepKeepsInv(ops, s, actions[0]);
      RunsAreFinite(ops, Step(ops, s, actions[0]).value, actions[1..]);
    }
  }

  lemma {:induction false} InitialRank(n: nat)
    ensures TotalRank(seq(n, _ => Ready(1))) == 11 * n
  {
    if n > 0 {
      assert seq(n, _ => Ready(1))[1..] == seq(n - 1, _ => Ready(1));
      InitialRank(n - 1);
    }
  }

  /** No interleaving of n workers, faults included, takes more than 11 n steps. */
  lemma EveryRunQuiesces(ops: seq<Op>, actions: seq<Action>)
    requires FieldsAreColumns(ops) && Exec(ops, Init(ops), actions).Some?
    ensures |actions| <= 11 * |ops|
  {
    InitInv(ops);
    RunsAreFinite(ops, Init(ops), actions);
    InitialRank(|ops|);
  }

  // ---------------------------------------------------------------- which occurrence wins

  predicate IsOccurrence(ops: seq<Op>, c: Committed)
    requires c.worker < |ops|
  {
    ops[c.worker].Occurrence? && c.onRow
  }

  function TimeOf(ops: seq<Op>, c: Committed): int
    requires c.worker < |ops| && IsOccurrence(ops, c)
  {
    ops[c.worker].alert.timestamp
  }

  /** Entry `i` is the first committed among the newest occurrences. */
  predicate Newest(ops: seq<Op>, commits: seq<Committed>, i: nat)
    requires WorkersOf(ops, commits)
  {
    && i < |commits| && IsOccurrence(ops, commits[i])
    && (forall j :: 0 <= j < |commits| && IsOccurrence(ops, commits[j]) ==>
          TimeOf(ops, commits[j]) <= TimeOf(ops, commits[i])
          && (j < i ==> TimeOf(ops, commits[j]) < TimeOf(ops, commits[i])))
  }

  /** Entry `f` is the first committed occurrence. */
  predicate First(ops: seq<Op>, commits: seq<Committed>, f: nat)
    requires WorkersOf(ops, commits)
  {
    && f < |commits| && IsOccurrence(ops, commits[f])
    && (forall j :: 0 <= j < f ==> !IsOccurrence(ops, commits[j]))
  }

  predicate PointsAt(r: Row, a: Alert) {
    r.timestamp == a.timestamp && r.alertId == a.id && r.alertHash == a.hash
  }

  /** The row points at the newest occurrence as a whole. */
  predicate NewestStored(ops: seq<Op>, commits: seq<Committed>, r: Row, i: nat, f: nat)
    requires WorkersOf(ops, commits)
  {
    && Newest(ops, commits, i) && PointsAt(r, ops[commits[i].worker].alert)
    && First(ops, commits, f)
    && r.firstTimestamp == TimeOf(ops, commits[f]) <= r.timestamp
  }

  predicate NoOccurrence(ops: seq<Op>, commits: seq<Committed>)
    requires WorkersOf(ops, commits)
  {
    forall j :: 0 <= j < |commits| ==> !IsOccurrence(ops, commits[j])
  }

  /** A commit that is no occurrence leaves the newest where it was. */
  lemma NewestKept(ops: seq<Op>, before: seq<Committed>, c: Committed, r: Row, r': Row, i: nat, f: nat)
    requires WorkersOf(ops, before) && c.worker < |ops| && NewestStored(ops, before, r, i, f)
    requires (r'.timestamp, r'.alertId, r'.alertHash) == (r.timestamp, r.alertId, r.alertHash)
    requires r'.firstTimestamp == r.firstTimestamp
    requires IsOccurrence(ops, c) ==> TimeOf(ops, c) <= r.timestamp
    ensures WorkersOf(ops, before + [c]) && NewestStored(ops, before + [c], r', i, f)
  {
    var all := before + [c];
    forall j | 0 <= j < |all| && IsOccurrence(ops, all[j])
      ensures TimeOf(ops, all[j]) <= TimeOf(ops, all[i]) && (j < i ==> TimeOf(ops, all[j]) < TimeOf(ops, all[i]))
    {
      if j < |before| { assert all[j] == before[j]; }
    }
  }

  /** A newer occurrence takes over, the first one stays first. */
  lemma NewestTaken(ops: seq<Op>, before: seq<Committed>, c: Committed, r: Option<Row>, r': Row, i: nat, f: nat)
    requires WorkersOf(ops, before) && c.worker < |ops| && IsOccurrence(ops, c)
    requires if r.Some? then NewestStored(ops, before, r.value, i, f) && r.value.timestamp < TimeOf(ops, c)
             else NoOccurrence(ops, before)
    requires PointsAt(r', ops[c.worker].alert)
    requires r'.firstTimestamp == if r.Some? then r.value.firstTimestamp else TimeOf(ops, c)
    ensures WorkersOf(ops, before + [c])
    ensures NewestStored(ops, before + [c], r', |before|, if r.Some? then f else |before|)
  {
    var all := before + [c];
    forall j | 0 <= j < |all| && IsOccurrence(ops, all[j])
      ensures TimeOf(ops, all[j]) <= TimeOf(ops, c) && (j < |before| ==> TimeOf(ops, all[j]) < TimeOf(ops, c))
    {
      if j < |before| { assert all[j] == before[j]; }
    }
  }

  /** The row exists once an occurrence committed, and points at the newest one as a
      whole: the timestamp, the alert id and the hash come from the same occurrence, the
      first committed on ties; `first_timestamp` is that of the first committed one. */
  lemma {:induction false} NewestWins(ops: seq<Op>, commits: seq<Committed>) returns (i: nat, f: nat)
    requires WorkersOf(ops, commits)
    ensures Replay(ops, commits).None? <==> NoOccurrence(ops, commits)
    ensures Replay(ops, commits).Some? ==> NewestStored(ops, commits, Replay(ops, commits).value, i, f)
  {
    i, f := 0, 0;
    if commits != [] {
      var n := |commits| - 1;
      var before, c := commits[..n], commits[n];
      i, f := NewestWins(ops, before);
      var r := Replay(ops, before);
      assert commits == before + [c];
      if IsOccurrence(ops, c) && (r.None? || r.value.timestamp < TimeOf(ops, c)) {
        NewestTaken(ops, before, c, r, Replay(ops, commits).value, i, f);
        if r.None? { f := n; }
        i := n;
      } else if r.Some? {
        NewestKept(ops, before, c, r.value, Replay(ops, commits).value, i, f);
      }
    }
  }

  // ---------------------------------------------------------------- enrichments that found no row

  /** An enrichment that found no row commits after some operation that worked on one. */
  predicate Late(commits: seq<Committed>) {
    exists i, j :: 0 <= i < j < |commits| && commits[i].onRow && !commits[j].onRow
  }

  lemma {:induction false} NothingOnRow(ops: seq<Op>, commits: seq<Committed>)
    requires WorkersOf(ops, commits) && forall c :: c in commits ==> !c.onRow && ops[c.worker].Enrich?
    ensures ReplayAll(ops, commits) == None == Replay(ops, commits)
  {
    if commits != [] {
      assert commits[|commits| - 1] in commits;
      NothingOnRow(ops, commits[..|commits| - 1]);
    }
  }

  /** Without late enrichments every committed operation counts: the row is what all of
      them, one at a time in commit order, give. */
  lemma {:induction false} TimelyRunsCountEverything(ops: seq<Op>, commits: seq<Committed>)
    requires WorkersOf(ops, commits) && !Late(commits)
    requires forall c :: c in commits && !c.onRow ==> ops[c.worker].Enrich?
    ensures ReplayAll(ops, commits) == Replay(ops, commits)
  {
    if commits != [] {
      var n := |commits| - 1;
      var before := commits[..n];
      assert forall j :: 0 <= j < n ==> before[j] == commits[j];
      TimelyRunsCountEverything(ops, before);
      assert forall i :: 0 <= i < n && commits[i].onRow ==> commits[n].onRow;
      if !commits[n].onRow {
        forall c | c in commits ensures !c.onRow {
          var i :| 0 <= i < |commits| && commits[i] == c;
        }
        NothingOnRow(ops, before);
        NothingOnRow(ops, commits);
      }
    }
  }

  lemma ApplyChangesExactlyWhen(r: Row, e: Dict, force: bool)
    requires ValidRow(r) && Storable(r.user) && e.Keys <= COLUMNS
    ensures Apply(Some(r), Enrich(e, force)) != Some(r) <==> !NothingToWrite(r.user, e, force)
  {
    WriteChangesExactlyWhen(r.user, e, force);
  }

  /** A late enrichment is lost, its commit parting the row from the full serial run, exactly
      when a row had been inserted and the enrichment had something to write on it. */
  lemma LateEnrichmentLostExactlyWhen(ops: seq<Op>, s: State, w: nat)
    requires Inv(ops, s) && w < |ops| && ops[w].Enrich? && s.pcs[w].AuditOnly?
    requires ReplayAll(ops, s.commits) == s.row
    ensures var s' := StepCommit(ops, s, w).value;
      WorkersOf(ops, s'.commits)
      && (ReplayAll(ops, s'.commits) != s'.row <==>
            s.row.Some? && !NothingToWrite(s.row.value.user, ops[w].fields, ops[w].force))
  {
    var s' := StepCommit(ops, s, w).value;
    assert WorkerOk(ops, s, w);
    assert s'.commits[..|s.commits|] == s.commits;
    if s.row.Some? { ApplyChangesExactlyWhen(s.row.value, ops[w].fields, ops[w].force); }
  }

  lemma ExecCons(ops: seq<Op>, s: State, a: Action, s': State, rest: seq<Action>)
    requires Shaped(ops, s) && Shaped(ops, s') && Step(ops, s, a) == Some(s')
    ensures Exec(ops, s, [a] + rest) == Exec(ops, s', rest)
  {
    assert ([a] + rest)[1..] == rest;
  }

  /** A state of a race between a first occurrence and an enrichment that reads before it
      inserts and commits after it: where the two are, and how many have committed. */
  function RaceAt(ops: seq<Op>, first: Pc, second: Pc, done: nat): State
    requires |ops| == 2 && ops[0].Occurrence?
  {
    State(if done == 0 then None else Deliver(None, ops[0].alert, ops[0].tracking), None,
          if first.Inserting? then Some(0) else None, [first, second], [0, 0],
          if done == 0 then [] else if done == 1 then [Committed(0, true)]
          else [Committed(0, true), Committed(1, false)])
  }

  /** A first occurrence that is not refused, and an enrichment. */
  predicate RaceOps(ops: seq<Op>) {
    |ops| == 2 && ops[0].Occurrence? && ops[1].Enrich? && CountersSet(ops[0].tracking)
  }

  lemma RaceReads(ops: seq<Op>)
    requires RaceOps(ops)
    ensures Init(ops) == RaceAt(ops, Ready(1), Ready(1), 0)
    ensures Step(ops, RaceAt(ops, Ready(1), Ready(1), 0), Read(1)) == Some(RaceAt(ops, Ready(1), AuditOnly, 0))
    ensures Step(ops, RaceAt(ops, Ready(1), AuditOnly, 0), Read(0)) == Some(RaceAt(ops, SawAbsent(1), AuditOnly, 0))
  {
    assert Init(ops).pcs == [Ready(1), Ready(1)] && Init(ops).conflicts == [0, 0];
    assert [Ready(1), Ready(1)][1 := AuditOnly] == [Ready(1), AuditOnly];
    assert [Ready(1), AuditOnly][0 := SawAbsent(1)] == [SawAbsent(1), AuditOnly];
  }

  lemma RaceInserts(ops: seq<Op>)
    requires RaceOps(ops)
    ensures Step(ops, RaceAt(ops, SawAbsent(1), AuditOnly, 0), Insert(0))
         == Some(RaceAt(ops, Inserting(1), AuditOnly, 0))
  {
    assert [SawAbsent(1), AuditOnly][0 := Inserting(1)] == [Inserting(1), AuditOnly];
  }

  lemma RaceCreates(ops: seq<Op>)
    requires RaceOps(ops)
    ensures Step(ops, RaceAt(ops, Inserting(1), AuditOnly, 0), Commit(0)) == Some(RaceAt(ops, Done, AuditOnly, 1))
  {
    var s, row := RaceAt(ops, Inserting(1), AuditOnly, 0), Deliver(None, ops[0].alert, ops[0].tracking);
    assert s.pcs[0] == Inserting(1) && StepCommit(ops, s, 0) == Some(Finish(s, 0, row, true));
    RaceFinishes(s, row);
  }

  lemma RaceFinishes(s: State, row: Option<Row>)
    requires s.pcs == [Inserting(1), AuditOnly] && s.locked == None && s.inserting == Some(0) && s.commits == []
    ensures Finish(s, 0, row, true)
         == State(row, None, None, [Done, AuditOnly], s.conflicts, [Committed(0, true)])
  {
    assert [Inserting(1), AuditOnly][0 := Done] == [Done, AuditOnly];
    assert [] + [Committed(0, true)] == [Committed(0, true)];
  }

  lemma RaceAudits(ops: seq<Op>)
    requires RaceOps(ops)
    ensures Step(ops, RaceAt(ops, Done, AuditOnly, 1), Commit(1)) == Some(RaceAt(ops, Done, Done, 2))
  {
    assert [Done, AuditOnly][1 := Done] == [Done, Done];
    assert [Committed(0, true)] + [Committed(1, false)] == [Committed(0, true), Committed(1, false)];
  }

  const RACE_COMMITS: seq<Action> := [Insert(0)] + ([Commit(0)] + ([Commit(1)] + []))

  const RACE: seq<Action> := [Read(1)] + ([Read(0)] + RACE_COMMITS)

  lemma RaceCommits(ops: seq<Op>)
    requires RaceOps(ops)
    ensures Exec(ops, RaceAt(ops, SawAbsent(1), AuditOnly, 0), RACE_COMMITS) == Some(RaceAt(ops, Done, Done, 2))
  {
    RaceInserts(ops);
    RaceCreates(ops);
    RaceAudits(ops);
    var last := [Commit(1)] + [];
    ExecCons(ops, RaceAt(ops, Done, AuditOnly, 1), Commit(1), RaceAt(ops, Done, Done, 2), []);
    ExecCons(ops, RaceAt(ops, Inserting(1), AuditOnly, 0), Commit(0), RaceAt(ops, Done, AuditOnly, 1), last);
    ExecCons(ops, RaceAt(ops, SawAbsent(1), AuditOnly, 0), Insert(0), RaceAt(ops, Inserting(1), AuditOnly, 0),
             [Commit(0)] + last);
  }

  lemma RaceRuns(ops: seq<Op>)
    requires RaceOps(ops)
    ensures Exec(ops, Init(ops), RACE) == Some(RaceAt(ops, Done, Done, 2))
  {
    RaceReads(ops);
    RaceCommits(ops);
    ExecCons(ops, RaceAt(ops, Ready(1), AuditOnly, 0), Read(0), RaceAt(ops, SawAbsent(1), AuditOnly, 0), RACE_COMMITS);
    ExecCons(ops, RaceAt(ops, Ready(1), Ready(1), 0), Read(1), RaceAt(ops, Ready(1), AuditOnly, 0),
             [Read(0)] + RACE_COMMITS);
  }

  /** It happens to every first occurrence and every enrichment: in this interleaving both
      commit, the enrichment second, the row is as the occurrence alone left it, and the
      enrichment is lost exactly when it had something to write on a new row. */
  lemma EveryEnrichmentCanBeLate(ops: seq<Op>)
    requires RaceOps(ops) && FieldsAreColumns(ops)
    ensures var run := Exec(ops, Init(ops), RACE);
      && run.Some? && run.value.pcs == [Done, Done] && run.value.commits == [Committed(0, true), Committed(1, false)]
      && run.value.row == Deliver(None, ops[0].alert, ops[0].tracking)
      && (ReplayAll(ops, run.value.commits) != run.value.row <==>
            !NothingToWrite(NO_ENRICHMENT, ops[1].fields, ops[1].force))
  {
    RaceRuns(ops);
    RaceReplays(ops);
    NewRowIsStorable();
    ApplyChangesExactlyWhen(NewRow(ops[0].alert, ops[0].tracking), ops[1].fields, ops[1].force);
  }

  lemma RaceReplays(ops: seq<Op>)
    requires |ops| == 2 && ops[0].Occurrence?
    ensures ReplayAll(ops, [Committed(0, true), Committed(1, false)])
         == Apply(Some(NewRow(ops[0].alert, ops[0].tracking)), ops[1])
  {
    var commits := [Committed(0, true), Committed(1, false)];
    assert commits[..1] == [Committed(0, true)] && commits[..1][..0] == [];
    assert ReplayAll(ops, commits[..1]) == Some(NewRow(ops[0].alert, ops[0].tracking));
  }
}
