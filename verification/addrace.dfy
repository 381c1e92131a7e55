/** Calls to add racing on one incident.

    A call reads which fingerprints are linked, inserts the others and commits; then it loads
    the stored names, and writes them back united with those of its own alerts, together with
    a count that the database takes at that moment.  Each step is one database round trip of
    one worker, and any interleaving of steps is a run. */
module AddRace {
  import opened Values
  import opened Ledger
  import opened LedgerLaws

  datatype Pc =
    | Ready(attempt: nat)                          // about to read what is linked
    | Chosen(attempt: nat, fps: set<string>)       // about to insert and commit these links
    | Owing                                        // links committed, names not loaded
    | Holding(sources: set<string>, services: set<string>)  // holds the stored names it loaded
    | Done
    | Raised                                       // before committing anything
    | Torn                                         // between the two commits

  /** The two accesses to the stored names, in the order the database saw them. */
  datatype Event = Load(w: nat) | Update(w: nat)

  /** The incident's live fingerprints and stored aggregates; where each worker is and what it
      linked; and the log. */
  datatype State = State(live: set<string>, count: nat, sources: set<string>, services: set<string>,
                         pcs: seq<Pc>, added: seq<set<string>>, log: seq<Event>)

  datatype Action = DoChoose(w: nat) | DoLink(w: nat) | DoLoad(w: nat) | DoUpdate(w: nat)

  /** The incident before the race, in step, with one worker for each set to be added. */
  function Init(w: World, live: set<string>, asked: seq<set<string>>): State {
    State(live, |live|, SourcesOf(w, live), ServicesOf(w, live),
          seq(|asked|, _ => Ready(1)), seq(|asked|, _ => {}), [])
  }

  function At(s: State, k: nat, pc: Pc): State
    requires k < |s.pcs|
  {
    s.(pcs := s.pcs[k := pc])
  }

  function Again(attempt: nat): Pc {
    if attempt < ADD_TRIES then Ready(attempt + 1) else Raised
  }

  /** The step of worker `k`; links another worker committed meanwhile, or a fingerprint
      without a row, turn the insert away. */
  function Step(w: World, asked: seq<set<string>>, s: State, a: Action): Option<State>
    requires |asked| == |s.pcs| == |s.added|
  {
    if a.w >= |asked| then None
    else match (a, s.pcs[a.w])
      case (DoChoose(k), Ready(n)) =>
        var fps := asked[k] - s.live;
        Some(At(s, k, if fps == {} then Done else Chosen(n, fps)))
      case (DoLink(k), Chosen(n, fps)) =>
        if fps * s.live != {} || !(fps <= w.latest.Keys) then Some(At(s, k, Again(n)))
        else Some(At(s, k, Owing).(live := s.live + fps, added := s.added[k := fps]))
      case (DoLoad(k), Owing) =>
        if !Readable(w, s.added[k]) then Some(At(s, k, Torn))
        else Some(At(s, k, Holding(s.sources, s.services)).(log := s.log + [Load(k)]))
      case (DoUpdate(k), Holding(sources, services)) =>
        Some(At(s, k, Done).(count := |s.live|, sources := sources + SourcesOf(w, s.added[k]),
                             services := services + ServicesOf(w, s.added[k]), log := s.log + [Update(k)]))
      case _ => None
  }

  function Exec(w: World, asked: seq<set<string>>, s: State, actions: seq<Action>): (r: Option<State>)
    requires |asked| == |s.pcs| == |s.added|
    decreases |actions|
  {
    if actions == [] then Some(s)
    else
      var next := Step(w, asked, s, actions[0]);
      if next.None? then None else Exec(w, asked, next.value, actions[1..])
  }

  // ---------------------------------------------------------------- whose names the incident carries

  /** The log up to where worker `k` last loaded. */
  function BeforeLoad(log: seq<Event>, k: nat): (r: seq<Event>)
    ensures |r| <= |log|
  {
    if log == [] then []
    else
      var n := |log| - 1;
      if log[n] == Load(k) then log[..n] else BeforeLoad(log[..n], k)
  }

  /** The workers whose names survive: the last to update and, of those before it, the ones
      that survived in what it had loaded. */
  function Kept(log: seq<Event>): set<nat>
    decreases |log|
  {
    if log == [] then {}
    else
      var n := |log| - 1;
      match log[n]
      case Load(_) => Kept(log[..n])
      case Update(k) => {k} + Kept(BeforeLoad(log[..n], k))
  }

  function Updaters(log: seq<Event>): set<nat> {
    set e | e in log && e.Update? :: e.w
  }

  /** No worker updates twice. */
  predicate OnceEach(log: seq<Event>) {
    forall j :: 0 <= j < |log| && log[j].Update? ==> log[j].w !in Updaters(log[..j])
  }

  /** The fingerprints some workers linked. */
  function Of(added: seq<set<string>>, ws: set<nat>): set<string> {
    set k, f | k in ws && k < |added| && f in added[k] :: f
  }

  /** All the fingerprints linked. */
  function AllOf(added: seq<set<string>>): set<string> {
    set fps, f | fps in added && f in fps :: f
  }

  predicate Between(pc: Pc) {
    pc.Owing? || pc.Holding? || pc.Torn?
  }

  // ---------------------------------------------------------------- invariant

  predicate WorkerOk(w: World, base: set<string>, s: State, k: nat)
    requires k < |s.pcs| == |s.added|
  {
    match s.pcs[k]
    case Holding(sources, services) =>
      var kept := Of(s.added, Kept(BeforeLoad(s.log, k)));
      sources == SourcesOf(w, base + kept) && services == ServicesOf(w, base + kept)
    case Done => s.added[k] == {} || k in Updaters(s.log)
    case Torn => true
    case Owing => true
    case _ => s.added[k] == {}
  }

  predicate LogOk(s: State) {
    && OnceEach(s.log)
    && forall e :: e in s.log ==>
         e.w < |s.pcs| && (s.pcs[e.w] == Done || (s.pcs[e.w].Holding? && e.Load?))
  }

  predicate Shaped(asked: seq<set<string>>, s: State) {
    |asked| == |s.pcs| == |s.added|
  }

  predicate NamesKept(w: World, base: set<string>, s: State) {
    var kept := base + Of(s.added, Kept(s.log));
    s.sources == SourcesOf(w, kept) && s.services == ServicesOf(w, kept)
  }

  /** The count is right or some worker is between its two commits. */
  predicate CountOwed(s: State) {
    s.count == |s.live| || exists k :: 0 <= k < |s.pcs| && Between(s.pcs[k])
  }

  predicate Inv(w: World, base: set<string>, asked: seq<set<string>>, s: State) {
    && Shaped(asked, s) && LogOk(s) && CountOwed(s) && NamesKept(w, base, s)
    && s.live == base + AllOf(s.added)
    && forall k :: 0 <= k < |asked| ==> WorkerOk(w, base, s, k)
  }

  // ---------------------------------------------------------------- steps keep it

  lemma {:induction false} BeforeLoadWithin(log: seq<Event>, k: nat, e: Event)
    requires e in BeforeLoad(log, k)
    ensures e in log
  {
    var n := |log| - 1;
    if log[n] != Load(k) { BeforeLoadWithin(log[..n], k, e); }
  }

  /** Only workers that updated survive. */
  lemma {:induction false} KeptUpdated(log: seq<Event>, k: nat)
    requires k in Kept(log)
    ensures Update(k) in log
    decreases |log|
  {
    var n := |log| - 1;
    match log[n]
    case Load(_) => KeptUpdated(log[..n], k);
    case Update(u) =>
      if k != u {
        KeptUpdated(BeforeLoad(log[..n], u), k);
        BeforeLoadWithin(log[..n], u, Update(k));
      }
  }

  lemma BeforeLoadSnoc(log: seq<Event>, e: Event, k: nat)
    ensures BeforeLoad(log + [e], k) == if e == Load(k) then log else BeforeLoad(log, k)
    ensures Kept(log + [e]) == if e.Load? then Kept(log) else {e.w} + Kept(BeforeLoad(log, e.w))
    ensures Updaters(log + [e]) == Updaters(log) + if e.Update? then {e.w} else {}
  {
    assert (log + [e])[..|log|] == log;
  }

  lemma OnceSnoc(log: seq<Event>, e: Event)
    requires OnceEach(log) && (e.Update? ==> e.w !in Updaters(log))
    ensures OnceEach(log + [e])
  {
    var all := log + [e];
    assert all[..|log|] == log;
    assert forall j :: 0 <= j < |log| ==> all[j] == log[j] && all[..j] == log[..j];
  }

  /** Linking is new to a worker that is not in the log yet, so what survives stays. */
  lemma KeptUntouched(s: State, k: nat, fps: set<string>, log: seq<Event>)
    requires k < |s.added| && forall e :: e in log ==> e.w != k
    ensures Of(s.added[k := fps], Kept(log)) == Of(s.added, Kept(log))
  {
    forall v | v in Kept(log) ensures v != k { KeptUpdated(log, v); }
    assert forall v :: v in Kept(log) && v < |s.added| ==> s.added[k := fps][v] == s.added[v];
  }

  lemma OfOneMore(added: seq<set<string>>, k: nat, fps: set<string>)
    requires k < |added| && added[k] == {}
    ensures AllOf(added[k := fps]) == AllOf(added) + fps
  {
    var after := added[k := fps];
    assert after[k] in after;
    forall f | f in AllOf(added) ensures f in AllOf(after) {
      var v :| 0 <= v < |added| && f in added[v];
      assert after[v] in after && f in after[v];
    }
  }

  lemma OfWith(added: seq<set<string>>, k: nat, ws: set<nat>)
    requires k < |added|
    ensures Of(added, {k} + ws) == Of(added, ws) + added[k]
  {
    forall f | f in added[k] ensures f in Of(added, {k} + ws) { assert k in {k} + ws; }
    forall f | f in Of(added, ws) ensures f in Of(added, {k} + ws) {
      var v :| v in ws && v < |added| && f in added[v];
      assert v in {k} + ws;
    }
  }

  lemma ChooseKeepsInv(w: World, base: set<string>, asked: seq<set<string>>, s: State, k: nat)
    requires Inv(w, base, asked, s) && k < |asked| && s.pcs[k].Ready?
    ensures Inv(w, base, asked, Step(w, asked, s, DoChoose(k)).value)
  {
    var s' := Step(w, asked, s, DoChoose(k)).value;
    assert WorkerOk(w, base, s, k);
    forall v | 0 <= v < |asked| ensures WorkerOk(w, base, s', v) { assert WorkerOk(w, base, s, v); }
    OwedStill(s, s', k);
  }

  /** A step that leaves the live set and the count alone and takes no worker out from between
      its commits. */
  lemma OwedStill(s: State, s': State, k: nat)
    requires CountOwed(s) && k < |s.pcs| == |s'.pcs| && s'.pcs == s.pcs[k := s'.pcs[k]]
    requires s'.live == s.live && s'.count == s.count && (Between(s.pcs[k]) ==> Between(s'.pcs[k]))
    ensures CountOwed(s')
  {
    if s.count != |s.live| {
      var v :| 0 <= v < |s.pcs| && Between(s.pcs[v]);
      assert Between(s'.pcs[v]);
    }
  }

  lemma LinkKeepsWorker(w: World, base: set<string>, s: State, k: nat, fps: set<string>, v: nat)
    requires k < |s.pcs| == |s.added| && v < |s.pcs| && WorkerOk(w, base, s, v) && LogOk(s)
    requires !s.pcs[k].Holding? && s.pcs[k] != Done
    ensures WorkerOk(w, base, At(s, k, Owing).(live := s.live + fps, added := s.added[k := fps]), v)
  {
    forall e | e in BeforeLoad(s.log, v) ensures e.w != k { BeforeLoadWithin(s.log, v, e); }
    KeptUntouched(s, k, fps, BeforeLoad(s.log, v));
  }

  lemma LinkedKeepsInv(w: World, base: set<string>, asked: seq<set<string>>, s: State, k: nat, fps: set<string>)
    requires Inv(w, base, asked, s) && k < |asked| && s.pcs[k].Chosen? && fps * s.live == {}
    ensures Inv(w, base, asked, At(s, k, Owing).(live := s.live + fps, added := s.added[k := fps]))
  {
    var s' := At(s, k, Owing).(live := s.live + fps, added := s.added[k := fps]);
    assert WorkerOk(w, base, s, k);
    OfOneMore(s.added, k, fps);
    KeptUntouched(s, k, fps, s.log);
    assert Between(s'.pcs[k]);
    assert base + (AllOf(s.added) + fps) == s.live + fps;
    forall v | 0 <= v < |asked| ensures WorkerOk(w, base, s', v) {
      assert WorkerOk(w, base, s, v);
      LinkKeepsWorker(w, base, s, k, fps, v);
    }
  }

  lemma LinkKeepsInv(w: World, base: set<string>, asked: seq<set<string>>, s: State, k: nat)
    requires Inv(w, base, asked, s) && k < |asked| && s.pcs[k].Chosen?
    ensures Inv(w, base, asked, Step(w, asked, s, DoLink(k)).value)
  {
    var s' := Step(w, asked, s, DoLink(k)).value;
    if s'.pcs[k] == Owing {
      LinkedKeepsInv(w, base, asked, s, k, s.pcs[k].fps);
    } else {
      assert WorkerOk(w, base, s, k);
      OwedStill(s, s', k);
      forall v | 0 <= v < |asked| ensures WorkerOk(w, base, s', v) { assert WorkerOk(w, base, s, v); }
    }
  }

  lemma LoadKeepsInv(w: World, base: set<string>, asked: seq<set<string>>, s: State, k: nat)
    requires Inv(w, base, asked, s) && k < |asked| && s.pcs[k].Owing?
    ensures Inv(w, base, asked, Step(w, asked, s, DoLoad(k)).value)
  {
    var s' := Step(w, asked, s, DoLoad(k)).value;
    OwedStill(s, s', k);
    forall v | 0 <= v < |asked| ensures WorkerOk(w, base, s', v) {
      assert WorkerOk(w, base, s, v);
      BeforeLoadSnoc(s.log, Load(k), v);
    }
    BeforeLoadSnoc(s.log, Load(k), k);
    OnceSnoc(s.log, Load(k));
  }

  lemma UpdateKeepsInv(w: World, base: set<string>, asked: seq<set<string>>, s: State, k: nat)
    requires Inv(w, base, asked, s) && k < |asked| && s.pcs[k].Holding?
    ensures Inv(w, base, asked, Step(w, asked, s, DoUpdate(k)).value)
  {
    var s' := Step(w, asked, s, DoUpdate(k)).value;
    assert WorkerOk(w, base, s, k);
    forall v | 0 <= v < |asked| ensures WorkerOk(w, base, s', v) {
      assert WorkerOk(w, base, s, v);
      BeforeLoadSnoc(s.log, Update(k), v);
    }
    OnceSnoc(s.log, Update(k));
    UpdateKeepsNames(w, base, s, k);
    assert NamesKept(w, base, s');
  }

  /** Writing back what was loaded, with the worker's own names. */
  lemma UpdateKeepsNames(w: World, base: set<string>, s: State, k: nat)
    requires k < |s.pcs| == |s.added| && s.pcs[k].Holding? && WorkerOk(w, base, s, k)
    ensures var kept := base + Of(s.added, Kept(s.log + [Update(k)]));
      && s.pcs[k].sources + SourcesOf(w, s.added[k]) == SourcesOf(w, kept)
      && s.pcs[k].services + ServicesOf(w, s.added[k]) == ServicesOf(w, kept)
  {
    BeforeLoadSnoc(s.log, Update(k), k);
    var kept := Kept(BeforeLoad(s.log, k));
    OfWith(s.added, k, kept);
    assert base + Of(s.added, {k} + kept) == (base + Of(s.added, kept)) + s.added[k];
    NamesOfUnion(w, base + Of(s.added, kept), s.added[k]);
  }

  lemma StepKeepsInv(w: World, base: set<string>, asked: seq<set<string>>, s: State, a: Action)
    requires Inv(w, base, asked, s) && Step(w, asked, s, a).Some?
    ensures Inv(w, base, asked, Step(w, asked, s, a).value)
  {
    match a
    case DoChoose(k) => ChooseKeepsInv(w, base, asked, s, k);
    case DoLink(k) => LinkKeepsInv(w, base, asked, s, k);
    case DoLoad(k) => LoadKeepsInv(w, base, asked, s, k);
    case DoUpdate(k) => UpdateKeepsInv(w, base, asked, s, k);
  }

  lemma InitInv(w: World, base: set<string>, asked: seq<set<string>>)
    ensures Inv(w, base, asked, Init(w, base, asked))
  {
    var s := Init(w, base, asked);
    assert forall fps :: fps in s.added ==> fps == {};
    assert AllOf(s.added) == {};
    assert base + AllOf(s.added) == base && base + Of(s.added, {}) == base;
  }

  lemma {:induction false} RunKeepsInv(w: World, base: set<string>, asked: seq<set<string>>, s: State,
                                       actions: seq<Action>)
    requires Inv(w, base, asked, s) && Exec(w, asked, s, actions).Some?
    ensures Inv(w, base, asked, Exec(w, asked, s, actions).value)
    decreases |actions|
  {
    if actions != [] {
      StepKeepsInv(w, base, asked, s, actions[0]);
      RunKeepsInv(w, base, asked, Step(w, asked, s, actions[0]).value, actions[1..]);
    }
  }

  // ---------------------------------------------------------------- what a race leaves

  /** In every interleaving the cached count is right whenever no worker is between its two
      commits, and the stored names are those of the start and of the workers that survive in
      the log, never any other. */
  lemma RaceLeaves(w: World, base: set<string>, asked: seq<set<string>>, actions: seq<Action>)
    requires Exec(w, asked, Init(w, base, asked), actions).Some?
    ensures var s := Exec(w, asked, Init(w, base, asked), actions).value;
      && (s.count == |s.live| || exists k :: 0 <= k < |s.pcs| && Between(s.pcs[k]))
      && s.live == base + AllOf(s.added)
      && s.sources == SourcesOf(w, base + Of(s.added, Kept(s.log)))
      && s.services == ServicesOf(w, base + Of(s.added, Kept(s.log)))
  {
    InitInv(w, base, asked);
    RunKeepsInv(w, base, asked, Init(w, base, asked), actions);
  }

  predicate AtRest(s: State) {
    forall k :: 0 <= k < |s.pcs| ==> !Between(s.pcs[k])
  }

  /** At rest the stored names are exact exactly when every worker that updated and does not
      survive brought only names the start or a survivor carries too. */
  lemma NamesExactExactlyWhen(w: World, base: set<string>, asked: seq<set<string>>, s: State)
    requires Inv(w, base, asked, s) && AtRest(s)
    ensures var kept := base + Of(s.added, Kept(s.log));
      && (s.sources == SourcesOf(w, s.live) <==>
            forall k :: k in Updaters(s.log) - Kept(s.log) ==>
              k < |s.added| && SourcesOf(w, s.added[k]) <= SourcesOf(w, kept))
      && (s.services == ServicesOf(w, s.live) <==>
            forall k :: k in Updaters(s.log) - Kept(s.log) ==>
              k < |s.added| && ServicesOf(w, s.added[k]) <= ServicesOf(w, kept))
  {
    LiveIsUpdaters(w, base, asked, s);
    var all, kept := Updaters(s.log), Kept(s.log);
    forall k | k in kept ensures k in all { KeptUpdated(s.log, k); }
    forall k | k in all ensures k < |s.added| && Of(s.added, {k}) == s.added[k] {
      var e :| e in s.log && e.Update? && e.w == k;
      OfWith(s.added, k, {});
    }
    forall k | k in all
      ensures SourcesOf(w, s.added[k]) <= SourcesOf(w, s.live) && ServicesOf(w, s.added[k]) <= ServicesOf(w, s.live)
    {
      assert forall f :: f in s.added[k] ==> f in Of(s.added, all);
    }
    forall f | f in Of(s.added, all) && f !in Of(s.added, kept)
      ensures exists k :: k in all - kept && f in s.added[k]
    {
      var k :| k in all && k < |s.added| && f in s.added[k];
      assert k !in kept;
    }
  }

  lemma LiveIsUpdaters(w: World, base: set<string>, asked: seq<set<string>>, s: State)
    requires Inv(w, base, asked, s) && AtRest(s)
    ensures s.live == base + Of(s.added, Updaters(s.log))
  {
    forall f | f in AllOf(s.added) ensures f in Of(s.added, Updaters(s.log)) {
      var k :| 0 <= k < |s.added| && f in s.added[k];
      assert WorkerOk(w, base, s, k) && !Between(s.pcs[k]);
      assert k in Updaters(s.log);
    }
    forall f | f in Of(s.added, Updaters(s.log)) ensures f in AllOf(s.added) {
      var k :| k in Updaters(s.log) && k < |s.added| && f in s.added[k];
      assert s.added[k] in s.added;
    }
  }

  // ---------------------------------------------------------------- when nobody is lost

  /** No update falls between a worker's load and its own update. */
  predicate NoOverlap(log: seq<Event>) {
    forall j :: 0 <= j < |log| && log[j].Update? ==> Updaters(log[..j]) <= Updaters(BeforeLoad(log[..j], log[j].w))
  }

  lemma {:induction false} BeforeLoadIsPrefix(log: seq<Event>, k: nat)
    ensures BeforeLoad(log, k) <= log
  {
    if log != [] && log[|log| - 1] != Load(k) { BeforeLoadIsPrefix(log[..|log| - 1], k); }
  }

  lemma PrefixOfLog(log: seq<Event>, p: seq<Event>)
    requires p <= log
    ensures OnceEach(log) ==> OnceEach(p)
    ensures NoOverlap(log) ==> NoOverlap(p)
    ensures Updaters(p) <= Updaters(log)
  {
    assert forall j :: 0 <= j < |p| ==> p[j] == log[j] && p[..j] == log[..j];
  }

  lemma OverlapSnoc(log: seq<Event>, e: Event)
    ensures NoOverlap(log + [e]) <==>
            NoOverlap(log) && (e.Update? ==> Updaters(log) <= Updaters(BeforeLoad(log, e.w)))
  {
    var all := log + [e];
    assert all[..|log|] == log;
    assert forall j :: 0 <= j < |log| ==> all[j] == log[j] && all[..j] == log[..j];
  }

  /** A loaded prefix that holds all earlier updates overlaps nowhere exactly when the log
      before the update does not. */
  lemma SurvivorsOfUpdate(before: seq<Event>, seen: seq<Event>, k: nat)
    requires seen <= before && OnceEach(before) && k !in Updaters(before)
    requires Kept(seen) == Updaters(seen) <==> NoOverlap(seen)
    ensures {k} + Kept(seen) == Updaters(before) + {k} <==> NoOverlap(before) && Updaters(before) <= Updaters(seen)
  {
    PrefixOfLog(before, seen);
    forall v | v in Kept(seen) ensures v in Updaters(seen) { KeptUpdated(seen, v); }
    if Updaters(before) <= Updaters(seen) {
      forall j | |seen| <= j < |before| ensures !before[j].Update? {
        if before[j].Update? { LaterIsNew(before, seen, j); }
      }
      LoadsOnly(before, seen);
    }
  }

  lemma LaterIsNew(log: seq<Event>, seen: seq<Event>, j: nat)
    requires OnceEach(log) && seen <= log && |seen| <= j < |log| && log[j].Update?
    ensures log[j].w in Updaters(log) && log[j].w !in Updaters(seen)
  {
    assert seen <= log[..j];
    PrefixOfLog(log[..j], seen);
    assert log[j] in log;
  }

  lemma LoadsOnly(log: seq<Event>, seen: seq<Event>)
    requires seen <= log && forall j :: |seen| <= j < |log| ==> !log[j].Update?
    ensures NoOverlap(log) <==> NoOverlap(seen)
  {
    assert forall j :: 0 <= j < |seen| ==> log[j] == seen[j] && log[..j] == seen[..j];
  }

  lemma SurviveLoad(before: seq<Event>, e: Event)
    requires e.Load? && (Kept(before) == Updaters(before) <==> NoOverlap(before))
    ensures var log := before + [e]; Kept(log) == Updaters(log) <==> NoOverlap(log)
  {
    BeforeLoadSnoc(before, e, e.w);
    OverlapSnoc(before, e);
    assert Updaters(before) + {} == Updaters(before);
  }

  lemma SurviveUpdate(before: seq<Event>, k: nat)
    requires OnceEach(before) && k !in Updaters(before)
    requires var seen := BeforeLoad(before, k); Kept(seen) == Updaters(seen) <==> NoOverlap(seen)
    ensures var log := before + [Update(k)]; Kept(log) == Updaters(log) <==> NoOverlap(log)
  {
    var e, seen := Update(k), BeforeLoad(before, k);
    BeforeLoadSnoc(before, e, k);
    OverlapSnoc(before, e);
    BeforeLoadIsPrefix(before, k);
    SurvivorsOfUpdate(before, seen, k);
  }

  /** Everyone survives exactly when no two workers' accesses overlap that way. */
  lemma {:induction false} EveryoneSurvivesExactlyWhen(log: seq<Event>)
    requires OnceEach(log)
    ensures Kept(log) == Updaters(log) <==> NoOverlap(log)
    decreases |log|
  {
    if log != [] {
      var n := |log| - 1;
      var before := log[..n];
      PrefixOfLog(log, before);
      assert log == before + [log[n]];
      match log[n]
      case Load(_) =>
        EveryoneSurvivesExactlyWhen(before);
        SurviveLoad(before, log[n]);
      case Update(k) =>
        BeforeLoadIsPrefix(before, k);
        PrefixOfLog(before, BeforeLoad(before, k));
        EveryoneSurvivesExactlyWhen(BeforeLoad(before, k));
        SurviveUpdate(before, k);
    }
  }

  /** In every interleaving in which no update falls between another worker's load and its
      update, the names are exact once all are at rest; and all survive only then. */
  lemma RaceKeepsNames(w: World, base: set<string>, asked: seq<set<string>>, actions: seq<Action>)
    requires Exec(w, asked, Init(w, base, asked), actions).Some?
    ensures var s := Exec(w, asked, Init(w, base, asked), actions).value;
      && (Kept(s.log) == Updaters(s.log) <==> NoOverlap(s.log))
      && (AtRest(s) && NoOverlap(s.log) ==>
            s.count == |s.live| && s.sources == SourcesOf(w, s.live) && s.services == ServicesOf(w, s.live))
  {
    InitInv(w, base, asked);
    RunKeepsInv(w, base, asked, Init(w, base, asked), actions);
    var s := Exec(w, asked, Init(w, base, asked), actions).value;
    EveryoneSurvivesExactlyWhen(s.log);
    if AtRest(s) { LiveIsUpdaters(w, base, asked, s); }
  }

  // ---------------------------------------------------------------- two adds that lose names

  lemma ExecCons(w: World, asked: seq<set<string>>, s: State, a: Action, s': State, rest: seq<Action>)
    requires |asked| == |s.pcs| == |s.added| == |s'.pcs| == |s'.added| && Step(w, asked, s, a) == Some(s')
    ensures Exec(w, asked, s, [a] + rest) == Exec(w, asked, s', rest)
  {
    assert ([a] + rest)[1..] == rest;
  }

  lemma Pair<T>(a: T, b: T, c: T)
    ensures [a, b][0 := c] == [c, b] && [a, b][1 := c] == [a, c]
  {
  }

  lemma Single<T>(a: T, c: T)
    ensures [a][0 := c] == [c]
  {
  }

  /** Two workers whose alerts are new, apart from each other's, known, and readable. */
  predicate TwoAdds(w: World, base: set<string>, asked: seq<set<string>>) {
    && |asked| == 2 && (forall k :: 0 <= k < 2 ==> asked[k] != {} && asked[k] !! base)
    && asked[0] !! asked[1] && asked[0] + asked[1] <= w.latest.Keys
    && Readable(w, asked[0]) && Readable(w, asked[1])
  }

  /** Both have linked, neither has loaded. */
  function BothLinked(w: World, base: set<string>, asked: seq<set<string>>): State
    requires |asked| == 2
  {
    State(base + asked[0] + asked[1], |base|, SourcesOf(w, base), ServicesOf(w, base), [Owing, Owing], asked, [])
  }

  /** Both have loaded, then both updated, the second one last. */
  function BothUpdated(w: World, base: set<string>, asked: seq<set<string>>): State
    requires |asked| == 2
  {
    State(base + asked[0] + asked[1], |base + asked[0] + asked[1]|,
          SourcesOf(w, base) + SourcesOf(w, asked[1]), ServicesOf(w, base) + ServicesOf(w, asked[1]),
          [Done, Done], asked, [Load(0), Load(1), Update(0), Update(1)])
  }

  lemma TwoLinkSteps(w: World, base: set<string>, asked: seq<set<string>>, s0: State, s1: State, s2: State, s3: State)
    requires TwoAdds(w, base, asked)
    requires s0.pcs == [Ready(1), Ready(1)] && s0.added == [{}, {}] && s0.live == base
    requires s1 == s0.(pcs := [Chosen(1, asked[0]), Ready(1)])
    requires s2 == s0.(pcs := [Chosen(1, asked[0]), Chosen(1, asked[1])])
    requires s3 == s0.(pcs := [Owing, Chosen(1, asked[1])], live := base + asked[0], added := [asked[0], {}])
    ensures Step(w, asked, s0, DoChoose(0)) == Some(s1)
    ensures Step(w, asked, s1, DoChoose(1)) == Some(s2)
    ensures Step(w, asked, s2, DoLink(0)) == Some(s3)
    ensures Step(w, asked, s3, DoLink(1))
         == Some(s0.(pcs := [Owing, Owing], live := base + asked[0] + asked[1], added := asked))
  {
    var none: set<string> := {};
    assert asked[0] - base == asked[0] && asked[1] - base == asked[1] && [asked[0], asked[1]] == asked;
    assert asked[0] * base == {} && asked[1] * (base + asked[0]) == {};
    Pair(Ready(1), Ready(1), Chosen(1, asked[0]));
    Pair(Chosen(1, asked[0]), Ready(1), Chosen(1, asked[1]));
    Pair(Chosen(1, asked[0]), Chosen(1, asked[1]), Owing);
    Pair(Owing, Chosen(1, asked[1]), Owing);
    Pair(none, none, asked[0]);
    Pair(asked[0], none, asked[1]);
  }

  lemma TwoLink(w: World, base: set<string>, asked: seq<set<string>>, rest: seq<Action>)
    requires TwoAdds(w, base, asked)
    ensures Exec(w, asked, Init(w, base, asked), [DoChoose(0)] + ([DoChoose(1)] + ([DoLink(0)] + ([DoLink(1)] + rest))))
         == Exec(w, asked, BothLinked(w, base, asked), rest)
  {
    var s0 := Init(w, base, asked);
    assert s0.pcs == [Ready(1), Ready(1)] && s0.added == [{}, {}];
    assert asked[0] - base == asked[0] && asked[1] - base == asked[1];
    var s1 := s0.(pcs := [Chosen(1, asked[0]), Ready(1)]);
    var s2 := s0.(pcs := [Chosen(1, asked[0]), Chosen(1, asked[1])]);
    var s3 := s0.(pcs := [Owing, Chosen(1, asked[1])], live := base + asked[0], added := [asked[0], {}]);
    TwoLinkSteps(w, base, asked, s0, s1, s2, s3);
    ExecCons(w, asked, s3, DoLink(1), BothLinked(w, base, asked), rest);
    ExecCons(w, asked, s2, DoLink(0), s3, [DoLink(1)] + rest);
    ExecCons(w, asked, s1, DoChoose(1), s2, [DoLink(0)] + ([DoLink(1)] + rest));
    ExecCons(w, asked, s0, DoChoose(0), s1, [DoChoose(1)] + ([DoLink(0)] + ([DoLink(1)] + rest)));
  }

  lemma TwoLoadSteps(w: World, base: set<string>, asked: seq<set<string>>, s4: State, s5: State, s6: State, held: Pc)
    requires TwoAdds(w, base, asked) && s4 == BothLinked(w, base, asked)
    requires held == Holding(SourcesOf(w, base), ServicesOf(w, base))
    requires s5 == s4.(pcs := [held, Owing], log := [Load(0)])
    requires s6 == s4.(pcs := [held, held], log := [Load(0), Load(1)])
    ensures Step(w, asked, s4, DoLoad(0)) == Some(s5) && Step(w, asked, s5, DoLoad(1)) == Some(s6)
  {
    Pair(Owing, Owing, held);
    Pair(held, Owing, held);
    assert s4.log + [Load(0)] == s5.log && s5.log + [Load(1)] == s6.log;
  }

  lemma TwoUpdateSteps(w: World, base: set<string>, asked: seq<set<string>>, s6: State, s7: State, s8: State, held: Pc)
    requires |asked| == 2 && s8 == BothUpdated(w, base, asked)
    requires held == Holding(SourcesOf(w, base), ServicesOf(w, base))
    requires s6 == BothLinked(w, base, asked).(pcs := [held, held], log := [Load(0), Load(1)])
    requires s7 == s6.(pcs := [Done, held], log := [Load(0), Load(1), Update(0)], count := |s6.live|,
                       sources := SourcesOf(w, base) + SourcesOf(w, asked[0]),
                       services := ServicesOf(w, base) + ServicesOf(w, asked[0]))
    ensures Step(w, asked, s6, DoUpdate(0)) == Some(s7) && Step(w, asked, s7, DoUpdate(1)) == Some(s8)
  {
    Pair(held, held, Done);
    Pair(Done, held, Done);
    assert s6.log + [Update(0)] == s7.log && s7.log + [Update(1)] == s8.log;
  }

  const TWO_UPDATES: seq<Action> := [DoLoad(0)] + ([DoLoad(1)] + ([DoUpdate(0)] + ([DoUpdate(1)] + [])))

  lemma TwoUpdate(w: World, base: set<string>, asked: seq<set<string>>)
    requires TwoAdds(w, base, asked)
    ensures Exec(w, asked, BothLinked(w, base, asked), TWO_UPDATES) == Some(BothUpdated(w, base, asked))
  {
    var s4, s8 := BothLinked(w, base, asked), BothUpdated(w, base, asked);
    var held := Holding(SourcesOf(w, base), ServicesOf(w, base));
    var s5 := s4.(pcs := [held, Owing], log := [Load(0)]);
    var s6 := s4.(pcs := [held, held], log := [Load(0), Load(1)]);
    var s7 := s4.(pcs := [Done, held], log := [Load(0), Load(1), Update(0)], count := |s4.live|,
                  sources := SourcesOf(w, base) + SourcesOf(w, asked[0]),
                  services := ServicesOf(w, base) + ServicesOf(w, asked[0]));
    TwoLoadSteps(w, base, asked, s4, s5, s6, held);
    TwoUpdateSteps(w, base, asked, s6, s7, s8, held);
    ExecCons(w, asked, s7, DoUpdate(1), s8, []);
    ExecCons(w, asked, s6, DoUpdate(0), s7, [DoUpdate(1)] + []);
    ExecCons(w, asked, s5, DoLoad(1), s6, [DoUpdate(0)] + ([DoUpdate(1)] + []));
    ExecCons(w, asked, s4, DoLoad(0), s5, [DoLoad(1)] + ([DoUpdate(0)] + ([DoUpdate(1)] + [])));
  }

  const LOSING_RACE: seq<Action> := [DoChoose(0)] + ([DoChoose(1)] + ([DoLink(0)] + ([DoLink(1)] + TWO_UPDATES)))

  /** Any two such adds have an interleaving that leaves the count right and the names of the
      first one out, unless the incident or the second one carries them too. */
  lemma AnyTwoAddsCanLoseNames(w: World, base: set<string>, asked: seq<set<string>>)
    requires TwoAdds(w, base, asked)
    ensures Exec(w, asked, Init(w, base, asked), LOSING_RACE) == Some(BothUpdated(w, base, asked))
    ensures var s := BothUpdated(w, base, asked);
      && s.count == |s.live|
      && (s.sources == SourcesOf(w, s.live) <==> SourcesOf(w, asked[0]) <= SourcesOf(w, base) + SourcesOf(w, asked[1]))
      && (s.services == ServicesOf(w, s.live) <==>
            ServicesOf(w, asked[0]) <= ServicesOf(w, base) + ServicesOf(w, asked[1]))
  {
    TwoLink(w, base, asked, TWO_UPDATES);
    TwoUpdate(w, base, asked);
    NamesOfUnion(w, base + asked[0], asked[1]);
    NamesOfUnion(w, base, asked[0]);
  }

  // ---------------------------------------------------------------- one add alone

  lemma AloneSteps(w: World, asked: seq<set<string>>, s0: State, s1: State, s2: State, s3: State, s4: State,
                   added: set<string>)
    requires |asked| == 1 && asked[0] - s0.live == added != {} && added <= w.latest.Keys && Readable(w, added)
    requires s0.pcs == [Ready(1)] && s0.added == [{}] && s0.log == []
    requires s1 == s0.(pcs := [Chosen(1, added)])
    requires s2 == s0.(pcs := [Owing], live := s0.live + added, added := [added])
    requires s3 == s2.(pcs := [Holding(s0.sources, s0.services)], log := [Load(0)])
    requires s4 == s2.(pcs := [Done], count := |s2.live|, sources := s0.sources + SourcesOf(w, added),
                       services := s0.services + ServicesOf(w, added), log := [Load(0), Update(0)])
    ensures Step(w, asked, s0, DoChoose(0)) == Some(s1) && Step(w, asked, s1, DoLink(0)) == Some(s2)
    ensures Step(w, asked, s2, DoLoad(0)) == Some(s3) && Step(w, asked, s3, DoUpdate(0)) == Some(s4)
  {
    var none: set<string> := {};
    assert added * s0.live == {};
    Single(Ready(1), Chosen(1, added));
    Single(Chosen(1, added), Owing);
    Single(none, added);
    Single(Owing, Holding(s0.sources, s0.services));
    Single(Holding(s0.sources, s0.services), Done);
    assert s2.log + [Load(0)] == [Load(0)] && s3.log + [Update(0)] == [Load(0), Update(0)];
  }

  /** The steps of a worker alone. */
  const ALONE: seq<Action> := [DoChoose(0)] + ([DoLink(0)] + ([DoLoad(0)] + ([DoUpdate(0)] + [])))

  lemma AloneRuns(w: World, asked: seq<set<string>>, s: State, added: set<string>)
    requires |asked| == 1 && asked[0] - s.live == added != {} && added <= w.latest.Keys && Readable(w, added)
    requires s.pcs == [Ready(1)] && s.added == [{}] && s.log == []
    ensures var r := Exec(w, asked, s, ALONE);
      && r.Some? && r.value.live == s.live + added && r.value.count == |s.live + added|
      && r.value.sources == s.sources + SourcesOf(w, added) && r.value.services == s.services + ServicesOf(w, added)
  {
    var s1 := s.(pcs := [Chosen(1, added)]);
    var s2 := s.(pcs := [Owing], live := s.live + added, added := [added]);
    var s3 := s2.(pcs := [Holding(s.sources, s.services)], log := [Load(0)]);
    var s4 := s2.(pcs := [Done], count := |s2.live|, sources := s.sources + SourcesOf(w, added),
                  services := s.services + ServicesOf(w, added), log := [Load(0), Update(0)]);
    AloneSteps(w, asked, s, s1, s2, s3, s4, added);
    ExecCons(w, asked, s3, DoUpdate(0), s4, []);
    ExecCons(w, asked, s2, DoLoad(0), s3, [DoUpdate(0)] + []);
    ExecCons(w, asked, s1, DoLink(0), s2, [DoLoad(0)] + ([DoUpdate(0)] + []));
    ExecCons(w, asked, s, DoChoose(0), s1, [DoLink(0)] + ([DoLoad(0)] + ([DoUpdate(0)] + [])));
  }

  lemma AddStores(w: World, db: Db, i: string, fps: set<string>, exclude: bool)
    requires i in db.incidents && Add(w, db, i, fps, exclude).1 == Updated
    ensures var db' := Add(w, db, i, fps, exclude).0;
      var inc := db.incidents[i]; var added := ToLink(db, i, fps, exclude); var all := Live(db.links, i) + added;
      && added != {} && added <= w.latest.Keys && Readable(w, added)
      && Live(db'.links, i) == all && db'.incidents[i].alertsCount == |all|
      && db'.incidents[i].sources == inc.sources + SourcesOf(w, added)
      && db'.incidents[i].services == inc.services + ServicesOf(w, added)
  {
    AddUpdates(w, db, i, fps, exclude);
  }

  /** The incident as a race finds it. */
  function Found(db: Db, i: string): State
    requires i in db.incidents
  {
    var inc := db.incidents[i];
    State(Live(db.links, i), inc.alertsCount, inc.sources, inc.services, [Ready(1)], [{}], [])
  }

  /** The worker alone has run to its end, and left what the database has. */
  predicate LeavesAs(r: Option<State>, db: Db, i: string)
    requires i in db.incidents
  {
    && r.Some? && r.value.live == Live(db.links, i) && r.value.count == db.incidents[i].alertsCount
    && r.value.sources == db.incidents[i].sources && r.value.services == db.incidents[i].services
  }

  /** It does what a call to add does to the live links, the count and the names. */
  lemma AloneIsAdd(w: World, db: Db, i: string, fps: set<string>, exclude: bool)
    requires i in db.incidents && Add(w, db, i, fps, exclude).1 == Updated
    ensures LeavesAs(Exec(w, [fps - if exclude then Unlinked(db.links, i) else {}], Found(db, i), ALONE),
                     Add(w, db, i, fps, exclude).0, i)
  {
    var asked := fps - if exclude then Unlinked(db.links, i) else {};
    assert asked - Live(db.links, i) == ToLink(db, i, fps, exclude);
    AddStores(w, db, i, fps, exclude);
    AloneLeavesAs(w, db, Add(w, db, i, fps, exclude).0, i, asked);
  }

  lemma AloneLeavesAs(w: World, db: Db, db': Db, i: string, asked: set<string>)
    requires i in db.incidents && i in db'.incidents
    requires var inc := db.incidents[i]; var added := asked - Live(db.links, i); var all := Live(db.links, i) + added;
      && added != {} && added <= w.latest.Keys && Readable(w, added)
      && Live(db'.links, i) == all && db'.incidents[i].alertsCount == |all|
      && db'.incidents[i].sources == inc.sources + SourcesOf(w, added)
      && db'.incidents[i].services == inc.services + ServicesOf(w, added)
    ensures LeavesAs(Exec(w, [asked], Found(db, i), ALONE), db', i)
  {
    AloneRuns(w, [asked], Found(db, i), asked - Live(db.links, i));
  }
}
