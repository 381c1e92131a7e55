/** The ledger over whole runs of adds, removals, merges and forced severities. */
module LedgerRuns {
  import opened Values
  import opened OneShotResults
  import opened Ledger
  import opened LedgerLaws
  import opened Merging
  import opened MergeLaws

  datatype Step =
    | AddStep(incident: string, fps: set<string>, exclude: bool)
    | RemoveStep(incident: string, fps: set<string>, now: int, sources: Probe, services: Probe)
    | MergeStep(dest: string, ids: seq<string>, plans: seq<Plan>)
    | ForceStep(incident: string, severity: Order)

  /** The database after one call. */
  ghost function Next(w: World, db: Db, step: Step): (db': Db)
    ensures db.incidents.Keys == db'.incidents.Keys
  {
    match step
    case AddStep(i, fps, exclude) => if i in db.incidents then Add(w, db, i, fps, exclude).0 else db
    case RemoveStep(i, fps, now, s, v) => Remove(w, db, i, fps, now, s, v).0
    case MergeStep(dest, ids, plans) =>
      if dest in db.incidents && PlansOf(CacheOf(db, ids), plans) then
        MergeAllKeys(w, db, dest, CacheOf(db, ids), plans);
        MergeAll(w, db, dest, CacheOf(db, ids), plans).db
      else db
    case ForceStep(i, severity) => ForceSeverity(db, i, severity)
  }

  lemma {:induction false} MergeAllKeys(w: World, db: Db, dest: string, cache: map<string, set<string>>,
                                        plans: seq<Plan>)
    requires dest in db.incidents && forall p :: p in plans ==> p.source in cache
    ensures MergeAll(w, db, dest, cache, plans).db.incidents.Keys == db.incidents.Keys
    decreases |plans|
  {
    if plans != [] {
      MergeAllKeys(w, MergeOne(w, db, dest, plans[0], cache[plans[0].source]).0, dest, cache, plans[1..]);
    }
  }

  ghost function After(w: World, db: Db, steps: seq<Step>): Db
    decreases |steps|
  {
    if steps == [] then db else After(w, Next(w, db, steps[0]), steps[1..])
  }

  /** The call gives its one-shot results in a possible order and stops nowhere between two
      commits.  For exact names each removal must also have probed in row order; in a merge
      that matters only if the destination is among the ids. */
  ghost predicate Whole(w: World, db: Db, step: Step, exact: bool) {
    match step
    case AddStep(i, fps, exclude) => i in db.incidents ==> Add(w, db, i, fps, exclude).1 != RaisedAfterCommit
    case RemoveStep(i, fps, now, s, v) =>
      && (i in db.incidents ==> ProbesOf(w, db, i, fps, s, v) && (exact ==> ProbedInOrder(s, v)))
      && Remove(w, db, i, fps, now, s, v).1 != RaisedAfterCommit
    case MergeStep(dest, ids, plans) =>
      dest in db.incidents ==>
        PlansOf(CacheOf(db, ids), plans) && MergeWhole(w, db, dest, CacheOf(db, ids), plans, exact && dest in ids)
    case ForceStep(_, _) => true
  }

  ghost predicate AllWhole(w: World, db: Db, steps: seq<Step>, exact: bool)
    decreases |steps|
  {
    steps != [] ==> Whole(w, db, steps[0], exact) && AllWhole(w, Next(w, db, steps[0]), steps[1..], exact)
  }

  lemma CacheIsAsRead(db: Db, dest: string, ids: seq<string>, plans: seq<Plan>)
    requires PlansOf(CacheOf(db, ids), plans) && dest !in ids
    ensures AsRead(db, dest, CacheOf(db, ids), plans)
  {
    forall k | 0 <= k < |plans| ensures Sources(plans)[k] != dest {
      assert plans[k] in plans;
    }
  }

  lemma NextKeepsInStep(w: World, db: Db, step: Step, exact: bool)
    requires ValidWorld(w) && AllInStep(w, db, exact) && Whole(w, db, step, exact)
    ensures AllInStep(w, Next(w, db, step), exact)
  {
    match step
    case AddStep(i, fps, exclude) =>
      if i in db.incidents { AddKeepsAll(w, db, i, fps, exclude, exact); }
    case RemoveStep(i, fps, now, s, v) => RemoveKeepsAll(w, db, i, fps, now, s, v, exact);
    case MergeStep(dest, ids, plans) =>
      if dest in db.incidents {
        var cache := CacheOf(db, ids);
        if dest !in ids {
          CacheIsAsRead(db, dest, ids, plans);
          AsReadNeedsNoOrder(w, db, dest, cache, plans);
        }
        MergeKeepsInStep(w, db, dest, cache, plans, exact);
      }
    case ForceStep(i, severity) => ForceKeepsInStep(w, db, i, severity, exact);
  }

  lemma ForceKeepsInStep(w: World, db: Db, i: string, severity: Order, exact: bool)
    requires AllInStep(w, db, exact)
    ensures AllInStep(w, ForceSeverity(db, i, severity), exact)
  {
    var db' := ForceSeverity(db, i, severity);
    forall j | j in db'.incidents ensures InStep(w, db', j, exact) { assert InStep(w, db, j, exact); }
  }

  /** After any run of adds, removals, merges and forced severities none of which stops
      between two commits, every stored aggregate agrees with the live links: counts,
      severity and times always, names exactly when each removal probed in row order, and
      otherwise without ever keeping a name that no live link carries.  Merges may meet
      database errors, lose sources to them, or be abandoned. */
  lemma {:induction false} RunKeepsInStep(w: World, db: Db, steps: seq<Step>, exact: bool)
    requires ValidWorld(w) && AllInStep(w, db, exact) && AllWhole(w, db, steps, exact)
    ensures AllInStep(w, After(w, db, steps), exact)
    decreases |steps|
  {
    if steps != [] {
      NextKeepsInStep(w, db, steps[0], exact);
      RunKeepsInStep(w, Next(w, db, steps[0]), steps[1..], exact);
    }
  }

  /** After such a run the severity of an incident with live links is, unless it is forced,
      the greatest that the latest occurrence of one of them names, and 1 if none names any. */
  lemma SeverityAfterRun(w: World, db: Db, steps: seq<Step>, i: string)
    requires ValidWorld(w) && AllInStep(w, db, false) && AllWhole(w, db, steps, false) && i in db.incidents
    ensures var db' := After(w, db, steps); var live := Live(db'.links, i);
      && i in db'.incidents && live <= w.latest.Keys
      && (live != {} && !db'.incidents[i].forcedSeverity ==>
            if exists f :: f in live && w.latest[f].severity.Named? then
              && (forall f :: f in live && w.latest[f].severity.Named? ==>
                    w.latest[f].severity.order <= db'.incidents[i].severity)
              && (exists f :: f in live && w.latest[f].severity.Named?
                              && w.latest[f].severity.order == db'.incidents[i].severity)
            else db'.incidents[i].severity == 1)
  {
    RunKeepsInStep(w, db, steps, false);
    AfterKeys(w, db, steps);
    InStepSays(w, After(w, db, steps), i, false);
  }

  lemma {:induction false} AfterKeys(w: World, db: Db, steps: seq<Step>)
    ensures After(w, db, steps).incidents.Keys == db.incidents.Keys
    decreases |steps|
  {
    if steps != [] { AfterKeys(w, Next(w, db, steps[0]), steps[1..]); }
  }

  /** New incidents have no links and empty aggregates. */
  predicate Fresh(db: Db) {
    db.links == {} && forall i :: i in db.incidents ==>
      db.incidents[i].alertsCount == 0 && db.incidents[i].sources == {} && db.incidents[i].services == {}
  }

  lemma FreshInStep(w: World, db: Db, exact: bool)
    requires Fresh(db)
    ensures AllInStep(w, db, exact)
  {
    forall i | i in db.incidents ensures InStep(w, db, i, exact) { assert Live(db.links, i) == {}; }
  }

  // ---------------------------------------------------------------- forced severities

  /** The severity of `i` is forced and stays as it is. */
  predicate SameForced(db: Db, db': Db, i: string) {
    && i in db.incidents && i in db'.incidents
    && db.incidents[i].forcedSeverity && db'.incidents[i].forcedSeverity
    && db'.incidents[i].severity == db.incidents[i].severity
  }

  lemma RemovalKeepsForced(w: World, db: Db, p: Plan, fps: set<string>, i: string)
    requires i in db.incidents && db.incidents[i].forcedSeverity
    ensures SameForced(db, TryRemove(w, db, p, fps).0, i)
  {
  }

  lemma RetriedAddKeepsForced(w: World, db: Db, dest: string, fps: set<string>, faults: seq<Fault>, tries: nat,
                              i: string)
    requires dest in db.incidents && i in db.incidents && db.incidents[i].forcedSeverity
    ensures SameForced(db, TryAdd(w, db, dest, fps, faults, tries).0, i)
  {
    TryAddOutcome(w, db, dest, fps, faults, tries);
  }

  lemma MoveKeepsForced(w: World, db: Db, dest: string, p: Plan, fps: set<string>, i: string)
    requires dest in db.incidents && i in db.incidents && db.incidents[i].forcedSeverity
    ensures SameForced(db, MergeOne(w, db, dest, p, fps).0, i)
  {
    RemovalKeepsForced(w, db, p, fps, i);
    RetriedAddKeepsForced(w, TryRemove(w, db, p, fps).0, dest, fps, p.faults.adds, ADD_TRIES, i);
  }

  lemma {:induction false} MergeKeepsForced(w: World, db: Db, dest: string, cache: map<string, set<string>>,
                                            plans: seq<Plan>, i: string)
    requires dest in db.incidents && forall p :: p in plans ==> p.source in cache
    requires i in db.incidents && db.incidents[i].forcedSeverity
    ensures SameForced(db, MergeAll(w, db, dest, cache, plans).db, i)
    decreases |plans|
  {
    if plans != [] {
      var p := plans[0];
      MoveKeepsForced(w, db, dest, p, cache[p.source], i);
      MergeKeepsForced(w, MergeOne(w, db, dest, p, cache[p.source]).0, dest, cache, plans[1..], i);
    }
  }

  lemma NextKeepsForced(w: World, db: Db, step: Step, i: string)
    requires i in db.incidents && db.incidents[i].forcedSeverity && !(step.ForceStep? && step.incident == i)
    ensures SameForced(db, Next(w, db, step), i)
  {
    match step
    case AddStep(_, _, _) =>
    case RemoveStep(_, _, _, _, _) =>
    case MergeStep(dest, ids, plans) =>
      if dest in db.incidents && PlansOf(CacheOf(db, ids), plans) {
        MergeKeepsForced(w, db, dest, CacheOf(db, ids), plans, i);
      }
    case ForceStep(_, _) =>
  }

  /** A forced severity is what the last force made it, through any run of adds, removals and
      merges, raising or not. */
  lemma {:induction false} ForcedSeverityStays(w: World, db: Db, steps: seq<Step>, i: string)
    requires i in db.incidents && db.incidents[i].forcedSeverity
    requires forall step :: step in steps ==> !(step.ForceStep? && step.incident == i)
    ensures SameForced(db, After(w, db, steps), i)
    decreases |steps|
  {
    if steps != [] {
      assert steps[0] in steps;
      NextKeepsForced(w, db, steps[0], i);
      ForcedSeverityStays(w, Next(w, db, steps[0]), steps[1..], i);
    }
  }

  // ---------------------------------------------------------------- unlinked alerts

  /** The fingerprint has been unlinked from the incident and is not live on it. */
  predicate Out(w: World, db: Db, i: string, f: string) {
    ValidDb(w, db) && f in Unlinked(db.links, i) && f !in Live(db.links, i)
  }

  /** Some turn that the merge reaches carries the fingerprint and links. */
  ghost predicate SomeTurnLinks(w: World, db: Db, dest: string, cache: map<string, set<string>>, plans: seq<Plan>,
                                f: string)
    requires dest in db.incidents && forall p :: p in plans ==> p.source in cache
    decreases |plans|
  {
    plans != [] &&
      var p := plans[0];
      var (next, fate) := MergeOne(w, db, dest, p, cache[p.source]);
      || (f in cache[p.source] && TurnLinks(w, db, p, cache[p.source]))
      || (fate != Aborts && SomeTurnLinks(w, next, dest, cache, plans[1..], f))
  }

  /** The fingerprints read are known, and the destination's own turn, if it has one, does
      not carry `f`. */
  predicate Carries(w: World, dest: string, cache: map<string, set<string>>, plans: seq<Plan>, f: string) {
    forall p :: p in plans ==>
      p.source in cache && cache[p.source] <= w.latest.Keys && (p.source == dest ==> f !in cache[p.source])
  }

  lemma {:induction false} MergeKeepsLinked(w: World, db: Db, dest: string, cache: map<string, set<string>>,
                                            plans: seq<Plan>, f: string)
    requires dest in db.incidents && Carries(w, dest, cache, plans, f) && f in Live(db.links, dest)
    ensures f in Live(MergeAll(w, db, dest, cache, plans).db.links, dest)
    decreases |plans|
  {
    if plans != [] {
      var p := plans[0];
      assert p in plans;
      TurnLeavesDest(w, db, dest, p, cache[p.source], f);
      MergeKeepsLinked(w, MergeOne(w, db, dest, p, cache[p.source]).0, dest, cache, plans[1..], f);
    }
  }

  /** A merge, completed or abandoned, makes a fingerprint live on its destination exactly
      when some turn it reaches carries the fingerprint and links. */
  lemma {:induction false} MergeLinksExactlyWhen(w: World, db: Db, dest: string, cache: map<string, set<string>>,
                                                 plans: seq<Plan>, f: string)
    requires dest in db.incidents && Carries(w, dest, cache, plans, f) && f !in Live(db.links, dest)
    ensures f in Live(MergeAll(w, db, dest, cache, plans).db.links, dest) <==>
            SomeTurnLinks(w, db, dest, cache, plans, f)
    decreases |plans|
  {
    if plans != [] {
      var p := plans[0];
      assert p in plans;
      var (next, fate) := MergeOne(w, db, dest, p, cache[p.source]);
      TurnLeavesDest(w, db, dest, p, cache[p.source], f);
      if fate != Aborts {
        if f in Live(next.links, dest) { MergeKeepsLinked(w, next, dest, cache, plans[1..], f); }
        else { MergeLinksExactlyWhen(w, next, dest, cache, plans[1..], f); }
      }
    }
  }

  /** What one call does that makes a fingerprint live on `i` again: an add to `i` that names
      it, does not exclude unlinked alerts and is not refused, or a merge into `i` with such
      a turn. */
  ghost predicate StepRelinks(w: World, db: Db, step: Step, i: string, f: string) {
    i in db.incidents &&
    match step
    case AddStep(j, fps, exclude) => j == i && !exclude && f in fps && ToLink(db, i, fps, false) <= w.latest.Keys
    case RemoveStep(_, _, _, _, _) => false
    case MergeStep(dest, ids, plans) =>
      dest == i && PlansOf(CacheOf(db, ids), plans) && SomeTurnLinks(w, db, dest, CacheOf(db, ids), plans, f)
    case ForceStep(_, _) => false
  }

  // Unlinked rows stay, and calls leave the links of incidents they are not about alone.

  lemma TurnKeepsUnlinked(w: World, db: Db, dest: string, p: Plan, fps: set<string>, i: string)
    requires dest in db.incidents
    ensures var links := MergeOne(w, db, dest, p, fps).0.links;
      Unlinked(db.links, i) <= Unlinked(links, i) && (i != dest ==> Live(links, i) <= Live(db.links, i))
  {
    var db1 := TryRemove(w, db, p, fps).0;
    UnlinkedLive(db.links, p.source, Live(db.links, p.source) * fps, p.now, i);
    RetriedAddKeepsUnlinked(w, db1, dest, fps, p.faults.adds, ADD_TRIES, i);
  }

  lemma RetriedAddKeepsUnlinked(w: World, db: Db, dest: string, fps: set<string>, faults: seq<Fault>, tries: nat,
                                i: string)
    requires dest in db.incidents
    ensures var links := TryAdd(w, db, dest, fps, faults, tries).0.links;
      Unlinked(links, i) == Unlinked(db.links, i) && (i != dest ==> Live(links, i) == Live(db.links, i))
  {
    TryAddOutcome(w, db, dest, fps, faults, tries);
    LinkedLive(db.links, dest, ToLink(db, dest, fps, false), i);
  }

  lemma {:induction false} MergeKeepsUnlinked(w: World, db: Db, dest: string, cache: map<string, set<string>>,
                                              plans: seq<Plan>, i: string)
    requires dest in db.incidents && ValidDb(w, db) && forall p :: p in plans ==> p.source in cache
    ensures var db' := MergeAll(w, db, dest, cache, plans).db;
      && ValidDb(w, db') && Unlinked(db.links, i) <= Unlinked(db'.links, i)
      && (i != dest ==> Live(db'.links, i) <= Live(db.links, i))
    decreases |plans|
  {
    if plans != [] {
      var p := plans[0];
      MergeOneValid(w, db, dest, p, cache[p.source]);
      TurnKeepsUnlinked(w, db, dest, p, cache[p.source], i);
      MergeKeepsUnlinked(w, MergeOne(w, db, dest, p, cache[p.source]).0, dest, cache, plans[1..], i);
    }
  }

  lemma NextKeepsUnlinked(w: World, db: Db, step: Step, i: string)
    requires ValidDb(w, db)
    ensures ValidDb(w, Next(w, db, step)) && Unlinked(db.links, i) <= Unlinked(Next(w, db, step).links, i)
  {
    match step
    case AddStep(j, fps, exclude) =>
      if j in db.incidents {
        AddLinks(w, db, j, fps, exclude);
        LinkedLive(db.links, j, ToLink(db, j, fps, exclude), i);
      }
    case RemoveStep(j, fps, now, s, v) =>
      if j in db.incidents {
        RemoveLinks(w, db, j, fps, now, s, v);
        UnlinkedLive(db.links, j, Live(db.links, j) * fps, now, i);
      }
    case MergeStep(dest, ids, plans) =>
      if dest in db.incidents && PlansOf(CacheOf(db, ids), plans) {
        MergeKeepsUnlinked(w, db, dest, CacheOf(db, ids), plans, i);
      }
    case ForceStep(_, _) =>
  }

  lemma AddRelinksExactlyWhen(w: World, db: Db, j: string, fps: set<string>, exclude: bool, i: string, f: string)
    requires Out(w, db, i, f)
    ensures f in Live(Next(w, db, AddStep(j, fps, exclude)).links, i) <==>
            StepRelinks(w, db, AddStep(j, fps, exclude), i, f)
  {
    if j in db.incidents {
      LinkedLive(db.links, j, ToLink(db, j, fps, exclude), i);
      var l :| l in db.links && l.incident == i && l.deletedAt.Some? && l.fp == f;
      assert f in w.latest;
    }
  }

  lemma CacheCarries(w: World, db: Db, dest: string, ids: seq<string>, plans: seq<Plan>, f: string)
    requires Out(w, db, dest, f) && PlansOf(CacheOf(db, ids), plans)
    ensures Carries(w, dest, CacheOf(db, ids), plans, f)
  {
    forall p | p in plans ensures CacheOf(db, ids)[p.source] <= w.latest.Keys { LiveIsKnown(w, db, p.source); }
  }

  /** One call brings an unlinked fingerprint back exactly when it relinks in that sense. */
  lemma NextRelinksExactlyWhen(w: World, db: Db, step: Step, i: string, f: string)
    requires Out(w, db, i, f)
    ensures f in Live(Next(w, db, step).links, i) <==> StepRelinks(w, db, step, i, f)
    ensures Out(w, Next(w, db, step), i, f) <==> !StepRelinks(w, db, step, i, f)
  {
    NextKeepsUnlinked(w, db, step, i);
    match step
    case AddStep(j, fps, exclude) => AddRelinksExactlyWhen(w, db, j, fps, exclude, i, f);
    case RemoveStep(j, fps, now, s, v) =>
      if j in db.incidents { UnlinkedLive(db.links, j, Live(db.links, j) * fps, now, i); }
    case MergeStep(dest, ids, plans) =>
      if dest in db.incidents && PlansOf(CacheOf(db, ids), plans) {
        if dest == i {
          CacheCarries(w, db, dest, ids, plans, f);
          MergeLinksExactlyWhen(w, db, dest, CacheOf(db, ids), plans, f);
        } else {
          MergeKeepsUnlinked(w, db, dest, CacheOf(db, ids), plans, i);
        }
      }
    case ForceStep(_, _) =>
  }

  /** No call of the run relinks the fingerprint, each judged on the state it meets. */
  ghost predicate NoneRelinks(w: World, db: Db, steps: seq<Step>, i: string, f: string)
    decreases |steps|
  {
    steps != [] ==>
      !StepRelinks(w, db, steps[0], i, f) && NoneRelinks(w, Next(w, db, steps[0]), steps[1..], i, f)
  }

  /** Out now and after each call of the run. */
  ghost predicate OutThroughout(w: World, db: Db, steps: seq<Step>, i: string, f: string)
    decreases |steps|
  {
    Out(w, db, i, f) && (steps != [] ==> OutThroughout(w, Next(w, db, steps[0]), steps[1..], i, f))
  }

  lemma {:induction false} OutAfterEveryPrefix(w: World, db: Db, steps: seq<Step>, i: string, f: string)
    ensures OutThroughout(w, db, steps, i, f) <==>
            forall n :: 0 <= n <= |steps| ==> Out(w, After(w, db, steps[..n]), i, f)
    decreases |steps|
  {
    if steps == [] {
      assert steps[..0] == [];
    } else {
      var next, rest := Next(w, db, steps[0]), steps[1..];
      OutAfterEveryPrefix(w, next, rest, i, f);
      assert steps[..0] == [];
      forall n | 0 <= n <= |rest| ensures After(w, db, steps[..n + 1]) == After(w, next, rest[..n]) {
        assert steps[..n + 1][0] == steps[0] && steps[..n + 1][1..] == rest[..n];
      }
      if forall n :: 0 <= n <= |steps| ==> Out(w, After(w, db, steps[..n]), i, f) {
        assert Out(w, After(w, db, steps[..0]), i, f);
        forall n | 0 <= n <= |rest| ensures Out(w, After(w, next, rest[..n]), i, f) {
          assert Out(w, After(w, db, steps[..n + 1]), i, f);
        }
      }
      if OutThroughout(w, db, steps, i, f) {
        forall n | 0 <= n <= |steps| ensures Out(w, After(w, db, steps[..n]), i, f) {
          if n > 0 { assert Out(w, After(w, next, rest[..n - 1]), i, f); }
        }
      }
    }
  }

  /** A fingerprint unlinked from an incident stays unlinked after every call of a run
      exactly when no call relinks it. */
  lemma {:induction false} StaysUnlinkedExactlyWhen(w: World, db: Db, steps: seq<Step>, i: string, f: string)
    requires Out(w, db, i, f)
    ensures OutThroughout(w, db, steps, i, f) <==> NoneRelinks(w, db, steps, i, f)
    decreases |steps|
  {
    if steps != [] {
      NextRelinksExactlyWhen(w, db, steps[0], i, f);
      if !StepRelinks(w, db, steps[0], i, f) {
        StaysUnlinkedExactlyWhen(w, Next(w, db, steps[0]), steps[1..], i, f);
      }
    }
  }

  // ---------------------------------------------------------------- corollaries

  /** No step links an unlinked fingerprint of incident `i` on purpose: adds to it exclude
      such or do not name this one, and nothing is merged into it. */
  predicate AlwaysExcludes(steps: seq<Step>, i: string, f: string) {
    forall step :: step in steps ==>
      && (step.AddStep? && step.incident == i ==> step.exclude || f !in step.fps)
      && (step.MergeStep? ==> step.dest != i)
  }

  lemma {:induction false} ExcludingNeverRelinks(w: World, db: Db, steps: seq<Step>, i: string, f: string)
    requires AlwaysExcludes(steps, i, f)
    ensures NoneRelinks(w, db, steps, i, f)
    decreases |steps|
  {
    if steps != [] {
      assert steps[0] in steps;
      ExcludingNeverRelinks(w, Next(w, db, steps[0]), steps[1..], i, f);
    }
  }

  /** When every add that names it excludes unlinked alerts, a fingerprint once unlinked from
      an incident is never live on it again, as long as nothing is merged into the incident. */
  lemma UnlinkedStaysUnlinked(w: World, db: Db, steps: seq<Step>, i: string, f: string)
    requires AlwaysExcludes(steps, i, f) && Out(w, db, i, f)
    ensures forall n :: 0 <= n <= |steps| ==> Out(w, After(w, db, steps[..n]), i, f)
  {
    ExcludingNeverRelinks(w, db, steps, i, f);
    StaysUnlinkedExactlyWhen(w, db, steps, i, f);
    OutAfterEveryPrefix(w, db, steps, i, f);
  }

  lemma {:induction false} MergedTurnLinks(w: World, db: Db, dest: string, cache: map<string, set<string>>,
                                           plans: seq<Plan>, id: string, f: string)
    requires dest in db.incidents && forall p :: p in plans ==> p.source in cache
    requires id in MergeAll(w, db, dest, cache, plans).merged && id in cache && f in cache[id]
    ensures SomeTurnLinks(w, db, dest, cache, plans, f)
    decreases |plans|
  {
    var p := plans[0];
    var (next, fate) := MergeOne(w, db, dest, p, cache[p.source]);
    var db1 := TryRemove(w, db, p, cache[p.source]).0;
    TryAddOutcome(w, db1, dest, cache[p.source], p.faults.adds, ADD_TRIES);
    if !(fate == IsMerged && p.source == id) {
      MergedTurnLinks(w, next, dest, cache, plans[1..], id, f);
    }
  }

  /** A merge does bring an unlinked fingerprint back when one source reported merged had it. */
  lemma MergeRelinks(w: World, db: Db, dest: string, ids: seq<string>, plans: seq<Plan>, id: string, f: string)
    requires dest in db.incidents && Out(w, db, dest, f) && PlansOf(CacheOf(db, ids), plans)
    requires id in CacheOf(db, ids) && f in Live(db.links, id)
    ensures id in MergeAll(w, db, dest, CacheOf(db, ids), plans).merged ==>
            f in Live(Next(w, db, MergeStep(dest, ids, plans)).links, dest)
  {
    NextRelinksExactlyWhen(w, db, MergeStep(dest, ids, plans), dest, f);
    if id in MergeAll(w, db, dest, CacheOf(db, ids), plans).merged {
      MergedTurnLinks(w, db, dest, CacheOf(db, ids), plans, id, f);
    }
  }
}
