/** Merging incidents: every source's alerts are unlinked from it and linked to the
    destination, one source after the other, each call in transactions of its own and
    each able to fail with a database error before or after it committed its links. */
module Merging {
  import opened Values
  import opened OneShotResults
  import opened Ledger
  import opened LedgerLaws
  import opened LedgerStore

  datatype Fault = NoFault | BeforeCommit | AfterCommit

  /** The errors of the database while one source is moved: at the removal, at each attempt
      to add, and whether the merged mark of a source that failed outlives them in the
      shared session. */
  datatype Faults = Faults(removal: Fault, adds: seq<Fault>, markKept: bool)

  /** What happens to one source: the clock, the order of the one-shot results, the errors. */
  datatype Plan = Plan(source: string, now: int, s: Probe, v: Probe, faults: Faults)

  datatype Fate = IsMerged | IsFailed | Aborts

  datatype MergeOut = MergeOut(db: Db, merged: seq<string>, failed: seq<string>, aborted: bool)

  // ---------------------------------------------------------------- specification

  function UnlinkAll(db: Db, i: string, fps: set<string>, now: int): Db {
    db.(links := Unlink(db.links, i, Live(db.links, i) * fps, now))
  }

  /** The removal; database errors are logged and swallowed, others propagate. */
  ghost function TryRemove(w: World, db: Db, p: Plan, fps: set<string>): (r: (Db, bool))
    ensures r.0.incidents.Keys == db.incidents.Keys
  {
    match p.faults.removal
    case NoFault =>
      var (db', o) := Remove(w, db, p.source, fps, p.now, p.s, p.v);
      (db', o == Refused || o == RaisedAfterCommit)
    case BeforeCommit => (db, false)
    case AfterCommit =>
      if p.source !in db.incidents then (db, false)
      else if DeletionClashes(db.links, p.source, Live(db.links, p.source) * fps, p.now) then (db, true)
      else (UnlinkAll(db, p.source, fps, p.now), false)
  }

  /** The add with its retries: an attempt that failed after committing its links leaves
      the next one nothing to link. */
  ghost function TryAdd(w: World, db: Db, dest: string, fps: set<string>, faults: seq<Fault>, tries: nat)
    : (r: (Db, Fate))
    requires dest in db.incidents
    ensures r.0.incidents.Keys == db.incidents.Keys
    decreases tries
  {
    if tries == 0 then (db, IsFailed)
    else
      var rest := if faults == [] then [] else faults[1..];
      var added := ToLink(db, dest, fps, false);
      match if faults == [] then NoFault else faults[0]
      case BeforeCommit => TryAdd(w, db, dest, fps, rest, tries - 1)
      case AfterCommit =>
        if added == {} then (db, IsMerged)
        else if !(added <= w.latest.Keys) then (db, Aborts)
        else TryAdd(w, db.(links := Linked(db.links, dest, added)), dest, fps, rest, tries - 1)
      case NoFault =>
        var (db', o) := Add(w, db, dest, fps, false);
        (db', if o == Updated || o == NothingToLink then IsMerged else Aborts)
  }

  function Marked(inc: Incident, dest: string): Incident {
    inc.(status := MergedIncident, mergedInto := Some(dest))
  }

  function Mark(db: Db, source: string, dest: string): Db {
    if source !in db.incidents then db
    else db.(incidents := db.incidents[source := Marked(db.incidents[source], dest)])
  }

  /** The mark is set in the shared session before the two calls, and stored by its next
      commit: that of the links, or the last one. */
  predicate MarkStored(before: set<Link>, after: set<Link>, fate: Fate, kept: bool) {
    fate == IsMerged || after != before || (fate == IsFailed && kept)
  }

  ghost function MergeOne(w: World, db: Db, dest: string, p: Plan, fps: set<string>): (r: (Db, Fate))
    requires dest in db.incidents
    ensures r.0.incidents.Keys == db.incidents.Keys
  {
    var (db1, aborts) := TryRemove(w, db, p, fps);
    if aborts then (db1, Aborts)
    else
      var (db2, fate) := TryAdd(w, db1, dest, fps, p.faults.adds, ADD_TRIES);
      (if MarkStored(db1.links, db2.links, fate, p.faults.markKept) then Mark(db2, p.source, dest) else db2, fate)
  }

  /** `cache` holds each source's live fingerprints as read before the first move. */
  ghost function MergeAll(w: World, db: Db, dest: string, cache: map<string, set<string>>, plans: seq<Plan>): MergeOut
    requires dest in db.incidents && forall p :: p in plans ==> p.source in cache
    decreases |plans|
  {
    if plans == [] then MergeOut(db, [], [], false)
    else
      var p := plans[0];
      var (db', fate) := MergeOne(w, db, dest, p, cache[p.source]);
      if fate == Aborts then MergeOut(db', [], [], true)
      else Before(p.source, fate, MergeAll(w, db', dest, cache, plans[1..]))
  }

  /** A removal that completed probed its one-shot results in some order of its names. */
  ghost predicate ProbesPossible(w: World, db: Db, p: Plan, fps: set<string>) {
    p.faults.removal == NoFault && p.source in db.incidents && !TryRemove(w, db, p, fps).1 ==>
      ProbesOf(w, db, p.source, fps, p.s, p.v)
  }

  ghost predicate PlansPossible(w: World, db: Db, dest: string, cache: map<string, set<string>>, plans: seq<Plan>)
    requires dest in db.incidents && forall p :: p in plans ==> p.source in cache
    decreases |plans|
  {
    plans != [] ==>
      && ProbesPossible(w, db, plans[0], cache[plans[0].source])
      && PlansPossible(w, MergeOne(w, db, dest, plans[0], cache[plans[0].source]).0, dest, cache, plans[1..])
  }

  function Before(source: string, fate: Fate, rest: MergeOut): MergeOut {
    if fate == IsMerged then rest.(merged := [source] + rest.merged) else rest.(failed := [source] + rest.failed)
  }

  /** The result so far, extended by what became of one more source. */
  function Extended(m: MergeOut, source: string, step: (Db, Fate)): MergeOut {
    match step.1
    case Aborts => m.(db := step.0, aborted := true)
    case IsMerged => m.(db := step.0, merged := m.merged + [source])
    case IsFailed => m.(db := step.0, failed := m.failed + [source])
  }

  lemma BeforeExtended(a: string, fate: Fate, m: MergeOut, b: string, step: (Db, Fate))
    ensures Before(a, fate, Extended(m, b, step)) == Extended(Before(a, fate, m), b, step)
  {
    assert [a] + (m.merged + [b]) == ([a] + m.merged) + [b];
    assert [a] + (m.failed + [b]) == ([a] + m.failed) + [b];
  }

  // ---------------------------------------------------------------- the code

  class Merger {
    const store: Store

    constructor (store: Store)
      ensures this.store == store
    {
      this.store := store;
    }

    method RemoveLogged(i: string, fps: seq<string>, now: int, fault: Fault)
      returns (aborts: bool, ghost s: Probe, ghost v: Probe)
      requires ValidDb(store.world, store.View())
      modifies store
      ensures forall adds, kept ::
        (store.View(), aborts)
        == TryRemove(store.world, old(store.View()), Plan(i, now, s, v, Faults(fault, adds, kept)), Elements(fps))
      ensures fault == NoFault && !aborts && i in store.incidents ==>
        ProbesOf(store.world, old(store.View()), i, Elements(fps), s, v)
    {
      s, v := Probe([], []), Probe([], []);
      match fault
      case NoFault =>
        var outcome, _, s', v' := store.RemoveAlerts(i, fps, now);
        return outcome == Refused || outcome == RaisedAfterCommit, s', v';
      case BeforeCommit =>
        return false, s, v;
      case AfterCommit =>
        if i !in store.incidents {
          return false, s, v;
        }
        var gone := Live(store.links, i) * Elements(fps);
        if DeletionClashes(store.links, i, gone, now) {
          return true, s, v;
        }
        store.links := Unlink(store.links, i, gone, now);
        return false, s, v;
    }

    method AddRetried(i: string, fps: seq<string>, faults: seq<Fault>) returns (fate: Fate)
      requires i in store.incidents
      modifies store
      ensures (store.View(), fate) == TryAdd(store.world, old(store.View()), i, Elements(fps), faults, ADD_TRIES)
    {
      var left: nat, pending := ADD_TRIES, faults;
      while left > 0
        invariant left <= ADD_TRIES && i in store.incidents
        invariant TryAdd(store.world, store.View(), i, Elements(fps), pending, left)
               == TryAdd(store.world, old(store.View()), i, Elements(fps), faults, ADD_TRIES)
        decreases left
      {
        var fault := if pending == [] then NoFault else pending[0];
        pending := if pending == [] then [] else pending[1..];
        left := left - 1;
        match fault
        case NoFault =>
          var outcome := store.AddAlerts(i, fps, false);
          return if outcome == Updated || outcome == NothingToLink then IsMerged else Aborts;
        case BeforeCommit =>
        case AfterCommit =>
          var added := ToLink(store.View(), i, Elements(fps), false);
          if added == {} {
            return IsMerged;
          }
          if !(added <= store.world.latest.Keys) {
            return Aborts;
          }
          store.InsertLinks(i, added);
      }
      return IsFailed;
    }

    /** Moves the cached alerts of one source and stores its mark. */
    method MergeSource(source: string, alerts: set<string>, dest: string, now: int, faults: Faults)
      returns (fate: Fate, ghost p: Plan)
      requires dest in store.incidents && ValidDb(store.world, store.View())
      modifies store
      ensures p.source == source && p.now == now && p.faults == faults
      ensures (store.View(), fate) == MergeOne(store.world, old(store.View()), dest, p, alerts)
      ensures ProbesPossible(store.world, old(store.View()), p, alerts)
      ensures ValidDb(store.world, store.View()) && dest in store.incidents
    {
      var fps := SomeOrder(alerts);
      var aborts, s, v := RemoveLogged(source, fps, now, faults.removal);
      p := Plan(source, now, s, v, faults);
      MergeOneValid(store.world, old(store.View()), dest, p, alerts);
      if aborts {
        return Aborts, p;
      }
      var before := store.links;
      fate := AddRetried(dest, fps, faults.adds);
      if MarkStored(before, store.links, fate, faults.markKept) && source in store.incidents {
        store.incidents := store.incidents[source := Marked(store.incidents[source], dest)];
      }
    }

    /** `merge_incidents_to_id`; `found` is false when there is no destination. */
    method MergeIncidentsToId(ids: seq<string>, dest: string, clock: nat -> int, faults: nat -> Faults)
      returns (found: bool, merged: seq<string>, failed: seq<string>, aborted: bool, ghost plans: seq<Plan>)
      requires ValidDb(store.world, store.View())
      modifies store
      ensures found == (dest in old(store.incidents))
      ensures !found ==> store.View() == old(store.View())
      ensures found ==> var cache := CacheOf(old(store.View()), ids);
        && (!aborted ==> Elements(Sources(plans)) == cache.Keys)
        && Reported(store.world, old(store.View()), dest, cache, clock, faults, plans,
                    MergeOut(store.View(), merged, failed, aborted))
    {
      merged, failed, aborted, plans := [], [], false, [];
      if dest !in store.incidents {
        return false, [], [], false, [];
      }
      var cache := CacheOf(store.View(), ids);
      var order := SomeOrder(cache.Keys);
      ghost var start := store.View();
      for n := 0 to |order|
        invariant dest in store.incidents && ValidDb(store.world, store.View())
        invariant Sources(plans) == order[..n]
        invariant Reported(store.world, start, dest, cache, clock, faults, plans,
                           MergeOut(store.View(), merged, failed, false))
      {
        var source := order[n];
        assert source in Elements(order);
        ghost var before := MergeOut(store.View(), merged, failed, false);
        var fate, p := MergeSource(source, cache[source], dest, clock(n), faults(n));
        ReportedSnoc(store.world, start, dest, cache, clock, faults, plans, before, order, p);
        plans := plans + [p];
        match fate
        case IsMerged => merged := merged + [source];
        case IsFailed => failed := failed + [source];
        case Aborts => return true, merged, failed, true, plans;
      }
      assert order[..|order|] == order;
      return true, merged, failed, false, plans;
    }
  }

  /** The live fingerprints of the incidents found, read once before anything moves. */
  function CacheOf(db: Db, ids: seq<string>): map<string, set<string>> {
    map i | i in Elements(ids) && i in db.incidents :: Live(db.links, i)
  }

  /** Plans for found incidents, none twice. */
  predicate PlansOf(cache: map<string, set<string>>, plans: seq<Plan>) {
    (forall p :: p in plans ==> p.source in cache) && Distinct(Sources(plans))
  }

  /** `m` is what the plans lead to, and each plan carries the clock and the errors of its turn. */
  ghost predicate Reported(w: World, start: Db, dest: string, cache: map<string, set<string>>,
                           clock: nat -> int, faults: nat -> Faults, plans: seq<Plan>, m: MergeOut)
    requires dest in start.incidents
  {
    && PlansOf(cache, plans)
    && InTurn(clock, faults, plans)
    && PlansPossible(w, start, dest, cache, plans)
    && MergeAll(w, start, dest, cache, plans) == m
  }

  lemma ReportedSnoc(w: World, start: Db, dest: string, cache: map<string, set<string>>,
                     clock: nat -> int, faults: nat -> Faults, plans: seq<Plan>, m: MergeOut,
                     order: seq<string>, p: Plan)
    requires dest in start.incidents && dest in m.db.incidents && !m.aborted
    requires Reported(w, start, dest, cache, clock, faults, plans, m)
    requires |plans| < |order| && IsOrder(order, cache.Keys) && Sources(plans) == order[..|plans|]
    requires p.source == order[|plans|] && p.source in cache && p.now == clock(|plans|)
    requires p.faults == faults(|plans|)
    requires ProbesPossible(w, m.db, p, cache[p.source])
    ensures Sources(plans + [p]) == order[..|plans| + 1]
    ensures Reported(w, start, dest, cache, clock, faults, plans + [p],
                     Extended(m, p.source, MergeOne(w, m.db, dest, p, cache[p.source])))
  {
    PlanSnoc(cache, order, plans, p);
    TurnSnoc(clock, faults, plans, p);
    MergeSnoc(w, start, dest, cache, plans, p);
    PossibleSnoc(w, start, dest, cache, plans, p);
  }

  lemma PlanSnoc(cache: map<string, set<string>>, order: seq<string>, plans: seq<Plan>, p: Plan)
    requires |plans| < |order| && IsOrder(order, cache.Keys) && p.source == order[|plans|] && p.source in cache
    requires Sources(plans) == order[..|plans|] && PlansOf(cache, plans)
    ensures Sources(plans + [p]) == order[..|plans| + 1] && PlansOf(cache, plans + [p])
  {
    assert Sources(plans + [p]) == order[..|plans| + 1];
  }

  predicate InTurn(clock: nat -> int, faults: nat -> Faults, plans: seq<Plan>) {
    forall k :: 0 <= k < |plans| ==> plans[k].now == clock(k) && plans[k].faults == faults(k)
  }

  lemma TurnSnoc(clock: nat -> int, faults: nat -> Faults, plans: seq<Plan>, p: Plan)
    requires InTurn(clock, faults, plans) && p.now == clock(|plans|) && p.faults == faults(|plans|)
    ensures InTurn(clock, faults, plans + [p])
  {
  }

  function Sources(plans: seq<Plan>): seq<string> {
    seq(|plans|, k requires 0 <= k < |plans| => plans[k].source)
  }

  /** Merging one more source extends the result of those before it. */
  lemma {:induction false} MergeSnoc(w: World, db: Db, dest: string, cache: map<string, set<string>>,
                                     plans: seq<Plan>, p: Plan)
    requires dest in db.incidents && p.source in cache && forall q :: q in plans ==> q.source in cache
    requires !MergeAll(w, db, dest, cache, plans).aborted
    ensures forall q :: q in plans + [p] ==> q.source in cache
    ensures var m := MergeAll(w, db, dest, cache, plans);
      dest in m.db.incidents
      && MergeAll(w, db, dest, cache, plans + [p]) == Extended(m, p.source, MergeOne(w, m.db, dest, p, cache[p.source]))
    decreases |plans|
  {
    if plans == [] {
      assert (plans + [p])[1..] == [];
      assert [p.source] + [] == [] + [p.source];
    } else {
      var (next, fate) := MergeOne(w, db, dest, plans[0], cache[plans[0].source]);
      var m := MergeAll(w, next, dest, cache, plans[1..]);
      MergeSnoc(w, next, dest, cache, plans[1..], p);
      assert (plans + [p])[0] == plans[0] && (plans + [p])[1..] == plans[1..] + [p];
      BeforeExtended(plans[0].source, fate, m, p.source, MergeOne(w, m.db, dest, p, cache[p.source]));
    }
  }

  lemma {:induction false} PossibleSnoc(w: World, db: Db, dest: string, cache: map<string, set<string>>,
                                        plans: seq<Plan>, p: Plan)
    requires dest in db.incidents && p.source in cache && forall q :: q in plans ==> q.source in cache
    requires !MergeAll(w, db, dest, cache, plans).aborted && PlansPossible(w, db, dest, cache, plans)
    requires ProbesPossible(w, MergeAll(w, db, dest, cache, plans).db, p, cache[p.source])
    ensures forall q :: q in plans + [p] ==> q.source in cache
    ensures PlansPossible(w, db, dest, cache, plans + [p])
    decreases |plans|
  {
    if plans == [] {
      assert (plans + [p])[1..] == [];
    } else {
      PossibleSnoc(w, MergeOne(w, db, dest, plans[0], cache[plans[0].source]).0, dest, cache, plans[1..], p);
      assert (plans + [p])[0] == plans[0] && (plans + [p])[1..] == plans[1..] + [p];
    }
  }

  lemma {:induction false} TryAddValid(w: World, db: Db, dest: string, fps: set<string>, faults: seq<Fault>,
                                       tries: nat)
    requires dest in db.incidents && ValidDb(w, db)
    ensures ValidDb(w, TryAdd(w, db, dest, fps, faults, tries).0)
    decreases tries
  {
    if tries > 0 {
      var rest := if faults == [] then [] else faults[1..];
      var added := ToLink(db, dest, fps, false);
      match if faults == [] then NoFault else faults[0]
      case BeforeCommit => TryAddValid(w, db, dest, fps, rest, tries - 1);
      case AfterCommit =>
        if added != {} && added <= w.latest.Keys {
          TryAddValid(w, db.(links := Linked(db.links, dest, added)), dest, fps, rest, tries - 1);
        }
      case NoFault => AddLinks(w, db, dest, fps, false);
    }
  }

  lemma TryRemoveValid(w: World, db: Db, p: Plan, fps: set<string>)
    requires ValidDb(w, db)
    ensures ValidDb(w, TryRemove(w, db, p, fps).0)
  {
    if p.source in db.incidents {
      RemoveLinks(w, db, p.source, fps, p.now, p.s, p.v);
      forall l | l in UnlinkAll(db, p.source, fps, p.now).links ensures l.fp in w.latest && l.incident in db.incidents {
        if l !in db.links { assert Link(p.source, l.fp, None) in db.links; }
      }
    }
  }

  lemma MergeOneValid(w: World, db: Db, dest: string, p: Plan, fps: set<string>)
    requires dest in db.incidents && ValidDb(w, db)
    ensures ValidDb(w, MergeOne(w, db, dest, p, fps).0)
  {
    TryRemoveValid(w, db, p, fps);
    var (db1, aborts) := TryRemove(w, db, p, fps);
    TryAddValid(w, db1, dest, fps, p.faults.adds, ADD_TRIES);
  }
}
