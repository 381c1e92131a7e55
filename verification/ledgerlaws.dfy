/** The stored aggregates against a recomputation over the live links, call by call. */
module LedgerLaws {
  import opened Values
  import opened OneShotResults
  import opened Ledger

  // ---------------------------------------------------------------- agreement

  predicate CountOk(db: Db, i: string)
    requires i in db.incidents
  {
    db.incidents[i].alertsCount == |Live(db.links, i)|
  }

  /** `stored` is the recomputation, or at least carries nothing that is not in it. */
  predicate NamesOk(stored: set<string>, recomputed: set<string>, exact: bool) {
    if exact then stored == recomputed else stored <= recomputed
  }

  predicate SeverityOk(w: World, inc: Incident, live: set<string>) {
    live != {} && !inc.forcedSeverity ==> inc.severity == MaxSeverity(w, live)
  }

  predicate TimesCover(w: World, inc: Incident, live: set<string>) {
    live != {} ==>
      && inc.startTime.Some? && inc.lastSeenTime.Some?
      && forall f :: f in live && f in w.latest ==>
           inc.startTime.value <= SeenAt(w.latest[f]) <= inc.lastSeenTime.value
  }

  /** The aggregates of incident `i` agree with its live links. */
  predicate InStep(w: World, db: Db, i: string, exact: bool) {
    i in db.incidents ==>
      var inc, live := db.incidents[i], Live(db.links, i);
      && CountOk(db, i)
      && NamesOk(inc.sources, SourcesOf(w, live), exact)
      && NamesOk(inc.services, ServicesOf(w, live), exact)
      && SeverityOk(w, inc, live)
      && TimesCover(w, inc, live)
  }

  // ---------------------------------------------------------------- recomputation over unions and differences

  lemma NamesOfUnion(w: World, a: set<string>, b: set<string>)
    ensures SourcesOf(w, a + b) == SourcesOf(w, a) + SourcesOf(w, b)
    ensures ServicesOf(w, a + b) == ServicesOf(w, a) + ServicesOf(w, b)
  {
  }

  lemma MaxSeverityOfUnion(w: World, a: set<string>, b: set<string>)
    ensures var x, y := MaxSeverity(w, a), MaxSeverity(w, b); MaxSeverity(w, a + b) == if x > y then x else y
  {
    var m := MaxSeverity(w, a + b);
    if m != 1 {
      var f :| f in a + b && f in w.latest && OrderOf(w.latest[f].severity) == m;
    }
  }

  lemma HistoryCovers(w: World, live: set<string>, f: string)
    requires ValidWorld(w) && f in live && f in w.latest
    ensures SeenAt(w.latest[f]) in HistoryTimes(w, live)
    ensures SeenAt(w.latest[f]) in LatestTimes(w, live)
  {
    assert w.latest[f] in w.history[f];
  }

  /** Bounds over any times that include the latest ones cover the latest ones. */
  lemma BoundsCover(w: World, inc: Incident, live: set<string>, times: set<int>)
    requires live <= w.latest.Keys
    requires (inc.startTime, inc.lastSeenTime) == Bounds(times)
    requires forall f :: f in live ==> SeenAt(w.latest[f]) in times
    ensures TimesCover(w, inc, live)
  {
    if live != {} {
      var f :| f in live;
      assert SeenAt(w.latest[f]) in times;
    }
  }

  // ---------------------------------------------------------------- add

  lemma AddLeavesOthers(w: World, db: Db, i: string, fps: set<string>, exclude: bool, j: string)
    requires i in db.incidents && i != j
    ensures var db' := Add(w, db, i, fps, exclude).0;
      Live(db'.links, j) == Live(db.links, j) && (j in db'.incidents <==> j in db.incidents)
      && (j in db.incidents ==> db'.incidents[j] == db.incidents[j])
  {
    LinkedLive(db.links, i, ToLink(db, i, fps, exclude), j);
  }

  /** What a call to add leaves linked, whatever became of it. */
  lemma AddLinks(w: World, db: Db, i: string, fps: set<string>, exclude: bool)
    requires i in db.incidents && ValidDb(w, db)
    ensures var (db', r) := Add(w, db, i, fps, exclude);
      && ValidDb(w, db')
      && Live(db'.links, i) == Live(db.links, i) + (if r == Refused then {} else ToLink(db, i, fps, exclude))
      && Unlinked(db'.links, i) == Unlinked(db.links, i)
      && (r == NothingToLink <==> ToLink(db, i, fps, exclude) == {})
  {
    var added := ToLink(db, i, fps, exclude);
    LinkedLive(db.links, i, added, i);
    if added <= w.latest.Keys {
      assert forall l :: l in Linked(db.links, i, added) ==> l in db.links || (l.fp in added && l.incident == i);
    }
  }

  lemma AddKeepsNames(w: World, db: Db, i: string, fps: set<string>, exclude: bool, exact: bool)
    requires i in db.incidents && ValidDb(w, db) && InStep(w, db, i, exact)
    requires Add(w, db, i, fps, exclude).1 == Updated
    ensures var db' := Add(w, db, i, fps, exclude).0; var live := Live(db'.links, i);
      && NamesOk(db'.incidents[i].sources, SourcesOf(w, live), exact)
      && NamesOk(db'.incidents[i].services, ServicesOf(w, live), exact)
  {
    AddLinks(w, db, i, fps, exclude);
    NamesOfUnion(w, Live(db.links, i), ToLink(db, i, fps, exclude));
  }

  /** The cached severity against that of the new alerts gives that of all. */
  lemma SeverityAfterAdd(w: World, inc: Incident, live: set<string>, added: set<string>)
    requires inc.alertsCount == |live| && SeverityOk(w, inc, live)
    ensures SeverityOk(w, AfterAdd(w, inc, live + added, added), live + added)
  {
    if live == {} {
      assert live + added == added;
    } else {
      assert |live| != 0;
      MaxSeverityOfUnion(w, live, added);
    }
  }

  lemma AddKeepsSeverity(w: World, db: Db, i: string, fps: set<string>, exclude: bool)
    requires i in db.incidents && CountOk(db, i) && SeverityOk(w, db.incidents[i], Live(db.links, i))
    requires Add(w, db, i, fps, exclude).1 == Updated
    ensures var db' := Add(w, db, i, fps, exclude).0; SeverityOk(w, db'.incidents[i], Live(db'.links, i))
  {
    AddUpdates(w, db, i, fps, exclude);
    SeverityAfterAdd(w, db.incidents[i], Live(db.links, i), ToLink(db, i, fps, exclude));
  }

  lemma AddUpdates(w: World, db: Db, i: string, fps: set<string>, exclude: bool)
    requires i in db.incidents && Add(w, db, i, fps, exclude).1 == Updated
    ensures var db' := Add(w, db, i, fps, exclude).0;
      var added := ToLink(db, i, fps, exclude); var all := Live(db.links, i) + added;
      Live(db'.links, i) == all && db'.incidents[i] == AfterAdd(w, db.incidents[i], all, added)
  {
    var added := ToLink(db, i, fps, exclude);
    LinkedLive(db.links, i, added, i);
    assert Live(Linked(db.links, i, added), i) == Live(db.links, i) + added;
  }

  lemma AddKeepsTimes(w: World, db: Db, i: string, fps: set<string>, exclude: bool)
    requires i in db.incidents && ValidWorld(w) && ValidDb(w, db)
    requires Add(w, db, i, fps, exclude).1 == Updated
    ensures var db' := Add(w, db, i, fps, exclude).0; TimesCover(w, db'.incidents[i], Live(db'.links, i))
  {
    var db' := Add(w, db, i, fps, exclude).0;
    AddLinks(w, db, i, fps, exclude);
    HistoryBoundsCover(w, db', i);
  }

  lemma LiveIsKnown(w: World, db: Db, i: string)
    requires ValidDb(w, db)
    ensures Live(db.links, i) <= w.latest.Keys
  {
    assert forall f :: f in Live(db.links, i) ==> Link(i, f, None) in db.links;
  }

  lemma HistoryBoundsCover(w: World, db: Db, i: string)
    requires ValidWorld(w) && ValidDb(w, db) && i in db.incidents
    requires (db.incidents[i].startTime, db.incidents[i].lastSeenTime) == Bounds(HistoryTimes(w, Live(db.links, i)))
    ensures TimesCover(w, db.incidents[i], Live(db.links, i))
  {
    var live := Live(db.links, i);
    LiveIsKnown(w, db, i);
    forall f | f in live ensures SeenAt(w.latest[f]) in HistoryTimes(w, live) {
      HistoryCovers(w, live, f);
    }
    BoundsCover(w, db.incidents[i], live, HistoryTimes(w, live));
  }

  /** Adding keeps every incident in step unless it raised after committing its links. */
  lemma AddKeepsInStep(w: World, db: Db, i: string, fps: set<string>, exclude: bool, j: string, exact: bool)
    requires i in db.incidents && ValidWorld(w) && ValidDb(w, db)
    requires InStep(w, db, i, exact) && InStep(w, db, j, exact)
    requires Add(w, db, i, fps, exclude).1 != RaisedAfterCommit
    ensures InStep(w, Add(w, db, i, fps, exclude).0, j, exact)
  {
    if j != i {
      AddLeavesOthers(w, db, i, fps, exclude, j);
    } else if Add(w, db, i, fps, exclude).1 == Updated {
      AddKeepsNames(w, db, i, fps, exclude, exact);
      AddKeepsSeverity(w, db, i, fps, exclude);
      AddKeepsTimes(w, db, i, fps, exclude);
    }
  }

  /** The cached count after an add is right exactly when every new fingerprint's severity
      text is accepted, or one of them has no row and the links are refused altogether. */
  lemma AddCountsExactlyWhen(w: World, db: Db, i: string, fps: set<string>, exclude: bool)
    requires i in db.incidents && CountOk(db, i)
    ensures var added := ToLink(db, i, fps, exclude);
      CountOk(Add(w, db, i, fps, exclude).0, i) <==> Readable(w, added) || !(added <= w.latest.Keys)
  {
    var added := ToLink(db, i, fps, exclude);
    LinkedLive(db.links, i, added, i);
    SizeOfParts(Live(db.links, i), added);
    if added == {} { assert Readable(w, added); }
  }

  lemma SizeOfParts(a: set<string>, b: set<string>)
    requires a !! b
    ensures |a + b| == |a| + |b|
    ensures b != {} ==> |b| > 0
  {
  }

  // ---------------------------------------------------------------- remove

  lemma RemoveLeavesOthers(w: World, db: Db, i: string, fps: set<string>, now: int, s: Probe, v: Probe, j: string)
    requires i != j
    ensures var db' := Remove(w, db, i, fps, now, s, v).0;
      Live(db'.links, j) == Live(db.links, j) && (j in db'.incidents <==> j in db.incidents)
      && (j in db.incidents ==> db'.incidents[j] == db.incidents[j])
  {
    UnlinkedLive(db.links, i, Live(db.links, i) * fps, now, j);
  }

  /** What a call to remove leaves linked, whatever became of it. */
  lemma RemoveLinks(w: World, db: Db, i: string, fps: set<string>, now: int, s: Probe, v: Probe)
    requires i in db.incidents && ValidDb(w, db)
    ensures var (db', r) := Remove(w, db, i, fps, now, s, v);
      && ValidDb(w, db')
      && Live(db'.links, i) == (if r == Refused then Live(db.links, i) else Remaining(db, i, fps))
      && Unlinked(db'.links, i) == Unlinked(db.links, i) + (if r == Refused then {} else Live(db.links, i) * fps)
  {
    var gone := Live(db.links, i) * fps;
    UnlinkedLive(db.links, i, gone, now, i);
    assert Live(db.links, i) - gone == Remaining(db, i, fps);
    forall l | l in Unlink(db.links, i, gone, now) ensures l.fp in w.latest && l.incident in db.incidents {
      if l !in db.links { assert Link(i, l.fp, None) in db.links; }
    }
  }

  /** What removing the missed candidates does to a stored name set that was right. */
  lemma MissedNames(p: Probe, before: set<string>, after: set<string>, candidates: set<string>)
    requires ProbeOf(p, after, candidates)
    requires after <= before && before - after <= candidates
    ensures forall stored :: stored <= before ==> stored - Missed(p) <= after
    ensures before - Missed(p) == after <==> p.rows <= p.candidates
  {
    FoundIsThere(p.rows, p.candidates);
    AllFoundExactlyWhen(p.rows, p.candidates);
    var found := Found(p.rows, p.candidates);
    assert Elements(p.rows) == after * candidates;
    assert found <= after;
    forall x | x in before && x !in after ensures x in Missed(p) { assert x in candidates; }
    if before - Missed(p) == after {
      assert Elements(p.rows) <= found;
    }
  }

  lemma NamesLeft(w: World, live: set<string>, fps: set<string>)
    ensures SourcesOf(w, live - fps) <= SourcesOf(w, live)
    ensures SourcesOf(w, live) - SourcesOf(w, live - fps) <= SourcesOf(w, fps)
    ensures ServicesOf(w, live - fps) <= ServicesOf(w, live)
    ensures ServicesOf(w, live) - ServicesOf(w, live - fps) <= ServicesOf(w, fps)
  {
    assert live == (live - fps) + (live * fps) && fps == (live * fps) + (fps - live);
    NamesOfUnion(w, live - fps, live * fps);
    NamesOfUnion(w, live * fps, fps - live);
  }

  /** Both one-shot results are probed in the order of their rows. */
  predicate ProbedInOrder(s: Probe, v: Probe) {
    s.rows <= s.candidates && v.rows <= v.candidates
  }

  lemma RemoveKeepsNames(w: World, db: Db, i: string, fps: set<string>, now: int, s: Probe, v: Probe, exact: bool)
    requires i in db.incidents && ValidDb(w, db) && InStep(w, db, i, exact) && ProbesOf(w, db, i, fps, s, v)
    requires Remove(w, db, i, fps, now, s, v).1 == Updated
    requires exact ==> ProbedInOrder(s, v)
    ensures var db' := Remove(w, db, i, fps, now, s, v).0; var live := Live(db'.links, i);
      && NamesOk(db'.incidents[i].sources, SourcesOf(w, live), exact)
      && NamesOk(db'.incidents[i].services, ServicesOf(w, live), exact)
  {
    var live, left := Live(db.links, i), Remaining(db, i, fps);
    RemoveLinks(w, db, i, fps, now, s, v);
    NamesLeft(w, live, fps);
    MissedNames(s, SourcesOf(w, live), SourcesOf(w, left), SourcesOf(w, fps));
    MissedNames(v, ServicesOf(w, live), ServicesOf(w, left), ServicesOf(w, fps));
  }

  lemma RemoveKeepsTimes(w: World, db: Db, i: string, fps: set<string>, now: int, s: Probe, v: Probe)
    requires i in db.incidents && ValidWorld(w) && ValidDb(w, db)
    requires Remove(w, db, i, fps, now, s, v).1 == Updated
    ensures var db' := Remove(w, db, i, fps, now, s, v).0; TimesCover(w, db'.incidents[i], Live(db'.links, i))
  {
    var db' := Remove(w, db, i, fps, now, s, v).0;
    var live := Live(db'.links, i);
    RemoveLinks(w, db, i, fps, now, s, v);
    forall f | f in live ensures f in w.latest && SeenAt(w.latest[f]) in LatestTimes(w, live) {
      assert Link(i, f, None) in db'.links;
    }
    BoundsCover(w, db'.incidents[i], live, LatestTimes(w, live));
  }

  /** Removing keeps every incident in step unless it raised after committing; the names
      stay exact when both results were probed in row order, and never gain a name that no
      live link carries in any order. */
  lemma RemoveKeepsInStep(w: World, db: Db, i: string, fps: set<string>, now: int, s: Probe, v: Probe,
                          j: string, exact: bool)
    requires ValidWorld(w) && ValidDb(w, db)
    requires InStep(w, db, i, exact) && InStep(w, db, j, exact)
    requires i in db.incidents ==> ProbesOf(w, db, i, fps, s, v) && (exact ==> ProbedInOrder(s, v))
    requires Remove(w, db, i, fps, now, s, v).1 != RaisedAfterCommit
    ensures InStep(w, Remove(w, db, i, fps, now, s, v).0, j, exact)
  {
    if j != i {
      RemoveLeavesOthers(w, db, i, fps, now, s, v, j);
    } else if Remove(w, db, i, fps, now, s, v).1 == Updated {
      RemoveKeepsNames(w, db, i, fps, now, s, v, exact);
      RemoveKeepsTimes(w, db, i, fps, now, s, v);
    }
  }

  /** From exact names, a removal that completes leaves exact names exactly when each
      one-shot result was probed in the order of its rows. */
  lemma RemoveNamesExactlyWhen(w: World, db: Db, i: string, fps: set<string>, now: int, s: Probe, v: Probe)
    requires i in db.incidents && ValidDb(w, db) && InStep(w, db, i, true) && ProbesOf(w, db, i, fps, s, v)
    requires Remove(w, db, i, fps, now, s, v).1 == Updated
    ensures var db' := Remove(w, db, i, fps, now, s, v).0; var live := Live(db'.links, i);
      && (db'.incidents[i].sources == SourcesOf(w, live) <==> s.rows <= s.candidates)
      && (db'.incidents[i].services == ServicesOf(w, live) <==> v.rows <= v.candidates)
  {
    var live, left := Live(db.links, i), Remaining(db, i, fps);
    RemoveLinks(w, db, i, fps, now, s, v);
    NamesLeft(w, live, fps);
    MissedNames(s, SourcesOf(w, live), SourcesOf(w, left), SourcesOf(w, fps));
    MissedNames(v, ServicesOf(w, live), ServicesOf(w, left), ServicesOf(w, fps));
  }

  /** A removal of `fps` that gets through whatever its results return. */
  predicate RemoveCompletes(w: World, db: Db, i: string, fps: set<string>, now: int) {
    && !DeletionClashes(db.links, i, Live(db.links, i) * fps, now)
    && Readable(w, fps) && Resolvable(w, Remaining(db, i, fps))
  }

  lemma RemoveOutcome(w: World, db: Db, i: string, fps: set<string>, now: int, s: Probe, v: Probe)
    requires i in db.incidents
    ensures Remove(w, db, i, fps, now, s, v).1
         == (if DeletionClashes(db.links, i, Live(db.links, i) * fps, now) then Refused
             else if RemoveCompletes(w, db, i, fps, now) then Updated else RaisedAfterCommit)
  {
    var gone := Live(db.links, i) * fps;
    UnlinkedLive(db.links, i, gone, now, i);
    assert Live(db.links, i) - gone == Remaining(db, i, fps);
  }

  /** No candidate is carried by what remains, or there is a single candidate. */
  predicate OrderCannotMatter(left: set<string>, candidates: set<string>) {
    left * candidates == {} || |candidates| == 1
  }

  lemma SomeProbe(left: set<string>, candidates: set<string>) returns (p: Probe)
    ensures ProbeOf(p, left, candidates)
    ensures !OrderCannotMatter(left, candidates) ==> !(p.rows <= p.candidates)
  {
    var carried := left * candidates;
    AnyOrderWorksExactlyWhen(carried, candidates);
    if OrderCannotMatter(left, candidates) {
      p := Probe(OrderOfSet(carried), OrderOfSet(candidates));
    } else {
      var r, c :| IsOrder(r, carried) && IsOrder(c, candidates) && Found(r, c) != carried;
      AllFoundExactlyWhen(r, c);
      p := Probe(r, c);
    }
  }

  lemma OrderlyProbe(p: Probe, left: set<string>, candidates: set<string>)
    requires ProbeOf(p, left, candidates) && OrderCannotMatter(left, candidates)
    ensures p.rows <= p.candidates
  {
    AnyOrderWorksExactlyWhen(left * candidates, candidates);
    AllFoundExactlyWhen(p.rows, p.candidates);
  }

  /** The names after a removal that gets through, from exact ones, are exact whatever order
      the database and the sets choose, exactly when what remains carries no name of the
      removed alerts or those have a single name; for sources and for services alike. */
  lemma RemoveNamesSafeExactlyWhen(w: World, db: Db, i: string, fps: set<string>, now: int)
    requires i in db.incidents && ValidDb(w, db) && InStep(w, db, i, true) && RemoveCompletes(w, db, i, fps, now)
    ensures var left := Remaining(db, i, fps);
      && ((forall s, v :: ProbesOf(w, db, i, fps, s, v) ==>
             Remove(w, db, i, fps, now, s, v).0.incidents[i].sources == SourcesOf(w, left))
          <==> OrderCannotMatter(SourcesOf(w, left), SourcesOf(w, fps)))
      && ((forall s, v :: ProbesOf(w, db, i, fps, s, v) ==>
             Remove(w, db, i, fps, now, s, v).0.incidents[i].services == ServicesOf(w, left))
          <==> OrderCannotMatter(ServicesOf(w, left), ServicesOf(w, fps)))
  {
    var left := Remaining(db, i, fps);
    forall s, v | ProbesOf(w, db, i, fps, s, v)
      ensures var inc := Remove(w, db, i, fps, now, s, v).0.incidents[i];
        && (inc.sources == SourcesOf(w, left) <==> s.rows <= s.candidates)
        && (inc.services == ServicesOf(w, left) <==> v.rows <= v.candidates)
        && (OrderCannotMatter(SourcesOf(w, left), SourcesOf(w, fps)) ==> s.rows <= s.candidates)
        && (OrderCannotMatter(ServicesOf(w, left), ServicesOf(w, fps)) ==> v.rows <= v.candidates)
    {
      NamesOfProbes(w, db, i, fps, now, s, v);
    }
    var s := SomeProbe(SourcesOf(w, left), SourcesOf(w, fps));
    var v := SomeProbe(ServicesOf(w, left), ServicesOf(w, fps));
    assert ProbesOf(w, db, i, fps, s, v);
  }

  lemma NamesOfProbes(w: World, db: Db, i: string, fps: set<string>, now: int, s: Probe, v: Probe)
    requires i in db.incidents && ValidDb(w, db) && InStep(w, db, i, true) && RemoveCompletes(w, db, i, fps, now)
    requires ProbesOf(w, db, i, fps, s, v)
    ensures var left := Remaining(db, i, fps); var inc := Remove(w, db, i, fps, now, s, v).0.incidents[i];
      && (inc.sources == SourcesOf(w, left) <==> s.rows <= s.candidates)
      && (inc.services == ServicesOf(w, left) <==> v.rows <= v.candidates)
      && (OrderCannotMatter(SourcesOf(w, left), SourcesOf(w, fps)) ==> s.rows <= s.candidates)
      && (OrderCannotMatter(ServicesOf(w, left), ServicesOf(w, fps)) ==> v.rows <= v.candidates)
  {
    var left := Remaining(db, i, fps);
    RemoveOutcome(w, db, i, fps, now, s, v);
    RemoveLinks(w, db, i, fps, now, s, v);
    RemoveNamesExactlyWhen(w, db, i, fps, now, s, v);
    if OrderCannotMatter(SourcesOf(w, left), SourcesOf(w, fps)) {
      OrderlyProbe(s, SourcesOf(w, left), SourcesOf(w, fps));
    }
    if OrderCannotMatter(ServicesOf(w, left), ServicesOf(w, fps)) {
      OrderlyProbe(v, ServicesOf(w, left), ServicesOf(w, fps));
    }
  }

  /** The cached count after a removal is right exactly when it unlinks nothing, or its
      deletion time is refused, or every severity text it reads afterwards is accepted and
      can be looked up; when it completes, the count has dropped by the links it unlinked. */
  lemma RemoveCountsExactlyWhen(w: World, db: Db, i: string, fps: set<string>, now: int, s: Probe, v: Probe)
    requires i in db.incidents && CountOk(db, i)
    ensures var (db', r) := Remove(w, db, i, fps, now, s, v); var gone := Live(db.links, i) * fps;
      && (CountOk(db', i) <==>
            gone == {} || DeletionClashes(db.links, i, gone, now)
            || (Readable(w, fps) && Resolvable(w, Remaining(db, i, fps))))
      && (r == Updated ==> db'.incidents[i].alertsCount == db.incidents[i].alertsCount - |gone|)
  {
    var live, gone := Live(db.links, i), Live(db.links, i) * fps;
    RemoveOutcome(w, db, i, fps, now, s, v);
    UnlinkedLive(db.links, i, gone, now, i);
    SizeOfDifference(live, gone);
  }

  lemma SizeOfDifference(a: set<string>, b: set<string>)
    requires b <= a
    ensures |a - b| == |a| - |b|
    ensures b == {} <==> |b| == 0
  {
    SizeOfParts(a - b, b);
    assert a == (a - b) + b;
  }

  /** Where no severity can be looked up, as in a tree that never defines
      `get_int_severity`, a removal keeps the count right exactly when it unlinks nothing,
      or is refused, or leaves nothing linked and reads accepted texts only. */
  lemma WithoutSeverityLookup(w: World, db: Db, i: string, fps: set<string>, now: int, s: Probe, v: Probe)
    requires w.resolvable == {} && i in db.incidents && ValidDb(w, db) && CountOk(db, i)
    ensures var gone := Live(db.links, i) * fps;
      CountOk(Remove(w, db, i, fps, now, s, v).0, i) <==>
        gone == {} || DeletionClashes(db.links, i, gone, now)
        || (Readable(w, fps) && Remaining(db, i, fps) == {})
  {
    RemoveCountsExactlyWhen(w, db, i, fps, now, s, v);
    var left := Remaining(db, i, fps);
    LiveIsKnown(w, db, i);
    if left != {} {
      var f :| f in left;
      assert f in w.latest && !Resolvable(w, left);
    }
  }

  // ---------------------------------------------------------------- what the calls do, row by row

  /** Add, row by row: it makes live on its incident exactly the given fingerprints that are
      not live there, without those unlinked from it if they are to be excluded, and changes
      no other row; unless one of them has no alert, when it changes nothing.  It stops
      after that when one of them has a severity text that is not accepted. */
  lemma AddLeavesRows(w: World, db: Db, i: string, fps: set<string>, exclude: bool)
    requires i in db.incidents
    ensures var (db', r) := Add(w, db, i, fps, exclude);
      var chosen := set f | f in fps && Link(i, f, None) !in db.links
                           && !(exclude && exists t: int :: Link(i, f, Some(t)) in db.links);
      && (r == NothingToLink <==> chosen == {})
      && (r == Refused <==> exists f :: f in chosen && f !in w.latest)
      && (r == RaisedAfterCommit <==>
            chosen <= w.latest.Keys && exists f :: f in chosen && w.latest[f].severity.Unrecognised?)
      && (r in {NothingToLink, Refused} ==> db' == db)
      && (r !in {NothingToLink, Refused} ==>
            forall l :: l in db'.links <==> l in db.links || (l.incident == i && l.deletedAt.None? && l.fp in chosen))
      && (r == RaisedAfterCommit ==> db'.incidents == db.incidents)
  {
    var added := ToLink(db, i, fps, exclude);
    forall f { UnlinkedExactlyWhen(db.links, i, f); }
    assert added == set f | f in fps && Link(i, f, None) !in db.links
                            && !(exclude && exists t: int :: Link(i, f, Some(t)) in db.links);
    LinkedRows(db.links, i, added);
  }

  lemma LinkedRows(links: set<Link>, i: string, fps: set<string>)
    ensures forall l :: l in Linked(links, i, fps) <==>
                        l in links || (l.incident == i && l.deletedAt.None? && l.fp in fps)
  {
    forall l: Link | l.incident == i && l.deletedAt.None? ensures l == Link(i, l.fp, None) {}
  }

  /** Remove, row by row: the live rows of the given fingerprints on the incident get the
      deletion time, and no other row changes; unless such a row is there already, when it
      changes nothing.  It stops after that when one of the given fingerprints has a severity
      text that is not accepted, or one that stays linked has one that cannot be looked up. */
  lemma RemoveLeavesRows(w: World, db: Db, i: string, fps: set<string>, now: int, s: Probe, v: Probe)
    requires i in db.incidents
    ensures var (db', r) := Remove(w, db, i, fps, now, s, v);
      && (r == Refused <==> exists f :: f in fps && Link(i, f, None) in db.links && Link(i, f, Some(now)) in db.links)
      && (r == Refused ==> db' == db)
      && (r != Refused ==>
            && (r == Updated <==>
                  && (forall f :: f in fps && f in w.latest ==> !w.latest[f].severity.Unrecognised?)
                  && (forall f :: f !in fps && f in w.latest && Link(i, f, None) in db.links ==>
                        !w.latest[f].severity.Unrecognised? && w.latest[f].severity in w.resolvable))
            && (forall l :: l in db'.links <==>
                  if l.incident != i || l.fp !in fps then l in db.links
                  else if l.deletedAt.None? then false
                  else l in db.links || (l.deletedAt == Some(now) && Link(i, l.fp, None) in db.links)))
      && (r == RaisedAfterCommit ==> db'.incidents == db.incidents)
  {
    var gone := Live(db.links, i) * fps;
    RemoveOutcome(w, db, i, fps, now, s, v);
    UnlinkedRows(db.links, i, gone, now);
    forall l: Link | l.incident == i && l.deletedAt.None? ensures l == Link(i, l.fp, None) {}
    forall f ensures f in Remaining(db, i, fps) <==> f !in fps && Link(i, f, None) in db.links {}
    if r: string :| r in fps && Link(i, r, None) in db.links && Link(i, r, Some(now)) in db.links { assert r in gone; }
  }

  lemma UnlinkedRows(links: set<Link>, i: string, gone: set<string>, now: int)
    ensures forall l :: l in Unlink(links, i, gone, now) <==>
                        if l.incident != i || l.fp !in gone then l in links
                        else if l.deletedAt.None? then false else l in links || l.deletedAt == Some(now)
  {
    forall l: Link | l.incident == i && l.fp in gone && l.deletedAt == Some(now)
      ensures l in Unlink(links, i, gone, now)
    {
      assert l == Link(i, l.fp, Some(now));
    }
    forall l: Link | l.incident == i && l.fp in gone && l.deletedAt.None? ensures l !in Unlink(links, i, gone, now) {
      assert l == Link(i, l.fp, None);
    }
  }

  /** The times an add stores bound the whole history of the live alerts, each occurrence by
      when it was received or else its own time, and are reached in it. */
  lemma AddBoundsHistory(w: World, db: Db, i: string, fps: set<string>, exclude: bool)
    requires i in db.incidents && ValidWorld(w) && ValidDb(w, db) && Add(w, db, i, fps, exclude).1 == Updated
    ensures var db' := Add(w, db, i, fps, exclude).0; var inc := db'.incidents[i]; var live := Live(db'.links, i);
      && inc.startTime.Some? && inc.lastSeenTime.Some?
      && (forall f, o :: f in live && f in w.history && o in w.history[f] ==>
            inc.startTime.value <= (if o.receivedAt.Some? then o.receivedAt.value else o.timestamp)
            <= inc.lastSeenTime.value)
      && (exists f, o :: f in live && f in w.history && o in w.history[f]
            && inc.startTime.value == (if o.receivedAt.Some? then o.receivedAt.value else o.timestamp))
      && (exists f, o :: f in live && f in w.history && o in w.history[f]
            && inc.lastSeenTime.value == (if o.receivedAt.Some? then o.receivedAt.value else o.timestamp))
  {
    var added := ToLink(db, i, fps, exclude);
    var all := Live(db.links, i) + added;
    AddUpdates(w, db, i, fps, exclude);
    AddLinks(w, db, i, fps, exclude);
    LiveIsKnown(w, Add(w, db, i, fps, exclude).0, i);
    var f :| f in added;
    HistoryBounds(w, all, f);
  }

  lemma HistoryBounds(w: World, live: set<string>, f: string)
    requires ValidWorld(w) && f in live && f in w.latest
    ensures var (first, last) := Bounds(HistoryTimes(w, live));
      && first.Some? && last.Some?
      && (forall f, o :: f in live && f in w.history && o in w.history[f] ==>
            first.value <= (if o.receivedAt.Some? then o.receivedAt.value else o.timestamp) <= last.value)
      && (exists f, o :: f in live && f in w.history && o in w.history[f]
            && first.value == (if o.receivedAt.Some? then o.receivedAt.value else o.timestamp))
      && (exists f, o :: f in live && f in w.history && o in w.history[f]
            && last.value == (if o.receivedAt.Some? then o.receivedAt.value else o.timestamp))
  {
    HistoryCovers(w, live, f);
    var (first, last) := Bounds(HistoryTimes(w, live));
    forall g, o | g in live && g in w.history && o in w.history[g]
      ensures first.value <= (if o.receivedAt.Some? then o.receivedAt.value else o.timestamp) <= last.value
    {
      assert SeenAt(o) in HistoryTimes(w, live);
    }
    assert first.value in HistoryTimes(w, live) && last.value in HistoryTimes(w, live);
  }

  /** The times a removal stores bound the latest occurrences of the alerts that stay, are
      reached among them, and are null when none stays. */
  lemma RemoveBoundsLatest(w: World, db: Db, i: string, fps: set<string>, now: int, s: Probe, v: Probe)
    requires i in db.incidents && ValidDb(w, db) && Remove(w, db, i, fps, now, s, v).1 == Updated
    ensures var inc := Remove(w, db, i, fps, now, s, v).0.incidents[i]; var left := Live(db.links, i) - fps;
      && left <= w.latest.Keys
      && (left == {} ==> inc.startTime.None? && inc.lastSeenTime.None?)
      && (left != {} ==>
            && inc.startTime.Some? && inc.lastSeenTime.Some?
            && (forall f :: f in left ==>
                  inc.startTime.value
                  <= (if w.latest[f].receivedAt.Some? then w.latest[f].receivedAt.value else w.latest[f].timestamp)
                  <= inc.lastSeenTime.value)
            && (exists f :: f in left && inc.startTime.value ==
                  if w.latest[f].receivedAt.Some? then w.latest[f].receivedAt.value else w.latest[f].timestamp)
            && (exists f :: f in left && inc.lastSeenTime.value ==
                  if w.latest[f].receivedAt.Some? then w.latest[f].receivedAt.value else w.latest[f].timestamp))
  {
    var inc, left := Remove(w, db, i, fps, now, s, v).0.incidents[i], Live(db.links, i) - fps;
    RemoveLinks(w, db, i, fps, now, s, v);
    LiveIsKnown(w, db, i);
    forall f | f in left ensures SeenAt(w.latest[f]) in LatestTimes(w, left) {}
    if left == {} {
      assert LatestTimes(w, left) == {};
    } else {
      var f :| f in left;
      assert SeenAt(w.latest[f]) in LatestTimes(w, left);
      assert inc.startTime.value in LatestTimes(w, left) && inc.lastSeenTime.value in LatestTimes(w, left);
    }
  }

  /** What being in step says of the alerts themselves: the count is that of the live links;
      no stored name is without a live alert whose latest occurrence carries it, and for exact
      names every name such an occurrence carries is stored; an unforced severity over live
      links is the greatest that a latest occurrence names, and 1 if none names any; and every
      latest occurrence lies between the two times. */
  lemma InStepSays(w: World, db: Db, i: string, exact: bool)
    requires i in db.incidents && ValidDb(w, db) && InStep(w, db, i, exact)
    ensures var inc := db.incidents[i]; var live := Live(db.links, i);
      && live <= w.latest.Keys
      && inc.alertsCount == |live|
      && (forall n :: n in inc.sources ==> n != "" && exists f :: f in live && w.latest[f].source == n)
      && (forall n :: n in inc.services ==> n != "" && exists f :: f in live && w.latest[f].service == n)
      && (exact ==> forall f :: f in live && w.latest[f].source != "" ==> w.latest[f].source in inc.sources)
      && (exact ==> forall f :: f in live && w.latest[f].service != "" ==> w.latest[f].service in inc.services)
      && (live != {} && !inc.forcedSeverity ==>
            if exists f :: f in live && w.latest[f].severity.Named? then
              && (forall f :: f in live && w.latest[f].severity.Named? ==> w.latest[f].severity.order <= inc.severity)
              && (exists f :: f in live && w.latest[f].severity.Named? && w.latest[f].severity.order == inc.severity)
            else inc.severity == 1)
      && (live != {} ==>
            && inc.startTime.Some? && inc.lastSeenTime.Some?
            && forall f :: f in live ==>
                 inc.startTime.value
                 <= (if w.latest[f].receivedAt.Some? then w.latest[f].receivedAt.value else w.latest[f].timestamp)
                 <= inc.lastSeenTime.value)
  {
    var inc, live := db.incidents[i], Live(db.links, i);
    LiveIsKnown(w, db, i);
    GreatestNamed(w, live);
    forall f | f in live ensures SeenAt(w.latest[f]) ==
      if w.latest[f].receivedAt.Some? then w.latest[f].receivedAt.value else w.latest[f].timestamp {}
  }

  /** The severity computed for some alerts, on the severities they name. */
  lemma GreatestNamed(w: World, fps: set<string>)
    requires fps <= w.latest.Keys
    ensures var m := MaxSeverity(w, fps);
      if exists f :: f in fps && w.latest[f].severity.Named? then
        && (forall f :: f in fps && w.latest[f].severity.Named? ==> w.latest[f].severity.order <= m)
        && (exists f :: f in fps && w.latest[f].severity.Named? && w.latest[f].severity.order == m)
      else m == 1
  {
    var m := MaxSeverity(w, fps);
    if m > 1 {
      var f :| f in fps && f in w.latest && OrderOf(w.latest[f].severity) == m;
      assert w.latest[f].severity.Named?;
    } else if f :| f in fps && w.latest[f].severity.Named? {
      assert OrderOf(w.latest[f].severity) <= m;
    }
  }

  // ---------------------------------------------------------------- all incidents

  ghost predicate AllInStep(w: World, db: Db, exact: bool) {
    ValidDb(w, db) && forall i :: i in db.incidents ==> InStep(w, db, i, exact)
  }

  lemma AddKeepsAll(w: World, db: Db, i: string, fps: set<string>, exclude: bool, exact: bool)
    requires i in db.incidents && ValidWorld(w) && AllInStep(w, db, exact)
    requires Add(w, db, i, fps, exclude).1 != RaisedAfterCommit
    ensures AllInStep(w, Add(w, db, i, fps, exclude).0, exact)
  {
    var db' := Add(w, db, i, fps, exclude).0;
    AddLinks(w, db, i, fps, exclude);
    forall j | j in db'.incidents ensures InStep(w, db', j, exact) {
      AddKeepsInStep(w, db, i, fps, exclude, j, exact);
    }
  }

  lemma RemoveKeepsAll(w: World, db: Db, i: string, fps: set<string>, now: int, s: Probe, v: Probe, exact: bool)
    requires ValidWorld(w) && AllInStep(w, db, exact)
    requires i in db.incidents ==> ProbesOf(w, db, i, fps, s, v) && (exact ==> ProbedInOrder(s, v))
    requires Remove(w, db, i, fps, now, s, v).1 != RaisedAfterCommit
    ensures AllInStep(w, Remove(w, db, i, fps, now, s, v).0, exact)
  {
    if i in db.incidents {
      var db' := Remove(w, db, i, fps, now, s, v).0;
      RemoveLinks(w, db, i, fps, now, s, v);
      forall j | j in db'.incidents ensures InStep(w, db', j, exact) {
        RemoveKeepsInStep(w, db, i, fps, now, s, v, j, exact);
      }
    }
  }
}
