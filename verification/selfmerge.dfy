/** A merge whose destination is among its own sources.  On its turn the destination's alerts
    are unlinked from it and linked again; alerts that earlier turns brought stay linked in
    between, so that their severities are looked up. */
module SelfMerge {
  import opened Values
  import opened OneShotResults
  import opened Ledger
  import opened LedgerLaws
  import opened Merging
  import opened MergeLaws

  // ---------------------------------------------------------------- merging in two parts

  /** What the second part of a merge adds to the first. */
  function Joined(m: MergeOut, n: MergeOut): MergeOut {
    if m.aborted then m else MergeOut(n.db, m.merged + n.merged, m.failed + n.failed, n.aborted)
  }

  lemma {:induction false} MergeKeepsIncidents(w: World, db: Db, dest: string, cache: map<string, set<string>>,
                                               plans: seq<Plan>)
    requires dest in db.incidents && forall p :: p in plans ==> p.source in cache
    ensures MergeAll(w, db, dest, cache, plans).db.incidents.Keys == db.incidents.Keys
    decreases |plans|
  {
    if plans != [] {
      MergeKeepsIncidents(w, MergeOne(w, db, dest, plans[0], cache[plans[0].source]).0, dest, cache, plans[1..]);
    }
  }

  lemma NothingJoined(db: Db, n: MergeOut)
    ensures Joined(MergeOut(db, [], [], false), n) == n
  {
    assert [] + n.merged == n.merged && [] + n.failed == n.failed;
  }

  lemma JoinedBefore(source: string, fate: Fate, m: MergeOut, n: MergeOut)
    ensures Before(source, fate, Joined(m, n)) == Joined(Before(source, fate, m), n)
  {
    assert [source] + (m.merged + n.merged) == [source] + m.merged + n.merged;
    assert [source] + (m.failed + n.failed) == [source] + m.failed + n.failed;
  }

  predicate Cached(cache: map<string, set<string>>, plans: seq<Plan>) {
    forall p :: p in plans ==> p.source in cache
  }

  /** A merge of `a + b` is the second part after the first. */
  ghost predicate InTwoParts(w: World, db: Db, dest: string, cache: map<string, set<string>>, a: seq<Plan>,
                             b: seq<Plan>)
    requires dest in db.incidents && Cached(cache, a) && Cached(cache, b) && Cached(cache, a + b)
  {
    var m := MergeAll(w, db, dest, cache, a);
    dest in m.db.incidents && MergeAll(w, db, dest, cache, a + b) == Joined(m, MergeAll(w, m.db, dest, cache, b))
  }

  lemma NothingBefore(w: World, db: Db, dest: string, cache: map<string, set<string>>, b: seq<Plan>)
    requires dest in db.incidents && Cached(cache, b) && Cached(cache, [] + b)
    ensures InTwoParts(w, db, dest, cache, [], b)
  {
    assert [] + b == b;
    NothingJoined(db, MergeAll(w, db, dest, cache, b));
  }

  lemma OneMoreBefore(w: World, db: Db, dest: string, cache: map<string, set<string>>, a: seq<Plan>, b: seq<Plan>)
    requires a != [] && dest in db.incidents && Cached(cache, a) && Cached(cache, b) && Cached(cache, a + b)
    requires Cached(cache, a[1..] + b)
    requires var (next, fate) := MergeOne(w, db, dest, a[0], cache[a[0].source]);
      fate != Aborts ==> InTwoParts(w, next, dest, cache, a[1..], b)
    ensures InTwoParts(w, db, dest, cache, a, b)
  {
    MergeKeepsIncidents(w, db, dest, cache, a);
    FirstOfMerge(w, db, dest, cache, a);
    assert (a + b)[0] == a[0] && (a + b)[1..] == a[1..] + b;
    FirstOfMerge(w, db, dest, cache, a + b);
    var (next, fate) := MergeOne(w, db, dest, a[0], cache[a[0].source]);
    if fate != Aborts {
      var m := MergeAll(w, next, dest, cache, a[1..]);
      JoinedBefore(a[0].source, fate, m, MergeAll(w, m.db, dest, cache, b));
    }
  }

  lemma {:induction false} MergeInTwoParts(w: World, db: Db, dest: string, cache: map<string, set<string>>,
                                           a: seq<Plan>, b: seq<Plan>)
    requires dest in db.incidents && Cached(cache, a) && Cached(cache, b)
    ensures Cached(cache, a + b) && InTwoParts(w, db, dest, cache, a, b)
    decreases |a|
  {
    if a == [] {
      NothingBefore(w, db, dest, cache, b);
    } else {
      var (next, fate) := MergeOne(w, db, dest, a[0], cache[a[0].source]);
      assert Cached(cache, a[1..]) && Cached(cache, a[1..] + b);
      if fate != Aborts { MergeInTwoParts(w, next, dest, cache, a[1..], b); }
      OneMoreBefore(w, db, dest, cache, a, b);
    }
  }

  // ---------------------------------------------------------------- the destination's own turn

  /** What stops it: a deletion time used before, a severity text that is not accepted, or an
      alert that earlier turns brought whose severity cannot be looked up. */
  predicate SelfStops(w: World, db: Db, dest: string, read: set<string>, now: int) {
    || DeletionClashes(db.links, dest, read, now) || !Readable(w, read)
    || !Resolvable(w, Live(db.links, dest) - read)
  }

  lemma SelfRemoval(w: World, db: Db, dest: string, p: Plan, read: set<string>)
    requires dest in db.incidents && p.source == dest && FaultFree(p) && read <= Live(db.links, dest)
    ensures var (db1, aborts) := TryRemove(w, db, p, read);
      && (aborts <==> SelfStops(w, db, dest, read, p.now))
      && (!aborts ==> db1.links == Unlink(db.links, dest, read, p.now) && dest in db1.incidents)
  {
    var live := Live(db.links, dest);
    assert live * read == read && Remaining(db, dest, read) == live - read;
    RemoveOutcome(w, db, dest, read, p.now, p.s, p.v);
  }

  /** Linking again what was just unlinked. */
  lemma LinkedAgain(links: set<Link>, i: string, read: set<string>, now: int, j: string)
    requires read <= Live(links, i)
    ensures Live(Linked(Unlink(links, i, read, now), i, read), j) == Live(links, j)
  {
    UnlinkedLive(links, i, read, now, j);
    LinkedLive(Unlink(links, i, read, now), i, read, j);
    assert Live(links, i) - read + read == Live(links, i);
  }

  lemma SelfAdd(w: World, db: Db, db1: Db, dest: string, read: set<string>, now: int)
    requires dest in db1.incidents && db1.links == Unlink(db.links, dest, read, now)
    requires read <= Live(db.links, dest) && read <= w.latest.Keys && Readable(w, read)
    ensures var (db2, r) := Add(w, db1, dest, read, false);
      r in {Updated, NothingToLink} && db2.links == Linked(db1.links, dest, read)
  {
    UnlinkedLive(db.links, dest, read, now, dest);
    assert ToLink(db1, dest, read, false) == read;
    if read == {} { assert Linked(db1.links, dest, {}) == db1.links; }
  }

  /** It changes no incident's live links. */
  lemma SelfTurn(w: World, db: Db, dest: string, p: Plan, read: set<string>)
    requires dest in db.incidents && p.source == dest && FaultFree(p) && ValidDb(w, db)
    requires read <= Live(db.links, dest)
    ensures var (db', fate) := MergeOne(w, db, dest, p, read);
      && fate == (if SelfStops(w, db, dest, read, p.now) then Aborts else IsMerged)
      && (fate == IsMerged ==> forall j :: Live(db'.links, j) == Live(db.links, j))
  {
    LiveIsKnown(w, db, dest);
    SelfRemoval(w, db, dest, p, read);
    if !SelfStops(w, db, dest, read, p.now) {
      SelfAdd(w, db, TryRemove(w, db, p, read).0, dest, read, p.now);
      forall j { LinkedAgain(db.links, dest, read, p.now, j); }
    }
  }

  lemma SelfTurnMarks(w: World, db: Db, dest: string, p: Plan, read: set<string>, j: string)
    requires dest in db.incidents && p.source == dest && FaultFree(p) && j in db.incidents
    requires MergeOne(w, db, dest, p, read).1 == IsMerged
    ensures var db' := MergeOne(w, db, dest, p, read).0; j in db'.incidents && MarkedRight(db, db', dest, [dest], j)
  {
    TryAddOutcome(w, TryRemove(w, db, p, read).0, dest, read, p.faults.adds, ADD_TRIES);
  }

  /** The other sources are as they were. */
  lemma SelfTurnKeepsSmooth(w: World, db: Db, dest: string, cache: map<string, set<string>>, p: Plan,
                            read: set<string>, plans: seq<Plan>)
    requires dest in db.incidents && p.source == dest && FaultFree(p) && ValidDb(w, db)
    requires read <= Live(db.links, dest) && !SelfStops(w, db, dest, read, p.now)
    requires Untouched(db, dest, cache, plans)
    ensures var db' := MergeOne(w, db, dest, p, read).0;
      && ValidDb(w, db') && Untouched(db', dest, cache, plans)
      && forall q :: q in plans ==> (Stops(w, db', q, cache[q.source]) <==> Stops(w, db, q, cache[q.source]))
  {
    var db' := MergeOne(w, db, dest, p, read).0;
    SelfTurn(w, db, dest, p, read);
    MergeOneValid(w, db, dest, p, read);
    forall q | q in plans
      ensures q.source in db'.incidents && (Stops(w, db', q, cache[q.source]) <==> Stops(w, db, q, cache[q.source]))
    {
      NotDest(plans, q, dest);
      forall f ensures Link(q.source, f, Some(q.now)) in db'.links <==> Link(q.source, f, Some(q.now)) in db.links {
        TurnKeepsDeleted(w, db, dest, p, read, Link(q.source, f, Some(q.now)));
      }
    }
  }

  lemma NotDest(plans: seq<Plan>, q: Plan, dest: string)
    requires q in plans && dest !in Sources(plans)
    ensures q.source != dest
  {
    var k :| 0 <= k < |plans| && plans[k] == q;
    assert Sources(plans)[k] == q.source;
  }

  // ---------------------------------------------------------------- the whole merge

  lemma SourcesAppend(a: seq<Plan>, b: seq<Plan>)
    ensures Sources(a + b) == Sources(a) + Sources(b)
  {
  }

  lemma UntouchedParts(db: Db, dest: string, cache: map<string, set<string>>, a: seq<Plan>, b: seq<Plan>)
    requires Untouched(db, dest, cache, a + b)
    ensures Untouched(db, dest, cache, a) && Untouched(db, dest, cache, b)
  {
    SourcesAppend(a, b);
    assert forall k :: 0 <= k < |b| ==> Sources(b)[k] == Sources(a + b)[|a| + k];
    assert forall k :: 0 <= k < |a| ==> Sources(a)[k] == Sources(a + b)[k];
  }

  /** After the first part of a smooth merge the second part's sources and the destination's
      unlinked rows are as they were. */
  lemma {:induction false} PartLeavesRest(w: World, db: Db, dest: string, cache: map<string, set<string>>,
                                          a: seq<Plan>, b: seq<Plan>)
    requires dest in db.incidents && Untouched(db, dest, cache, a + b) && ValidDb(w, db)
    requires forall p :: p in a ==> p in a + b && !Stops(w, db, p, cache[p.source])
    ensures var db' := MergeAll(w, db, dest, cache, a).db;
      && ValidDb(w, db') && Untouched(db', dest, cache, b)
      && (forall q :: q in b ==> (Stops(w, db', q, cache[q.source]) <==> Stops(w, db, q, cache[q.source])))
      && (forall l: Link :: l.incident == dest && l.deletedAt.Some? ==> (l in db'.links <==> l in db.links))
    decreases |a|
  {
    if a == [] {
      assert a + b == b;
    } else {
      var p := a[0];
      assert p in a && (a + b)[0] == p && (a + b)[1..] == a[1..] + b;
      UntouchedParts(db, dest, cache, a, b);
      assert Smooth(w, db, dest, cache, a);
      SmoothRest(w, db, dest, cache, a);
      MoveKeepsRest(w, db, dest, cache, a + b);
      var next := MergeOne(w, db, dest, p, cache[p.source]).0;
      PartLeavesRest(w, next, dest, cache, a[1..], b);
      forall l: Link | l.incident == dest && l.deletedAt.Some? ensures l in next.links <==> l in db.links {
        TurnKeepsDeleted(w, db, dest, p, cache[p.source], l);
      }
    }
  }

  /** A merge of `before`, then the destination itself, then `after`, as they were read. */
  predicate SelfMerging(w: World, db: Db, dest: string, cache: map<string, set<string>>,
                        before: seq<Plan>, p: Plan, after: seq<Plan>)
  {
    && dest in db.incidents && ValidDb(w, db) && Untouched(db, dest, cache, before + after)
    && p.source == dest && FaultFree(p) && dest in cache && cache[dest] == Live(db.links, dest)
  }

  /** What stops it, said of the incidents as they were read: one of the other sources stops,
      or the destination's own turn does, given what the turns before it brought. */
  predicate SelfMergeStops(w: World, db: Db, dest: string, cache: map<string, set<string>>,
                           before: seq<Plan>, p: Plan, after: seq<Plan>)
    requires SelfMerging(w, db, dest, cache, before, p, after)
  {
    || (exists q :: q in before + after && Stops(w, db, q, cache[q.source]))
    || DeletionClashes(db.links, dest, cache[dest], p.now) || !Readable(w, cache[dest])
    || !Resolvable(w, Moved(cache, before) - cache[dest])
  }

  lemma BeforeSelf(w: World, db: Db, dest: string, cache: map<string, set<string>>,
                   before: seq<Plan>, p: Plan, after: seq<Plan>)
    requires SelfMerging(w, db, dest, cache, before, p, after)
    requires forall q :: q in before ==> q in before + after && !Stops(w, db, q, cache[q.source])
    ensures Smooth(w, db, dest, cache, before)
    ensures var db1 := MergeAll(w, db, dest, cache, before).db;
      && dest in db1.incidents && ValidDb(w, db1) && Untouched(db1, dest, cache, after)
      && cache[dest] <= Live(db1.links, dest)
      && (forall q :: q in after ==> (Stops(w, db1, q, cache[q.source]) <==> Stops(w, db, q, cache[q.source])))
      && (SelfStops(w, db1, dest, cache[dest], p.now) <==>
            || DeletionClashes(db.links, dest, cache[dest], p.now) || !Readable(w, cache[dest])
            || !Resolvable(w, Moved(cache, before) - cache[dest]))
  {
    UntouchedParts(db, dest, cache, before, after);
    PartLeavesRest(w, db, dest, cache, before, after);
    MergeKeepsIncidents(w, db, dest, cache, before);
    MergeMovesLinks(w, db, dest, cache, before, dest);
    var db1 := MergeAll(w, db, dest, cache, before).db;
    assert Live(db1.links, dest) - cache[dest] == Moved(cache, before) - cache[dest];
    forall f ensures Link(dest, f, Some(p.now)) in db1.links <==> Link(dest, f, Some(p.now)) in db.links {}
  }

  /** Without database errors such a merge is abandoned exactly under those conditions. */
  lemma SelfMergeStopsExactlyWhen(w: World, db: Db, dest: string, cache: map<string, set<string>>,
                                  before: seq<Plan>, p: Plan, after: seq<Plan>)
    requires SelfMerging(w, db, dest, cache, before, p, after)
    ensures forall q :: q in before + ([p] + after) ==> q.source in cache
    ensures MergeAll(w, db, dest, cache, before + ([p] + after)).aborted <==>
            SelfMergeStops(w, db, dest, cache, before, p, after)
  {
    UntouchedParts(db, dest, cache, before, after);
    MergeInTwoParts(w, db, dest, cache, before, [p] + after);
    MergeStopsExactlyWhen(w, db, dest, cache, before);
    assert forall q :: q in before + after <==> q in before || q in after;
    if forall q :: q in before ==> !Stops(w, db, q, cache[q.source]) {
      BeforeSelf(w, db, dest, cache, before, p, after);
      var db1 := MergeAll(w, db, dest, cache, before).db;
      SelfTurn(w, db1, dest, p, cache[dest]);
      assert ([p] + after)[0] == p && ([p] + after)[1..] == after;
      if !SelfStops(w, db1, dest, cache[dest], p.now) {
        SelfTurnKeepsSmooth(w, db1, dest, cache, p, cache[dest], after);
        MergeStopsExactlyWhen(w, MergeOne(w, db1, dest, p, cache[dest]).0, dest, cache, after);
      }
    }
  }

  /** The destination's own turn and those after it. */
  lemma FromSelfOn(w: World, db: Db, dest: string, cache: map<string, set<string>>,
                   p: Plan, after: seq<Plan>, j: string)
    requires dest in db.incidents && ValidDb(w, db) && Untouched(db, dest, cache, after)
    requires forall q :: q in after ==> !Stops(w, db, q, cache[q.source])
    requires p.source == dest && FaultFree(p) && dest in cache && cache[dest] <= Live(db.links, dest)
    requires !SelfStops(w, db, dest, cache[dest], p.now)
    ensures forall q :: q in [p] + after ==> q.source in cache
    ensures var m := MergeAll(w, db, dest, cache, [p] + after);
      && m.merged == [dest] + Sources(after) && m.failed == []
      && Live(m.db.links, j) == (if j == dest then Live(db.links, dest) + Moved(cache, after)
                                 else if j in Sources(after) then {} else Live(db.links, j))
      && (j in db.incidents ==> j in m.db.incidents && MarkedRight(db, m.db, dest, [dest] + Sources(after), j))
  {
    SelfTurn(w, db, dest, p, cache[dest]);
    SelfTurnKeepsSmooth(w, db, dest, cache, p, cache[dest], after);
    var next := MergeOne(w, db, dest, p, cache[dest]).0;
    MergeMovesLinks(w, next, dest, cache, after, j);
    assert ([p] + after)[0] == p && ([p] + after)[1..] == after;
    if j in db.incidents {
      SelfTurnMarks(w, db, dest, p, cache[dest], j);
      MergeMarks(w, next, dest, cache, after, j);
    }
  }

  lemma SelfSources(before: seq<Plan>, p: Plan, after: seq<Plan>)
    ensures Sources(before + ([p] + after)) == Sources(before) + ([p.source] + Sources(after))
    ensures forall j :: j in Sources(before + ([p] + after)) <==>
                        j in Sources(before) || j in [p.source] + Sources(after)
  {
    SourcesAppend(before, [p] + after);
    SourcesAppend([p], after);
    assert Sources([p]) == [p.source];
  }

  /** The merge split around the destination's own turn. */
  lemma SelfMergeParts(w: World, db: Db, dest: string, cache: map<string, set<string>>,
                       before: seq<Plan>, p: Plan, after: seq<Plan>)
    requires SelfMerging(w, db, dest, cache, before, p, after)
    requires !SelfMergeStops(w, db, dest, cache, before, p, after)
    ensures var plans := before + ([p] + after); var db1 := MergeAll(w, db, dest, cache, before).db;
      && (forall q :: q in plans ==> q.source in cache)
      && Smooth(w, db, dest, cache, before) && dest in db1.incidents && ValidDb(w, db1)
      && Untouched(db1, dest, cache, after) && (forall q :: q in after ==> !Stops(w, db1, q, cache[q.source]))
      && cache[dest] <= Live(db1.links, dest) && !SelfStops(w, db1, dest, cache[dest], p.now)
      && var m, n := MergeAll(w, db, dest, cache, plans), MergeAll(w, db1, dest, cache, [p] + after);
      && m.db == n.db && m.merged == Sources(before) + n.merged && m.failed == n.failed && !m.aborted
  {
    var plans := before + ([p] + after);
    assert forall q :: q in before + after <==> q in before || q in after;
    SelfMergeStopsExactlyWhen(w, db, dest, cache, before, p, after);
    MergeInTwoParts(w, db, dest, cache, before, [p] + after);
    BeforeSelf(w, db, dest, cache, before, p, after);
    MergeMovesLinks(w, db, dest, cache, before, dest);
    var n := MergeAll(w, MergeAll(w, db, dest, cache, before).db, dest, cache, [p] + after);
    assert [] + n.failed == n.failed;
  }

  /** When it is not, it conserves alerts like any other merge: the destination ends with its
      own and those of all other sources, these with none, everyone else with what they had;
      but the destination is marked merged into itself. */
  lemma SelfMergeConserves(w: World, db: Db, dest: string, cache: map<string, set<string>>,
                           before: seq<Plan>, p: Plan, after: seq<Plan>, j: string)
    requires SelfMerging(w, db, dest, cache, before, p, after)
    requires !SelfMergeStops(w, db, dest, cache, before, p, after)
    ensures var plans := before + ([p] + after);
      (forall q :: q in plans ==> q.source in cache)
      && var m := MergeAll(w, db, dest, cache, plans);
      && !m.aborted && m.merged == Sources(plans) && m.failed == []
      && Live(m.db.links, j) == (if j == dest then Live(db.links, dest) + Moved(cache, before) + Moved(cache, after)
                                 else if j in Sources(plans) then {} else Live(db.links, j))
      && (j in db.incidents ==> j in m.db.incidents && MarkedRight(db, m.db, dest, Sources(plans), j))
  {
    SelfMergeParts(w, db, dest, cache, before, p, after);
    MergeMovesLinks(w, db, dest, cache, before, j);
    var db1 := MergeAll(w, db, dest, cache, before).db;
    FromSelfOn(w, db1, dest, cache, p, after, j);
    SelfSources(before, p, after);
    if j in db.incidents { MergeMarks(w, db, dest, cache, before, j); }
  }
}
