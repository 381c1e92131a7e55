/** What a merge conserves. */
module MergeLaws {
  import opened Values
  import opened OneShotResults
  import opened Ledger
  import opened LedgerLaws
  import opened Merging

  lemma FirstOfMerge(w: World, db: Db, dest: string, cache: map<string, set<string>>, plans: seq<Plan>)
    requires plans != [] && dest in db.incidents && forall p :: p in plans ==> p.source in cache
    ensures var p := plans[0]; var (next, fate) := MergeOne(w, db, dest, p, cache[p.source]);
      MergeAll(w, db, dest, cache, plans) ==
        if fate == Aborts then MergeOut(next, [], [], true)
        else Before(p.source, fate, MergeAll(w, next, dest, cache, plans[1..]))
  {
  }

  // ---------------------------------------------------------------- with failures

  /** The merged and the failed ids partition the found sources, each in its order. */
  lemma {:induction false} MergePartitions(w: World, db: Db, dest: string, cache: map<string, set<string>>,
                                           plans: seq<Plan>)
    requires dest in db.incidents && forall p :: p in plans ==> p.source in cache
    requires !MergeAll(w, db, dest, cache, plans).aborted
    ensures var m := MergeAll(w, db, dest, cache, plans);
      multiset(m.merged) + multiset(m.failed) == multiset(Sources(plans))
    decreases |plans|
  {
    if plans != [] {
      var (next, fate) := MergeOne(w, db, dest, plans[0], cache[plans[0].source]);
      MergePartitions(w, next, dest, cache, plans[1..]);
      PartsBefore(plans[0].source, fate, MergeAll(w, next, dest, cache, plans[1..]));
      SourcesFrom(plans);
    }
  }

  lemma PartsBefore(source: string, fate: Fate, rest: MergeOut)
    ensures var m := Before(source, fate, rest);
      multiset(m.merged) + multiset(m.failed) == multiset{source} + multiset(rest.merged) + multiset(rest.failed)
  {
  }

  lemma SourcesFrom(plans: seq<Plan>)
    requires plans != []
    ensures Sources(plans) == [plans[0].source] + Sources(plans[1..])
    ensures multiset(Sources(plans)) == multiset{plans[0].source} + multiset(Sources(plans[1..]))
  {
    assert Sources(plans) == [plans[0].source] + Sources(plans[1..]);
  }

  /** The add with its retries links at most `fps`, all of them when it succeeds, and only
      to the destination. */
  lemma {:induction false} TryAddLinks(w: World, db: Db, dest: string, fps: set<string>, faults: seq<Fault>,
                                       tries: nat, j: string)
    requires dest in db.incidents && fps <= w.latest.Keys
    ensures var (db', fate) := TryAdd(w, db, dest, fps, faults, tries);
      var to := if j == dest then fps else {};
      && Live(db.links, j) <= Live(db'.links, j) <= Live(db.links, j) + to
      && (fate == IsMerged ==> Live(db'.links, j) == Live(db.links, j) + to)
    decreases tries
  {
    if tries > 0 {
      var added := ToLink(db, dest, fps, false);
      LinkedLive(db.links, dest, added, j);
      assert Live(db.links, dest) + added == Live(db.links, dest) + fps;
      var rest := if faults == [] then [] else faults[1..];
      match if faults == [] then NoFault else faults[0]
      case BeforeCommit => TryAddLinks(w, db, dest, fps, rest, tries - 1, j);
      case AfterCommit => TryAddLinks(w, db.(links := Linked(db.links, dest, added)), dest, fps, rest, tries - 1, j);
      case NoFault => AddLinksOnly(w, db, dest, fps, j);
    }
  }

  lemma AddLinksOnly(w: World, db: Db, dest: string, fps: set<string>, j: string)
    requires dest in db.incidents && fps <= w.latest.Keys
    ensures Live(Add(w, db, dest, fps, false).0.links, j) == Live(db.links, j) + if j == dest then fps else {}
  {
    var added := ToLink(db, dest, fps, false);
    LinkedLive(db.links, dest, added, j);
    assert Live(db.links, dest) + added == Live(db.links, dest) + fps;
  }

  lemma TryRemoveLinks(w: World, db: Db, p: Plan, fps: set<string>, j: string)
    requires j != p.source
    ensures Live(TryRemove(w, db, p, fps).0.links, j) == Live(db.links, j)
  {
    UnlinkedLive(db.links, p.source, Live(db.links, p.source) * fps, p.now, j);
  }

  /** Moving one source touches no third incident's links and takes none from the destination. */
  lemma MergeOneLinks(w: World, db: Db, dest: string, p: Plan, fps: set<string>, j: string)
    requires dest in db.incidents && p.source != dest && fps <= w.latest.Keys && j != p.source
    ensures var (db', fate) := MergeOne(w, db, dest, p, fps);
      && Live(db.links, j) <= Live(db'.links, j)
      && (j != dest ==> Live(db'.links, j) == Live(db.links, j))
      && (fate == IsMerged ==> fps <= Live(db'.links, dest))
      && (fate == IsMerged && j == dest ==> Live(db'.links, j) == Live(db.links, j) + fps)
  {
    TryRemoveLinks(w, db, p, fps, j);
    TryRemoveLinks(w, db, p, fps, dest);
    TryAddLinks(w, TryRemove(w, db, p, fps).0, dest, fps, p.faults.adds, ADD_TRIES, j);
    TryAddLinks(w, TryRemove(w, db, p, fps).0, dest, fps, p.faults.adds, ADD_TRIES, dest);
  }

  /** Whatever fails, and even when the merge is abandoned, the destination keeps what it
      had, and every fingerprint of an id reported merged is live on it. */
  lemma {:induction false} MergedIsLive(w: World, db: Db, dest: string, cache: map<string, set<string>>,
                                        plans: seq<Plan>)
    requires dest in db.incidents && dest !in Sources(plans)
    requires forall p :: p in plans ==> p.source in cache && cache[p.source] <= w.latest.Keys
    ensures var m := MergeAll(w, db, dest, cache, plans);
      && Live(db.links, dest) <= Live(m.db.links, dest)
      && forall id :: id in m.merged ==> id in cache && cache[id] <= Live(m.db.links, dest)
    decreases |plans|
  {
    if plans != [] {
      var p := plans[0];
      var (next, fate) := MergeOne(w, db, dest, p, cache[p.source]);
      assert p in plans && Sources(plans)[0] == p.source;
      MergeOneLinks(w, db, dest, p, cache[p.source], dest);
      SourcesFrom(plans);
      MergedIsLive(w, next, dest, cache, plans[1..]);
    }
  }

  // ---------------------------------------------------------------- which attempt decides

  /** The first attempt that got past its first commit or ran without error, and what is
      left after it. */
  datatype Attempt = AllFailedEarly | Reached(fault: Fault, later: seq<Fault>, left: nat)

  function FirstReached(faults: seq<Fault>, tries: nat): Attempt
    decreases tries
  {
    if tries == 0 then AllFailedEarly
    else
      var fault := if faults == [] then NoFault else faults[0];
      var later := if faults == [] then [] else faults[1..];
      if fault == BeforeCommit then FirstReached(later, tries - 1) else Reached(fault, later, tries - 1)
  }

  lemma {:induction false} NothingLeftToLink(w: World, db: Db, dest: string, fps: set<string>, faults: seq<Fault>,
                                             tries: nat)
    requires dest in db.incidents && ToLink(db, dest, fps, false) == {}
    ensures TryAdd(w, db, dest, fps, faults, tries)
         == (db, if FirstReached(faults, tries).Reached? then IsMerged else IsFailed)
    decreases tries
  {
    if tries > 0 && faults != [] && faults[0] == BeforeCommit {
      NothingLeftToLink(w, db, dest, fps, faults[1..], tries - 1);
    }
  }

  /** What the retried add does is decided by that attempt. */
  lemma {:induction false} TryAddOutcome(w: World, db: Db, dest: string, fps: set<string>, faults: seq<Fault>,
                                         tries: nat)
    requires dest in db.incidents
    ensures var added := ToLink(db, dest, fps, false); var first := FirstReached(faults, tries);
      TryAdd(w, db, dest, fps, faults, tries) ==
        if first.AllFailedEarly? then (db, IsFailed)
        else if added == {} then (db, IsMerged)
        else if !(added <= w.latest.Keys) then (db, Aborts)
        else if first.fault == AfterCommit then
          (db.(links := Linked(db.links, dest, added)),
           if FirstReached(first.later, first.left).Reached? then IsMerged else IsFailed)
        else (Add(w, db, dest, fps, false).0, if Readable(w, added) then IsMerged else Aborts)
    decreases tries
  {
    var added := ToLink(db, dest, fps, false);
    if tries > 0 && faults != [] {
      match faults[0]
      case NoFault =>
      case BeforeCommit => TryAddOutcome(w, db, dest, fps, faults[1..], tries - 1);
      case AfterCommit =>
        var linked := db.(links := Linked(db.links, dest, added));
        LinkedLive(db.links, dest, added, dest);
        assert ToLink(linked, dest, fps, false) == {};
        NothingLeftToLink(w, linked, dest, fps, faults[1..], tries - 1);
    }
  }

  /** The add leaves no count behind: nothing was to be linked or all of it was refused; or
      every attempt failed before committing; or the attempt that decided met no error and
      accepts every new severity text. */
  predicate AddWhole(w: World, db: Db, dest: string, fps: set<string>, faults: seq<Fault>, tries: nat) {
    var added := ToLink(db, dest, fps, false);
    var first := FirstReached(faults, tries);
    || added == {} || !(added <= w.latest.Keys) || first.AllFailedEarly?
    || (first.fault == NoFault && Readable(w, added))
  }

  /** Whatever errors the attempts meet, the cached count is right after the retried add
      exactly under that condition; and the merge is reported although the count is wrong
      exactly when an attempt failed after committing new links and a later one came through. */
  lemma RetriedAddCountsExactlyWhen(w: World, db: Db, dest: string, fps: set<string>, faults: seq<Fault>, tries: nat)
    requires dest in db.incidents && CountOk(db, dest)
    ensures var (db', fate) := TryAdd(w, db, dest, fps, faults, tries);
      var added := ToLink(db, dest, fps, false); var first := FirstReached(faults, tries);
      && (CountOk(db', dest) <==> AddWhole(w, db, dest, fps, faults, tries))
      && (fate == IsMerged && !CountOk(db', dest) <==>
            && added != {} && added <= w.latest.Keys && first.Reached? && first.fault == AfterCommit
            && FirstReached(first.later, first.left).Reached?)
  {
    var added := ToLink(db, dest, fps, false);
    TryAddOutcome(w, db, dest, fps, faults, tries);
    AddCountsExactlyWhen(w, db, dest, fps, false);
    LinkedCount(db, dest, added);
  }

  /** The retry decorator allows three attempts: after fewer than three errors before a commit
      and then none, the add does what it would have done at once; after three the source
      has failed with nothing changed. */
  lemma EarlyErrorsAreRetried(w: World, db: Db, dest: string, fps: set<string>, n: nat)
    requires dest in db.incidents
    ensures TryAdd(w, db, dest, fps, seq(n, _ => BeforeCommit), ADD_TRIES) ==
      if n < 3 then
        var (db', r) := Add(w, db, dest, fps, false);
        (db', if r == Updated || r == NothingToLink then IsMerged else Aborts)
      else (db, IsFailed)
  {
    LeadingErrors(w, db, dest, fps, n, ADD_TRIES);
  }

  lemma {:induction false} LeadingErrors(w: World, db: Db, dest: string, fps: set<string>, n: nat, tries: nat)
    requires dest in db.incidents
    ensures TryAdd(w, db, dest, fps, seq(n, _ => BeforeCommit), tries) ==
      if n < tries then TryAdd(w, db, dest, fps, [], 1) else (db, IsFailed)
    decreases tries
  {
    if tries > 0 {
      var faults := seq(n, _ => BeforeCommit);
      if n == 0 {
        assert faults == [];
      } else {
        assert faults[1..] == seq(n - 1, _ => BeforeCommit);
        LeadingErrors(w, db, dest, fps, n - 1, tries - 1);
      }
    }
  }

  lemma LinkedCount(db: Db, i: string, added: set<string>)
    requires i in db.incidents && CountOk(db, i) && added !! Live(db.links, i)
    ensures CountOk(db.(links := Linked(db.links, i, added)), i) <==> added == {}
  {
    LinkedLive(db.links, i, added, i);
    SizeOfParts(Live(db.links, i), added);
  }

  // ---------------------------------------------------------------- what every turn leaves

  /** The turn of a source commits the unlinking of its alerts. */
  predicate Unlinks(db: Db, p: Plan, fps: set<string>) {
    p.faults.removal != BeforeCommit && !DeletionClashes(db.links, p.source, Live(db.links, p.source) * fps, p.now)
  }

  /** It goes on to the add, and some attempt gets past its first commit. */
  ghost predicate TurnLinks(w: World, db: Db, p: Plan, fps: set<string>) {
    !TryRemove(w, db, p, fps).1 && FirstReached(p.faults.adds, ADD_TRIES).Reached?
  }

  /** The same, said of the errors and the alerts of a source all of whose alerts move. */
  predicate Delivers(w: World, db: Db, p: Plan, fps: set<string>) {
    && FirstReached(p.faults.adds, ADD_TRIES).Reached?
    && (|| p.faults.removal == BeforeCommit
        || (Unlinks(db, p, fps) && (p.faults.removal == AfterCommit || Readable(w, fps))))
  }

  lemma DeliversIsTurnLinks(w: World, db: Db, p: Plan, fps: set<string>)
    requires p.source in db.incidents && fps == Live(db.links, p.source)
    ensures TurnLinks(w, db, p, fps) <==> Delivers(w, db, p, fps)
  {
    assert Remaining(db, p.source, fps) == {};
    RemoveOutcome(w, db, p.source, fps, p.now, p.s, p.v);
  }

  lemma RemovalLeaves(w: World, db: Db, p: Plan, fps: set<string>)
    requires p.source in db.incidents
    ensures Live(TryRemove(w, db, p, fps).0.links, p.source)
         == Live(db.links, p.source) - if Unlinks(db, p, fps) then fps else {}
  {
    var live := Live(db.links, p.source);
    UnlinkedLive(db.links, p.source, live * fps, p.now, p.source);
    assert live - live * fps == live - fps;
  }

  /** A turn that is not the destination's own, whatever becomes of it, leaves its source
      with nothing or with all it had. */
  lemma TurnLeavesSource(w: World, db: Db, dest: string, p: Plan, fps: set<string>)
    requires dest in db.incidents && p.source in db.incidents && p.source != dest
    ensures Live(MergeOne(w, db, dest, p, fps).0.links, p.source)
         == Live(db.links, p.source) - if Unlinks(db, p, fps) then fps else {}
  {
    RemovalLeaves(w, db, p, fps);
    TriedAddLeaves(w, TryRemove(w, db, p, fps).0, dest, fps, p.faults.adds, ADD_TRIES, p.source);
  }

  /** A fingerprint not live on the destination is live on it after a turn exactly when the
      turn carries it and links; one that is live stays, unless the destination's own turn
      carries it. */
  lemma TurnLeavesDest(w: World, db: Db, dest: string, p: Plan, fps: set<string>, f: string)
    requires dest in db.incidents && fps <= w.latest.Keys
    ensures var after := Live(MergeOne(w, db, dest, p, fps).0.links, dest);
      if f !in Live(db.links, dest) then f in after <==> f in fps && TurnLinks(w, db, p, fps)
      else p.source != dest || f !in fps ==> f in after
  {
    var (db1, aborts) := TryRemove(w, db, p, fps);
    RemovalAtDest(w, db, p, fps, dest, f);
    if !aborts {
      TriedAddLinks(w, db1, dest, fps, p.faults.adds, ADD_TRIES);
    }
  }

  lemma RemovalAtDest(w: World, db: Db, p: Plan, fps: set<string>, dest: string, f: string)
    ensures var after := Live(TryRemove(w, db, p, fps).0.links, dest);
      && (f in after ==> f in Live(db.links, dest))
      && (f in Live(db.links, dest) && (p.source != dest || f !in fps) ==> f in after)
  {
    UnlinkedLive(db.links, p.source, Live(db.links, p.source) * fps, p.now, dest);
  }

  lemma TriedAddLinks(w: World, db: Db, dest: string, fps: set<string>, faults: seq<Fault>, tries: nat)
    requires dest in db.incidents && fps <= w.latest.Keys
    ensures Live(TryAdd(w, db, dest, fps, faults, tries).0.links, dest)
         == Live(db.links, dest) + if FirstReached(faults, tries).Reached? then fps else {}
  {
    TryAddOutcome(w, db, dest, fps, faults, tries);
    var added := ToLink(db, dest, fps, false);
    LinkedLive(db.links, dest, added, dest);
    assert Live(db.links, dest) + added == Live(db.links, dest) + fps;
  }

  /** What the turn of a source leaves, whatever its fate: its alerts are unlinked from it if
      the unlinking was committed, the destination has them if an attempt got past its first
      commit, and the source is marked merged in that case, or when every attempt failed
      early and the mark outlived the errors. */
  lemma TurnLeaves(w: World, db: Db, dest: string, p: Plan, fps: set<string>)
    requires dest in db.incidents && p.source in db.incidents && p.source != dest && fps <= w.latest.Keys
    ensures var db' := MergeOne(w, db, dest, p, fps).0;
      && Live(db'.links, p.source) == Live(db.links, p.source) - (if Unlinks(db, p, fps) then fps else {})
      && Live(db'.links, dest) == Live(db.links, dest) + (if TurnLinks(w, db, p, fps) then fps else {})
      && (db'.incidents[p.source].mergedInto == Some(dest) <==>
            || db.incidents[p.source].mergedInto == Some(dest) || TurnLinks(w, db, p, fps)
            || (!TryRemove(w, db, p, fps).1 && p.faults.markKept))
  {
    TurnLeavesSource(w, db, dest, p, fps);
    forall f { TurnLeavesDest(w, db, dest, p, fps, f); }
    TurnMarks(w, db, dest, p, fps);
  }

  lemma TurnMarks(w: World, db: Db, dest: string, p: Plan, fps: set<string>)
    requires dest in db.incidents && p.source in db.incidents && p.source != dest && fps <= w.latest.Keys
    ensures MergeOne(w, db, dest, p, fps).0.incidents[p.source].mergedInto == Some(dest) <==>
            || db.incidents[p.source].mergedInto == Some(dest) || TurnLinks(w, db, p, fps)
            || (!TryRemove(w, db, p, fps).1 && p.faults.markKept)
  {
    var (db1, aborts) := TryRemove(w, db, p, fps);
    RemovalKeepsMark(w, db, p, fps);
    if !aborts {
      TriedAddLeaves(w, db1, dest, fps, p.faults.adds, ADD_TRIES, p.source);
      TryAddOutcome(w, db1, dest, fps, p.faults.adds, ADD_TRIES);
      TriedAddLinks(w, db1, dest, fps, p.faults.adds, ADD_TRIES);
    }
  }

  lemma RemovalKeepsMark(w: World, db: Db, p: Plan, fps: set<string>)
    requires p.source in db.incidents
    ensures TryRemove(w, db, p, fps).0.incidents[p.source].mergedInto == db.incidents[p.source].mergedInto
  {
  }

  /** One move conserves the alerts of its source, on one side or the other, exactly when the
      destination had them all, or they were never unlinked, or the add that follows links
      them; a severity text that is not accepted loses them without any database error. */
  lemma MoveConservesExactlyWhen(w: World, db: Db, dest: string, p: Plan, fps: set<string>)
    requires dest in db.incidents && p.source in db.incidents && p.source != dest && ValidDb(w, db)
    requires fps == Live(db.links, p.source)
    ensures var links := MergeOne(w, db, dest, p, fps).0.links;
      fps <= Live(links, p.source) + Live(links, dest) <==>
        || fps <= Live(db.links, dest)
        || p.faults.removal == BeforeCommit || DeletionClashes(db.links, p.source, fps, p.now)
        || (FirstReached(p.faults.adds, ADD_TRIES).Reached? && (p.faults.removal == AfterCommit || Readable(w, fps)))
  {
    assert fps * fps == fps;
    LiveIsKnown(w, db, p.source);
    TurnLeavesSource(w, db, dest, p, fps);
    DeliversIsTurnLinks(w, db, p, fps);
    forall f { TurnLeavesDest(w, db, dest, p, fps, f); }
  }

  // ---------------------------------------------------------------- merging in step

  /** The removal leaves no count behind: nothing was to be unlinked or it was refused; or
      it failed before committing; or it met no error and reads accepted severities only. */
  predicate RemovalWhole(w: World, db: Db, p: Plan, fps: set<string>) {
    p.source in db.incidents ==>
      var gone := Live(db.links, p.source) * fps;
      || gone == {} || DeletionClashes(db.links, p.source, gone, p.now) || p.faults.removal == BeforeCommit
      || (p.faults.removal == NoFault && Readable(w, fps) && Resolvable(w, Remaining(db, p.source, fps)))
  }

  ghost predicate MoveWhole(w: World, db: Db, dest: string, p: Plan, fps: set<string>) {
    var (db1, aborts) := TryRemove(w, db, p, fps);
    RemovalWhole(w, db, p, fps) && (aborts || AddWhole(w, db1, dest, fps, p.faults.adds, ADD_TRIES))
  }

  lemma TriedRemovalCountsExactlyWhen(w: World, db: Db, p: Plan, fps: set<string>)
    requires p.source in db.incidents && CountOk(db, p.source)
    ensures CountOk(TryRemove(w, db, p, fps).0, p.source) <==> RemovalWhole(w, db, p, fps)
  {
    match p.faults.removal
    case NoFault => RemoveCountsExactlyWhen(w, db, p.source, fps, p.now, p.s, p.v);
    case BeforeCommit =>
    case AfterCommit => UnlinkedCount(db, p.source, Live(db.links, p.source) * fps, p.now);
  }

  lemma UnlinkedCount(db: Db, i: string, gone: set<string>, now: int)
    requires i in db.incidents && CountOk(db, i) && gone <= Live(db.links, i)
    ensures CountOk(db.(links := Unlink(db.links, i, gone, now)), i) <==> gone == {}
  {
    UnlinkedLive(db.links, i, gone, now, i);
    SizeOfDifference(Live(db.links, i), gone);
  }

  /** One move leaves both cached counts right exactly when neither of its calls leaves one
      behind, errors or not. */
  lemma MoveCountsExactlyWhen(w: World, db: Db, dest: string, p: Plan, fps: set<string>)
    requires dest in db.incidents && p.source in db.incidents && p.source != dest
    requires CountOk(db, dest) && CountOk(db, p.source)
    ensures var db' := MergeOne(w, db, dest, p, fps).0;
      CountOk(db', p.source) && CountOk(db', dest) <==> MoveWhole(w, db, dest, p, fps)
  {
    var (db1, aborts) := TryRemove(w, db, p, fps);
    TriedRemovalCountsExactlyWhen(w, db, p, fps);
    TriedRemovalLeaves(w, db, p, fps, dest);
    if !aborts {
      RetriedAddCountsExactlyWhen(w, db1, dest, fps, p.faults.adds, ADD_TRIES);
      TriedAddLeaves(w, db1, dest, fps, p.faults.adds, ADD_TRIES, p.source);
    }
  }

  lemma TriedRemovalLeaves(w: World, db: Db, p: Plan, fps: set<string>, j: string)
    requires j in db.incidents && j != p.source
    ensures var db1 := TryRemove(w, db, p, fps).0;
      Live(db1.links, j) == Live(db.links, j) && db1.incidents[j] == db.incidents[j]
  {
    RemoveLeavesOthers(w, db, p.source, fps, p.now, p.s, p.v, j);
    UnlinkedLive(db.links, p.source, Live(db.links, p.source) * fps, p.now, j);
  }

  lemma TriedAddLeaves(w: World, db: Db, dest: string, fps: set<string>, faults: seq<Fault>, tries: nat, j: string)
    requires dest in db.incidents && j in db.incidents && j != dest
    ensures var db' := TryAdd(w, db, dest, fps, faults, tries).0;
      Live(db'.links, j) == Live(db.links, j) && db'.incidents[j] == db.incidents[j]
  {
    TryAddOutcome(w, db, dest, fps, faults, tries);
    AddLeavesOthers(w, db, dest, fps, false, j);
    LinkedLive(db.links, dest, ToLink(db, dest, fps, false), j);
  }

  lemma NothingUnlinked(db: Db, i: string, now: int)
    ensures db.(links := Unlink(db.links, i, {}, now)) == db
  {
    assert Unlink(db.links, i, {}, now) == db.links;
  }

  lemma InOrderOfNothing(w: World, db: Db, p: Plan, fps: set<string>)
    requires ProbesOf(w, db, p.source, fps, p.s, p.v) && Remaining(db, p.source, fps) == {}
    ensures ProbedInOrder(p.s, p.v)
  {
    assert SourcesOf(w, {}) == {} && ServicesOf(w, {}) == {};
    OrderSize(p.s.rows, SourcesOf(w, {}) * SourcesOf(w, fps));
    OrderSize(p.v.rows, ServicesOf(w, {}) * ServicesOf(w, fps));
  }

  lemma RemovalKeepsInStep(w: World, db: Db, p: Plan, fps: set<string>, exact: bool)
    requires ValidWorld(w) && AllInStep(w, db, exact)
    requires ProbesPossible(w, db, p, fps) && RemovalWhole(w, db, p, fps)
    requires exact ==> ProbedInOrder(p.s, p.v) || Remaining(db, p.source, fps) == {}
    ensures AllInStep(w, TryRemove(w, db, p, fps).0, exact)
  {
    if p.source in db.incidents {
      var gone := Live(db.links, p.source) * fps;
      if gone == {} { NothingUnlinked(db, p.source, p.now); }
      if p.faults.removal == NoFault { PlainRemovalKeepsInStep(w, db, p, fps, exact); }
    }
  }

  lemma PlainRemovalKeepsInStep(w: World, db: Db, p: Plan, fps: set<string>, exact: bool)
    requires ValidWorld(w) && AllInStep(w, db, exact) && p.source in db.incidents && p.faults.removal == NoFault
    requires ProbesPossible(w, db, p, fps) && RemovalWhole(w, db, p, fps)
    requires exact ==> ProbedInOrder(p.s, p.v) || Remaining(db, p.source, fps) == {}
    ensures AllInStep(w, Remove(w, db, p.source, fps, p.now, p.s, p.v).0, exact)
  {
    RemoveOutcome(w, db, p.source, fps, p.now, p.s, p.v);
    if RemoveCompletes(w, db, p.source, fps, p.now) {
      if exact && Remaining(db, p.source, fps) == {} { InOrderOfNothing(w, db, p, fps); }
      RemoveKeepsAll(w, db, p.source, fps, p.now, p.s, p.v, exact);
    } else {
      RefusedRemoval(w, db, p, fps);
    }
  }

  /** A removal that did not complete changed nothing if it had nothing to unlink or was refused. */
  lemma RefusedRemoval(w: World, db: Db, p: Plan, fps: set<string>)
    requires p.source in db.incidents && RemovalWhole(w, db, p, fps) && p.faults.removal == NoFault
    requires !RemoveCompletes(w, db, p.source, fps, p.now)
    ensures Remove(w, db, p.source, fps, p.now, p.s, p.v).0 == db
  {
    RemoveOutcome(w, db, p.source, fps, p.now, p.s, p.v);
    if Live(db.links, p.source) * fps == {} { NothingUnlinked(db, p.source, p.now); }
  }

  lemma RetriedAddKeepsInStep(w: World, db: Db, dest: string, fps: set<string>, faults: seq<Fault>, tries: nat,
                              exact: bool)
    requires dest in db.incidents && ValidWorld(w) && AllInStep(w, db, exact)
    requires AddWhole(w, db, dest, fps, faults, tries)
    ensures AllInStep(w, TryAdd(w, db, dest, fps, faults, tries).0, exact)
  {
    TryAddOutcome(w, db, dest, fps, faults, tries);
    var added := ToLink(db, dest, fps, false);
    if added != {} && added <= w.latest.Keys && Readable(w, added) {
      AddKeepsAll(w, db, dest, fps, false, exact);
    }
  }

  lemma MarkKeepsInStep(w: World, db: Db, source: string, dest: string, exact: bool)
    requires AllInStep(w, db, exact)
    ensures AllInStep(w, Mark(db, source, dest), exact)
  {
    var db' := Mark(db, source, dest);
    forall j | j in db'.incidents ensures InStep(w, db', j, exact) { assert InStep(w, db, j, exact); }
  }

  /** A move that leaves no count behind keeps every aggregate in step, whatever became of
      it; names stay exact if the removal probed in row order or left nothing linked. */
  lemma MoveKeepsInStep(w: World, db: Db, dest: string, p: Plan, fps: set<string>, exact: bool)
    requires dest in db.incidents && ValidWorld(w) && AllInStep(w, db, exact)
    requires ProbesPossible(w, db, p, fps) && MoveWhole(w, db, dest, p, fps)
    requires exact ==> ProbedInOrder(p.s, p.v) || Remaining(db, p.source, fps) == {}
    ensures AllInStep(w, MergeOne(w, db, dest, p, fps).0, exact)
  {
    RemovalKeepsInStep(w, db, p, fps, exact);
    var (db1, aborts) := TryRemove(w, db, p, fps);
    if !aborts {
      RetriedAddKeepsInStep(w, db1, dest, fps, p.faults.adds, ADD_TRIES, exact);
      MarkKeepsInStep(w, TryAdd(w, db1, dest, fps, p.faults.adds, ADD_TRIES).0, p.source, dest, exact);
    }
  }

  /** A merge none of whose calls stops between its commits: each source's turn leaves no
      count behind, with errors or without, up to where the merge ends. */
  ghost predicate MergeWhole(w: World, db: Db, dest: string, cache: map<string, set<string>>, plans: seq<Plan>,
                             exact: bool)
    requires dest in db.incidents && forall p :: p in plans ==> p.source in cache
    decreases |plans|
  {
    plans != [] ==>
      var p := plans[0];
      var fps := cache[p.source];
      var (next, fate) := MergeOne(w, db, dest, p, fps);
      && ProbesPossible(w, db, p, fps) && MoveWhole(w, db, dest, p, fps)
      && (exact ==> ProbedInOrder(p.s, p.v) || Remaining(db, p.source, fps) == {})
      && (fate != Aborts ==> MergeWhole(w, next, dest, cache, plans[1..], exact))
  }

  /** Such a merge keeps every aggregate in step: the destination may be among the sources,
      sources may fail, and the merge may be abandoned. */
  lemma {:induction false} MergeKeepsInStep(w: World, db: Db, dest: string, cache: map<string, set<string>>,
                                            plans: seq<Plan>, exact: bool)
    requires dest in db.incidents && forall p :: p in plans ==> p.source in cache
    requires ValidWorld(w) && AllInStep(w, db, exact) && MergeWhole(w, db, dest, cache, plans, exact)
    ensures AllInStep(w, MergeAll(w, db, dest, cache, plans).db, exact)
    decreases |plans|
  {
    if plans != [] {
      var p := plans[0];
      var (next, fate) := MergeOne(w, db, dest, p, cache[p.source]);
      MoveKeepsInStep(w, db, dest, p, cache[p.source], exact);
      if fate != Aborts { MergeKeepsInStep(w, next, dest, cache, plans[1..], exact); }
    }
  }

  /** The sources still to be moved have the alerts that were read for them. */
  predicate AsRead(db: Db, dest: string, cache: map<string, set<string>>, plans: seq<Plan>) {
    && dest !in Sources(plans) && Distinct(Sources(plans))
    && forall p :: p in plans ==> p.source in cache && cache[p.source] == Live(db.links, p.source)
  }

  lemma AsReadRest(w: World, db: Db, dest: string, cache: map<string, set<string>>, plans: seq<Plan>)
    requires plans != [] && dest in db.incidents && ValidDb(w, db) && AsRead(db, dest, cache, plans)
    ensures var next := MergeOne(w, db, dest, plans[0], cache[plans[0].source]).0;
      ValidDb(w, next) && AsRead(next, dest, cache, plans[1..])
  {
    var p := plans[0];
    var next := MergeOne(w, db, dest, p, cache[p.source]).0;
    assert p in plans;
    DistinctRest(plans, dest);
    LiveIsKnown(w, db, p.source);
    MergeOneValid(w, db, dest, p, cache[p.source]);
    forall q | q in plans[1..] ensures q.source in cache && cache[q.source] == Live(next.links, q.source) {
      assert q in plans;
      MergeOneLinks(w, db, dest, p, cache[p.source], q.source);
    }
  }

  lemma DistinctRest(plans: seq<Plan>, dest: string)
    requires plans != [] && Distinct(Sources(plans)) && dest !in Sources(plans)
    ensures Distinct(Sources(plans[1..])) && dest !in Sources(plans[1..]) && plans[0].source != dest
    ensures forall q :: q in plans[1..] ==> q.source != plans[0].source && q.source != dest
  {
    var all, rest := Sources(plans), Sources(plans[1..]);
    assert all[0] == plans[0].source && all[1..] == rest;
    forall q | q in plans[1..] ensures q.source != plans[0].source && q.source != dest {
      var k :| 0 <= k < |plans[1..]| && plans[1..][k] == q;
      assert all[k + 1] == q.source;
    }
  }

  /** With the destination not among the sources the order of probing cannot matter: each
      removal leaves nothing linked, so its one-shot results are empty. */
  lemma {:induction false} AsReadNeedsNoOrder(w: World, db: Db, dest: string, cache: map<string, set<string>>,
                                              plans: seq<Plan>)
    requires dest in db.incidents && ValidDb(w, db) && AsRead(db, dest, cache, plans)
    requires MergeWhole(w, db, dest, cache, plans, false)
    ensures MergeWhole(w, db, dest, cache, plans, true)
    decreases |plans|
  {
    if plans != [] {
      var p := plans[0];
      assert p in plans;
      assert Remaining(db, p.source, cache[p.source]) == {};
      var (next, fate) := MergeOne(w, db, dest, p, cache[p.source]);
      if fate != Aborts {
        AsReadRest(w, db, dest, cache, plans);
        AsReadNeedsNoOrder(w, next, dest, cache, plans[1..]);
      }
    }
  }

  // ---------------------------------------------------------------- what a merge leaves

  /** How many sources get their turn: all, or those up to the one that ends the merge. */
  ghost function Turns(w: World, db: Db, dest: string, cache: map<string, set<string>>, plans: seq<Plan>): (n: nat)
    requires dest in db.incidents && forall p :: p in plans ==> p.source in cache
    ensures n <= |plans|
    decreases |plans|
  {
    if plans == [] then 0
    else
      var (next, fate) := MergeOne(w, db, dest, plans[0], cache[plans[0].source]);
      1 + if fate == Aborts then 0 else Turns(w, next, dest, cache, plans[1..])
  }

  lemma TurnKeepsDeleted(w: World, db: Db, dest: string, p: Plan, fps: set<string>, l: Link)
    requires dest in db.incidents && l.incident != p.source && l.deletedAt.Some?
    ensures l in MergeOne(w, db, dest, p, fps).0.links <==> l in db.links
  {
    var (db1, aborts) := TryRemove(w, db, p, fps);
    TryAddOutcome(w, db1, dest, fps, p.faults.adds, ADD_TRIES);
  }

  /** A later source finds what decides its turn as it was before the merge. */
  lemma TurnLeavesRest(w: World, db: Db, dest: string, cache: map<string, set<string>>, plans: seq<Plan>, q: Plan)
    requires plans != [] && dest in db.incidents && ValidDb(w, db) && AsRead(db, dest, cache, plans) && q in plans[1..]
    ensures var next := MergeOne(w, db, dest, plans[0], cache[plans[0].source]).0; var fps := cache[q.source];
      && q.source != plans[0].source && q.source != dest && Live(next.links, q.source) == fps
      && (Unlinks(next, q, fps) <==> Unlinks(db, q, fps)) && (Delivers(w, next, q, fps) <==> Delivers(w, db, q, fps))
  {
    var p := plans[0];
    var next := MergeOne(w, db, dest, p, cache[p.source]).0;
    assert p in plans && q in plans;
    DistinctRest(plans, dest);
    AsReadRest(w, db, dest, cache, plans);
    forall f ensures Link(q.source, f, Some(q.now)) in next.links <==> Link(q.source, f, Some(q.now)) in db.links {
      TurnKeepsDeleted(w, db, dest, p, cache[p.source], Link(q.source, f, Some(q.now)));
    }
  }

  lemma {:induction false} MergeLeavesOthers(w: World, db: Db, dest: string, cache: map<string, set<string>>,
                                             plans: seq<Plan>, j: string)
    requires dest in db.incidents && (forall p :: p in plans ==> p.source in cache)
    requires dest !in Sources(plans) && j != dest && j !in Sources(plans)
    requires forall p :: p in plans ==> cache[p.source] <= w.latest.Keys
    ensures Live(MergeAll(w, db, dest, cache, plans).db.links, j) == Live(db.links, j)
    decreases |plans|
  {
    if plans != [] {
      var p := plans[0];
      assert p in plans && Sources(plans)[0] == p.source;
      SourcesFrom(plans);
      MergeOneLinks(w, db, dest, p, cache[p.source], j);
      MergeLeavesOthers(w, MergeOne(w, db, dest, p, cache[p.source]).0, dest, cache, plans[1..], j);
    }
  }

  lemma MergeLeavesFirst(w: World, db: Db, dest: string, cache: map<string, set<string>>, plans: seq<Plan>)
    requires dest in db.incidents && ValidDb(w, db) && AsRead(db, dest, cache, plans) && plans != []
    requires plans[0] in plans && plans[0].source in db.incidents
    ensures var p := plans[0];
      Live(MergeAll(w, db, dest, cache, plans).db.links, p.source)
      == if Unlinks(db, p, cache[p.source]) then {} else cache[p.source]
  {
    var p := plans[0];
    var (next, fate) := MergeOne(w, db, dest, p, cache[p.source]);
    DistinctRest(plans, dest);
    TurnLeavesSource(w, db, dest, p, cache[p.source]);
    if fate != Aborts {
      AsReadRest(w, db, dest, cache, plans);
      forall q | q in plans[1..] ensures cache[q.source] <= w.latest.Keys { LiveIsKnown(w, next, q.source); }
      NotAmongRest(plans, p.source);
      MergeLeavesOthers(w, next, dest, cache, plans[1..], p.source);
    }
  }

  /** Whatever fails, a source that got its turn with its unlinking committed is left with
      nothing, every other source with all it had. */
  lemma {:induction false} MergeLeavesSource(w: World, db: Db, dest: string, cache: map<string, set<string>>,
                                             plans: seq<Plan>, k: nat)
    requires dest in db.incidents && ValidDb(w, db) && AsRead(db, dest, cache, plans) && k < |plans|
    requires forall p :: p in plans ==> p.source in db.incidents
    ensures var m := MergeAll(w, db, dest, cache, plans); var p := plans[k];
      p in plans && Live(m.db.links, p.source) ==
        if k < Turns(w, db, dest, cache, plans) && Unlinks(db, p, cache[p.source]) then {} else cache[p.source]
    decreases |plans|
  {
    assert plans[k] in plans;
    if k == 0 {
      MergeLeavesFirst(w, db, dest, cache, plans);
    } else {
      var (next, fate) := MergeOne(w, db, dest, plans[0], cache[plans[0].source]);
      AsReadRest(w, db, dest, cache, plans);
      assert plans[1..][k - 1] == plans[k] && plans[k] in plans[1..];
      TurnLeavesRest(w, db, dest, cache, plans, plans[k]);
      FirstOfMerge(w, db, dest, cache, plans);
      if fate != Aborts { MergeLeavesSource(w, next, dest, cache, plans[1..], k - 1); }
    }
  }

  lemma NotAmongRest(plans: seq<Plan>, source: string)
    requires plans != [] && forall q :: q in plans[1..] ==> q.source != source
    ensures source !in Sources(plans[1..])
  {
    forall k | 0 <= k < |plans[1..]| ensures Sources(plans[1..])[k] != source { assert plans[1..][k] in plans[1..]; }
  }

  /** Some source that got its turn carries the fingerprint and delivers. */
  ghost predicate SomeDelivers(w: World, db: Db, dest: string, cache: map<string, set<string>>, plans: seq<Plan>,
                               f: string)
    requires dest in db.incidents && forall p :: p in plans ==> p.source in cache
  {
    exists k :: 0 <= k < Turns(w, db, dest, cache, plans) && DeliversOne(w, db, cache, plans[k], f)
  }

  predicate DeliversOne(w: World, db: Db, cache: map<string, set<string>>, p: Plan, f: string) {
    p.source in cache && f in cache[p.source] && Delivers(w, db, p, cache[p.source])
  }

  lemma SomeDeliversFirst(w: World, db: Db, dest: string, cache: map<string, set<string>>, plans: seq<Plan>, f: string)
    requires dest in db.incidents && ValidDb(w, db) && AsRead(db, dest, cache, plans) && plans != []
    ensures var p := plans[0]; p in plans && var (next, fate) := MergeOne(w, db, dest, p, cache[p.source]);
      (forall q :: q in plans[1..] ==> q.source in cache)
      && (SomeDelivers(w, db, dest, cache, plans, f) <==>
            DeliversOne(w, db, cache, p, f) || (fate != Aborts && SomeDelivers(w, next, dest, cache, plans[1..], f)))
  {
    var p, rest := plans[0], plans[1..];
    assert p in plans;
    var (next, fate) := MergeOne(w, db, dest, p, cache[p.source]);
    forall q | q in rest ensures DeliversOne(w, next, cache, q, f) <==> DeliversOne(w, db, cache, q, f) {
      TurnLeavesRest(w, db, dest, cache, plans, q);
    }
    var n := Turns(w, db, dest, cache, plans);
    assert n == 1 + if fate == Aborts then 0 else Turns(w, next, dest, cache, rest);
    DeliversShifted(w, db, next, cache, plans, n, f);
  }

  /** Looking for a delivering source among the first `n`, the first one or later. */
  lemma DeliversShifted(w: World, db: Db, next: Db, cache: map<string, set<string>>, plans: seq<Plan>, n: nat,
                        f: string)
    requires 1 <= n <= |plans|
    requires forall q :: q in plans[1..] ==> (DeliversOne(w, next, cache, q, f) <==> DeliversOne(w, db, cache, q, f))
    ensures (exists k :: 0 <= k < n && DeliversOne(w, db, cache, plans[k], f)) <==>
            || DeliversOne(w, db, cache, plans[0], f)
            || exists k :: 0 <= k < n - 1 && DeliversOne(w, next, cache, plans[1..][k], f)
  {
    var rest := plans[1..];
    if k :| 0 <= k < n - 1 && DeliversOne(w, next, cache, rest[k], f) {
      assert rest[k] in rest && DeliversOne(w, db, cache, plans[k + 1], f);
    }
    if k :| 0 < k < n && DeliversOne(w, db, cache, plans[k], f) {
      assert rest[k - 1] in rest && DeliversOne(w, next, cache, rest[k - 1], f);
    }
  }

  /** Whatever fails, the destination is left with what it had and with the alerts of the
      sources that delivered. */
  lemma {:induction false} MergeLeavesDest(w: World, db: Db, dest: string, cache: map<string, set<string>>,
                                           plans: seq<Plan>, f: string)
    requires dest in db.incidents && ValidDb(w, db) && AsRead(db, dest, cache, plans)
    requires forall p :: p in plans ==> p.source in db.incidents
    ensures f in Live(MergeAll(w, db, dest, cache, plans).db.links, dest) <==>
            f in Live(db.links, dest) || SomeDelivers(w, db, dest, cache, plans, f)
    decreases |plans|
  {
    if plans != [] {
      var p := plans[0];
      assert p in plans;
      var (next, fate) := MergeOne(w, db, dest, p, cache[p.source]);
      DistinctRest(plans, dest);
      LiveIsKnown(w, db, p.source);
      TurnLeavesDest(w, db, dest, p, cache[p.source], f);
      DeliversIsTurnLinks(w, db, p, cache[p.source]);
      SomeDeliversFirst(w, db, dest, cache, plans, f);
      AsReadRest(w, db, dest, cache, plans);
      if fate != Aborts { MergeLeavesDest(w, next, dest, cache, plans[1..], f); }
    }
  }

  /** The turn of source `k` carries the fingerprint away: it is reached, commits the
      unlinking, and does not deliver. */
  ghost predicate CarriedOff(w: World, db: Db, dest: string, cache: map<string, set<string>>, plans: seq<Plan>, k: nat)
    requires dest in db.incidents && (forall p :: p in plans ==> p.source in cache) && k < |plans|
  {
    var p := plans[k];
    p in plans && k < Turns(w, db, dest, cache, plans)
    && Unlinks(db, p, cache[p.source]) && !Delivers(w, db, p, cache[p.source])
  }

  /** The alert is live neither on the destination nor on a source that had it. */
  ghost predicate Lost(links: set<Link>, dest: string, cache: map<string, set<string>>, plans: seq<Plan>, f: string)
    requires forall p :: p in plans ==> p.source in cache
  {
    f !in Live(links, dest) && forall p :: p in plans && f in cache[p.source] ==> f !in Live(links, p.source)
  }

  /** A merge, completed or abandoned and whatever fails in it, leaves an alert of its sources
      on none of its incidents exactly when the destination did not have it and every source
      that had it was carried off. */
  lemma MergeLosesExactlyWhen(w: World, db: Db, dest: string, cache: map<string, set<string>>, plans: seq<Plan>,
                              f: string)
    requires dest in db.incidents && ValidDb(w, db) && AsRead(db, dest, cache, plans)
    requires forall p :: p in plans ==> p.source in db.incidents
    requires f in Moved(cache, plans)
    ensures Lost(MergeAll(w, db, dest, cache, plans).db.links, dest, cache, plans, f) <==>
            && f !in Live(db.links, dest)
            && forall k :: 0 <= k < |plans| && f in cache[plans[k].source] ==> CarriedOff(w, db, dest, cache, plans, k)
  {
    var links := MergeAll(w, db, dest, cache, plans).db.links;
    MergeLeavesDest(w, db, dest, cache, plans, f);
    forall k | 0 <= k < |plans| && f in cache[plans[k].source]
      ensures f !in Live(links, plans[k].source) <==>
              k < Turns(w, db, dest, cache, plans) && Unlinks(db, plans[k], cache[plans[k].source])
    {
      MergeLeavesSource(w, db, dest, cache, plans, k);
    }
    MovedIsCached(cache, plans);
    LostMeansCarriedOff(w, db, dest, cache, plans, links, f);
  }

  /** Without database errors an alert is lost exactly when the destination did not have it
      and every source that had it got its turn, with a fresh deletion time, and has an alert
      whose severity text is not accepted. */
  lemma WithoutErrorsLosesExactlyWhen(w: World, db: Db, dest: string, cache: map<string, set<string>>,
                                      plans: seq<Plan>, f: string)
    requires dest in db.incidents && ValidDb(w, db) && Untouched(db, dest, cache, plans) && f in Moved(cache, plans)
    ensures Lost(MergeAll(w, db, dest, cache, plans).db.links, dest, cache, plans, f) <==>
            && f !in Live(db.links, dest)
            && forall k :: 0 <= k < |plans| && f in cache[plans[k].source] ==>
                 && k < Turns(w, db, dest, cache, plans)
                 && !DeletionClashes(db.links, plans[k].source, cache[plans[k].source], plans[k].now)
                 && !Readable(w, cache[plans[k].source])
  {
    MergeLosesExactlyWhen(w, db, dest, cache, plans, f);
    forall k | 0 <= k < |plans|
      ensures plans[k] in plans && var fps := cache[plans[k].source];
        CarriedOff(w, db, dest, cache, plans, k) <==>
          && k < Turns(w, db, dest, cache, plans)
          && !DeletionClashes(db.links, plans[k].source, fps, plans[k].now) && !Readable(w, fps)
    {
      var p := plans[k];
      assert p in plans && cache[p.source] * cache[p.source] == cache[p.source];
      assert FirstReached([], ADD_TRIES) == Reached(NoFault, [], ADD_TRIES - 1);
    }
  }

  lemma LostMeansCarriedOff(w: World, db: Db, dest: string, cache: map<string, set<string>>, plans: seq<Plan>,
                            links: set<Link>, f: string)
    requires dest in db.incidents && (forall p :: p in plans ==> p.source in cache)
    requires f in Live(links, dest) <==> f in Live(db.links, dest) || SomeDelivers(w, db, dest, cache, plans, f)
    requires forall k :: 0 <= k < |plans| && f in cache[plans[k].source] ==>
      (f !in Live(links, plans[k].source) <==>
         k < Turns(w, db, dest, cache, plans) && Unlinks(db, plans[k], cache[plans[k].source]))
    requires exists p :: p in plans && f in cache[p.source]
    ensures Lost(links, dest, cache, plans, f) <==>
            && f !in Live(db.links, dest)
            && forall k :: 0 <= k < |plans| && f in cache[plans[k].source] ==> CarriedOff(w, db, dest, cache, plans, k)
  {
    if Lost(links, dest, cache, plans, f) {
      forall k | 0 <= k < |plans| && f in cache[plans[k].source] ensures CarriedOff(w, db, dest, cache, plans, k) {
        assert plans[k] in plans;
        assert !DeliversOne(w, db, cache, plans[k], f);
      }
    }
    if f !in Live(db.links, dest)
       && forall k :: 0 <= k < |plans| && f in cache[plans[k].source] ==> CarriedOff(w, db, dest, cache, plans, k) {
      forall k | 0 <= k < Turns(w, db, dest, cache, plans) ensures !DeliversOne(w, db, cache, plans[k], f) {
        assert plans[k] in plans;
        if f in cache[plans[k].source] { assert CarriedOff(w, db, dest, cache, plans, k); }
      }
      forall p | p in plans && f in cache[p.source] ensures f !in Live(links, p.source) {
        var k :| 0 <= k < |plans| && plans[k] == p;
        assert CarriedOff(w, db, dest, cache, plans, k);
      }
    }
  }

  // ---------------------------------------------------------------- without failures

  predicate FaultFree(p: Plan) {
    p.faults.removal == NoFault && p.faults.adds == []
  }

  /** They also still exist, and no database error will disturb them. */
  predicate Untouched(db: Db, dest: string, cache: map<string, set<string>>, plans: seq<Plan>) {
    AsRead(db, dest, cache, plans) && forall p :: p in plans ==> FaultFree(p) && p.source in db.incidents
  }

  /** What stops a move without any database error: a deletion time used before, or a
      severity text that is not accepted. */
  predicate Stops(w: World, db: Db, p: Plan, fps: set<string>) {
    DeletionClashes(db.links, p.source, fps, p.now) || !Readable(w, fps)
  }

  lemma RemoveAll(w: World, db: Db, p: Plan)
    requires p.source in db.incidents && ValidDb(w, db)
    ensures var fps := Live(db.links, p.source);
      && Remaining(db, p.source, fps) == {} && fps <= w.latest.Keys
      && Remove(w, db, p.source, fps, p.now, p.s, p.v).1
         == (if DeletionClashes(db.links, p.source, fps, p.now) then Refused
             else if !Readable(w, fps) then RaisedAfterCommit else Updated)
  {
    var fps := Live(db.links, p.source);
    assert fps * fps == fps;
    UnlinkedLive(db.links, p.source, fps, p.now, p.source);
    assert fps - fps == {};
    assert forall f :: f in fps ==> Link(p.source, f, None) in db.links;
  }

  lemma AddReadable(w: World, db: Db, dest: string, fps: set<string>)
    requires dest in db.incidents && fps <= w.latest.Keys && Readable(w, fps)
    ensures Add(w, db, dest, fps, false).1 in {Updated, NothingToLink}
  {
    assert ToLink(db, dest, fps, false) <= fps;
  }

  /** The two calls of one undisturbed move, and its fate. */
  lemma MoveSteps(w: World, db: Db, dest: string, p: Plan)
    requires dest in db.incidents && p.source in db.incidents && FaultFree(p) && ValidDb(w, db)
    ensures var fps := Live(db.links, p.source);
      var (db1, r1) := Remove(w, db, p.source, fps, p.now, p.s, p.v);
      && (r1 != Updated <==> Stops(w, db, p, fps))
      && (r1 != Updated ==> MergeOne(w, db, dest, p, fps).1 == Aborts)
      && (r1 == Updated ==>
            dest in db1.incidents
            && Add(w, db1, dest, fps, false).1 in {Updated, NothingToLink}
            && MergeOne(w, db, dest, p, fps) == (Mark(Add(w, db1, dest, fps, false).0, p.source, dest), IsMerged))
  {
    RemoveAll(w, db, p);
    var fps := Live(db.links, p.source);
    var (db1, r1) := Remove(w, db, p.source, fps, p.now, p.s, p.v);
    if r1 == Updated {
      AddReadable(w, db1, dest, fps);
    }
  }

  /** What one undisturbed move does to the links. */
  lemma MoveLinks(w: World, db: Db, dest: string, p: Plan, j: string)
    requires dest in db.incidents && p.source in db.incidents && p.source != dest && FaultFree(p)
    requires ValidDb(w, db) && !Stops(w, db, p, Live(db.links, p.source))
    ensures var fps := Live(db.links, p.source); var (db', fate) := MergeOne(w, db, dest, p, fps);
      && fate == IsMerged && ValidDb(w, db')
      && Live(db'.links, j) == (if j == p.source then {} else Live(db.links, j) + if j == dest then fps else {})
  {
    var fps := Live(db.links, p.source);
    MoveSteps(w, db, dest, p);
    MergeOneValid(w, db, dest, p, fps);
    RemoveAll(w, db, p);
    if j != p.source { MergeOneLinks(w, db, dest, p, fps, j); }
    else {
      RemoveLinks(w, db, p.source, fps, p.now, p.s, p.v);
      AddLeavesOthers(w, Remove(w, db, p.source, fps, p.now, p.s, p.v).0, dest, fps, false, j);
    }
  }

  /** Incident `j` is marked merged into the destination if it is one of the sources, and
      keeps its status and mark otherwise. */
  predicate MarkedRight(db: Db, db': Db, dest: string, sources: seq<string>, j: string)
    requires j in db.incidents && j in db'.incidents
  {
    var before, after := db.incidents[j], db'.incidents[j];
    if j in sources then after.status == MergedIncident && after.mergedInto == Some(dest)
    else after.status == before.status && after.mergedInto == before.mergedInto
  }

  /** What it does to the marks. */
  lemma MoveMarks(w: World, db: Db, dest: string, p: Plan, j: string)
    requires dest in db.incidents && p.source in db.incidents && p.source != dest && FaultFree(p)
    requires ValidDb(w, db) && !Stops(w, db, p, Live(db.links, p.source)) && j in db.incidents
    ensures var db' := MergeOne(w, db, dest, p, Live(db.links, p.source)).0;
      j in db'.incidents && MarkedRight(db, db', dest, [p.source], j)
  {
    MoveSteps(w, db, dest, p);
  }

  lemma MoveKeepsDeleted(w: World, db: Db, dest: string, p: Plan, i: string, f: string, t: int)
    requires dest in db.incidents && p.source in db.incidents && p.source != dest && FaultFree(p) && i != p.source
    ensures var db' := MergeOne(w, db, dest, p, Live(db.links, p.source)).0;
      Link(i, f, Some(t)) in db'.links <==> Link(i, f, Some(t)) in db.links
  {
  }

  /** The later moves find their sources as they were. */
  lemma MoveKeepsRest(w: World, db: Db, dest: string, cache: map<string, set<string>>, plans: seq<Plan>)
    requires plans != [] && dest in db.incidents && ValidDb(w, db) && Untouched(db, dest, cache, plans)
    requires !Stops(w, db, plans[0], cache[plans[0].source])
    ensures var next := MergeOne(w, db, dest, plans[0], cache[plans[0].source]).0;
      && Untouched(next, dest, cache, plans[1..])
      && forall q :: q in plans[1..] ==> (Stops(w, next, q, cache[q.source]) <==> Stops(w, db, q, cache[q.source]))
  {
    var p := plans[0];
    assert p in plans;
    var next := MergeOne(w, db, dest, p, cache[p.source]).0;
    AsReadRest(w, db, dest, cache, plans);
    DistinctRest(plans, dest);
    MoveSteps(w, db, dest, p);
    forall q | q in plans[1..]
      ensures Stops(w, next, q, cache[q.source]) <==> Stops(w, db, q, cache[q.source])
    {
      assert q in plans;
      forall f ensures Link(q.source, f, Some(q.now)) in next.links <==> Link(q.source, f, Some(q.now)) in db.links {
        MoveKeepsDeleted(w, db, dest, p, q.source, f, q.now);
      }
    }
  }

  /** All the fingerprints the plans move. */
  function Moved(cache: map<string, set<string>>, plans: seq<Plan>): set<string>
    requires forall p :: p in plans ==> p.source in cache
  {
    if plans == [] then {} else cache[plans[0].source] + Moved(cache, plans[1..])
  }

  /** Without database errors a merge is abandoned exactly when some source's deletion time
      was used before or one of its alerts has a severity text that is not accepted. */
  lemma {:induction false} MergeStopsExactlyWhen(w: World, db: Db, dest: string, cache: map<string, set<string>>,
                                                 plans: seq<Plan>)
    requires dest in db.incidents && ValidDb(w, db) && Untouched(db, dest, cache, plans)
    ensures MergeAll(w, db, dest, cache, plans).aborted <==> exists p :: p in plans && Stops(w, db, p, cache[p.source])
    decreases |plans|
  {
    if plans != [] {
      var p := plans[0];
      assert p in plans && Sources(plans)[0] == p.source;
      MoveSteps(w, db, dest, p);
      if !Stops(w, db, p, cache[p.source]) {
        MoveKeepsRest(w, db, dest, cache, plans);
        MoveLinks(w, db, dest, p, dest);
        MergeStopsExactlyWhen(w, MergeOne(w, db, dest, p, cache[p.source]).0, dest, cache, plans[1..]);
        assert forall q :: q in plans ==> q == p || q in plans[1..];
      }
    }
  }

  /** The conditions of an undisturbed merge, */
  predicate Smooth(w: World, db: Db, dest: string, cache: map<string, set<string>>, plans: seq<Plan>) {
    && ValidDb(w, db) && Untouched(db, dest, cache, plans)
    && forall p :: p in plans ==> !Stops(w, db, p, cache[p.source])
  }

  /** and that its one-shot results come in possible orders. */
  ghost predicate Undisturbed(w: World, db: Db, dest: string, cache: map<string, set<string>>, plans: seq<Plan>)
    requires dest in db.incidents
  {
    Smooth(w, db, dest, cache, plans) && PlansPossible(w, db, dest, cache, plans)
  }

  lemma SmoothRest(w: World, db: Db, dest: string, cache: map<string, set<string>>, plans: seq<Plan>)
    requires plans != [] && dest in db.incidents && Smooth(w, db, dest, cache, plans)
    ensures var p := plans[0]; var (next, fate) := MergeOne(w, db, dest, p, cache[p.source]);
      && p.source in db.incidents && p.source != dest && FaultFree(p) && cache[p.source] == Live(db.links, p.source)
      && !Stops(w, db, p, cache[p.source])
      && fate == IsMerged && Smooth(w, next, dest, cache, plans[1..])
      && Sources(plans) == [p.source] + Sources(plans[1..])
  {
    var p := plans[0];
    assert p in plans && Sources(plans)[0] == p.source;
    SourcesFrom(plans);
    MoveLinks(w, db, dest, p, dest);
    MoveKeepsRest(w, db, dest, cache, plans);
  }

  /** An undisturbed merge stops nowhere between two commits. */
  lemma {:induction false} UndisturbedIsWhole(w: World, db: Db, dest: string, cache: map<string, set<string>>,
                                              plans: seq<Plan>)
    requires dest in db.incidents && Undisturbed(w, db, dest, cache, plans)
    ensures MergeWhole(w, db, dest, cache, plans, false)
    decreases |plans|
  {
    if plans != [] {
      var p := plans[0];
      SmoothRest(w, db, dest, cache, plans);
      UndisturbedMoveIsWhole(w, db, dest, p);
      UndisturbedIsWhole(w, MergeOne(w, db, dest, p, cache[p.source]).0, dest, cache, plans[1..]);
    }
  }

  lemma UndisturbedMoveIsWhole(w: World, db: Db, dest: string, p: Plan)
    requires dest in db.incidents && p.source in db.incidents && FaultFree(p) && ValidDb(w, db)
    requires !Stops(w, db, p, Live(db.links, p.source))
    ensures MoveWhole(w, db, dest, p, Live(db.links, p.source))
  {
    var fps := Live(db.links, p.source);
    RemoveAll(w, db, p);
    assert Resolvable(w, Remaining(db, p.source, fps));
    assert FirstReached([], ADD_TRIES) == Reached(NoFault, [], ADD_TRIES - 1);
    var db1 := TryRemove(w, db, p, fps).0;
    assert ToLink(db1, dest, fps, false) <= fps;
  }

  lemma {:induction false} MergeMovesLinks(w: World, db: Db, dest: string, cache: map<string, set<string>>,
                                           plans: seq<Plan>, j: string)
    requires dest in db.incidents && Smooth(w, db, dest, cache, plans)
    ensures var m := MergeAll(w, db, dest, cache, plans);
      && !m.aborted && m.merged == Sources(plans) && m.failed == []
      && Live(m.db.links, j) == (if j == dest then Live(db.links, dest) + Moved(cache, plans)
                                 else if j in Sources(plans) then {} else Live(db.links, j))
    decreases |plans|
  {
    if plans != [] {
      var p := plans[0];
      var next := MergeOne(w, db, dest, p, cache[p.source]).0;
      SmoothRest(w, db, dest, cache, plans);
      MoveLinks(w, db, dest, p, j);
      MergeMovesLinks(w, next, dest, cache, plans[1..], j);
      FirstOfMerge(w, db, dest, cache, plans);
      assert Moved(cache, plans) == cache[p.source] + Moved(cache, plans[1..]);
      assert j in Sources(plans) <==> j == p.source || j in Sources(plans[1..]);
    }
  }

  lemma {:induction false} MergeMarks(w: World, db: Db, dest: string, cache: map<string, set<string>>,
                                      plans: seq<Plan>, j: string)
    requires dest in db.incidents && j in db.incidents && Smooth(w, db, dest, cache, plans)
    ensures var m := MergeAll(w, db, dest, cache, plans);
      j in m.db.incidents && MarkedRight(db, m.db, dest, Sources(plans), j)
    decreases |plans|
  {
    if plans != [] {
      SmoothRest(w, db, dest, cache, plans);
      MoveMarks(w, db, dest, plans[0], j);
      MergeMarks(w, MergeOne(w, db, dest, plans[0], cache[plans[0].source]).0, dest, cache, plans[1..], j);
    }
  }

  /** An undisturbed merge conserves alerts: the destination ends up with its own live set
      and those of all found sources, each source with none, every third incident with what
      it had; every stored aggregate agrees again as well as it did before; exactly the
      sources are marked merged into the destination, and all of them are reported. */
  lemma MergeConserves(w: World, db: Db, dest: string, cache: map<string, set<string>>, plans: seq<Plan>, exact: bool)
    requires dest in db.incidents && ValidWorld(w) && AllInStep(w, db, exact) && Undisturbed(w, db, dest, cache, plans)
    ensures var m := MergeAll(w, db, dest, cache, plans);
      && !m.aborted && m.merged == Sources(plans) && m.failed == []
      && AllInStep(w, m.db, exact)
      && Live(m.db.links, dest) == Live(db.links, dest) + Moved(cache, plans)
      && (forall j :: j in Sources(plans) ==> Live(m.db.links, j) == {})
      && (forall j :: j != dest && j !in Sources(plans) ==> Live(m.db.links, j) == Live(db.links, j))
      && (forall j :: j in db.incidents ==> j in m.db.incidents && MarkedRight(db, m.db, dest, Sources(plans), j))
  {
    var m := MergeAll(w, db, dest, cache, plans);
    UndisturbedIsWhole(w, db, dest, cache, plans);
    AsReadNeedsNoOrder(w, db, dest, cache, plans);
    MergeKeepsInStep(w, db, dest, cache, plans, exact);
    MergeMovesLinks(w, db, dest, cache, plans, dest);
    forall j ensures j in Sources(plans) ==> Live(m.db.links, j) == {}
             ensures j != dest && j !in Sources(plans) ==> Live(m.db.links, j) == Live(db.links, j) {
      MergeMovesLinks(w, db, dest, cache, plans, j);
    }
    forall j | j in db.incidents ensures j in m.db.incidents && MarkedRight(db, m.db, dest, Sources(plans), j) {
      MergeMarks(w, db, dest, cache, plans, j);
    }
  }

  // ---------------------------------------------------------------- what a call reports

  /** The fingerprints read for all the found sources. */
  function AllCached(cache: map<string, set<string>>): set<string> {
    set i, f | i in cache && f in cache[i] :: f
  }

  lemma {:induction false} MovedIsCached(cache: map<string, set<string>>, plans: seq<Plan>)
    requires forall p :: p in plans ==> p.source in cache
    ensures forall f :: f in Moved(cache, plans) <==> exists p :: p in plans && f in cache[p.source]
    decreases |plans|
  {
    if plans != [] {
      MovedIsCached(cache, plans[1..]);
      assert forall p :: p in plans <==> p == plans[0] || p in plans[1..];
    }
  }

  lemma MovedIsAllCached(cache: map<string, set<string>>, plans: seq<Plan>)
    requires (forall p :: p in plans ==> p.source in cache) && Elements(Sources(plans)) == cache.Keys
    ensures Moved(cache, plans) == AllCached(cache)
  {
    MovedIsCached(cache, plans);
    forall f | f in AllCached(cache) ensures f in Moved(cache, plans) {
      var i :| i in cache && f in cache[i];
      assert i in Elements(Sources(plans));
      var k :| 0 <= k < |plans| && Sources(plans)[k] == i;
      assert plans[k] in plans && f in cache[plans[k].source];
    }
    forall f | f in Moved(cache, plans) ensures f in AllCached(cache) {
      var p :| p in plans && f in cache[p.source];
    }
  }

  /** The plans a merge call reports, of a call without database errors whose destination
      is not among its ids, find every source as it was. */
  lemma ReportedPlansUntouched(db: Db, dest: string, ids: seq<string>, plans: seq<Plan>)
    requires PlansOf(CacheOf(db, ids), plans) && dest !in ids
    requires forall p :: p in plans ==> FaultFree(p)
    ensures Untouched(db, dest, CacheOf(db, ids), plans)
  {
    forall k | 0 <= k < |plans| ensures Sources(plans)[k] != dest {
      assert plans[k] in plans;
    }
  }

  /** What the merge call promises, of a call that met no database error and was not
      abandoned: the destination has its own alerts and those of every found source, the
      found ids are all reported merged and none failed, each is left with nothing, and
      every aggregate agrees as well as it did before. */
  lemma ReportedMergeConserves(w: World, db: Db, dest: string, ids: seq<string>, clock: nat -> int,
                               faults: nat -> Faults, plans: seq<Plan>, m: MergeOut, exact: bool)
    requires dest in db.incidents && dest !in ids && ValidWorld(w) && AllInStep(w, db, exact)
    requires Reported(w, db, dest, CacheOf(db, ids), clock, faults, plans, m)
    requires !m.aborted && Elements(Sources(plans)) == CacheOf(db, ids).Keys
    requires forall k :: faults(k).removal == NoFault && faults(k).adds == []
    ensures forall f :: f in Live(m.db.links, dest) <==>
      f in Live(db.links, dest) || exists i :: i in ids && i in db.incidents && f in Live(db.links, i)
    ensures Elements(m.merged) == CacheOf(db, ids).Keys && Distinct(m.merged) && m.failed == []
    ensures forall i :: i in ids && i in db.incidents ==>
      && Live(m.db.links, i) == {} && i in m.db.incidents
      && m.db.incidents[i].mergedInto == Some(dest) && m.db.incidents[i].status == MergedIncident
    ensures AllInStep(w, m.db, exact)
  {
    var cache := CacheOf(db, ids);
    forall p | p in plans ensures FaultFree(p) {
      var k :| 0 <= k < |plans| && plans[k] == p;
      assert plans[k].faults == faults(k);
    }
    ReportedPlansUntouched(db, dest, ids, plans);
    MergeStopsExactlyWhen(w, db, dest, cache, plans);
    MergeConserves(w, db, dest, cache, plans, exact);
    MovedIsAllCached(cache, plans);
    forall f ensures f in AllCached(cache) <==> exists i :: i in ids && i in db.incidents && f in Live(db.links, i) {
      if i :| i in ids && i in db.incidents && f in Live(db.links, i) { assert i in cache && f in cache[i]; }
    }
    forall i | i in ids && i in db.incidents ensures i in Sources(plans) {
      assert i in cache.Keys && i in Elements(Sources(plans));
    }
    forall i | i in ids && i in db.incidents
      ensures i in m.db.incidents && Live(m.db.links, i) == {}
           && m.db.incidents[i].mergedInto == Some(dest) && m.db.incidents[i].status == MergedIncident
    {
      assert MarkedRight(db, m.db, dest, Sources(plans), i);
    }
  }
}
