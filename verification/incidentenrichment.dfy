/** The incident path of the enrichment write: one JSON dictionary per incident,
    created verbatim and merged afterwards; no translation, arbitrary keys. */
module IncidentEnrichment {
  import opened Values
  import opened Normalization
  import opened AlertEnrichment

  /** The enrichment rows by incident id, the ids of the incidents that exist (a row
      must reference one), and the audit trail. */
  datatype Board = Board(rows: map<string, Dict>, incidents: set<string>, audits: seq<Audit>)

  datatype BatchOutcome = Committed | IntegrityError

  // ---------------------------------------------------------------- specification

  /** An incoming note that says nothing. */
  predicate NoNote(v: Val) {
    !Truthy(v) || BlankText(v)
  }

  /** What a merge leaves under key `k`: an incoming null removes it, even the note; a
      blank incoming note gives way to the one there; anything else incoming replaces. */
  function Merged(had: Dict, e: Dict, force: bool, k: Key): Option<Val> {
    if k !in e then (if force then None else Kept(had, k))
    else if e[k] == Null then None
    else if k == Note && !force && NoNote(e[k]) && Truthy(Get(had, k)) then Kept(had, k)
    else Some(e[k])
  }

  function Merge(had: Dict, e: Dict, force: bool): Dict {
    map k | k in had.Keys + e.Keys && Merged(had, e, force, k).Some? :: Merged(had, e, force, k).value
  }

  function EnrichIncident(b: Board, id: string, e: Dict, act: Act, force: bool): Board {
    if id in b.rows then Board(b.rows[id := Merge(b.rows[id], e, force)], b.incidents, b.audits + AuditsOf([id], act))
    else if id in b.incidents then Board(b.rows[id := e], b.incidents, b.audits + AuditsOf([id], act))
    else b
  }

  function EnrichEachIncident(b: Board, ids: seq<string>, e: Dict, act: Act): Board
    decreases |ids|
  {
    if ids == [] then b else EnrichEachIncident(EnrichIncident(b, ids[0], e, act, false), ids[1..], e, act)
  }

  /** An id that gets no row by itself is given twice, or names no incident. */
  predicate Unmergeable(b: Board, ids: seq<string>) {
    || (exists i, j :: 0 <= i < j < |ids| && ids[i] == ids[j] && ids[i] !in b.rows)
    || (exists i :: 0 <= i < |ids| && ids[i] !in b.rows && ids[i] !in b.incidents)
  }

  function MergedRows(rows: map<string, Dict>, ids: seq<string>, e: Dict): map<string, Dict> {
    map id | id in Named(ids) && id in rows :: Merge(rows[id], e, false)
  }

  function BatchRows(b: Board, ids: seq<string>, e: Dict): map<string, Dict> {
    map id | id in b.rows.Keys + Named(ids) ::
      if id !in b.rows then e else if id in ids then Merge(b.rows[id], e, false) else b.rows[id]
  }

  function EnrichIncidents(b: Board, ids: seq<string>, e: Dict, act: Act): (Board, BatchOutcome) {
    if Unmergeable(b, ids) then (b, IntegrityError)
    else (Board(BatchRows(b, ids, e), b.incidents, b.audits + AuditsOf(ids, act)), Committed)
  }

  // ---------------------------------------------------------------- the code

  class IncidentEnrichmentStore {
    var rows: map<string, Dict>
    var incidents: set<string>
    var audits: seq<Audit>

    function View(): Board
      reads this
    {
      Board(rows, incidents, audits)
    }

    constructor (incidents: set<string>)
      ensures View() == Board(map[], incidents, [])
    {
      rows, this.incidents, audits := map[], incidents, [];
    }

    /** Removes the keys an enrichment binds to null. */
    method DropNulls(data: Dict, enrichments: Dict) returns (kept: Dict)
      ensures kept == map k | k in data && !(k in enrichments && enrichments[k] == Null) :: data[k]
    {
      kept := data;
      var pending := enrichments.Keys;
      while pending != {}
        invariant pending <= enrichments.Keys
        invariant kept == map k | k in data && !(k in enrichments && k !in pending && enrichments[k] == Null) :: data[k]
        decreases pending
      {
        var key :| key in pending;
        pending := pending - {key};
        if enrichments[key] == Null && key in kept {
          kept := kept - {key};
        }
      }
    }

    method MergeEnrichments(existing: Dict, enrichments: Dict, force: bool) returns (merged: Dict)
      ensures merged == Merge(existing, enrichments, force)
    {
      if force {
        merged := enrichments;
      } else {
        merged := existing + enrichments;
        var incomingNote := Get(enrichments, Note);
        if NoNote(incomingNote) {
          var existingNote := Get(existing, Note);
          if Truthy(existingNote) {
            merged := merged[Note := existingNote];
          }
        }
      }
      merged := DropNulls(merged, enrichments);
    }

    method Enrich(id: string, enrichments: Dict, act: Act, force: bool)
      modifies this
      ensures View() == EnrichIncident(old(View()), id, enrichments, act, force)
    {
      if id in rows {
        var merged := MergeEnrichments(rows[id], enrichments, force);
        rows := rows[id := merged];
      } else {
        if id !in incidents {
          return;  // the foreign key fails, the session rolls back
        }
        rows := rows[id := enrichments];
      }
      assert AuditsOf([id], act) == if act.enabled then [Audit(id, act.callee, act.action, act.description)] else [];
      if act.enabled {
        audits := audits + [Audit(id, act.callee, act.action, act.description)];
      }
    }

    /** Sorts the ids of a batch into merged dictionaries and ids to create. */
    method PlanBatch(ids: seq<string>, enrichments: Dict, act: Act)
      returns (toUpdate: map<string, Dict>, toCreate: seq<string>, entries: seq<Audit>)
      ensures toUpdate == MergedRows(rows, ids, enrichments)
      ensures toCreate == Rowless(rows, ids)
      ensures entries == AuditsOf(ids, act)
    {
      toUpdate, toCreate, entries := map[], [], [];
      for n := 0 to |ids|
        invariant toUpdate == MergedRows(rows, ids[..n], enrichments)
        invariant toCreate == Rowless(rows, ids[..n])
        invariant entries == AuditsOf(ids[..n], act)
      {
        var id := ids[n];
        assert ids[..n + 1][..n] == ids[..n] && ids[..n + 1] == ids[..n] + [id];
        MergedRowsSnoc(rows, ids[..n], id, enrichments);
        if id in rows {
          var merged := MergeEnrichments(rows[id], enrichments, false);
          toUpdate := toUpdate[id := merged];
        } else {
          toCreate := toCreate + [id];
        }
        if act.enabled {
          entries := entries + [Audit(id, act.callee, act.action, act.description)];
        }
      }
      assert ids[..|ids|] == ids;
    }

    method EnrichBatch(ids: seq<string>, enrichments: Dict, act: Act) returns (outcome: BatchOutcome)
      modifies this
      ensures (View(), outcome) == EnrichIncidents(old(View()), ids, enrichments, act)
    {
      var toUpdate, toCreate, entries := PlanBatch(ids, enrichments, act);
      RowlessSays(View(), ids);
      if Repeats(toCreate) || exists id :: id in toCreate && id !in incidents {
        return IntegrityError;
      }
      PlannedRows(View(), ids, enrichments);
      rows := rows + toUpdate + map id | id in toCreate :: enrichments;
      audits := audits + entries;
      return Committed;
    }
  }

  lemma MergedRowsSnoc(rows: map<string, Dict>, ids: seq<string>, id: string, e: Dict)
    ensures MergedRows(rows, ids + [id], e)
         == if id in rows then MergedRows(rows, ids, e)[id := Merge(rows[id], e, false)] else MergedRows(rows, ids, e)
  {
    assert Named(ids + [id]) == Named(ids) + {id};
  }

  lemma PlannedRows(b: Board, ids: seq<string>, e: Dict)
    ensures b.rows + MergedRows(b.rows, ids, e) + (map id | id in Rowless(b.rows, ids) :: e) == BatchRows(b, ids, e)
  {
    RowlessNames(b.rows, ids);
    var created := map id | id in Rowless(b.rows, ids) :: e;
    assert created.Keys == Named(ids) - b.rows.Keys;
    assert (b.rows + MergedRows(b.rows, ids, e)).Keys == b.rows.Keys;
    CreatedOver(b.rows, MergedRows(b.rows, ids, e), created, BatchRows(b, ids, e));
  }

  lemma {:induction false} RowlessNames(rows: map<string, Dict>, ids: seq<string>)
    ensures forall id :: id in Rowless(rows, ids) <==> id in ids && id !in rows
  {
    if ids != [] { RowlessNames(rows, ids[..|ids| - 1]); }
  }

  lemma CreatedOver(rows: map<string, Dict>, merged: map<string, Dict>, created: map<string, Dict>,
                    all: map<string, Dict>)
    requires merged.Keys <= rows.Keys && created.Keys !! rows.Keys && all.Keys == rows.Keys + created.Keys
    requires forall id :: id in all ==>
      all[id] == if id in created then created[id] else if id in merged then merged[id] else rows[id]
    ensures rows + merged + created == all
  {
  }

  predicate Repeats(s: seq<string>) {
    exists i, j :: 0 <= i < j < |s| && s[i] == s[j]
  }

  /** The ids that have no row, as often as they are given. */
  function Rowless(rows: map<string, Dict>, ids: seq<string>): seq<string> {
    if ids == [] then []
    else
      var before, id := Rowless(rows, ids[..|ids| - 1]), ids[|ids| - 1];
      if id in rows then before else before + [id]
  }

  lemma {:induction false} RowlessSays(b: Board, ids: seq<string>)
    ensures Unmergeable(b, ids) <==>
            Repeats(Rowless(b.rows, ids)) || exists id :: id in Rowless(b.rows, ids) && id !in b.incidents
  {
    if ids != [] {
      var n := |ids| - 1;
      var before, id := ids[..n], ids[n];
      RowlessSays(b, before);
      RowlessNames(b.rows, before);
      UnmergeableSnoc(b, before, id);
      assert before + [id] == ids;
      if id !in b.rows { RepeatedSnoc(Rowless(b.rows, before), id); }
    }
  }

  lemma UnmergeableSnoc(b: Board, ids: seq<string>, id: string)
    ensures Unmergeable(b, ids + [id]) <==>
            Unmergeable(b, ids) || (id !in b.rows && (id in ids || id !in b.incidents))
  {
    var t := ids + [id];
    if i, j :| 0 <= i < j < |ids| && ids[i] == ids[j] && ids[i] !in b.rows { assert t[i] == t[j]; }
    if i :| 0 <= i < |ids| && ids[i] !in b.rows && ids[i] !in b.incidents { assert t[i] !in b.incidents; }
    if id !in b.rows {
      assert t[|ids|] == id;
      if id in ids {
        var i :| 0 <= i < |ids| && ids[i] == id;
        assert t[i] == t[|ids|];
      }
    }
  }

  lemma RepeatedSnoc(s: seq<string>, x: string)
    ensures (exists i, j :: 0 <= i < j < |s + [x]| && (s + [x])[i] == (s + [x])[j])
       <==> x in s || exists i, j :: 0 <= i < j < |s| && s[i] == s[j]
  {
    var t := s + [x];
    if x in s {
      var i :| 0 <= i < |s| && s[i] == x;
      assert t[i] == t[|s|];
    }
    if i, j :| 0 <= i < j < |s| && s[i] == s[j] { assert t[i] == t[j]; }
  }

  // ---------------------------------------------------------------- laws

  lemma MergedAt(had: Dict, e: Dict, force: bool, k: Key)
    ensures Kept(Merge(had, e, force), k) == Merged(had, e, force, k)
  {
  }

  /** What a merge leaves under each key.  Unforced: a key that is not sent keeps its value, a
      null removes its key, a blank note keeps one that says something, and any other value
      replaces what was there.  Forced: the sent dictionary without its nulls. */
  lemma MergeLeaves(had: Dict, e: Dict, k: Key)
    ensures var m := Merge(had, e, false);
      && (k !in e ==> Kept(m, k) == Kept(had, k))
      && (k in e && e[k] == Null ==> k !in m)
      && (k in e && e[k] != Null && k != Note ==> Kept(m, k) == Some(e[k]))
      && (Note in e && e[Note] != Null ==>
            Kept(m, Note) == if (!Truthy(e[Note]) || BlankText(e[Note])) && Note in had && Truthy(had[Note])
                             then Some(had[Note]) else Some(e[Note]))
    ensures Kept(Merge(had, e, true), k) == if k in e && e[k] != Null then Some(e[k]) else None
  {
    MergedAt(had, e, false, k);
    MergedAt(had, e, false, Note);
    MergedAt(had, e, true, k);
  }

  /** One enrichment on the board: the row of the incident is merged if it is there, the sent
      dictionary verbatim if not; other rows stay; the action is audited if auditing is on; an
      id that is neither a row nor an incident changes nothing. */
  lemma EnrichIncidentLeaves(b: Board, id: string, e: Dict, act: Act, force: bool)
    ensures var b' := EnrichIncident(b, id, e, act, force);
      && b'.incidents == b.incidents
      && (id !in b.rows && id !in b.incidents ==> b' == b)
      && (id in b.rows || id in b.incidents ==>
            && b'.rows == b.rows[id := if id in b.rows then Merge(b.rows[id], e, force) else e]
            && b'.audits == b.audits + if act.enabled then [Audit(id, act.callee, act.action, act.description)] else [])
  {
    assert AuditsOf([id], act) == if act.enabled then [Audit(id, act.callee, act.action, act.description)] else [];
  }

  /** Merging the same dictionary again changes nothing. */
  lemma MergeTwice(had: Dict, e: Dict)
    ensures Merge(Merge(had, e, false), e, false) == Merge(had, e, false)
  {
    var once := Merge(had, e, false);
    forall k ensures Kept(Merge(once, e, false), k) == Kept(once, k) {
      MergedAt(had, e, false, k);
      MergedAt(once, e, false, k);
    }
    SameDict(Merge(once, e, false), once);
  }

  predicate BindsNull(e: Dict) {
    exists k :: k in e && e[k] == Null
  }

  /** Sending the same unforced enrichment twice leaves the row of one sending, exactly
      when the row was there before or no value is null: the row is created verbatim, and
      the second sending drops the nulls the first one stored. */
  lemma RepeatChangesNothingExactlyWhen(b: Board, id: string, e: Dict, act: Act)
    requires id in b.incidents
    ensures var once := EnrichIncident(b, id, e, act, false);
      EnrichIncident(once, id, e, act, false).rows == once.rows <==> (id in b.rows || !BindsNull(e))
  {
    var once := EnrichIncident(b, id, e, act, false);
    var twice := EnrichIncident(once, id, e, act, false);
    if id in b.rows {
      MergeTwice(b.rows[id], e);
      assert twice.rows == once.rows;
    } else {
      assert twice.rows[id] == Merge(e, e, false) && once.rows[id] == e;
      forall k ensures Kept(Merge(e, e, false), k) == Merged(e, e, false, k) { MergedAt(e, e, false, k); }
      if k :| k in e && e[k] == Null {
        assert Kept(Merge(e, e, false), k) == None;
        assert twice.rows[id] != once.rows[id];
      } else {
        SameDict(Merge(e, e, false), e);
        assert twice.rows == once.rows;
      }
    }
  }

  lemma UnmergeableRest(b: Board, ids: seq<string>, e: Dict, act: Act)
    requires ids != [] && !Unmergeable(b, ids)
    ensures !Unmergeable(EnrichIncident(b, ids[0], e, act, false), ids[1..])
    ensures ids[0] in b.rows || (ids[0] in b.incidents && ids[0] !in ids[1..])
  {
  }

  lemma BatchRowsRestAt(b: Board, ids: seq<string>, e: Dict, act: Act, id: string)
    requires ids != [] && id in BatchRows(b, ids, e)
    requires ids[0] in b.rows || (ids[0] in b.incidents && ids[0] !in ids[1..])
    ensures var left := BatchRows(EnrichIncident(b, ids[0], e, act, false), ids[1..], e);
      id in left && left[id] == BatchRows(b, ids, e)[id]
  {
    assert id in ids <==> id == ids[0] || id in ids[1..];
    if id == ids[0] && id in b.rows { MergeTwice(b.rows[id], e); }
  }

  lemma BatchRowsRest(b: Board, ids: seq<string>, e: Dict, act: Act)
    requires ids != []
    requires ids[0] in b.rows || (ids[0] in b.incidents && ids[0] !in ids[1..])
    ensures BatchRows(EnrichIncident(b, ids[0], e, act, false), ids[1..], e) == BatchRows(b, ids, e)
  {
    var b' := EnrichIncident(b, ids[0], e, act, false);
    var left, right := BatchRows(b', ids[1..], e), BatchRows(b, ids, e);
    assert Named(ids) == {ids[0]} + Named(ids[1..]);
    assert left.Keys == right.Keys;
    forall id | id in right ensures left[id] == right[id] {
      BatchRowsRestAt(b, ids, e, act, id);
    }
  }

  lemma {:induction false} MergeableBatchIsSequential(b: Board, ids: seq<string>, e: Dict, act: Act)
    requires !Unmergeable(b, ids)
    ensures EnrichEachIncident(b, ids, e, act)
         == Board(BatchRows(b, ids, e), b.incidents, b.audits + AuditsOf(ids, act))
    decreases |ids|
  {
    if ids == [] {
      assert BatchRows(b, ids, e) == b.rows;
      assert b.audits + AuditsOf(ids, act) == b.audits;
    } else {
      UnmergeableRest(b, ids, e, act);
      BatchRowsRest(b, ids, e, act);
      MergeableBatchIsSequential(EnrichIncident(b, ids[0], e, act, false), ids[1..], e, act);
      assert [ids[0]] + ids[1..] == ids;
      AuditsAppended(b.audits, ids[0], ids[1..], act);
    }
  }

  /** The ids that have a row or name an incident. */
  function KnownIds(b: Board, ids: seq<string>): seq<string>
    decreases |ids|
  {
    if ids == [] then []
    else (if ids[0] in b.rows || ids[0] in b.incidents then [ids[0]] else []) + KnownIds(b, ids[1..])
  }

  /** The row the sequential run leaves an id, if any: merged once if it was there, created
      verbatim if it was not and the id names an incident, and then merged if given again. */
  function EachRow(b: Board, ids: seq<string>, e: Dict, id: string): Option<Dict> {
    if id in b.rows then Some(if id in ids then Merge(b.rows[id], e, false) else b.rows[id])
    else if id !in ids || id !in b.incidents then None
    else Some(if multiset(ids)[id] > 1 then Merge(e, e, false) else e)
  }

  function RowAt(rows: map<string, Dict>, id: string): Option<Dict> {
    if id in rows then Some(rows[id]) else None
  }

  /** What the sequential run leaves, mergeable or not: the row of each id, and one audit
      entry for each known id in order. */
  lemma {:induction false} EachLeaves(b: Board, ids: seq<string>, e: Dict, act: Act, id: string)
    ensures var b' := EnrichEachIncident(b, ids, e, act);
      RowAt(b'.rows, id) == EachRow(b, ids, e, id) && b'.audits == b.audits + AuditsOf(KnownIds(b, ids), act)
    decreases |ids|
  {
    if ids == [] {
      assert b.audits + AuditsOf([], act) == b.audits;
    } else {
      var next, rest := EnrichIncident(b, ids[0], e, act, false), ids[1..];
      EachLeaves(next, rest, e, act, id);
      EachRowRest(b, ids, e, act, id);
      KnownRest(b, ids[0], rest, e, act);
      if ids[0] in b.rows || ids[0] in b.incidents {
        AuditsAppended(b.audits, ids[0], KnownIds(b, rest), act);
      } else {
        assert [] + KnownIds(b, rest) == KnownIds(b, rest);
      }
    }
  }

  lemma EachRowRest(b: Board, ids: seq<string>, e: Dict, act: Act, id: string)
    requires ids != []
    ensures EachRow(EnrichIncident(b, ids[0], e, act, false), ids[1..], e, id) == EachRow(b, ids, e, id)
  {
    assert ids == [ids[0]] + ids[1..];
    assert multiset(ids) == multiset{ids[0]} + multiset(ids[1..]);
    assert id in ids[1..] <==> multiset(ids[1..])[id] > 0;
    if id in b.rows { MergeTwice(b.rows[id], e); }
  }

  lemma {:induction false} KnownRest(b: Board, first: string, ids: seq<string>, e: Dict, act: Act)
    ensures KnownIds(EnrichIncident(b, first, e, act, false), ids) == KnownIds(b, ids)
    decreases |ids|
  {
    if ids != [] { KnownRest(b, first, ids[1..], e, act); }
  }

  /** The enrichment has nothing to do for any of the ids: each is unknown, or its row is as
      the merge would leave it and nothing is audited. */
  predicate Idle(b: Board, ids: seq<string>, e: Dict, act: Act) {
    forall id :: id in ids ==>
      if id in b.rows then !act.enabled && Merge(b.rows[id], e, false) == b.rows[id] else id !in b.incidents
  }

  lemma {:induction false} IdleChangesNothing(b: Board, ids: seq<string>, e: Dict, act: Act)
    requires Idle(b, ids, e, act)
    ensures EnrichEachIncident(b, ids, e, act) == b
    decreases |ids|
  {
    if ids != [] {
      var id := ids[0];
      assert id in ids;
      if id in b.rows {
        assert b.rows[id := b.rows[id]] == b.rows;
        assert b.audits + AuditsOf([id], act) == b.audits;
      }
      assert EnrichIncident(b, id, e, act, false) == b;
      IdleChangesNothing(b, ids[1..], e, act);
    }
  }

  /** The batch leaves the rows and the audit trail of one enrichment per id, duplicates of
      existing ids included, exactly when it commits (no id without a row is given twice or
      names no incident) or there was nothing to do anyway. */
  lemma IncidentBatchIsSequentialExactlyWhen(b: Board, ids: seq<string>, e: Dict, act: Act)
    ensures EnrichIncidents(b, ids, e, act).0 == EnrichEachIncident(b, ids, e, act)
       <==> !Unmergeable(b, ids) || Idle(b, ids, e, act)
  {
    if !Unmergeable(b, ids) {
      MergeableBatchIsSequential(b, ids, e, act);
    } else if Idle(b, ids, e, act) {
      IdleChangesNothing(b, ids, e, act);
    } else {
      var id :| id in ids && !(if id in b.rows then !act.enabled && Merge(b.rows[id], e, false) == b.rows[id]
                               else id !in b.incidents);
      EachLeaves(b, ids, e, act, id);
      KnownIsKnown(b, ids, id);
      if act.enabled && (id in b.rows || id in b.incidents) {
        assert |AuditsOf(KnownIds(b, ids), act)| > 0;
        assert |b.audits + AuditsOf(KnownIds(b, ids), act)| > |b.audits|;
      }
    }
  }

  lemma {:induction false} KnownIsKnown(b: Board, ids: seq<string>, id: string)
    ensures id in ids && (id in b.rows || id in b.incidents) ==> KnownIds(b, ids) != []
    decreases |ids|
  {
    if ids != [] { KnownIsKnown(b, ids[1..], id); }
  }
}
