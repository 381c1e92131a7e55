/** The incident ledger: soft-deleted links from fingerprints to incidents, and the
    aggregates each incident stores about its live links.  This file states what the
    operations do to the tables, and what the stored aggregates should be. */
module Ledger {
  import opened Values
  import opened OneShotResults

  type Order = n: nat | 1 <= n <= 5 witness 1

  /** The severity text of an alert: missing or empty, one of the five names, or a text
      `IncidentSeverity` does not accept. */
  datatype Severity = Unset | Named(order: Order) | Unrecognised(name: string)

  datatype Occurrence = Occurrence(source: string, service: string, severity: Severity, status: Option<string>,
                                   receivedAt: Option<int>, timestamp: int)

  /** The alert data, fixed while the ledger runs: the latest occurrence of each
      fingerprint, all its occurrences, and the severities `get_int_severity` can look up. */
  datatype World = World(latest: map<string, Occurrence>, history: map<string, seq<Occurrence>>,
                         resolvable: set<Severity>)

  datatype Link = Link(incident: string, fp: string, deletedAt: Option<int>)

  datatype IncidentStatus = FiringIncident | ResolvedIncident | AcknowledgedIncident | MergedIncident | DeletedIncident

  datatype ResolveOn = FirstResolved | LastResolved | AllResolved | NeverResolved

  datatype Incident = Incident(status: IncidentStatus, resolveOn: ResolveOn, severity: nat, forcedSeverity: bool,
                               alertsCount: nat, sources: set<string>, services: set<string>,
                               startTime: Option<int>, lastSeenTime: Option<int>, mergedInto: Option<string>)

  datatype Db = Db(links: set<Link>, incidents: map<string, Incident>)

  /** What became of a call: it updated the aggregates; found nothing to link; found no
      incident; was refused by a key constraint with nothing changed; or raised after its
      links were committed and before the aggregates were written. */
  datatype Outcome = Updated | NothingToLink | NoIncident | Refused | RaisedAfterCommit

  predicate ValidWorld(w: World) {
    forall f :: f in w.latest ==> f in w.history && w.latest[f] in w.history[f]
  }

  /** The foreign keys of the link table. */
  predicate ValidDb(w: World, db: Db) {
    forall l :: l in db.links ==> l.fp in w.latest && l.incident in db.incidents
  }

  const ADD_TRIES: nat := 3  // what the retry decorator of add allows

  // ---------------------------------------------------------------- links

  function Live(links: set<Link>, i: string): (r: set<string>)
    ensures forall f :: f in r <==> Link(i, f, None) in links
  {
    set l | l in links && l == Link(i, l.fp, None) :: l.fp
  }

  function Unlinked(links: set<Link>, i: string): set<string> {
    set l | l in links && l.incident == i && l.deletedAt.Some? :: l.fp
  }

  /** Unlinked from an incident are the fingerprints of its soft-deleted rows. */
  lemma UnlinkedExactlyWhen(links: set<Link>, i: string, f: string)
    ensures f in Unlinked(links, i) <==> exists t: int :: Link(i, f, Some(t)) in links
  {
    if f in Unlinked(links, i) {
      var l :| l in links && l.incident == i && l.deletedAt.Some? && l.fp == f;
      var t := l.deletedAt.value;
      assert l == Link(i, f, Some(t));
      assert Link(i, f, Some(t)) in links;
    }
    forall t: int | Link(i, f, Some(t)) in links ensures f in Unlinked(links, i) {
      var l := Link(i, f, Some(t));
      assert l in links && l.incident == i && l.fp == f && l.deletedAt.Some?;
    }
  }

  /** `count(fingerprint)` over the live rows of an incident. */
  function LiveRows(links: set<Link>, i: string): set<Link> {
    set l | l in links && l.incident == i && l.deletedAt.None?
  }

  /** A primary key of fingerprint, incident and deletion time allows one live row per
      fingerprint, so counting rows counts fingerprints. */
  lemma {:induction false} LiveRowsAreFingerprints(links: set<Link>, i: string)
    ensures |LiveRows(links, i)| == |Live(links, i)|
    decreases links
  {
    if links != {} {
      var l :| l in links;
      var rest := links - {l};
      LiveRowsAreFingerprints(rest, i);
      LiveWithout(links, i, l);
    }
  }

  lemma LiveWithout(links: set<Link>, i: string, l: Link)
    requires l in links
    ensures var rest := links - {l};
      if l.incident == i && l.deletedAt.None? then
        && LiveRows(links, i) == LiveRows(rest, i) + {l} && l !in LiveRows(rest, i)
        && Live(links, i) == Live(rest, i) + {l.fp} && l.fp !in Live(rest, i)
      else LiveRows(links, i) == LiveRows(rest, i) && Live(links, i) == Live(rest, i)
  {
    if l.incident == i && l.deletedAt.None? { assert l == Link(i, l.fp, None); }
  }

  // ---------------------------------------------------------------- aggregates of a set of fingerprints

  function SourcesOf(w: World, fps: set<string>): set<string> {
    set f | f in fps && f in w.latest && w.latest[f].source != "" :: w.latest[f].source
  }

  function ServicesOf(w: World, fps: set<string>): set<string> {
    set f | f in fps && f in w.latest && w.latest[f].service != "" :: w.latest[f].service
  }

  function OrderOf(s: Severity): nat {
    if s.Named? then s.order else 1
  }

  predicate AnyAtLeast(w: World, fps: set<string>, n: nat) {
    exists f :: f in fps && f in w.latest && OrderOf(w.latest[f].severity) >= n
  }

  /** The greatest severity among the latest occurrences, LOW when there is none. */
  function MaxSeverity(w: World, fps: set<string>): (m: nat)
    ensures 1 <= m <= 5
    ensures forall f :: f in fps && f in w.latest ==> OrderOf(w.latest[f].severity) <= m
    ensures m == 1 || exists f :: f in fps && f in w.latest && OrderOf(w.latest[f].severity) == m
  {
    if AnyAtLeast(w, fps, 5) then 5
    else if AnyAtLeast(w, fps, 4) then 4
    else if AnyAtLeast(w, fps, 3) then 3
    else if AnyAtLeast(w, fps, 2) then 2
    else 1
  }

  /** COALESCE(received_at, timestamp). */
  function SeenAt(o: Occurrence): int {
    if o.receivedAt.Some? then o.receivedAt.value else o.timestamp
  }

  function LatestTimes(w: World, fps: set<string>): set<int> {
    set f | f in fps && f in w.latest :: SeenAt(w.latest[f])
  }

  function HistoryTimes(w: World, fps: set<string>): set<int> {
    set f, o | f in fps && f in w.history && o in w.history[f] :: SeenAt(o)
  }

  lemma SomeTime(times: set<int>)
    ensures times == {} || exists t :: t in times
  {
    if forall t :: t !in times { assert times == {}; }
  }

  ghost function Least(times: set<int>): (m: int)
    requires times != {}
    ensures m in times && forall t :: t in times ==> m <= t
  {
    SomeTime(times);
    var x :| x in times;
    var rest := times - {x};
    if rest == {} then (assert times == {x}; x)
    else
      var m := Least(rest);
      assert times == rest + {x};
      if m < x then m else x
  }

  ghost function Greatest(times: set<int>): (m: int)
    requires times != {}
    ensures m in times && forall t :: t in times ==> t <= m
  {
    SomeTime(times);
    var x :| x in times;
    var rest := times - {x};
    if rest == {} then (assert times == {x}; x)
    else
      var m := Greatest(rest);
      assert times == rest + {x};
      if m < x then x else m
  }

  /** min() and max() over a result, null over none. */
  ghost function Bounds(times: set<int>): (Option<int>, Option<int>) {
    if times == {} then (None, None) else (Some(Least(times)), Some(Greatest(times)))
  }

  /** Every severity the aggregation reads is one it accepts. */
  predicate Readable(w: World, fps: set<string>) {
    forall f :: f in fps && f in w.latest ==> !w.latest[f].severity.Unrecognised?
  }

  /** `get_int_severity` answers for every one. */
  predicate Resolvable(w: World, fps: set<string>) {
    forall f :: f in fps && f in w.latest ==>
      !w.latest[f].severity.Unrecognised? && w.latest[f].severity in w.resolvable
  }

  // ---------------------------------------------------------------- the operations

  function ToLink(db: Db, i: string, fps: set<string>, exclude: bool): set<string> {
    fps - Live(db.links, i) - (if exclude then Unlinked(db.links, i) else {})
  }

  function Linked(links: set<Link>, i: string, fps: set<string>): set<Link> {
    links + set f | f in fps :: Link(i, f, None)
  }

  ghost function AfterAdd(w: World, inc: Incident, live: set<string>, added: set<string>): Incident {
    var top := MaxSeverity(w, added);
    var (first, last) := Bounds(HistoryTimes(w, live));
    inc.(sources := inc.sources + SourcesOf(w, added),
         services := inc.services + ServicesOf(w, added),
         severity := if inc.forcedSeverity then inc.severity
                     else if inc.alertsCount != 0 && inc.severity > top then inc.severity else top,
         alertsCount := |live|, startTime := first, lastSeenTime := last)
  }

  ghost function Add(w: World, db: Db, i: string, fps: set<string>, exclude: bool): (Db, Outcome)
    requires i in db.incidents
  {
    var added := ToLink(db, i, fps, exclude);
    var links := Linked(db.links, i, added);
    if added == {} then (db, NothingToLink)
    else if !(added <= w.latest.Keys) then (db, Refused)
    else if !Readable(w, added) then (db.(links := links), RaisedAfterCommit)
    else (Db(links, db.incidents[i := AfterAdd(w, db.incidents[i], Live(links, i), added)]), Updated)
  }

  /** The order in which a one-shot result gives its rows, and that in which it is probed. */
  datatype Probe = Probe(rows: seq<string>, candidates: seq<string>)

  predicate ProbeOf(p: Probe, live: set<string>, candidates: set<string>) {
    IsOrder(p.candidates, candidates) && IsOrder(p.rows, live * candidates)
  }

  function Missed(p: Probe): set<string> {
    Elements(p.candidates) - Found(p.rows, p.candidates)
  }

  function Unlink(links: set<Link>, i: string, fps: set<string>, now: int): set<Link> {
    links - (set f | f in fps :: Link(i, f, None)) + set f | f in fps :: Link(i, f, Some(now))
  }

  predicate DeletionClashes(links: set<Link>, i: string, fps: set<string>, now: int) {
    exists f :: f in fps && Link(i, f, Some(now)) in links
  }

  ghost function AfterRemove(w: World, inc: Incident, live: set<string>, sources: Probe, services: Probe): Incident {
    var (first, last) := Bounds(LatestTimes(w, live));
    inc.(sources := inc.sources - Missed(sources),
         services := inc.services - Missed(services),
         severity := if inc.forcedSeverity then inc.severity else MaxSeverity(w, live),
         alertsCount := |live|, startTime := first, lastSeenTime := last)
  }

  ghost function Remove(w: World, db: Db, i: string, fps: set<string>, now: int, sources: Probe, services: Probe)
    : (Db, Outcome)
  {
    if i !in db.incidents then (db, NoIncident)
    else
      var gone := Live(db.links, i) * fps;
      var links := Unlink(db.links, i, gone, now);
      if DeletionClashes(db.links, i, gone, now) then (db, Refused)
      else if !Readable(w, fps) || !Resolvable(w, Live(links, i)) then (db.(links := links), RaisedAfterCommit)
      else (Db(links, db.incidents[i := AfterRemove(w, db.incidents[i], Live(links, i), sources, services)]), Updated)
  }

  /** The live links a removal leaves. */
  function Remaining(db: Db, i: string, fps: set<string>): set<string> {
    Live(db.links, i) - fps
  }

  predicate ProbesOf(w: World, db: Db, i: string, fps: set<string>, sources: Probe, services: Probe) {
    && ProbeOf(sources, SourcesOf(w, Remaining(db, i, fps)), SourcesOf(w, fps))
    && ProbeOf(services, ServicesOf(w, Remaining(db, i, fps)), ServicesOf(w, fps))
  }

  function ForceSeverity(db: Db, i: string, severity: Order): Db {
    if i !in db.incidents then db
    else db.(incidents := db.incidents[i := db.incidents[i].(severity := severity, forcedSeverity := true)])
  }

  // ---------------------------------------------------------------- what the operations do to links

  lemma LinkedLive(links: set<Link>, i: string, fps: set<string>, j: string)
    ensures Live(Linked(links, i, fps), j) == Live(links, j) + if i == j then fps else {}
    ensures Unlinked(Linked(links, i, fps), j) == Unlinked(links, j)
  {
  }

  lemma UnlinkedLive(links: set<Link>, i: string, fps: set<string>, now: int, j: string)
    ensures Live(Unlink(links, i, fps, now), j) == Live(links, j) - if i == j then fps else {}
    ensures Unlinked(Unlink(links, i, fps, now), j) == Unlinked(links, j) + if i == j then fps else {}
  {
    var links' := Unlink(links, i, fps, now);
    forall f | f in Unlinked(links, j) ensures f in Unlinked(links', j) {
      var l :| l in links && l.incident == j && l.deletedAt.Some? && l.fp == f;
      assert l in links';
    }
    forall f | i == j && f in fps ensures f in Unlinked(links', j) {
      assert Link(i, f, Some(now)) in links' && Link(i, f, Some(now)).fp == f;
    }
  }
}
