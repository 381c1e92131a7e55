/** The ledger operations as code over the tables. */
module LedgerStore {
  import opened Values
  import opened OneShotResults
  import opened Ledger

  /** Reads the elements of a set in whatever order it gives them. */
  method SomeOrder(s: set<string>) returns (q: seq<string>)
    ensures IsOrder(q, s)
  {
    q := [];
    var pending := s;
    while pending != {}
      invariant pending <= s && IsOrder(q, s - pending)
      decreases pending
    {
      var x :| x in pending;
      assert x !in Elements(q);
      assert Elements(q + [x]) == Elements(q) + {x};
      pending := pending - {x};
      q := q + [x];
    }
  }

  method MaxOrLow(severities: seq<nat>) returns (top: nat)
    ensures forall n :: n in severities ==> n <= top
    ensures if severities == [] then top == 1 else top in severities
  {
    if severities == [] {
      return 1;
    }
    top := severities[0];
    for k := 1 to |severities|
      invariant top in severities[..k] && forall n :: n in severities[..k] ==> n <= top
    {
      assert severities[..k + 1] == severities[..k] + [severities[k]];
      if top < severities[k] {
        top := severities[k];
      }
    }
    assert severities[..|severities|] == severities;
  }

  predicate Carried(w: World, fps: set<string>, n: nat) {
    exists f :: f in fps && f in w.latest && OrderOf(w.latest[f].severity) == n
  }

  /** What the rows read so far contributed. */
  predicate Contributed(w: World, fps: set<string>, severities: seq<nat>) {
    && (forall n :: n in severities ==> 1 <= n <= 5)
    && (forall f :: f in fps && f in w.latest && w.latest[f].severity.Named? ==>
          OrderOf(w.latest[f].severity) in severities)
    && (forall n :: n in severities ==> Carried(w, fps, n))
  }

  /** What reading the latest occurrence of one more fingerprint adds. */
  lemma ReadOne(w: World, read: set<string>, f: string, severities: seq<nat>)
    requires f in w.latest && Contributed(w, read, severities)
    ensures var o := w.latest[f]; var more := read + {f};
      && SourcesOf(w, more) == SourcesOf(w, read) + (if o.source != "" then {o.source} else {})
      && ServicesOf(w, more) == ServicesOf(w, read) + (if o.service != "" then {o.service} else {})
      && (Readable(w, more) <==> Readable(w, read) && !o.severity.Unrecognised?)
      && Contributed(w, more, severities + [OrderOf(o.severity)])
      && (!o.severity.Named? ==> Contributed(w, more, severities))
  {
    var more, o := read + {f}, w.latest[f];
    forall n | n in severities + [OrderOf(o.severity)] ensures Carried(w, more, n) {
      if n in severities {
        var g :| g in read && g in w.latest && OrderOf(w.latest[g].severity) == n;
        assert g in more;
      } else {
        assert f in more && OrderOf(w.latest[f].severity) == n;
      }
    }
  }

  lemma ReadAll(w: World, fps: set<string>, read: set<string>, severities: seq<nat>)
    requires read == (set f | f in fps && f in w.latest) && Contributed(w, read, severities)
    ensures SourcesOf(w, fps) == SourcesOf(w, read) && ServicesOf(w, fps) == ServicesOf(w, read)
    ensures Readable(w, fps) <==> Readable(w, read)
    ensures Contributed(w, fps, severities)
  {
    forall n | n in severities ensures Carried(w, fps, n) {
      var f :| f in read && f in w.latest && OrderOf(w.latest[f].severity) == n;
      assert f in fps;
    }
  }

  lemma ContributedMax(w: World, fps: set<string>, severities: seq<nat>, top: nat)
    requires Contributed(w, fps, severities)
    requires forall n :: n in severities ==> n <= top
    requires if severities == [] then top == 1 else top in severities
    ensures top == MaxSeverity(w, fps)
  {
    var m := MaxSeverity(w, fps);
    if m > 1 {
      var f :| f in fps && f in w.latest && OrderOf(w.latest[f].severity) == m;
      assert m in severities;
    }
    if top > 1 {
      assert top in severities;
    }
  }

  class Store {
    const world: World
    var links: set<Link>
    var incidents: map<string, Incident>

    function View(): Db
      reads this
    {
      Db(links, incidents)
    }

    constructor (world: World, incidents: map<string, Incident>)
      ensures this.world == world && View() == Db({}, incidents)
    {
      this.world := world;
      links, this.incidents := {}, incidents;
    }

    /** `get_alerts_data_for_incident`; `ok` is false when a severity text is not accepted. */
    method GetAlertsData(fps: set<string>) returns (ok: bool, sources: set<string>, services: set<string>, top: nat)
      ensures ok == Readable(world, fps)
      ensures ok ==> sources == SourcesOf(world, fps) && services == ServicesOf(world, fps)
      ensures ok ==> top == MaxSeverity(world, fps)
    {
      sources, services, top := {}, {}, 1;
      var severities := [];
      var pending := set f | f in fps && f in world.latest;
      ghost var all := pending;
      while pending != {}
        invariant pending <= all && Readable(world, all - pending)
        invariant sources == SourcesOf(world, all - pending) && services == ServicesOf(world, all - pending)
        invariant Contributed(world, all - pending, severities)
        decreases pending
      {
        var f :| f in pending;
        var row := world.latest[f];
        ReadOne(world, all - pending, f, severities);
        assert all - pending + {f} == all - (pending - {f});
        pending := pending - {f};
        if row.source != "" {
          sources := sources + {row.source};
        }
        if row.service != "" {
          services := services + {row.service};
        }
        match row.severity
        case Unset =>
        case Named(n) => severities := severities + [n];
        case Unrecognised(_) =>
          assert f in all - pending;
          return false, sources, services, top;
      }
      assert all - pending == all;
      ReadAll(world, fps, all, severities);
      top := MaxOrLow(severities);
      ContributedMax(world, fps, severities, top);
      ok := true;
    }

    method TimeBounds(times: set<int>) returns (first: Option<int>, last: Option<int>)
      ensures (first, last) == Bounds(times)
    {
      first, last := None, None;
      var pending := times;
      ghost var read: set<int> := {};
      while pending != {}
        invariant times == read + pending && read !! pending
        invariant (first, last) == Bounds(read)
        decreases pending
      {
        SomeTime(pending);
        var t :| t in pending;
        pending := pending - {t};
        if first.None? || t < first.value {
          first := Some(t);
        }
        if last.None? || last.value < t {
          last := Some(t);
        }
        BoundsWith(read, t);
        read := read + {t};
      }
      assert read == times;
    }

    method AddAlerts(i: string, fingerprints: seq<string>, excludeUnlinked: bool) returns (outcome: Outcome)
      requires i in incidents
      modifies this
      ensures (View(), outcome) == Add(world, old(View()), i, Elements(fingerprints), excludeUnlinked)
    {
      var existing := Live(links, i);
      var newFps := set f | f in fingerprints && f !in existing;
      if excludeUnlinked {
        newFps := newFps - Unlinked(links, i);
      }
      assert newFps == ToLink(View(), i, Elements(fingerprints), excludeUnlinked);
      if newFps == {} {
        return NothingToLink;
      }
      if !(newFps <= world.latest.Keys) {
        return Refused;
      }
      InsertLinks(i, newFps);
      var ok, sources, services, top := GetAlertsData(newFps);
      if !ok {
        return RaisedAfterCommit;
      }
      var incident := incidents[i];
      var severity := incident.severity;
      if !incident.forcedSeverity {
        severity := if incident.alertsCount != 0 && incident.severity > top then incident.severity else top;
      }
      var live := Live(links, i);
      LiveRowsAreFingerprints(links, i);
      var first, last := TimeBounds(HistoryTimes(world, live));
      incidents := incidents[i := incident.(alertsCount := |LiveRows(links, i)|,
                                             startTime := first, lastSeenTime := last,
                                             services := incident.services + services, severity := severity,
                                             sources := incident.sources + sources)];
      return Updated;
    }

    method InsertLinks(i: string, fps: set<string>)
      modifies this`links
      ensures links == Linked(old(links), i, fps)
    {
      var pending := fps;
      while pending != {}
        invariant pending <= fps
        invariant links == Linked(old(links), i, fps - pending)
        decreases pending
      {
        var f :| f in pending;
        pending := pending - {f};
        links := links + {Link(i, f, None)};
      }
      assert fps - pending == fps;
    }

    /** The severities of the alerts still linked, looked up one by one. */
    method RemainingSeverity(live: set<string>) returns (ok: bool, top: nat)
      requires live <= world.latest.Keys
      ensures ok == Resolvable(world, live)
      ensures ok ==> top == MaxSeverity(world, live)
    {
      var severities := [];
      var pending := live;
      top := 1;
      while pending != {}
        invariant pending <= live
        invariant Resolvable(world, live - pending) && Contributed(world, live - pending, severities)
        decreases pending
      {
        var f :| f in pending;
        var severity := world.latest[f].severity;
        if severity.Unrecognised? || severity !in world.resolvable {
          return false, top;
        }
        ReadOne(world, live - pending, f, severities);
        assert live - pending + {f} == live - (pending - {f});
        pending := pending - {f};
        severities := severities + [OrderOf(severity)];
      }
      assert live - pending == live;
      top := MaxOrLow(severities);
      ContributedMax(world, live, severities, top);
      ok := true;
    }

    /** The aggregates of an incident after a removal left `live` linked: the candidate
        names are probed against one-shot results of the names still carried. */
    method Reaggregate(incident: Incident, live: set<string>, sources: set<string>, services: set<string>, top: nat)
      returns (updated: Incident, ghost s: Probe, ghost v: Probe)
      requires top == MaxSeverity(world, live)
      ensures ProbeOf(s, SourcesOf(world, live), sources) && ProbeOf(v, ServicesOf(world, live), services)
      ensures updated == AfterRemove(world, incident, live, s, v)
    {
      var serviceRows := SomeOrder(ServicesOf(world, live) * services);
      var sourceRows := SomeOrder(SourcesOf(world, live) * sources);
      var serviceOrder := SomeOrder(services);
      var sourceOrder := SomeOrder(sources);
      var servicesExisted := new OneShot(serviceRows);
      var sourcesExisted := new OneShot(sourceRows);
      var servicesToRemove := NotIn(serviceOrder, servicesExisted);
      var sourcesToRemove := NotIn(sourceOrder, sourcesExisted);
      s, v := Probe(sourceRows, sourceOrder), Probe(serviceRows, serviceOrder);
      var first, last := TimeBounds(LatestTimes(world, live));
      var newServices := set x | x in incident.services && x !in servicesToRemove;
      var newSources := set x | x in incident.sources && x !in sourcesToRemove;
      assert newServices == incident.services - Elements(servicesToRemove);
      assert newSources == incident.sources - Elements(sourcesToRemove);
      updated := incident.(alertsCount := |live|, lastSeenTime := last, startTime := first,
                           services := newServices, sources := newSources,
                           severity := if incident.forcedSeverity then incident.severity else top);
    }

    method RemoveAlerts(i: string, fingerprints: seq<string>, now: int)
      returns (outcome: Outcome, deleted: Option<nat>, ghost s: Probe, ghost v: Probe)
      requires ValidDb(world, View())
      modifies this
      ensures (View(), outcome) == Remove(world, old(View()), i, Elements(fingerprints), now, s, v)
      ensures outcome == Updated ==> ProbesOf(world, old(View()), i, Elements(fingerprints), s, v)
      ensures outcome == Updated ==> deleted == Some(|Live(old(links), i) * Elements(fingerprints)|)
    {
      s, v, deleted := Probe([], []), Probe([], []), None;
      if i !in incidents {
        return NoIncident, None, s, v;
      }
      var fps := set f | f in fingerprints;
      assert fps == Elements(fingerprints);
      var gone := Live(links, i) * fps;
      if exists f :: f in gone && Link(i, f, Some(now)) in links {
        return Refused, None, s, v;
      }
      UnlinkedLive(links, i, gone, now, i);
      var live := Live(links, i) - gone;
      assert live == Remaining(View(), i, fps);
      assert live <= world.latest.Keys by {
        assert forall f :: f in live ==> Link(i, f, None) in links;
      }
      links := Unlink(links, i, gone, now);
      var ok, sources, services, _ := GetAlertsData(fps);
      if !ok {
        return RaisedAfterCommit, None, s, v;
      }
      var known, severity := RemainingSeverity(live);
      if !known {
        return RaisedAfterCommit, None, s, v;
      }
      var updated;
      updated, s, v := Reaggregate(incidents[i], live, sources, services, severity);
      incidents := incidents[i := updated];
      return Updated, Some(|gone|), s, v;
    }

    method UpdateIncidentSeverity(i: string, severity: Order) returns (found: bool)
      modifies this`incidents
      ensures View() == ForceSeverity(old(View()), i, severity)
      ensures found == (i in old(incidents))
      ensures !found ==> incidents == old(incidents)
      ensures found ==>
        incidents == old(incidents)[i := old(incidents)[i].(severity := severity, forcedSeverity := true)]
    {
      if i !in incidents {
        return false;
      }
      incidents := incidents[i := incidents[i].(severity := severity, forcedSeverity := true)];
      return true;
    }
  }

  lemma BoundsWith(times: set<int>, t: int)
    ensures var (first, last) := Bounds(times);
      Bounds(times + {t}) == (Some(if first.None? || t < first.value then t else first.value),
                              Some(if last.None? || last.value < t then t else last.value))
  {
    var more := times + {t};
    assert t in more;
    var lo, hi := Least(more), Greatest(more);
    assert lo == t || lo in times;
    assert hi == t || hi in times;
  }
}
