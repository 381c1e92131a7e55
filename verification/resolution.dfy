/** When an incident resolves by itself: the three-valued test the database runs, and the
    loop over the incidents an alert is linked to. */
module Resolution {
  import opened Values
  import opened OneShotResults
  import opened Ledger
  import opened LedgerLaws
  import opened LedgerStore

  /** The nullable user status of each LastAlert row. */
  type UserStatuses = map<string, Option<string>>

  const RESOLVED_STATUS := "resolved"

  // ---------------------------------------------------------------- the test in three-valued logic

  datatype Truth = True | False | Unknown

  function NotEqual(a: Option<string>, b: string): Truth {
    match a
    case None => Unknown
    case Some(x) => if x != b then True else False
  }

  function And(a: Truth, b: Truth): Truth {
    if a == False || b == False then False else if a == True && b == True then True else Unknown
  }

  function Or(a: Truth, b: Truth): Truth {
    if a == True || b == True then True else if a == False && b == False then False else Unknown
  }

  function IsNull(a: Option<string>): Truth {
    if a.None? then True else False
  }

  function UserStatus(users: UserStatuses, f: string): Option<string> {
    if f in users then users[f] else None
  }

  function ProviderStatus(w: World, f: string): Option<string> {
    if f in w.latest then w.latest[f].status else None
  }

  /** The condition of the "not in status" subquery on one row. */
  function NotInStatus(enriched: Option<string>, provider: Option<string>, wanted: string): Truth {
    Or(NotEqual(enriched, wanted), And(IsNull(enriched), NotEqual(provider, wanted)))
  }

  /** `not exists(... where condition)`: only rows on which the condition is true count. */
  predicate NoneSelected(w: World, users: UserStatuses, live: set<string>, wanted: string) {
    !exists f :: f in live && NotInStatus(UserStatus(users, f), ProviderStatus(w, f), wanted) == True
  }

  // ---------------------------------------------------------------- what it is meant to say

  /** The user's status where there is one, else the provider's. */
  function EffectiveStatus(w: World, users: UserStatuses, f: string): Option<string> {
    if f in users && users[f].Some? then users[f] else if f in w.latest then w.latest[f].status else None
  }

  predicate AllInStatus(w: World, users: UserStatuses, live: set<string>, wanted: string) {
    forall f :: f in live ==> EffectiveStatus(w, users, f) == Some(wanted)
  }

  /** Some alert has no status at all and every alert that has one has the wanted one. */
  predicate NullHides(w: World, users: UserStatuses, live: set<string>, wanted: string) {
    && (exists f :: f in live && EffectiveStatus(w, users, f).None?)
    && (forall f :: f in live && EffectiveStatus(w, users, f).Some? ==> EffectiveStatus(w, users, f) == Some(wanted))
  }

  /** The database test says what it is meant to, exactly when no null status is hidden
      among alerts that are otherwise all in the wanted status. */
  lemma TestIsRightExactlyWhen(w: World, users: UserStatuses, live: set<string>, wanted: string)
    ensures (NoneSelected(w, users, live, wanted) <==> AllInStatus(w, users, live, wanted))
       <==> !NullHides(w, users, live, wanted)
  {
    forall f ensures NotInStatus(UserStatus(users, f), ProviderStatus(w, f), wanted) == True <==>
                     EffectiveStatus(w, users, f).Some? && EffectiveStatus(w, users, f) != Some(wanted) {}
    if NoneSelected(w, users, live, wanted) && !AllInStatus(w, users, live, wanted) {
      var f :| f in live && EffectiveStatus(w, users, f) != Some(wanted);
      assert EffectiveStatus(w, users, f).None?;
    }
  }

  // ---------------------------------------------------------------- resolving incidents

  /** `is_all_alerts_resolved(incident=...)`: trusts the cached count before it asks. */
  predicate Decides(w: World, users: UserStatuses, db: Db, i: string)
    requires i in db.incidents
  {
    db.incidents[i].alertsCount != 0 && NoneSelected(w, users, Live(db.links, i), RESOLVED_STATUS)
  }

  predicate LinkedToAny(db: Db, i: string, fps: set<string>) {
    exists f :: f in fps && f in Live(db.links, i)
  }

  /** The incidents linked to any of the alerts, resolved where the test says so. */
  function Resolve(w: World, users: UserStatuses, db: Db, fps: set<string>): Db {
    db.(incidents := map i | i in db.incidents :: ResolveIncident(w, users, db, fps, i))
  }

  function ResolveIncident(w: World, users: UserStatuses, db: Db, fps: set<string>, i: string): Incident
    requires i in db.incidents
  {
    if LinkedToAny(db, i, fps) && db.incidents[i].resolveOn == AllResolved && Decides(w, users, db, i)
    then db.incidents[i].(status := ResolvedIncident) else db.incidents[i]
  }

  class Resolver {
    const store: Store
    var users: UserStatuses

    constructor (store: Store, users: UserStatuses)
      ensures this.store == store && this.users == users
    {
      this.store, this.users := store, users;
    }

    /** `check_incident_resolution` for one alert. */
    method CheckIncidentResolution(fingerprint: string)
      modifies store`incidents
      ensures store.View() == Resolve(store.world, users, old(store.View()), {fingerprint})
    {
      var linked := set i | i in store.incidents && fingerprint in Live(store.links, i);
      var order := SomeOrder(linked);
      ghost var start := store.View();
      for n := 0 to |order|
        invariant store.incidents.Keys == start.incidents.Keys
        invariant forall i :: i in start.incidents ==>
          store.incidents[i] == if i in order[..n] then ResolveIncident(store.world, users, start, {fingerprint}, i)
                                else start.incidents[i]
      {
        var i := order[n];
        assert order[..n + 1] == order[..n] + [i];
        assert i in Elements(order) && i !in order[..n];
        var incident := store.incidents[i];
        assert fingerprint in {fingerprint} && LinkedToAny(start, i, {fingerprint});
        if incident.resolveOn == AllResolved && incident.alertsCount != 0
           && NoneSelected(store.world, users, Live(store.links, i), RESOLVED_STATUS) {
          store.incidents := store.incidents[i := incident.(status := ResolvedIncident)];
        }
      }
      assert order[..|order|] == order;
      forall i | i in start.incidents
        ensures store.incidents[i] == Resolve(store.world, users, start, {fingerprint}).incidents[i]
      {
        assert i in Elements(order) <==> fingerprint in Live(start.links, i);
      }
    }

    /** The loop of the batch route over the enriched alerts. */
    method CheckAll(fingerprints: seq<string>)
      modifies store`incidents
      ensures store.View() == Resolve(store.world, users, old(store.View()), Elements(fingerprints))
    {
      ghost var start := store.View();
      assert Resolve(store.world, users, start, Elements(fingerprints[..0])).incidents == start.incidents;
      for n := 0 to |fingerprints|
        invariant store.View() == Resolve(store.world, users, start, Elements(fingerprints[..n]))
      {
        CheckIncidentResolution(fingerprints[n]);
        ResolveTwice(store.world, users, start, Elements(fingerprints[..n]), fingerprints[n]);
        assert Elements(fingerprints[..n + 1]) == Elements(fingerprints[..n]) + {fingerprints[n]};
      }
      assert fingerprints[..|fingerprints|] == fingerprints;
    }
  }

  lemma LinkedToOneMore(db: Db, i: string, fps: set<string>, f: string)
    ensures LinkedToAny(db, i, fps + {f}) <==> LinkedToAny(db, i, fps) || f in Live(db.links, i)
    ensures LinkedToAny(db, i, {f}) <==> f in Live(db.links, i)
  {
    assert f in fps + {f} && f in {f};
    if LinkedToAny(db, i, fps) {
      var g :| g in fps && g in Live(db.links, i);
      assert g in fps + {f};
    }
  }

  /** Resolving one incident for some alerts and then for one more. */
  lemma ResolveOneTwice(w: World, users: UserStatuses, db: Db, fps: set<string>, f: string, i: string)
    requires i in db.incidents
    ensures ResolveIncident(w, users, Resolve(w, users, db, fps), {f}, i) == ResolveIncident(w, users, db, fps + {f}, i)
  {
    var once := Resolve(w, users, db, fps);
    LinkedToOneMore(db, i, fps, f);
    LinkedToOneMore(once, i, {}, f);
    assert Decides(w, users, once, i) == Decides(w, users, db, i);
  }

  /** Resolving for some alerts and then for one more is resolving for all of them. */
  lemma ResolveTwice(w: World, users: UserStatuses, db: Db, fps: set<string>, f: string)
    ensures Resolve(w, users, Resolve(w, users, db, fps), {f}) == Resolve(w, users, db, fps + {f})
  {
    var once := Resolve(w, users, db, fps);
    assert once.incidents.Keys == db.incidents.Keys;
    forall i | i in db.incidents
      ensures ResolveIncident(w, users, once, {f}, i) == ResolveIncident(w, users, db, fps + {f}, i)
    {
      ResolveOneTwice(w, users, db, fps, f, i);
    }
    SameIncidents(Resolve(w, users, once, {f}).incidents, Resolve(w, users, db, fps + {f}).incidents);
  }

  lemma SameIncidents(a: map<string, Incident>, b: map<string, Incident>)
    requires a.Keys == b.Keys && forall i :: i in a ==> a[i] == b[i]
    ensures a == b
  {
  }

  /** Some live alert is not in the status. */
  predicate SomeOpen(w: World, users: UserStatuses, live: set<string>, wanted: string) {
    exists f :: f in live && EffectiveStatus(w, users, f) != Some(wanted)
  }

  /** The decision, that an incident has live alerts and all of them are resolved, trusts the
      cached count.  Without live links it is right exactly when the count says so; with live
      links under a zero count, exactly when some alert is open; otherwise, and so whenever
      the count is in step, exactly when no null status is hidden. */
  lemma DecisionIsRightExactlyWhen(w: World, users: UserStatuses, db: Db, i: string)
    requires i in db.incidents
    ensures var live, cached := Live(db.links, i), db.incidents[i].alertsCount;
      var right := Decides(w, users, db, i) <==> live != {} && AllInStatus(w, users, live, RESOLVED_STATUS);
      && (right <==>
            if live == {} then cached == 0
            else if cached == 0 then SomeOpen(w, users, live, RESOLVED_STATUS)
            else !NullHides(w, users, live, RESOLVED_STATUS))
      && (CountOk(db, i) ==> (right <==> !NullHides(w, users, live, RESOLVED_STATUS)))
  {
    TestIsRightExactlyWhen(w, users, Live(db.links, i), RESOLVED_STATUS);
  }

  predicate ProvidersReport(w: World) {
    forall f :: f in w.latest ==> w.latest[f].status.Some?
  }

  /** In step with the ledger and with no null provider status, the check resolves exactly
      the incidents that resolve on all, are linked to one of the alerts, and have every
      live alert resolved, by its user where one set a status and by its provider otherwise;
      every other incident, a fully merged one among them, is left as it is. */
  lemma ResolvesExactly(w: World, users: UserStatuses, db: Db, fps: set<string>, i: string)
    requires ValidDb(w, db) && ProvidersReport(w) && i in db.incidents && CountOk(db, i)
    ensures var live := Live(db.links, i); var db' := Resolve(w, users, db, fps);
      && i in db'.incidents && db'.links == db.links
      && db'.incidents[i] ==
         (if live * fps != {} && db.incidents[i].resolveOn == AllResolved
             && (forall f :: f in live ==>
                   if f in users && users[f].Some? then users[f] == Some("resolved")
                   else f in w.latest && w.latest[f].status == Some("resolved"))
          then db.incidents[i].(status := ResolvedIncident) else db.incidents[i])
      && (live == {} ==> db'.incidents[i] == db.incidents[i])
  {
    var live := Live(db.links, i);
    assert LinkedToAny(db, i, fps) <==> live * fps != {} by {
      if LinkedToAny(db, i, fps) {
        var f :| f in fps && f in live;
        assert f in live * fps;
      }
      if live * fps != {} {
        var f :| f in live * fps;
        assert f in fps && f in live;
      }
    }
    if live * fps != {} {
      assert live != {};
      forall f | f in live ensures EffectiveStatus(w, users, f).Some? {
        assert Link(i, f, None) in db.links;
      }
      DecisionIsRightExactlyWhen(w, users, db, i);
    }
  }
}
