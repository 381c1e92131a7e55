/** The incident gauges: a gauge keeps its last value, so a label that vanished from the
    database has to be set to zero once. */
module IncidentGauges {
  import opened Values

  // ---------------------------------------------------------------- refreshing a gauge

  function At<L>(m: map<L, nat>, l: L): nat {
    if l in m then m[l] else 0
  }

  /** What one refresh leaves in the gauge. */
  function Refreshed<L>(values: map<L, nat>, seen: set<L>, counts: map<L, nat>): map<L, nat> {
    map l | l in values.Keys + seen + counts.Keys ::
      if l in counts then counts[l] else if l in seen then 0 else At(values, l)
  }

  class Gauge<L(==)> {
    var values: map<L, nat>  // the gauge itself
    var seen: set<L>         // the labels set on the previous refresh

    constructor ()
      ensures values == map[] && seen == {}
    {
      values, seen := map[], {};
    }

    /** Sets each label to its value, one by one. */
    method SetEach(labels: map<L, nat>)
      modifies this`values
      ensures values == old(values) + labels
    {
      var pending := labels.Keys;
      while pending != {}
        invariant pending <= labels.Keys
        invariant values == old(values) + (labels - pending)
        decreases pending
      {
        var l :| l in pending;
        pending := pending - {l};
        values := values[l := labels[l]];
      }
      assert labels - {} == labels;
    }

    method Refresh(counts: map<L, nat>)
      modifies this
      ensures values == Refreshed(old(values), old(seen), counts) && seen == counts.Keys
    {
      var gone := map l | l in seen && l !in counts :: 0;
      SetEach(gone);
      SetEach(counts);
      seen := counts.Keys;
    }
  }

  /** The gauge after refreshing from a sequence of database states. */
  function AfterRefreshes<L>(states: seq<map<L, nat>>): (r: (map<L, nat>, set<L>)) {
    if states == [] then (map[], {})
    else
      var (values, seen) := AfterRefreshes(states[..|states| - 1]);
      var counts := states[|states| - 1];
      (Refreshed(values, seen, counts), counts.Keys)
  }

  /** Some state of the sequence counted the label. */
  predicate EverCounted<L(==)>(states: seq<map<L, nat>>, l: L) {
    exists k :: 0 <= k < |states| && l in states[k]
  }

  lemma CountedBefore<L>(states: seq<map<L, nat>>, l: L)
    requires states != []
    ensures EverCounted(states, l) <==> l in states[|states| - 1] || EverCounted(states[..|states| - 1], l)
  {
    if k :| 0 <= k < |states| - 1 && l in states[k] { assert l in states[..|states| - 1][k]; }
  }

  /** After any sequence of refreshes the gauge has exactly the labels ever counted, and each
      reads its current count, or zero if it is not counted now. */
  lemma {:induction false} GaugeIsCurrent<L>(states: seq<map<L, nat>>, l: L)
    requires states != []
    ensures var (values, seen) := AfterRefreshes(states); var counts := states[|states| - 1];
      && seen == counts.Keys
      && (l in values <==> exists k :: 0 <= k < |states| && l in states[k])
      && (l in values ==> values[l] == if l in counts then counts[l] else 0)
  {
    var before := states[..|states| - 1];
    CountedBefore(states, l);
    if before != [] { GaugeIsCurrent(before, l); }
  }

  // ---------------------------------------------------------------- tickets by provider

  datatype Provider = ServiceNow | Jira | OtherProvider

  /** The ticket fields of an incident's enrichment; `isDict` is false for a value that is
      not a dictionary. */
  datatype Enrichment = Enrichment(tenant: string, isDict: bool, url: Val, id: Val, kind: Val)

  /** `str(v or "").lower()`, for texts. */
  function LowerText(v: Val): string {
    if v.Text? then Lower(v.s) else ""
  }

  predicate Contains(s: string, part: string) {
    part <= s || (s != "" && Contains(s[1..], part))
  }

  predicate HasTicket(e: Enrichment) {
    e.isDict && (Truthy(e.url) || Truthy(e.id) || Truthy(e.kind))
  }

  function TicketProvider(e: Enrichment): Option<Provider> {
    if !HasTicket(e) then None
    else
      var kind, url := LowerText(e.kind), LowerText(e.url);
      if Contains(kind, "servicenow") || Contains(url, "service-now") || Contains(kind, "service_now")
      then Some(ServiceNow)
      else if Contains(kind, "jira") || Contains(url, "atlassian") then Some(Jira)
      else Some(OtherProvider)
  }

  /** The text occurs in the other, as a contiguous part. */
  predicate Occurs(part: string, s: string) {
    exists i :: 0 <= i <= |s| && part <= s[i..]
  }

  lemma {:induction false} ContainsExactlyWhen(s: string, part: string)
    ensures Contains(s, part) <==> Occurs(part, s)
  {
    assert s[0..] == s;
    if !(part <= s) && s != [] {
      ContainsExactlyWhen(s[1..], part);
      forall i | 0 <= i < |s| ensures s[1..][i..] == s[i + 1..] {}
      if Occurs(part, s) {
        var i :| 0 <= i <= |s| && part <= s[i..];
        assert s[1..][i - 1..] == s[i..];
      }
    }
  }

  /** An incident has a ticket if its enrichment is a dictionary with a url, an id or a type
      that is not empty; the provider is read off the lower-case type and url, ServiceNow
      before Jira, anything else being another provider. */
  lemma ClassifiedExactlyWhen(e: Enrichment)
    ensures var kind := if e.kind.Text? then Lower(e.kind.s) else "";
      var url := if e.url.Text? then Lower(e.url.s) else "";
      var servicenow := Occurs("servicenow", kind) || Occurs("service_now", kind) || Occurs("service-now", url);
      && (TicketProvider(e).None? <==> !e.isDict || !(Truthy(e.url) || Truthy(e.id) || Truthy(e.kind)))
      && (TicketProvider(e).Some? ==>
            && (TicketProvider(e).value == ServiceNow <==> servicenow)
            && (TicketProvider(e).value == Jira <==> !servicenow && (Occurs("jira", kind) || Occurs("atlassian", url))))
  {
    var kind := if e.kind.Text? then Lower(e.kind.s) else "";
    var url := if e.url.Text? then Lower(e.url.s) else "";
    ContainsExactlyWhen(kind, "servicenow");
    ContainsExactlyWhen(kind, "service_now");
    ContainsExactlyWhen(url, "service-now");
    ContainsExactlyWhen(kind, "jira");
    ContainsExactlyWhen(url, "atlassian");
  }

  function Tickets(rows: seq<Enrichment>, tenant: string, p: Provider): nat {
    if rows == [] then 0
    else
      var e := rows[|rows| - 1];
      Tickets(rows[..|rows| - 1], tenant, p) + if e.tenant == tenant && TicketProvider(e) == Some(p) then 1 else 0
  }

  method CountIncidentsWithTicket(rows: seq<Enrichment>) returns (counts: map<(string, Provider), nat>)
    ensures forall t, p :: At(counts, (t, p)) == Tickets(rows, t, p)
    ensures forall l :: l in counts ==> counts[l] > 0
  {
    counts := map[];
    for i := 0 to |rows|
      invariant forall t, p :: At(counts, (t, p)) == Tickets(rows[..i], t, p)
      invariant forall l :: l in counts ==> counts[l] > 0
    {
      assert rows[..i + 1][..i] == rows[..i];
      var provider := TicketProvider(rows[i]);
      if provider.None? {
        continue;
      }
      var key := (rows[i].tenant, provider.value);
      counts := counts[key := At(counts, key) + 1];
    }
    assert rows[..|rows|] == rows;
  }

  function TicketsOf(rows: seq<Enrichment>, tenant: string): nat {
    if rows == [] then 0
    else
      var e := rows[|rows| - 1];
      TicketsOf(rows[..|rows| - 1], tenant) + if e.tenant == tenant && HasTicket(e) then 1 else 0
  }

  /** The three provider counts of a tenant add up to its incidents with a ticket: each is
      classified once. */
  lemma {:induction false} ProvidersPartitionTickets(rows: seq<Enrichment>, tenant: string)
    ensures Tickets(rows, tenant, ServiceNow) + Tickets(rows, tenant, Jira) + Tickets(rows, tenant, OtherProvider)
         == TicketsOf(rows, tenant)
  {
    if rows != [] {
      ProvidersPartitionTickets(rows[..|rows| - 1], tenant);
    }
  }
}
