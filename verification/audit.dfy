/** The alert timeline: audit rows grouped into runs of the same event. */
module AuditTimeline {
  import opened Values

  datatype Row = Row(id: string, timestamp: int, fingerprint: string, user: string, action: string,
                     description: Option<string>, mentions: seq<string>)

  /** The transfer object; a row without mentions has none rather than an empty list. */
  datatype Dto = Dto(id: string, timestamp: int, fingerprint: string, user: string, action: string,
                     description: string, mentions: Option<seq<string>>)

  /** What makes two consecutive rows similar. */
  datatype Event = Event(user: string, action: string, description: Option<string>)

  /** A run: its first row and how many rows it stands for. */
  datatype Run = Run(first: Row, count: nat)

  function EventOf(r: Row): Event {
    Event(r.user, r.action, r.description)
  }

  // ---------------------------------------------------------------- specification

  /** The runs after one more row: the last one grows, or a new one starts. */
  function Grown(runs: seq<Run>, row: Row): seq<Run> {
    var m := |runs| - 1;
    if runs != [] && EventOf(runs[m].first) == EventOf(row) then runs[m := Run(runs[m].first, runs[m].count + 1)]
    else runs + [Run(row, 1)]
  }

  function Runs(rows: seq<Row>): seq<Run> {
    if rows == [] then [] else Grown(Runs(rows[..|rows| - 1]), rows[|rows| - 1])
  }

  /** Rows the transfer object accepts: a known action and a description. */
  predicate Accepted(e: Event, known: set<string>) {
    e.action in known && e.description.Some?
  }

  function Digits(n: nat): string {
    if n < 10 then ["0123456789"[n]] else Digits(n / 10) + ["0123456789"[n % 10]]
  }

  function ReadDigits(s: string): int {
    if s == "" then 0 else ReadDigits(s[..|s| - 1]) * 10 + (s[|s| - 1] as int - '0' as int)
  }

  /** The occurrence count in a description is written in decimal. */
  lemma {:induction false} DigitsRead(n: nat)
    ensures ReadDigits(Digits(n)) == n
  {
    if n < 10 {
      assert ["0123456789"[n]][..0] == "";
    } else {
      DigitsRead(n / 10);
      var last := "0123456789"[n % 10];
      assert (Digits(n / 10) + [last])[..|Digits(n / 10)|] == Digits(n / 10);
    }
  }

  function ToDto(r: Row, occurrences: nat): Dto
    requires r.description.Some?
  {
    Dto(r.id, r.timestamp, r.fingerprint, r.user, r.action,
        r.description.value + (if occurrences > 1 then " x" + Digits(occurrences) else ""),
        if r.mentions == [] then None else Some(r.mentions))
  }

  /** The description shows the count: of one row, two counts look the same exactly when they
      are the same (none is shown for a single occurrence). */
  lemma DescriptionTellsCount(r: Row, m: nat, n: nat)
    requires r.description.Some? && m > 0 && n > 0
    ensures ToDto(r, m).description == ToDto(r, n).description <==> m == n
  {
    DigitsRead(m);
    DigitsRead(n);
    var text := r.description.value;
    if ToDto(r, m).description == ToDto(r, n).description {
      assert ToDto(r, m).description[|text|..] == ToDto(r, n).description[|text|..];
      if m > 1 && n > 1 {
        assert (" x" + Digits(m))[2..] == Digits(m) && (" x" + Digits(n))[2..] == Digits(n);
      }
    }
  }

  function Render(runs: seq<Run>, known: set<string>): seq<Dto> {
    if runs == [] then []
    else
      var before, last := Render(runs[..|runs| - 1], known), runs[|runs| - 1];
      if Accepted(EventOf(last.first), known) then before + [ToDto(last.first, last.count)] else before
  }

  /** What one more row leaves finished, and the run still open. */
  lemma GrownFront(runs: seq<Run>, row: Row)
    ensures var grown := Grown(runs, row); var m := |runs| - 1;
      grown != [] && var open := grown[|grown| - 1];
      if runs != [] && EventOf(runs[m].first) == EventOf(row)
      then grown[..|grown| - 1] == runs[..m] && open == Run(runs[m].first, runs[m].count + 1)
      else grown[..|grown| - 1] == runs && open == Run(row, 1)
  {
  }

  // ---------------------------------------------------------------- the code

  class Timeline {
    var groupedEvents: seq<Dto>
    const known: set<string>

    constructor (known: set<string>)
      ensures groupedEvents == [] && this.known == known
    {
      groupedEvents := [];
      this.known := known;
    }

    method Append(event: Row, occurrences: nat)
      modifies this
      ensures groupedEvents == old(groupedEvents)
              + if Accepted(EventOf(event), known) then [ToDto(event, occurrences)] else []
    {
      if event.action !in known || event.description.None? {
        return;  // the row is skipped, the rest kept
      }
      groupedEvents := groupedEvents + [ToDto(event, occurrences)];
    }

    method FromOrmList(audits: seq<Row>)
      requires groupedEvents == []
      modifies this
      ensures groupedEvents == Render(Runs(audits), known)
    {
      var previous: Option<Row> := None;
      var count := 1;
      for i := 0 to |audits|
        invariant previous.None? <==> Runs(audits[..i]) == []
        invariant previous.None? ==> groupedEvents == []
        invariant previous.Some? ==>
          var runs := Runs(audits[..i]);
          runs[|runs| - 1] == Run(previous.value, count) && groupedEvents == Render(runs[..|runs| - 1], known)
      {
        var event := audits[i];
        assert audits[..i + 1][..i] == audits[..i];
        ghost var runs := Runs(audits[..i]);
        GrownFront(runs, event);
        if previous.Some? && EventOf(event) == EventOf(previous.value) {
          count := count + 1;
        } else {
          if previous.Some? {
            Append(previous.value, count);
          }
          assert groupedEvents == Render(runs, known);
          previous := Some(event);
          count := 1;
        }
      }
      assert audits[..|audits|] == audits;
      if previous.Some? {
        Append(previous.value, count);
      }
    }
  }

  // ---------------------------------------------------------------- laws

  function Events(rows: seq<Row>): seq<Event> {
    seq(|rows|, i requires 0 <= i < |rows| => EventOf(rows[i]))
  }

  function Repeat(e: Event, n: nat): seq<Event> {
    seq(n, _ => e)
  }

  /** Each run written out as often as it counts. */
  function Expand(runs: seq<Run>): seq<Event> {
    if runs == [] then []
    else Expand(runs[..|runs| - 1]) + Repeat(EventOf(runs[|runs| - 1].first), runs[|runs| - 1].count)
  }

  predicate Maximal(runs: seq<Run>) {
    && (forall k :: 0 <= k < |runs| ==> runs[k].count >= 1)
    && (forall k :: 0 <= k < |runs| - 1 ==> EventOf(runs[k].first) != EventOf(runs[k + 1].first))
  }

  lemma ExpandSnoc(runs: seq<Run>, r: Run)
    ensures Expand(runs + [r]) == Expand(runs) + Repeat(EventOf(r.first), r.count)
  {
    assert (runs + [r])[..|runs|] == runs;
  }

  lemma RunGrows(runs: seq<Run>)
    requires runs != []
    ensures var m := |runs| - 1; var last := runs[m];
      Expand(runs[m := Run(last.first, last.count + 1)]) == Expand(runs) + [EventOf(last.first)]
  {
    var m := |runs| - 1;
    var last := runs[m];
    assert runs[m := Run(last.first, last.count + 1)][..m] == runs[..m];
    var e := EventOf(last.first);
    assert Repeat(e, last.count + 1) == Repeat(e, last.count) + [e];
  }

  lemma GrownExpands(runs: seq<Run>, row: Row)
    requires Maximal(runs)
    ensures var grown := Grown(runs, row); var e := EventOf(row);
      && Expand(grown) == Expand(runs) + [e] && Maximal(grown)
      && grown != [] && EventOf(grown[|grown| - 1].first) == e
  {
    var e := EventOf(row);
    if runs != [] && EventOf(runs[|runs| - 1].first) == e {
      RunGrows(runs);
    } else {
      ExpandSnoc(runs, Run(row, 1));
      assert Repeat(e, 1) == [e];
    }
  }

  /** The grouping loses nothing but repetition: writing the runs out gives the rows'
      events back, and the runs are maximal. */
  lemma {:induction false} RunsExpand(rows: seq<Row>)
    ensures Expand(Runs(rows)) == Events(rows)
    ensures Maximal(Runs(rows))
    ensures rows != [] ==> Runs(rows) != [] && EventOf(Runs(rows)[|Runs(rows)| - 1].first) == EventOf(rows[|rows| - 1])
  {
    if rows != [] {
      var n := |rows| - 1;
      RunsExpand(rows[..n]);
      GrownExpands(Runs(rows[..n]), rows[n]);
      assert Events(rows) == Events(rows[..n]) + [EventOf(rows[n])];
    }
  }

  /** The run-length code of a list of events is unique: any maximal runs that write out
      to the same events have the same events and counts. */
  lemma {:induction false} CodeIsUnique(a: seq<Run>, b: seq<Run>)
    requires Maximal(a) && Maximal(b) && Expand(a) == Expand(b)
    ensures |a| == |b|
    ensures forall k :: 0 <= k < |a| ==> EventOf(a[k].first) == EventOf(b[k].first) && a[k].count == b[k].count
  {
    if a == [] || b == [] {
      LastEvent(a);
      LastEvent(b);
    } else {
      var m, n := |a| - 1, |b| - 1;
      LastEvent(a);
      LastEvent(b);
      SameTail(a, b);
      SameTail(b, a);
      SameFront(a, b);
      CodeIsUnique(a[..m], b[..n]);
    }
  }

  lemma SameFront(a: seq<Run>, b: seq<Run>)
    requires a != [] && b != [] && Expand(a) == Expand(b) && a[|a| - 1].count == b[|b| - 1].count
    ensures Expand(a[..|a| - 1]) == Expand(b[..|b| - 1])
  {
    var k := |Expand(a)| - a[|a| - 1].count;
    assert Expand(a[..|a| - 1]) == Expand(a)[..k];
    assert Expand(b[..|b| - 1]) == Expand(b)[..k];
  }

  lemma LastEvent(runs: seq<Run>)
    requires Maximal(runs)
    ensures runs != [] ==> Expand(runs) != [] && Expand(runs)[|Expand(runs)| - 1] == EventOf(runs[|runs| - 1].first)
  {
  }

  lemma SameTail(a: seq<Run>, b: seq<Run>)
    requires Maximal(a) && Maximal(b) && Expand(a) == Expand(b) && a != [] && b != []
    requires EventOf(a[|a| - 1].first) == EventOf(b[|b| - 1].first)
    ensures a[|a| - 1].count >= b[|b| - 1].count
  {
    var m, n := |a| - 1, |b| - 1;
    LastEvent(a[..m]);
    assert Expand(a) == Expand(a[..m]) + Repeat(EventOf(a[m].first), a[m].count);
    assert Expand(b) == Expand(b[..n]) + Repeat(EventOf(b[n].first), b[n].count);
  }

  function AcceptedEvents(es: seq<Event>, known: set<string>): seq<Event> {
    if es == [] then []
    else
      var before, e := AcceptedEvents(es[..|es| - 1], known), es[|es| - 1];
      if Accepted(e, known) then before + [e] else before
  }

  function AcceptedRuns(runs: seq<Run>, known: set<string>): seq<Run> {
    if runs == [] then []
    else
      var before, last := AcceptedRuns(runs[..|runs| - 1], known), runs[|runs| - 1];
      if Accepted(EventOf(last.first), known) then before + [last] else before
  }

  function CountOf(runs: seq<Run>): nat {
    if runs == [] then 0 else CountOf(runs[..|runs| - 1]) + runs[|runs| - 1].count
  }

  lemma {:induction false} AcceptedAppend(a: seq<Event>, e: Event, n: nat, known: set<string>)
    ensures AcceptedEvents(a + Repeat(e, n), known)
         == if Accepted(e, known) then AcceptedEvents(a, known) + Repeat(e, n) else AcceptedEvents(a, known)
    decreases n
  {
    if n == 0 {
      assert a + Repeat(e, 0) == a;
      assert AcceptedEvents(a, known) + Repeat(e, 0) == AcceptedEvents(a, known);
    } else {
      AcceptedAppend(a, e, n - 1, known);
      AcceptedSnoc(a + Repeat(e, n - 1), e, known);
      assert a + Repeat(e, n - 1) + [e] == a + Repeat(e, n);
      assert AcceptedEvents(a, known) + Repeat(e, n - 1) + [e] == AcceptedEvents(a, known) + Repeat(e, n);
    }
  }

  lemma AcceptedSnoc(es: seq<Event>, e: Event, known: set<string>)
    ensures AcceptedEvents(es + [e], known)
         == if Accepted(e, known) then AcceptedEvents(es, known) + [e] else AcceptedEvents(es, known)
  {
    assert (es + [e])[..|es|] == es;
  }

  lemma {:induction false} AcceptedExpand(runs: seq<Run>, known: set<string>)
    ensures Expand(AcceptedRuns(runs, known)) == AcceptedEvents(Expand(runs), known)
    ensures |Expand(runs)| == CountOf(runs)
    ensures |AcceptedRuns(runs, known)| == |Render(runs, known)|
    ensures forall k :: 0 <= k < |Render(runs, known)| ==>
      var run := AcceptedRuns(runs, known)[k];
      Accepted(EventOf(run.first), known) && Render(runs, known)[k] == ToDto(run.first, run.count)
  {
    if runs != [] {
      var n := |runs| - 1;
      var last := runs[n];
      AcceptedExpand(runs[..n], known);
      AcceptedAppend(Expand(runs[..n]), EventOf(last.first), last.count, known);
      if Accepted(EventOf(last.first), known) {
        ExpandSnoc(AcceptedRuns(runs[..n], known), last);
      }
    }
  }

  /** The timeline shows the runs of the rows with exactly the rows of unknown action or
      missing description dropped: writing its runs out gives the accepted events in order,
      and its counts add up to how many there are. */
  lemma TimelineShowsAcceptedRows(rows: seq<Row>, known: set<string>)
    ensures var shown := AcceptedRuns(Runs(rows), known); var timeline := Render(Runs(rows), known);
      && Expand(shown) == AcceptedEvents(Events(rows), known)
      && CountOf(shown) == |AcceptedEvents(Events(rows), known)|
      && |timeline| == |shown|
      && forall k :: 0 <= k < |shown| ==>
           Accepted(EventOf(shown[k].first), known) && timeline[k] == ToDto(shown[k].first, shown[k].count)
  {
    RunsExpand(rows);
    AcceptedExpand(Runs(rows), known);
    AcceptedExpand(AcceptedRuns(Runs(rows), known), known);
  }

  /** The event at each place of the runs written out. */
  lemma {:induction false} ExpandAt(runs: seq<Run>, k: nat, i: nat)
    requires k < |runs| && i < runs[k].count
    ensures CountOf(runs[..k]) + i < |Expand(runs)| && Expand(runs)[CountOf(runs[..k]) + i] == EventOf(runs[k].first)
  {
    var n := |runs| - 1;
    AcceptedExpand(runs[..n], {});
    if k < n {
      assert runs[..n][..k] == runs[..k];
      ExpandAt(runs[..n], k, i);
    }
  }

  /** The places run `k` stands for. */
  lemma StretchEvents(rows: seq<Row>, k: nat)
    requires k < |Runs(rows)|
    ensures var run := Runs(rows)[k]; var from := CountOf(Runs(rows)[..k]); var to := CountOf(Runs(rows)[..k + 1]);
      && to == from + run.count && from < to <= |rows| && run.first == rows[from]
      && forall j :: from <= j < to ==> EventOf(rows[j]) == EventOf(rows[from])
  {
    var runs := Runs(rows);
    var from, n := CountOf(runs[..k]), runs[k].count;
    RunsExpand(rows);
    RunsStartAtTheirFirstRow(rows, k);
    assert runs[..k + 1][..k] == runs[..k];
    ExpandAt(runs, k, n - 1);
    forall j | from <= j < from + n ensures EventOf(rows[j]) == EventOf(rows[from]) {
      ExpandAt(runs, k, j - from);
      assert Events(rows)[j] == EventOf(rows[j]);
    }
  }

  lemma SameEvent(a: Row, b: Row)
    ensures EventOf(a) == EventOf(b) <==> a.user == b.user && a.action == b.action && a.description == b.description
  {
  }

  /** The runs in terms of the rows: run `k` stands for a stretch of rows with the same user,
      action and description, it keeps the first of them, and it begins where the runs
      before it end. */
  lemma RunsAreStretches(rows: seq<Row>, k: nat, j: nat)
    requires k < |Runs(rows)|
    ensures var run := Runs(rows)[k]; var from := CountOf(Runs(rows)[..k]); var to := CountOf(Runs(rows)[..k + 1]);
      && to == from + run.count && from < to <= |rows| && run.first == rows[from]
      && (from <= j < to ==> rows[j].user == run.first.user && rows[j].action == run.first.action
                             && rows[j].description == run.first.description)
  {
    StretchEvents(rows, k);
    if CountOf(Runs(rows)[..k]) <= j < CountOf(Runs(rows)[..k + 1]) {
      SameEvent(rows[j], Runs(rows)[k].first);
    }
  }

  /** The stretches cover the rows, and where one ends the next row differs in one of the three. */
  lemma StretchesAreMaximal(rows: seq<Row>, k: nat)
    requires k + 1 < |Runs(rows)|
    ensures var to := CountOf(Runs(rows)[..k + 1]);
      && 0 < to < |rows| && CountOf(Runs(rows)) == |rows|
      && (|| rows[to].user != rows[to - 1].user || rows[to].action != rows[to - 1].action
          || rows[to].description != rows[to - 1].description)
  {
    var to := CountOf(Runs(rows)[..k + 1]);
    RunsExpand(rows);
    RunsCount(rows);
    StretchEvents(rows, k);
    StretchEvents(rows, k + 1);
    SameEvent(rows[to], rows[to - 1]);
  }

  /** The timeline in terms of the runs: one entry, in order, for each run whose first row has
      a known action and a description. */
  lemma TimelineEntries(runs: seq<Run>, known: set<string>) returns (at: seq<nat>)
    ensures |at| == |Render(runs, known)| && forall m, n :: 0 <= m < n < |at| ==> at[m] < at[n]
    ensures forall k: nat :: k in at <==>
      k < |runs| && runs[k].first.action in known && runs[k].first.description.Some?
    ensures forall m :: 0 <= m < |at| ==>
      at[m] in at && Render(runs, known)[m] == ToDto(runs[at[m]].first, runs[at[m]].count)
  {
    at := [];
    if runs != [] {
      var n := |runs| - 1;
      at := TimelineEntries(runs[..n], known);
      if Accepted(EventOf(runs[n].first), known) {
        at := at + [n];
      }
    }
  }

  /** The entry is the row with the run's count appended to the description if there is more
      than one, and without an empty list of mentions. */
  lemma EntryShows(r: Row, n: nat)
    requires r.description.Some?
    ensures var dto := ToDto(r, n);
      && dto.id == r.id && dto.timestamp == r.timestamp && dto.fingerprint == r.fingerprint
      && dto.user == r.user && dto.action == r.action
      && dto.description == (if n > 1 then r.description.value + " x" + Digits(n) else r.description.value)
      && dto.mentions == (if r.mentions == [] then None else Some(r.mentions))
  {
    var text := r.description.value;
    assert text + "" == text && text + (" x" + Digits(n)) == text + " x" + Digits(n);
  }

  /** What one more row does to the runs before the last. */
  lemma GrownParts(runs: seq<Run>, row: Row, k: nat)
    ensures var grown := Grown(runs, row);
      && |runs| <= |grown| <= |runs| + 1
      && (k < |runs| ==> grown[..k] == runs[..k] && grown[k].first == runs[k].first)
      && (|runs| < |grown| ==> grown[..|runs|] == runs && grown[|runs|].first == row)
  {
  }

  lemma GrownCounts(runs: seq<Run>, row: Row)
    ensures CountOf(Grown(runs, row)) == CountOf(runs) + 1
  {
    var grown, m := Grown(runs, row), |runs| - 1;
    if |grown| == |runs| {
      assert grown[..m] == runs[..m];
    } else {
      assert grown[..|runs|] == runs;
    }
  }

  lemma {:induction false} RunsCount(rows: seq<Row>)
    ensures CountOf(Runs(rows)) == |rows|
  {
    if rows != [] {
      RunsCount(rows[..|rows| - 1]);
      GrownCounts(Runs(rows[..|rows| - 1]), rows[|rows| - 1]);
    }
  }

  /** Each run is represented by its first row: the row that stands where the runs before
      it end. */
  lemma {:induction false} RunsStartAtTheirFirstRow(rows: seq<Row>, k: nat)
    requires k < |Runs(rows)|
    ensures CountOf(Runs(rows)[..k]) < |rows| && rows[CountOf(Runs(rows)[..k])] == Runs(rows)[k].first
    ensures CountOf(Runs(rows)) == |rows|
  {
    var n := |rows| - 1;
    var before := Runs(rows[..n]);
    RunsCount(rows);
    RunsCount(rows[..n]);
    GrownParts(before, rows[n], k);
    if k < |before| {
      RunsStartAtTheirFirstRow(rows[..n], k);
    }
  }
}
