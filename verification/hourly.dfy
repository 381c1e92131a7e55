/** Hourly distributions.  Times are seconds since an epoch that starts a day; an hour is
    named by its number. */
module Hourly {
  import opened Values

  const HOUR := 3600
  const DAY := 24

  /** The hour label the database groups by: 24-hour on sqlite and mysql; the postgresql
      format "HH" counts twelve hours, so that afternoon and midnight rows share the label
      of a morning or noon hour. */
  datatype Dialect = TwentyFourHour | TwelveHour

  function HourOf(t: int): int {
    t / HOUR
  }

  function LabelOf(d: Dialect, t: int): int {
    var h := HourOf(t);
    match d
    case TwentyFourHour => h
    case TwelveHour => h / DAY * DAY + (if h % 12 == 0 then 12 else h % 12)
  }

  // ---------------------------------------------------------------- the aggregate series

  /** How many of the rows in the range carry label `h`. */
  function Hits(d: Dialect, rows: seq<int>, h: int): nat {
    if rows == [] then 0
    else Hits(d, rows[..|rows| - 1], h) + if LabelOf(d, rows[|rows| - 1]) == h then 1 else 0
  }

  function InRange(rows: seq<int>, lower: int, upper: int): seq<int> {
    if rows == [] then []
    else
      var before, t := InRange(rows[..|rows| - 1], lower, upper), rows[|rows| - 1];
      if lower <= t <= upper then before + [t] else before
  }

  /** `GROUP BY time` with `count(*)`. */
  method GroupByHour(d: Dialect, rows: seq<int>) returns (results: map<int, nat>)
    ensures forall h :: (if h in results then results[h] else 0) == Hits(d, rows, h)
  {
    results := map[];
    for i := 0 to |rows|
      invariant forall h :: (if h in results then results[h] else 0) == Hits(d, rows[..i], h)
    {
      assert rows[..i + 1][..i] == rows[..i];
      var h := LabelOf(d, rows[i]);
      results := results[h := (if h in results then results[h] else 0) + 1];
    }
    assert rows[..|rows|] == rows;
  }

  /** The hours from that of `lower` up to `upper`. */
  function Buckets(lower: int, upper: int): nat {
    var start := HourOf(lower) * HOUR;
    if start <= upper then (upper - start) / HOUR + 1 else 0
  }

  /** The series: one number an hour, zero where the query has no such label. */
  function Series(d: Dialect, rows: seq<int>, lower: int, upper: int): seq<nat> {
    seq<nat>(Buckets(lower, upper), k requires 0 <= k => Hits(d, InRange(rows, lower, upper), HourOf(lower) + k))
  }

  method AggregateDistribution(d: Dialect, rows: seq<int>, lower: int, upper: int) returns (distribution: seq<nat>)
    ensures distribution == Series(d, rows, lower, upper)
  {
    var results := GroupByHour(d, InRange(rows, lower, upper));
    distribution := [];
    var current := lower - lower % HOUR;
    while current <= upper
      invariant current == (HourOf(lower) + |distribution|) * HOUR
      invariant |distribution| <= Buckets(lower, upper)
      invariant forall k :: 0 <= k < |distribution| ==>
        distribution[k] == Hits(d, InRange(rows, lower, upper), HourOf(lower) + k)
      decreases upper - current
    {
      var h := HourOf(current);
      distribution := distribution + [if h in results then results[h] else 0];
      current := current + HOUR;
    }
  }

  function Sum(s: seq<nat>): nat {
    if s == [] then 0 else Sum(s[..|s| - 1]) + s[|s| - 1]
  }

  /** How many rows carry a label of the `n` hours from `first`. */
  function Labelled(d: Dialect, rows: seq<int>, first: int, n: nat): nat {
    if rows == [] then 0
    else Labelled(d, rows[..|rows| - 1], first, n) + if first <= LabelOf(d, rows[|rows| - 1]) < first + n then 1 else 0
  }

  function Column(d: Dialect, rows: seq<int>, first: int, n: nat): seq<nat> {
    seq<nat>(n, k requires 0 <= k => Hits(d, rows, first + k))
  }

  lemma {:induction false} OneMoreHour(d: Dialect, rows: seq<int>, first: int, n: nat)
    ensures Labelled(d, rows, first, n + 1) == Labelled(d, rows, first, n) + Hits(d, rows, first + n)
  {
    if rows != [] { OneMoreHour(d, rows[..|rows| - 1], first, n); }
  }

  lemma {:induction false} NoHours(d: Dialect, rows: seq<int>, first: int)
    ensures Labelled(d, rows, first, 0) == 0
  {
    if rows != [] { NoHours(d, rows[..|rows| - 1], first); }
  }

  lemma {:induction false} ColumnSum(d: Dialect, rows: seq<int>, first: int, n: nat)
    ensures Sum(Column(d, rows, first, n)) == Labelled(d, rows, first, n)
    decreases n
  {
    if n == 0 {
      NoHours(d, rows, first);
    } else {
      assert Column(d, rows, first, n)[..n - 1] == Column(d, rows, first, n - 1);
      ColumnSum(d, rows, first, n - 1);
      OneMoreHour(d, rows, first, n - 1);
    }
  }

  /** The label names an hour of the series. */
  predicate Named(d: Dialect, t: int, lower: int, upper: int) {
    HourOf(lower) <= LabelOf(d, t) < HourOf(lower) + Buckets(lower, upper)
  }

  lemma {:induction false} AllLabelled(d: Dialect, rows: seq<int>, first: int, n: nat)
    ensures Labelled(d, rows, first, n) <= |rows|
    ensures Labelled(d, rows, first, n) == |rows| <==>
            forall i :: 0 <= i < |rows| ==> first <= LabelOf(d, rows[i]) < first + n
  {
    if rows != [] {
      var m := |rows| - 1;
      AllLabelled(d, rows[..m], first, n);
      if Labelled(d, rows, first, n) == |rows| {
        forall i | 0 <= i < |rows| ensures first <= LabelOf(d, rows[i]) < first + n {
          if i < m { assert rows[..m][i] == rows[i]; }
        }
      }
    }
  }

  /** The series accounts for every row in the range exactly when every such row's label
      names one of its hours. */
  lemma SeriesConservesExactlyWhen(d: Dialect, rows: seq<int>, lower: int, upper: int)
    ensures var shown := InRange(rows, lower, upper);
      Sum(Series(d, rows, lower, upper)) == |shown| <==>
      forall i :: 0 <= i < |shown| ==> Named(d, shown[i], lower, upper)
  {
    var shown, n := InRange(rows, lower, upper), Buckets(lower, upper);
    assert Series(d, rows, lower, upper) == Column(d, shown, HourOf(lower), n);
    ColumnSum(d, shown, HourOf(lower), n);
    AllLabelled(d, shown, HourOf(lower), n);
  }

  lemma {:induction false} InRangeIsInRange(rows: seq<int>, lower: int, upper: int)
    ensures forall i :: 0 <= i < |InRange(rows, lower, upper)| ==> lower <= InRange(rows, lower, upper)[i] <= upper
  {
    if rows != [] { InRangeIsInRange(rows[..|rows| - 1], lower, upper); }
  }

  lemma HourInSeries(t: int, lower: int, upper: int)
    requires lower <= t <= upper
    ensures HourOf(lower) <= HourOf(t) < HourOf(lower) + Buckets(lower, upper)
  {
  }

  /** With 24-hour labels nothing is lost: the series sums to the rows in the range. */
  lemma TwentyFourHoursConserve(rows: seq<int>, lower: int, upper: int)
    ensures Sum(Series(TwentyFourHour, rows, lower, upper)) == |InRange(rows, lower, upper)|
  {
    var shown := InRange(rows, lower, upper);
    InRangeIsInRange(rows, lower, upper);
    forall i | 0 <= i < |shown| ensures Named(TwentyFourHour, shown[i], lower, upper) {
      HourInSeries(shown[i], lower, upper);
    }
    SeriesConservesExactlyWhen(TwentyFourHour, rows, lower, upper);
  }

  lemma HalfDays(k: int, r: int)
    requires 0 <= r < 12
    ensures (12 * k + r) % 12 == r
  {
  }

  lemma AfternoonHour(h: int)
    requires h % 24 > 12
    ensures h % 12 == h % 24 - 12
  {
    HalfDays(2 * (h / 24) + 1, h % 24 - 12);
  }

  lemma AfternoonLabel(t: int)
    requires HourOf(t) % DAY > 12
    ensures LabelOf(TwelveHour, t) == HourOf(t) - 12
  {
    var h := HourOf(t);
    AfternoonHour(h);
    assert h / DAY * DAY == h - h % DAY;
  }

  /** With 12-hour labels a row is filed right exactly in the hours from 01 to 12; an afternoon
      row is filed twelve hours early, and one of the first hour of the day at noon. */
  lemma TwelveHoursMisfile(t: int)
    ensures var h := t / 3600;
      LabelOf(TwelveHour, t) == if h % 24 == 0 then h + 12 else if h % 24 <= 12 then h else h - 12
    ensures LabelOf(TwentyFourHour, t) == t / 3600
  {
    var h := t / 3600;
    if h % 24 > 12 {
      AfternoonLabel(t);
    } else {
      MorningHour(h);
    }
  }

  lemma MorningHour(h: int)
    requires h % 24 <= 12
    ensures h % 12 == (h % 24) % 12 && h / DAY * DAY == h - h % 24
  {
    HalfDays(2 * (h / 24) + h % 24 / 12, (h % 24) % 12);
  }

  lemma {:induction false} NoneLabelled(d: Dialect, rows: seq<int>, first: int, n: nat)
    requires forall i :: 0 <= i < |rows| ==> LabelOf(d, rows[i]) < first
    ensures Labelled(d, rows, first, n) == 0
  {
    if rows != [] { NoneLabelled(d, rows[..|rows| - 1], first, n); }
  }

  /** Over hours of one afternoon the series shows nothing at all, whatever the rows. */
  lemma AfternoonShowsNothing(rows: seq<int>, lower: int, upper: int)
    requires HourOf(lower) % DAY > 12 && HourOf(lower) / DAY == HourOf(upper) / DAY
    ensures Sum(Series(TwelveHour, rows, lower, upper)) == 0
  {
    var shown, first := InRange(rows, lower, upper), HourOf(lower);
    InRangeIsInRange(rows, lower, upper);
    forall i | 0 <= i < |shown| ensures LabelOf(TwelveHour, shown[i]) < first {
      SameAfternoon(shown[i], lower, upper);
    }
    NoneLabelled(TwelveHour, shown, first, Buckets(lower, upper));
    assert Series(TwelveHour, rows, lower, upper) == Column(TwelveHour, shown, first, Buckets(lower, upper));
    ColumnSum(TwelveHour, shown, first, Buckets(lower, upper));
  }

  lemma SameAfternoon(t: int, lower: int, upper: int)
    requires lower <= t <= upper && HourOf(lower) % DAY > 12 && HourOf(lower) / DAY == HourOf(upper) / DAY
    ensures LabelOf(TwelveHour, t) < HourOf(lower)
  {
    var h := HourOf(t);
    assert HourOf(lower) <= h <= HourOf(upper);
    assert h / DAY == HourOf(lower) / DAY && h % DAY > 12;
    AfternoonLabel(t);
  }

  // ---------------------------------------------------------------- the series, counted by positions

  /** Entry `k` of the series counts, with 24-hour labels, the rows of the range whose time
      falls into the `k`-th hour from that of the lower bound; there is an entry for each hour
      that starts up to the upper bound. */
  lemma SeriesCounts(rows: seq<int>, lower: int, upper: int, k: nat, at: set<nat>)
    requires k < |Series(TwentyFourHour, rows, lower, upper)|
    requires forall i: nat :: i in at <==>
      i < |rows| && lower <= rows[i] <= upper && rows[i] / 3600 == lower / 3600 + k
    ensures Series(TwentyFourHour, rows, lower, upper)[k] == |at|
    ensures |Series(TwentyFourHour, rows, lower, upper)| == (upper - lower / 3600 * 3600) / 3600 + 1
  {
    HitsCount(rows, lower, upper, lower / 3600 + k, at);
  }

  lemma {:induction false} HitsCount(rows: seq<int>, lower: int, upper: int, h: int, at: set<nat>)
    requires forall i: nat :: i in at <==> i < |rows| && lower <= rows[i] <= upper && rows[i] / 3600 == h
    ensures Hits(TwentyFourHour, InRange(rows, lower, upper), h) == |at|
  {
    if rows == [] {
      assert at == {};
    } else {
      var n := |rows| - 1;
      var before := InRange(rows[..n], lower, upper);
      HitsCount(rows[..n], lower, upper, h, at - {n});
      assert (before + [rows[n]])[..|before|] == before;
      OneMorePosition(at, n);
    }
  }

  lemma OneMorePosition(at: set<nat>, n: nat)
    ensures |at| == |at - {n}| + if n in at then 1 else 0
  {
    if n in at { assert at == (at - {n}) + {n}; } else { assert at - {n} == at; }
  }

  /** The series has an entry exactly when the hour of the lower bound starts up to the upper. */
  lemma SeriesEmptyExactlyWhen(d: Dialect, rows: seq<int>, lower: int, upper: int)
    ensures Series(d, rows, lower, upper) == [] <==> upper < lower / 3600 * 3600
  {
  }

  // ---------------------------------------------------------------- buckets by provider

  /** An alert row: the provider it came from and when. */
  datatype AlertRow = AlertRow(provider: string, time: int)

  /** One group of the provider query. */
  datatype Group = Group(provider: string, hour: int, hits: nat, last: int)

  /** What is shown for a provider. */
  datatype Entry = Entry(lastDay: seq<nat>, lastReceived: int)

  function Later(a: int, b: int): int {
    if a < b then b else a
  }

  function AddRow(groups: seq<Group>, provider: string, h: int, t: int): seq<Group> {
    if groups == [] then [Group(provider, h, 1, t)]
    else
      var n := |groups| - 1;
      var g := groups[n];
      if g.provider == provider && g.hour == h then groups[n := g.(hits := g.hits + 1, last := Later(g.last, t))]
      else AddRow(groups[..n], provider, h, t) + [g]
  }

  /** `GROUP BY provider, time` with `count(*)` and `max(timestamp)`. */
  function GroupedRows(d: Dialect, rows: seq<AlertRow>): seq<Group> {
    if rows == [] then []
    else
      var n := |rows| - 1;
      AddRow(GroupedRows(d, rows[..n]), rows[n].provider, LabelOf(d, rows[n].time), rows[n].time)
  }

  /** `int((time - day_ago).total_seconds() // 3600)`. */
  function IndexOf(hour: int, dayAgo: int): int {
    (hour * HOUR - dayAgo) / HOUR
  }

  function BucketSum(groups: seq<Group>, p: string, dayAgo: int, k: int): nat {
    if groups == [] then 0
    else
      var g := groups[|groups| - 1];
      BucketSum(groups[..|groups| - 1], p, dayAgo, k)
      + if g.provider == p && IndexOf(g.hour, dayAgo) == k then g.hits else 0
  }

  function LastDay(groups: seq<Group>, p: string, dayAgo: int): seq<nat> {
    seq(DAY, k => BucketSum(groups, p, dayAgo, k))
  }

  /** What one more group does to the latest time. */
  function LatestWith(last: Option<int>, t: int): Option<int> {
    Some(if last.Some? then Later(last.value, t) else t)
  }

  /** The greatest `last` among a provider's groups, if it has any. */
  function LastOf(groups: seq<Group>, p: string): Option<int> {
    if groups == [] then None
    else
      var before, g := LastOf(groups[..|groups| - 1], p), groups[|groups| - 1];
      if g.provider != p then before
      else LatestWith(before, g.last)
  }

  /** The entry the groups give a provider, if it has any. */
  function EntryOf(groups: seq<Group>, p: string, dayAgo: int): Option<Entry> {
    match LastOf(groups, p)
    case None => None
    case Some(last) => Some(Entry(LastDay(groups, p, dayAgo), last))
  }

  lemma LastSnoc(groups: seq<Group>, g: Group, p: string)
    ensures LastOf(groups + [g], p)
         == if g.provider != p then LastOf(groups, p) else LatestWith(LastOf(groups, p), g.last)
  {
    assert (groups + [g])[..|groups|] == groups;
  }

  /** What it does to the buckets. */
  lemma DaySnoc(groups: seq<Group>, g: Group, p: string, dayAgo: int)
    ensures var index := IndexOf(g.hour, dayAgo); var day := LastDay(groups, p, dayAgo);
      LastDay(groups + [g], p, dayAgo)
      == if g.provider == p && 0 <= index < DAY then day[index := day[index] + g.hits] else day
  {
    assert (groups + [g])[..|groups|] == groups;
  }

  lemma {:induction false} NoGroupsNoHits(groups: seq<Group>, p: string, dayAgo: int, k: int)
    requires LastOf(groups, p).None?
    ensures BucketSum(groups, p, dayAgo, k) == 0
  {
    if groups != [] { NoGroupsNoHits(groups[..|groups| - 1], p, dayAgo, k); }
  }

  lemma EmptyDay(groups: seq<Group>, p: string, dayAgo: int)
    requires LastOf(groups, p).None?
    ensures LastDay(groups, p, dayAgo) == seq(DAY, _ => 0)
  {
    forall k | 0 <= k < DAY ensures BucketSum(groups, p, dayAgo, k) == 0 { NoGroupsNoHits(groups, p, dayAgo, k); }
  }

  /** A provider's entry after one more group. */
  function NextEntry(e: Option<Entry>, g: Group, p: string, dayAgo: int): Option<Entry>
    requires e.Some? ==> |e.value.lastDay| == DAY
  {
    if g.provider != p then e
    else
      var day := if e.Some? then e.value.lastDay else seq(DAY, _ => 0);
      var last := if e.Some? then Later(e.value.lastReceived, g.last) else g.last;
      var index := IndexOf(g.hour, dayAgo);
      Some(Entry(if 0 <= index < DAY then day[index := day[index] + g.hits] else day, last))
  }

  lemma NextEntryIs(groups: seq<Group>, g: Group, p: string, dayAgo: int)
    ensures EntryOf(groups + [g], p, dayAgo) == NextEntry(EntryOf(groups, p, dayAgo), g, p, dayAgo)
  {
    LastSnoc(groups, g, p);
    DaySnoc(groups, g, p, dayAgo);
    if LastOf(groups, p).None? { EmptyDay(groups, p, dayAgo); }
  }

  method ProviderDistribution(groups: seq<Group>, now: int) returns (distribution: map<string, Entry>)
    ensures forall p :: (if p in distribution then Some(distribution[p]) else None)
                        == EntryOf(groups, p, now - DAY * HOUR)
  {
    var dayAgo := now - DAY * HOUR;
    distribution := map[];
    for i := 0 to |groups|
      invariant forall p :: (if p in distribution then Some(distribution[p]) else None)
                            == EntryOf(groups[..i], p, dayAgo)
    {
      var g := groups[i];
      assert groups[..i + 1] == groups[..i] + [g];
      forall p { NextEntryIs(groups[..i], g, p, dayAgo); }
      var entry;
      if g.provider !in distribution {
        entry := Entry(seq(DAY, _ => 0), g.last);
      } else {
        entry := distribution[g.provider];
        entry := entry.(lastReceived := Later(entry.lastReceived, g.last));
      }
      var index := IndexOf(g.hour, dayAgo);
      if 0 <= index < DAY {
        entry := entry.(lastDay := entry.lastDay[index := entry.lastDay[index] + g.hits]);
      }
      distribution := distribution[g.provider := entry];
    }
    assert groups[..|groups|] == groups;
  }

  // ---------------------------------------------------------------- what the buckets account for

  /** The first hour that starts in the last 24 hours. */
  function FirstHour(now: int): int {
    (now - DAY * HOUR + HOUR - 1) / HOUR
  }

  /** Each hour that starts in the last 24 hours has a bucket, no other hour has, and no two
      hours share one. */
  lemma HourHasOneBucket(h: int, k: int, now: int)
    ensures 0 <= IndexOf(h, now - DAY * HOUR) < DAY <==> now - DAY * HOUR <= h * HOUR < now
    ensures IndexOf(h, now - DAY * HOUR) == k <==> h == FirstHour(now) + k
  {
  }

  /** The times of a provider's rows. */
  function TimesOf(rows: seq<AlertRow>, p: string): seq<int> {
    if rows == [] then []
    else
      var before, row := TimesOf(rows[..|rows| - 1], p), rows[|rows| - 1];
      if row.provider == p then before + [row.time] else before
  }

  lemma {:induction false} AddRowBucket(groups: seq<Group>, provider: string, h: int, t: int,
                                        p: string, dayAgo: int, k: int)
    ensures BucketSum(AddRow(groups, provider, h, t), p, dayAgo, k)
         == BucketSum(groups, p, dayAgo, k) + if provider == p && IndexOf(h, dayAgo) == k then 1 else 0
  {
    if groups == [] {
      assert [Group(provider, h, 1, t)][..0] == [];
    } else {
      var n := |groups| - 1;
      var g := groups[n];
      if g.provider == provider && g.hour == h {
        assert groups[n := g.(hits := g.hits + 1, last := Later(g.last, t))][..n] == groups[..n];
      } else {
        AddRowBucket(groups[..n], provider, h, t, p, dayAgo, k);
        var rest := AddRow(groups[..n], provider, h, t);
        assert (rest + [g])[..|rest|] == rest;
      }
    }
  }

  /** A bucket holds the provider's rows whose label names its hour. */
  lemma {:induction false} BucketOfRows(d: Dialect, rows: seq<AlertRow>, p: string, now: int, k: int)
    ensures BucketSum(GroupedRows(d, rows), p, now - DAY * HOUR, k) == Hits(d, TimesOf(rows, p), FirstHour(now) + k)
  {
    if rows != [] {
      var n := |rows| - 1;
      var row := rows[n];
      var before := TimesOf(rows[..n], p);
      BucketOfRows(d, rows[..n], p, now, k);
      AddRowBucket(GroupedRows(d, rows[..n]), row.provider, LabelOf(d, row.time), row.time, p, now - DAY * HOUR, k);
      HourHasOneBucket(LabelOf(d, row.time), k, now);
      assert (before + [row.time])[..|before|] == before;
    }
  }

  lemma LastDayIsColumn(d: Dialect, rows: seq<AlertRow>, p: string, now: int)
    ensures LastDay(GroupedRows(d, rows), p, now - DAY * HOUR) == Column(d, TimesOf(rows, p), FirstHour(now), DAY)
  {
    var groups, dayAgo := GroupedRows(d, rows), now - DAY * HOUR;
    forall k | 0 <= k < DAY
      ensures BucketSum(groups, p, dayAgo, k) == Hits(d, TimesOf(rows, p), FirstHour(now) + k)
    {
      BucketOfRows(d, rows, p, now, k);
    }
  }

  /** `t` is the newest of the times. */
  predicate Newest(t: Option<int>, times: seq<int>) {
    if times == [] then t.None? else t.Some? && t.value in times && forall x :: x in times ==> x <= t.value
  }

  lemma {:induction false} AddRowLast(groups: seq<Group>, provider: string, h: int, t: int, p: string)
    ensures LastOf(AddRow(groups, provider, h, t), p)
         == if p != provider then LastOf(groups, p) else LatestWith(LastOf(groups, p), t)
  {
    if groups == [] {
      assert [Group(provider, h, 1, t)][..0] == [];
    } else {
      var n := |groups| - 1;
      var g := groups[n];
      assert groups == groups[..n] + [g];
      LastSnoc(groups[..n], g, p);
      if g.provider == provider && g.hour == h {
        var g' := g.(hits := g.hits + 1, last := Later(g.last, t));
        assert groups[n := g'] == groups[..n] + [g'];
        LastSnoc(groups[..n], g', p);
      } else {
        AddRowLast(groups[..n], provider, h, t, p);
        LastSnoc(AddRow(groups[..n], provider, h, t), g, p);
      }
    }
  }

  /** The time shown with a provider is that of its newest row, whatever the labels. */
  lemma {:induction false} LastIsNewest(d: Dialect, rows: seq<AlertRow>, p: string)
    ensures Newest(LastOf(GroupedRows(d, rows), p), TimesOf(rows, p))
  {
    if rows != [] {
      var n := |rows| - 1;
      LastIsNewest(d, rows[..n], p);
      AddRowLast(GroupedRows(d, rows[..n]), rows[n].provider, LabelOf(d, rows[n].time), rows[n].time, p);
    }
  }

  /** A bucket counts, with 24-hour labels, the provider's rows of its hour: the `k`-th of
      those that start in the last 24 hours. */
  lemma BucketCounts(rows: seq<AlertRow>, p: string, now: int, k: nat, at: set<nat>)
    requires k < 24
    requires forall i: nat :: i in at <==>
      i < |rows| && rows[i].provider == p && rows[i].time / 3600 == (now - 24 * 3600 + 3599) / 3600 + k
    ensures |LastDay(GroupedRows(TwentyFourHour, rows), p, now - 24 * 3600)| == 24
    ensures LastDay(GroupedRows(TwentyFourHour, rows), p, now - 24 * 3600)[k] == |at|
  {
    BucketOfRows(TwentyFourHour, rows, p, now, k);
    TimesCount(rows, p, FirstHour(now) + k, at);
  }

  lemma {:induction false} TimesCount(rows: seq<AlertRow>, p: string, h: int, at: set<nat>)
    requires forall i: nat :: i in at <==> i < |rows| && rows[i].provider == p && rows[i].time / 3600 == h
    ensures Hits(TwentyFourHour, TimesOf(rows, p), h) == |at|
  {
    if rows == [] {
      assert at == {};
    } else {
      var n := |rows| - 1;
      var before := TimesOf(rows[..n], p);
      TimesCount(rows[..n], p, h, at - {n});
      assert (before + [rows[n].time])[..|before|] == before;
      OneMorePosition(at, n);
    }
  }

  /** The time shown with a provider is that of one of its rows, and no row of it is later; a
      provider without rows is not shown. */
  lemma LastShown(d: Dialect, rows: seq<AlertRow>, p: string, dayAgo: int)
    ensures var e := EntryOf(GroupedRows(d, rows), p, dayAgo);
      && (e.None? <==> forall row :: row in rows ==> row.provider != p)
      && (e.Some? ==>
            && (exists row :: row in rows && row.provider == p && row.time == e.value.lastReceived)
            && (forall row :: row in rows && row.provider == p ==> row.time <= e.value.lastReceived))
  {
    LastIsNewest(d, rows, p);
    TimesAre(rows, p);
    forall row | row in rows && row.provider == p ensures row.time in TimesOf(rows, p) {}
    if TimesOf(rows, p) != [] { assert TimesOf(rows, p)[0] in TimesOf(rows, p); }
  }

  lemma {:induction false} TimesAre(rows: seq<AlertRow>, p: string)
    ensures forall t :: t in TimesOf(rows, p) <==> exists row :: row in rows && row.provider == p && row.time == t
  {
    if rows != [] {
      var n := |rows| - 1;
      TimesAre(rows[..n], p);
      assert rows == rows[..n] + [rows[n]];
      forall t ensures t in TimesOf(rows, p) <==> exists row :: row in rows && row.provider == p && row.time == t {
        if t in TimesOf(rows[..n], p) {
          var row :| row in rows[..n] && row.provider == p && row.time == t;
          assert row in rows;
        }
      }
    }
  }

  /** A provider's buckets account for all its rows exactly when every row's label names an
      hour that starts in the last 24 hours. */
  lemma BucketsConserveExactlyWhen(d: Dialect, rows: seq<AlertRow>, p: string, now: int)
    ensures var times := TimesOf(rows, p);
      Sum(LastDay(GroupedRows(d, rows), p, now - DAY * HOUR)) == |times| <==>
      forall i :: 0 <= i < |times| ==> now - DAY * HOUR <= LabelOf(d, times[i]) * HOUR < now
  {
    var times, first := TimesOf(rows, p), FirstHour(now);
    LastDayIsColumn(d, rows, p, now);
    ColumnSum(d, times, first, DAY);
    AllLabelled(d, times, first, DAY);
    forall h ensures now - DAY * HOUR <= h * HOUR < now <==> first <= h < first + DAY {
      HourHasOneBucket(h, h - first, now);
    }
  }

  /** With 24-hour labels the buckets account for every row of the last 24 hours but those of
      the hour that had begun before; with 12-hour labels also a row of an afternoon is
      counted only if the morning hour it is filed under starts in the last 24 hours. */
  lemma LastDayLoses(t: int, now: int)
    requires now - DAY * HOUR <= t < now
    ensures now - DAY * HOUR <= LabelOf(TwentyFourHour, t) * HOUR < now <==> FirstHour(now) * HOUR <= t
    ensures HourOf(t) % DAY > 12 ==>
      (now - DAY * HOUR <= LabelOf(TwelveHour, t) * HOUR < now <==> FirstHour(now) <= HourOf(t) - 12)
  {
    var h := HourOf(t);
    StartsInLastDay(h, now);
    if h % DAY > 12 {
      AfternoonLabel(t);
      StartsInLastDay(h - 12, now);
    }
  }

  lemma StartsInLastDay(h: int, now: int)
    ensures now - DAY * HOUR <= h * HOUR <==> FirstHour(now) <= h
  {
  }

  // ---------------------------------------------------------------- mean time to resolve

  /** A resolved incident: when it was created, and its start and end if known. */
  datatype Incident = Incident(created: int, start: Option<int>, end: Option<int>)

  /** A group of the query: incidents of one hour label with the same start and end. */
  datatype TimeGroup = TimeGroup(hour: int, start: Option<int>, end: Option<int>, incidents: nat)

  datatype Total = Total(number: nat, mttr: real)

  function HoursBetween(start: int, end: int): real {
    (end - start) as real / HOUR as real
  }

  /** What a group of `n` incidents with the given times adds to its hour. */
  function Share(start: Option<int>, end: Option<int>, n: nat): Total {
    if start.Some? && end.Some? then Total(n, HoursBetween(start.value, end.value) * n as real) else Total(0, 0.0)
  }

  function Plus(a: Total, b: Total): Total {
    Total(a.number + b.number, a.mttr + b.mttr)
  }

  function GroupTotal(groups: seq<TimeGroup>, h: int): Total {
    if groups == [] then Total(0, 0.0)
    else
      var before, g := GroupTotal(groups[..|groups| - 1], h), groups[|groups| - 1];
      if g.hour == h then Plus(before, Share(g.start, g.end, g.incidents)) else before
  }

  function Mean(t: Total): real {
    if t.number > 0 then t.mttr / t.number as real else 0.0
  }

  function TotalAt(results: map<int, Total>, h: int): Total {
    if h in results then results[h] else Total(0, 0.0)
  }

  lemma GroupTotalSnoc(groups: seq<TimeGroup>, g: TimeGroup, h: int)
    ensures var before := GroupTotal(groups, h);
      GroupTotal(groups + [g], h) == if g.hour == h then Plus(before, Share(g.start, g.end, g.incidents)) else before
  {
    assert (groups + [g])[..|groups|] == groups;
  }

  lemma PlusNothing(a: Total)
    ensures Plus(a, Total(0, 0.0)) == a
  {
  }

  method AccumulateMttr(groups: seq<TimeGroup>) returns (results: map<int, Total>)
    ensures forall h :: TotalAt(results, h) == GroupTotal(groups, h)
  {
    results := map[];
    for i := 0 to |groups|
      invariant forall h :: TotalAt(results, h) == GroupTotal(groups[..i], h)
    {
      var g := groups[i];
      assert groups[..i + 1] == groups[..i] + [g];
      forall h { GroupTotalSnoc(groups[..i], g, h); }
      PlusNothing(GroupTotal(groups[..i], g.hour));
      if g.start.Some? && g.end.Some? {
        var resolution := HoursBetween(g.start.value, g.end.value);
        if g.hour !in results {
          results := results[g.hour := Total(0, 0.0)];
        }
        var t := results[g.hour];
        results := results[g.hour := Total(t.number + g.incidents, t.mttr + resolution * g.incidents as real)];
      }
    }
    assert groups[..|groups|] == groups;
  }

  function MttrSeries(groups: seq<TimeGroup>, lower: int, upper: int): seq<real> {
    seq(Buckets(lower, upper), k requires 0 <= k => Mean(GroupTotal(groups, HourOf(lower) + k)))
  }

  method IncidentsMttr(groups: seq<TimeGroup>, lower: int, upper: int) returns (distribution: seq<real>)
    ensures distribution == MttrSeries(groups, lower, upper)
  {
    var results := AccumulateMttr(groups);
    distribution := [];
    var current := lower - lower % HOUR;
    while current <= upper
      invariant current == (HourOf(lower) + |distribution|) * HOUR
      invariant |distribution| <= Buckets(lower, upper)
      invariant forall k :: 0 <= k < |distribution| ==> distribution[k] == Mean(GroupTotal(groups, HourOf(lower) + k))
      decreases upper - current
    {
      var h := HourOf(current);
      var average := 0.0;
      if h in results && results[h].number > 0 {
        average := results[h].mttr / results[h].number as real;
      }
      distribution := distribution + [average];
      current := current + HOUR;
    }
  }

  /** What one incident by itself adds to its hour. */
  function OneShare(i: Incident): Total {
    if i.start.Some? && i.end.Some? then Total(1, HoursBetween(i.start.value, i.end.value)) else Total(0, 0.0)
  }

  /** The plain total over the incidents of an hour, one by one. */
  function PlainTotal(d: Dialect, incidents: seq<Incident>, h: int): Total {
    if incidents == [] then Total(0, 0.0)
    else
      var before, i := PlainTotal(d, incidents[..|incidents| - 1], h), incidents[|incidents| - 1];
      if LabelOf(d, i.created) == h then Plus(before, OneShare(i)) else before
  }

  /** Adding one incident to the grouped result. */
  function AddToGroups(groups: seq<TimeGroup>, h: int, i: Incident): seq<TimeGroup> {
    if groups == [] then [TimeGroup(h, i.start, i.end, 1)]
    else
      var n := |groups| - 1;
      var g := groups[n];
      if g.hour == h && g.start == i.start && g.end == i.end then groups[n := g.(incidents := g.incidents + 1)]
      else AddToGroups(groups[..n], h, i) + [g]
  }

  /** `GROUP BY time, start_time, end_time`. */
  function Grouped(d: Dialect, incidents: seq<Incident>): seq<TimeGroup> {
    if incidents == [] then []
    else
      var n := |incidents| - 1;
      AddToGroups(Grouped(d, incidents[..n]), LabelOf(d, incidents[n].created), incidents[n])
  }

  lemma OneMoreTime(x: real, n: nat)
    ensures x * (n + 1) as real == x * n as real + x && x * 1 as real == x
  {
    assert (n + 1) as real == n as real + 1.0;
  }

  lemma ShareOneMore(start: Option<int>, end: Option<int>, n: nat)
    ensures Share(start, end, n + 1) == Plus(Share(start, end, n), Share(start, end, 1))
  {
    if start.Some? && end.Some? { OneMoreTime(HoursBetween(start.value, end.value), n); }
  }

  lemma PlusMoves(a: Total, b: Total, c: Total)
    ensures Plus(Plus(a, b), c) == Plus(Plus(a, c), b) == Plus(a, Plus(b, c))
  {
  }

  lemma {:induction false} AddOneIncident(groups: seq<TimeGroup>, h: int, i: Incident, at: int)
    ensures GroupTotal(AddToGroups(groups, h, i), at)
         == if h == at then Plus(GroupTotal(groups, at), Share(i.start, i.end, 1)) else GroupTotal(groups, at)
  {
    if groups == [] {
      assert [TimeGroup(h, i.start, i.end, 1)][..0] == [];
    } else {
      var n := |groups| - 1;
      var g := groups[n];
      assert groups == groups[..n] + [g];
      GroupTotalSnoc(groups[..n], g, at);
      PlusMoves(GroupTotal(groups[..n], at), Share(g.start, g.end, g.incidents), Share(i.start, i.end, 1));
      if g.hour == h && g.start == i.start && g.end == i.end {
        var g' := g.(incidents := g.incidents + 1);
        assert groups[n := g'] == groups[..n] + [g'];
        GroupTotalSnoc(groups[..n], g', at);
        ShareOneMore(g.start, g.end, g.incidents);
      } else {
        AddOneIncident(groups[..n], h, i, at);
        GroupTotalSnoc(AddToGroups(groups[..n], h, i), g, at);
      }
    }
  }

  lemma ShareOfOne(i: Incident)
    ensures Share(i.start, i.end, 1) == OneShare(i)
  {
  }

  lemma {:induction false} GroupedTotalIsPlain(d: Dialect, incidents: seq<Incident>, h: int)
    ensures GroupTotal(Grouped(d, incidents), h) == PlainTotal(d, incidents, h)
  {
    if incidents != [] {
      var n := |incidents| - 1;
      var i := incidents[n];
      GroupedTotalIsPlain(d, incidents[..n], h);
      AddOneIncident(Grouped(d, incidents[..n]), LabelOf(d, i.created), i, h);
      ShareOfOne(i);
    }
  }

  /** The grouped mean of an hour is the plain mean over its incidents that have both times. */
  lemma GroupedMeanIsPlain(d: Dialect, incidents: seq<Incident>, h: int)
    ensures Mean(GroupTotal(Grouped(d, incidents), h)) == Mean(PlainTotal(d, incidents, h))
  {
    GroupedTotalIsPlain(d, incidents, h);
  }

  lemma {:induction false} TotalOfParts(a: seq<TimeGroup>, b: seq<TimeGroup>, h: int)
    ensures GroupTotal(a + b, h) == Plus(GroupTotal(a, h), GroupTotal(b, h))
  {
    if b == [] {
      assert a + b == a;
      PlusNothing(GroupTotal(a, h));
    } else {
      var n := |b| - 1;
      assert a + b == a + b[..n] + [b[n]] && b == b[..n] + [b[n]];
      TotalOfParts(a, b[..n], h);
      GroupTotalSnoc(a + b[..n], b[n], h);
      GroupTotalSnoc(b[..n], b[n], h);
      PlusMoves(GroupTotal(a, h), GroupTotal(b[..n], h), Share(b[n].start, b[n].end, b[n].incidents));
    }
  }

  /** Taking one group out of the middle. */
  lemma TotalWithout(b: seq<TimeGroup>, k: nat, h: int)
    requires k < |b|
    ensures multiset(b[..k] + b[k + 1..]) == multiset(b) - multiset{b[k]}
    ensures GroupTotal(b, h) == Plus(GroupTotal(b[..k] + b[k + 1..], h), GroupTotal([b[k]], h))
  {
    assert b == (b[..k] + [b[k]]) + b[k + 1..];
    assert multiset(b) == multiset(b[..k] + b[k + 1..]) + multiset{b[k]};
    TotalOfParts(b[..k] + [b[k]], b[k + 1..], h);
    TotalOfParts(b[..k], [b[k]], h);
    TotalOfParts(b[..k], b[k + 1..], h);
    PlusMoves(GroupTotal(b[..k], h), GroupTotal([b[k]], h), GroupTotal(b[k + 1..], h));
  }

  /** The order in which the database gives the groups does not matter. */
  lemma {:induction false} TotalOfPermutation(a: seq<TimeGroup>, b: seq<TimeGroup>, h: int)
    requires multiset(a) == multiset(b)
    ensures GroupTotal(a, h) == GroupTotal(b, h)
  {
    if a == [] {
      assert |multiset(b)| == 0;
    } else {
      var n := |a| - 1;
      assert a[n] in multiset(b);
      var k :| 0 <= k < |b| && b[k] == a[n];
      assert a[..n] == a[..n] + a[n + 1..];
      TotalWithout(a, n, h);
      TotalWithout(b, k, h);
      TotalOfPermutation(a[..n], b[..k] + b[k + 1..], h);
    }
  }

  /** The whole series: whatever order the groups of the incidents come in, hour by hour it
      shows the plain mean over the incidents that have both times. */
  lemma MttrSeriesIsPlain(groups: seq<TimeGroup>, d: Dialect, incidents: seq<Incident>, lower: int, upper: int)
    requires multiset(groups) == multiset(Grouped(d, incidents))
    ensures MttrSeries(groups, lower, upper) == PlainMeans(d, incidents, lower, upper)
  {
    forall h ensures GroupTotal(groups, h) == PlainTotal(d, incidents, h) {
      TotalOfPermutation(groups, Grouped(d, incidents), h);
      GroupedTotalIsPlain(d, incidents, h);
    }
    forall k | 0 <= k < Buckets(lower, upper)
      ensures MttrSeries(groups, lower, upper)[k] == PlainMeans(d, incidents, lower, upper)[k]
    {
      assert GroupTotal(groups, HourOf(lower) + k) == PlainTotal(d, incidents, HourOf(lower) + k);
    }
  }

  function PlainMeans(d: Dialect, incidents: seq<Incident>, lower: int, upper: int): seq<real> {
    seq(Buckets(lower, upper), k requires 0 <= k => Mean(PlainTotal(d, incidents, HourOf(lower) + k)))
  }

  /** The seconds the incidents of hour `h` took that have both times. */
  function Seconds(incidents: seq<Incident>, h: int): int {
    if incidents == [] then 0
    else
      var i := incidents[|incidents| - 1];
      Seconds(incidents[..|incidents| - 1], h)
      + if i.created / 3600 == h && i.start.Some? && i.end.Some? then i.end.value - i.start.value else 0
  }

  lemma {:induction false} PlainTotalCounts(incidents: seq<Incident>, h: int, at: set<nat>)
    requires forall i: nat :: i in at <==>
      i < |incidents| && incidents[i].created / 3600 == h && incidents[i].start.Some? && incidents[i].end.Some?
    ensures PlainTotal(TwentyFourHour, incidents, h) == Total(|at|, Seconds(incidents, h) as real / 3600.0)
  {
    if incidents == [] {
      assert at == {};
    } else {
      var n := |incidents| - 1;
      PlainTotalCounts(incidents[..n], h, at - {n});
      OneMorePosition(at, n);
    }
  }

  /** Entry `k` of the series is, with 24-hour labels, the hours the incidents created in the
      `k`-th hour took on average, of those that have a start and an end; zero without any. */
  lemma MttrIsAverage(groups: seq<TimeGroup>, incidents: seq<Incident>, lower: int, upper: int, k: nat, at: set<nat>)
    requires multiset(groups) == multiset(Grouped(TwentyFourHour, incidents))
    requires k < |MttrSeries(groups, lower, upper)|
    requires forall i: nat :: i in at <==>
      && i < |incidents| && incidents[i].created / 3600 == lower / 3600 + k
      && incidents[i].start.Some? && incidents[i].end.Some?
    ensures MttrSeries(groups, lower, upper)[k] ==
      if at == {} then 0.0 else Seconds(incidents, lower / 3600 + k) as real / 3600.0 / |at| as real
  {
    var h := lower / 3600 + k;
    MttrEntryIsPlain(groups, incidents, lower, upper, k);
    PlainTotalCounts(incidents, h, at);
    MeanOfTotal(|at|, Seconds(incidents, h));
    assert |at| == 0 <==> at == {};
  }

  lemma MttrEntryIsPlain(groups: seq<TimeGroup>, incidents: seq<Incident>, lower: int, upper: int, k: nat)
    requires multiset(groups) == multiset(Grouped(TwentyFourHour, incidents))
    requires k < |MttrSeries(groups, lower, upper)|
    ensures MttrSeries(groups, lower, upper)[k] == Mean(PlainTotal(TwentyFourHour, incidents, lower / 3600 + k))
  {
    TotalOfPermutation(groups, Grouped(TwentyFourHour, incidents), lower / 3600 + k);
    GroupedTotalIsPlain(TwentyFourHour, incidents, lower / 3600 + k);
  }

  lemma MeanOfTotal(n: nat, seconds: int)
    ensures Mean(Total(n, seconds as real / 3600.0)) == if n == 0 then 0.0 else seconds as real / 3600.0 / n as real
  {
  }
}
