/** Facet options: query rows grouped by facet, capped on sqlite, filled up with the
    enum values that matched nothing, and sorted by descending enum index. */
module Facets {
  import opened Values

  const OPTIONS_PER_FACET: nat := 50

  /** One row of the facets query. */
  datatype Row = Row(facet: string, value: Option<string>, matches: Option<nat>)

  datatype FacetOption = FacetOption(displayName: string, value: Option<string>, matchesCount: nat)

  // ---------------------------------------------------------------- specification

  function RowsOf(data: seq<Row>, facet: string): seq<Row> {
    if data == [] then []
    else
      var before, row := RowsOf(data[..|data| - 1], facet), data[|data| - 1];
      if row.facet == facet then before + [row] else before
  }

  function Capped(rows: seq<Row>, sqlite: bool): seq<Row> {
    if sqlite && |rows| > OPTIONS_PER_FACET then rows[..OPTIONS_PER_FACET] else rows
  }

  function OptionOf(row: Row): FacetOption {
    FacetOption(if row.value.Some? then row.value.value else "None", row.value,
                if row.matches.Some? then row.matches.value else 0)
  }

  function OptionsOf(rows: seq<Row>): seq<FacetOption> {
    seq(|rows|, i requires 0 <= i < |rows| => OptionOf(rows[i]))
  }

  function ZeroOption(e: string): FacetOption {
    FacetOption(e, Some(e), 0)
  }

  predicate Offers(options: seq<FacetOption>, v: Option<string>) {
    exists i :: 0 <= i < |options| && options[i].value == v
  }

  /** The enum values no option carries, in enum order, repeated as the enum repeats them. */
  function Unmatched(enums: seq<string>, options: seq<FacetOption>): seq<FacetOption> {
    if enums == [] then []
    else
      var before, e := Unmatched(enums[..|enums| - 1], options), enums[|enums| - 1];
      if Offers(options, Some(e)) then before else before + [ZeroOption(e)]
  }

  function IndexOf(enums: seq<string>, e: string): (k: nat)
    ensures e in enums ==> k < |enums| && enums[k] == e
    ensures forall j :: 0 <= j < k && j < |enums| ==> enums[j] != e
  {
    if enums == [] || enums[0] == e then 0 else 1 + IndexOf(enums[1..], e)
  }

  /** The sort key: the enum index, and -100 for a value outside the enum. */
  function Rank(enums: seq<string>, o: FacetOption): int {
    if o.value.Some? && o.value.value in enums then IndexOf(enums, o.value.value) else -100
  }

  /** `sorted(..., reverse=True)` is stable: of equal keys the earlier stays ahead. */
  function InsertDescending(enums: seq<string>, o: FacetOption, sorted: seq<FacetOption>): seq<FacetOption> {
    if sorted == [] || Rank(enums, sorted[0]) < Rank(enums, o) then [o] + sorted
    else [sorted[0]] + InsertDescending(enums, o, sorted[1..])
  }

  function SortDescending(enums: seq<string>, options: seq<FacetOption>): seq<FacetOption> {
    if options == [] then []
    else InsertDescending(enums, options[|options| - 1], SortDescending(enums, options[..|options| - 1]))
  }

  function FacetOptions(rows: seq<Row>, enums: seq<string>): seq<FacetOption> {
    var options := OptionsOf(rows);
    if enums == [] then options else SortDescending(enums, options + Unmatched(enums, options))
  }

  // ---------------------------------------------------------------- the code

  method GroupRows(data: seq<Row>, sqlite: bool) returns (grouped: map<string, seq<Row>>)
    ensures forall f :: f in grouped <==> RowsOf(data, f) != []
    ensures forall f :: f in grouped ==> grouped[f] == Capped(RowsOf(data, f), sqlite)
  {
    grouped := map[];
    for i := 0 to |data|
      invariant forall f :: f in grouped <==> RowsOf(data[..i], f) != []
      invariant forall f :: f in grouped ==> grouped[f] == Capped(RowsOf(data[..i], f), sqlite)
    {
      var row := data[i];
      assert data[..i + 1][..i] == data[..i];
      if row.facet !in grouped {
        grouped := grouped[row.facet := []];
      }
      if sqlite && |grouped[row.facet]| >= OPTIONS_PER_FACET {
        continue;
      }
      grouped := grouped[row.facet := grouped[row.facet] + [row]];
    }
    assert data[..|data|] == data;
  }

  method GetFacetOptions(rows: seq<Row>, enums: seq<string>) returns (options: seq<FacetOption>)
    ensures options == FacetOptions(rows, enums)
  {
    options := [];
    for i := 0 to |rows|
      invariant options == OptionsOf(rows[..i])
    {
      options := options + [OptionOf(rows[i])];
    }
    assert rows[..|rows|] == rows;
    if enums != [] {
      var zero := [];
      for i := 0 to |enums|
        invariant zero == Unmatched(enums[..i], options)
      {
        assert enums[..i + 1][..i] == enums[..i];
        if !(exists k :: 0 <= k < |options| && options[k].value == Some(enums[i])) {
          zero := zero + [ZeroOption(enums[i])];
        }
      }
      assert enums[..|enums|] == enums;
      options := SortDescending(enums, options + zero);
    }
  }

  // ---------------------------------------------------------------- what the rows become

  /** The rows of a facet are those that carry its name, in the order of the query. */
  lemma RowsOfAre(data: seq<Row>, facet: string) returns (at: seq<nat>)
    ensures |at| == |RowsOf(data, facet)| && forall m, n :: 0 <= m < n < |at| ==> at[m] < at[n]
    ensures forall i: nat :: i in at <==> i < |data| && data[i].facet == facet
    ensures forall m :: 0 <= m < |at| ==> at[m] in at && RowsOf(data, facet)[m] == data[at[m]]
  {
    at := [];
    if data != [] {
      var n := |data| - 1;
      at := RowsOfAre(data[..n], facet);
      if data[n].facet == facet {
        at := at + [n];
      }
    }
  }

  /** Sqlite shows the first fifty of them, the other databases all. */
  lemma CappedAtFifty(rows: seq<Row>, sqlite: bool)
    ensures Capped(rows, sqlite) <= rows
    ensures |Capped(rows, sqlite)| == if sqlite && |rows| > 50 then 50 else |rows|
  {
  }

  /** A row is shown with its own value and match count; a missing value prints as "None" and
      a missing count is zero. */
  lemma OptionsShow(rows: seq<Row>, i: nat)
    requires i < |rows|
    ensures |OptionsOf(rows)| == |rows|
    ensures var row, o := rows[i], OptionsOf(rows)[i];
      && o.value == row.value
      && o.displayName == (if row.value.Some? then row.value.value else "None")
      && o.matchesCount == (if row.matches.Some? then row.matches.value else 0)
  {
  }

  // ---------------------------------------------------------------- the sort

  predicate Descending(enums: seq<string>, options: seq<FacetOption>) {
    forall i, j :: 0 <= i < j < |options| ==> Rank(enums, options[i]) >= Rank(enums, options[j])
  }

  /** The options of one rank, in order. */
  function OfRank(enums: seq<string>, options: seq<FacetOption>, r: int): seq<FacetOption> {
    if options == [] then []
    else if Rank(enums, options[0]) == r then [options[0]] + OfRank(enums, options[1..], r)
    else OfRank(enums, options[1..], r)
  }

  lemma {:induction false} OfRankSnoc(enums: seq<string>, options: seq<FacetOption>, o: FacetOption, r: int)
    ensures OfRank(enums, options + [o], r)
         == if Rank(enums, o) == r then OfRank(enums, options, r) + [o] else OfRank(enums, options, r)
  {
    if options == [] {
      assert [o][1..] == [];
    } else {
      assert (options + [o])[1..] == options[1..] + [o];
      OfRankSnoc(enums, options[1..], o, r);
    }
  }

  lemma {:induction false} NoneOfRank(enums: seq<string>, options: seq<FacetOption>, r: int)
    requires forall i :: 0 <= i < |options| ==> Rank(enums, options[i]) < r
    ensures OfRank(enums, options, r) == []
  {
    if options != [] { NoneOfRank(enums, options[1..], r); }
  }

  lemma {:induction false} InsertPermutes(enums: seq<string>, o: FacetOption, sorted: seq<FacetOption>)
    ensures multiset(InsertDescending(enums, o, sorted)) == multiset(sorted) + multiset{o}
  {
    if !(sorted == [] || Rank(enums, sorted[0]) < Rank(enums, o)) {
      InsertPermutes(enums, o, sorted[1..]);
      assert sorted == [sorted[0]] + sorted[1..];
    }
  }

  lemma {:induction false} InsertDescends(enums: seq<string>, o: FacetOption, sorted: seq<FacetOption>)
    requires Descending(enums, sorted)
    ensures Descending(enums, InsertDescending(enums, o, sorted))
  {
    var all := InsertDescending(enums, o, sorted);
    if !(sorted == [] || Rank(enums, sorted[0]) < Rank(enums, o)) {
      InsertDescends(enums, o, sorted[1..]);
      InsertPermutes(enums, o, sorted[1..]);
      var tail := InsertDescending(enums, o, sorted[1..]);
      forall j | 0 <= j < |tail| ensures Rank(enums, sorted[0]) >= Rank(enums, tail[j]) {
        assert tail[j] in multiset(tail);
        if tail[j] != o {
          assert tail[j] in multiset(sorted[1..]);
          var i :| 0 <= i < |sorted[1..]| && sorted[1..][i] == tail[j];
          assert sorted[i + 1] == tail[j];
        }
      }
    }
  }

  lemma {:induction false} InsertOfRank(enums: seq<string>, o: FacetOption, sorted: seq<FacetOption>, r: int)
    requires Descending(enums, sorted)
    ensures OfRank(enums, InsertDescending(enums, o, sorted), r) == OfRank(enums, sorted + [o], r)
  {
    OfRankSnoc(enums, sorted, o, r);
    var all := InsertDescending(enums, o, sorted);
    if sorted == [] || Rank(enums, sorted[0]) < Rank(enums, o) {
      assert all[1..] == sorted;
      if Rank(enums, o) == r { NoneOfRank(enums, sorted, r); }
    } else {
      assert all[1..] == InsertDescending(enums, o, sorted[1..]);
      InsertOfRank(enums, o, sorted[1..], r);
      OfRankSnoc(enums, sorted[1..], o, r);
    }
  }

  /** The sort is a permutation, descending, and keeps the order within each rank; these
      three pin its result down. */
  lemma {:induction false} SortKeeps(enums: seq<string>, options: seq<FacetOption>, r: int)
    ensures var sorted := SortDescending(enums, options);
      && Descending(enums, sorted) && multiset(sorted) == multiset(options)
      && OfRank(enums, sorted, r) == OfRank(enums, options, r)
  {
    if options != [] {
      var n := |options| - 1;
      SortKeeps(enums, options[..n], r);
      InsertPermutes(enums, options[n], SortDescending(enums, options[..n]));
      InsertDescends(enums, options[n], SortDescending(enums, options[..n]));
      InsertOfRank(enums, options[n], SortDescending(enums, options[..n]), r);
      assert options == options[..n] + [options[n]];
      OfRankSnoc(enums, options[..n], options[n], r);
      OfRankSnoc(enums, SortDescending(enums, options[..n]), options[n], r);
    }
  }

  lemma FirstHasItsRank(enums: seq<string>, options: seq<FacetOption>)
    ensures options != [] ==> OfRank(enums, options, Rank(enums, options[0])) != []
  {
  }

  /** There is only one descending order that keeps the order within each rank. */
  lemma {:induction false} StableOrderIsUnique(enums: seq<string>, a: seq<FacetOption>, b: seq<FacetOption>)
    requires Descending(enums, a) && Descending(enums, b)
    requires forall r :: OfRank(enums, a, r) == OfRank(enums, b, r)
    ensures a == b
  {
    if a == [] || b == [] {
      FirstHasItsRank(enums, a);
      FirstHasItsRank(enums, b);
    } else {
      var r := Rank(enums, a[0]);
      if Rank(enums, b[0]) < r { NoneOfRank(enums, b, r); }
      if r < Rank(enums, b[0]) { NoneOfRank(enums, a, Rank(enums, b[0])); }
      assert OfRank(enums, a, r)[0] == a[0] && OfRank(enums, b, r)[0] == b[0];
      forall q ensures OfRank(enums, a[1..], q) == OfRank(enums, b[1..], q) {
        assert OfRank(enums, a, q) == OfRank(enums, b, q);
        if q == r {
          assert OfRank(enums, a, q)[1..] == OfRank(enums, a[1..], q);
          assert OfRank(enums, b, q)[1..] == OfRank(enums, b[1..], q);
        }
      }
      StableOrderIsUnique(enums, a[1..], b[1..]);
    }
  }

  // ---------------------------------------------------------------- what a facet shows

  function CountOf(options: seq<FacetOption>, v: Option<string>): nat {
    if options == [] then 0
    else CountOf(options[..|options| - 1], v) + if options[|options| - 1].value == v then 1 else 0
  }

  function CountIn(enums: seq<string>, e: string): nat {
    if enums == [] then 0 else CountIn(enums[..|enums| - 1], e) + if enums[|enums| - 1] == e then 1 else 0
  }

  lemma {:induction false} CountAppend(a: seq<FacetOption>, b: seq<FacetOption>, v: Option<string>)
    ensures CountOf(a + b, v) == CountOf(a, v) + CountOf(b, v)
  {
    if b == [] {
      assert a + b == a;
    } else {
      var n := |b| - 1;
      assert (a + b)[..|a + b| - 1] == a + b[..n];
      CountAppend(a, b[..n], v);
    }
  }

  lemma WithoutOne(b: seq<FacetOption>, k: nat, v: Option<string>)
    requires k < |b|
    ensures multiset(b[..k] + b[k + 1..]) == multiset(b) - multiset{b[k]}
    ensures CountOf(b, v) == CountOf(b[..k] + b[k + 1..], v) + if b[k].value == v then 1 else 0
  {
    assert b == b[..k] + [b[k]] + b[k + 1..];
    assert multiset(b) == multiset(b[..k] + b[k + 1..]) + multiset{b[k]};
    CountAppend(b[..k] + [b[k]], b[k + 1..], v);
    CountAppend(b[..k], b[k + 1..], v);
    assert (b[..k] + [b[k]])[..k] == b[..k];
  }

  lemma {:induction false} CountOfPermutation(a: seq<FacetOption>, b: seq<FacetOption>, v: Option<string>)
    requires multiset(a) == multiset(b)
    ensures CountOf(a, v) == CountOf(b, v)
  {
    if a == [] {
      assert |multiset(b)| == 0;
    } else {
      var n := |a| - 1;
      assert a[n] in multiset(b);
      var k :| 0 <= k < |b| && b[k] == a[n];
      assert a[..n] == a[..n] + a[n + 1..];
      WithoutOne(a, n, v);
      WithoutOne(b, k, v);
      CountOfPermutation(a[..n], b[..k] + b[k + 1..], v);
    }
  }

  lemma {:induction false} OffersExactlyWhen(options: seq<FacetOption>, v: Option<string>)
    ensures Offers(options, v) <==> CountOf(options, v) > 0
  {
    if options != [] {
      var n := |options| - 1;
      OffersExactlyWhen(options[..n], v);
      if Offers(options[..n], v) {
        var i :| 0 <= i < n && options[..n][i].value == v;
        assert options[i].value == v;
      }
    }
  }

  /** An enum value that no option offers, without matches. */
  predicate IsZeroEntry(enums: seq<string>, options: seq<FacetOption>, o: FacetOption) {
    && o.matchesCount == 0 && o.value.Some? && o.displayName == o.value.value
    && o.value.value in enums && !Offers(options, o.value)
  }

  lemma {:induction false} UnmatchedCounts(enums: seq<string>, options: seq<FacetOption>, e: string)
    ensures CountOf(Unmatched(enums, options), Some(e)) == if Offers(options, Some(e)) then 0 else CountIn(enums, e)
    ensures forall o :: o in Unmatched(enums, options) ==> IsZeroEntry(enums, options, o)
  {
    if enums != [] {
      var n := |enums| - 1;
      UnmatchedCounts(enums[..n], options, e);
      var before := Unmatched(enums[..n], options);
      CountAppend(before, [ZeroOption(enums[n])], Some(e));
      assert [ZeroOption(enums[n])][..0] == [];
    }
  }

  predicate InEnum(enums: seq<string>, o: FacetOption) {
    o.value.Some? && o.value.value in enums
  }

  /** Later enum values come first, and values outside the enum after all of them. */
  predicate InEnumOrder(enums: seq<string>, options: seq<FacetOption>) {
    forall i, j :: 0 <= i < j < |options| && InEnum(enums, options[j]) ==>
      InEnum(enums, options[i]) && IndexOf(enums, options[i].value.value) >= IndexOf(enums, options[j].value.value)
  }

  lemma DescendingIsEnumOrder(enums: seq<string>, options: seq<FacetOption>)
    ensures Descending(enums, options) ==> InEnumOrder(enums, options)
  {
    if Descending(enums, options) {
      forall i, j | 0 <= i < j < |options| && InEnum(enums, options[j])
        ensures InEnum(enums, options[i])
             && IndexOf(enums, options[i].value.value) >= IndexOf(enums, options[j].value.value)
      {
        assert Rank(enums, options[i]) >= Rank(enums, options[j]) >= 0;
      }
    }
  }

  /** An enum facet shows its query rows, every match count included, plus one zero entry
      per enum value no row carries; the order is by descending enum index, values outside
      the enum last, equal ones as the query gave them. */
  lemma EnumFacetShows(rows: seq<Row>, enums: seq<string>, r: int)
    requires enums != []
    ensures var shown := FacetOptions(rows, enums); var zero := Unmatched(enums, OptionsOf(rows));
      && multiset(shown) == multiset(OptionsOf(rows)) + multiset(zero)
      && (forall o :: o in zero ==> IsZeroEntry(enums, OptionsOf(rows), o))
      && InEnumOrder(enums, shown)
      && OfRank(enums, shown, r) == OfRank(enums, OptionsOf(rows) + zero, r)
  {
    var options := OptionsOf(rows);
    DescendingIsEnumOrder(enums, FacetOptions(rows, enums));
    SortKeeps(enums, options + Unmatched(enums, options), r);
    UnmatchedCounts(enums, options, "");
  }

  /** The options outside the enum, in order. */
  function Outside(enums: seq<string>, options: seq<FacetOption>): seq<FacetOption> {
    if options == [] then []
    else if InEnum(enums, options[0]) then Outside(enums, options[1..])
    else [options[0]] + Outside(enums, options[1..])
  }

  lemma {:induction false} OutsideIsLastRank(enums: seq<string>, options: seq<FacetOption>)
    ensures Outside(enums, options) == OfRank(enums, options, -100)
  {
    if options != [] { OutsideIsLastRank(enums, options[1..]); }
  }

  lemma {:induction false} OutsideOf(enums: seq<string>, a: seq<FacetOption>, b: seq<FacetOption>)
    requires forall o :: o in b ==> InEnum(enums, o)
    ensures Outside(enums, a + b) == Outside(enums, a)
  {
    if a == [] {
      assert a + b == b;
      if b != [] {
        assert b[0] in b;
        OutsideOf(enums, [], b[1..]);
        assert [] + b[1..] == b[1..];
      }
    } else {
      assert (a + b)[1..] == a[1..] + b;
      OutsideOf(enums, a[1..], b);
    }
  }

  /** The values outside the enum are those of the rows, in the order of the rows. */
  lemma OutsideKeepsOrder(rows: seq<Row>, enums: seq<string>)
    ensures Outside(enums, FacetOptions(rows, enums)) == Outside(enums, OptionsOf(rows))
  {
    if enums != [] {
      var options := OptionsOf(rows);
      var zero := Unmatched(enums, options);
      UnmatchedCounts(enums, options, "");
      SortKeeps(enums, options + zero, -100);
      OutsideIsLastRank(enums, options + zero);
      OutsideIsLastRank(enums, FacetOptions(rows, enums));
      OutsideOf(enums, options, zero);
    }
  }

  /** How often an enum value is shown: as often as the rows carry it, or as often as the
      enum lists it when no row does. */
  lemma EnumValueShown(rows: seq<Row>, enums: seq<string>, e: string)
    requires e in enums
    ensures var inRows := CountOf(OptionsOf(rows), Some(e));
      CountOf(FacetOptions(rows, enums), Some(e)) == if inRows > 0 then inRows else CountIn(enums, e)
  {
    var options := OptionsOf(rows);
    var zero := Unmatched(enums, options);
    SortKeeps(enums, options + zero, 0);
    CountOfPermutation(FacetOptions(rows, enums), options + zero, Some(e));
    CountAppend(options, zero, Some(e));
    UnmatchedCounts(enums, options, e);
    OffersExactlyWhen(options, Some(e));
  }
}
