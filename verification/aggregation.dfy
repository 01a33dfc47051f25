/** Year-scoped views of the population table: the year slice and its
    ranking, the year list, the yearly national totals and the line series. */
module Aggregation {
  import opened Optional
  import opened Records
  import Seqs
  import Ranking

  /** The rows of one year, in table order (`df[df.year == year]`). */
  function YearSlice(data: seq<Record>, year: int): (r: seq<Record>)
    ensures |r| <= |data|
    ensures forall x :: x in r <==> x in data && x.year == year
  {
    if data == [] then []
    else (if data[0].year == year then [data[0]] else []) + YearSlice(data[1..], year)
  }

  /** Slicing distributes over concatenation, so row order is kept. */
  lemma {:induction false} YearSliceAppend(a: seq<Record>, b: seq<Record>, year: int)
    ensures YearSlice(a + b, year) == YearSlice(a, year) + YearSlice(b, year)
  {
    if a == [] {
      assert a + b == b;
    } else {
      assert (a + b)[0] == a[0] && (a + b)[1..] == a[1..] + b;
      YearSliceAppend(a[1..], b, year);
    }
  }

  /** A table whose rows all carry `year` is its own slice. */
  lemma {:induction false} YearSliceOfOneYear(data: seq<Record>, year: int)
    requires forall i :: 0 <= i < |data| ==> data[i].year == year
    ensures YearSlice(data, year) == data
  {
    if data != [] {
      YearSliceOfOneYear(data[1..], year);
    }
  }

  /** A table with no row of `year` has an empty slice. */
  lemma {:induction false} YearSliceOfOtherYears(data: seq<Record>, year: int)
    requires forall i :: 0 <= i < |data| ==> data[i].year != year
    ensures YearSlice(data, year) == []
  {
    if data != [] {
      YearSliceOfOtherYears(data[1..], year);
    }
  }

  /** The slice of one year ranked by population, largest first. */
  function RankedYear(data: seq<Record>, year: int): (r: seq<Record>)
    ensures Ranking.SortedDesc(r, PopulationOf)
    ensures multiset(r) == multiset(YearSlice(data, year))
    ensures forall i :: 0 <= i < |r| ==> r[i].year == year
  {
    var slice := YearSlice(data, year);
    var ranked := Ranking.SortDesc(slice, PopulationOf);
    assert forall i :: 0 <= i < |ranked| ==> ranked[i] in multiset(slice);
    ranked
  }

  /** The year selector's choices: each distinct year once, in reverse order
      of first appearance (`list(df.year.unique())[::-1]`). */
  function YearList(data: seq<Record>): (r: seq<int>)
    ensures Seqs.NoDuplicates(r)
    ensures forall y :: y in r <==> y in Years(data)
    ensures forall i, j {:trigger Seqs.FirstIndex(Years(data), r[i]), Seqs.FirstIndex(Years(data), r[j])} ::
      0 <= i < j < |r| ==> Seqs.FirstIndex(Years(data), r[j]) < Seqs.FirstIndex(Years(data), r[i])
  {
    var ys := Years(data);
    Seqs.ReversedDistinct(ys);
    Seqs.Reverse(Seqs.Distinct(ys))
  }

  /** When years first appear in ascending order, the selector lists the most
      recent year first and the years strictly decrease. */
  lemma YearListMostRecentFirst(data: seq<Record>)
    requires Seqs.FirstAppearancesAscend(Years(data))
    ensures Seqs.Decreasing(YearList(data))
    ensures forall i :: 0 <= i < |data| ==> data[i].year <= YearList(data)[0]
  {
    var ys := Years(data);
    Seqs.ReversedDistinctDescends(ys);
    forall i | 0 <= i < |data|
      ensures data[i].year <= Seqs.Reverse(Seqs.Distinct(ys))[0]
    {
      assert ys[i] == data[i].year;
    }
  }

  /** The distinct years of two prefectures' rows, 1975 and 1976 each. */
  lemma DistinctOfTwoYears()
    ensures Seqs.Distinct([1975, 1976, 1975, 1976]) == [1975, 1976]
  {
    assert [1975][..0] == [];
    assert Seqs.Distinct([1975]) == [1975];
    assert [1975, 1976][..1] == [1975];
    assert Seqs.Distinct([1975, 1976]) == [1975, 1976];
    assert [1975, 1976, 1975][..2] == [1975, 1976];
    assert Seqs.Distinct([1975, 1976, 1975]) == [1975, 1976];
    assert [1975, 1976, 1975, 1976][..3] == [1975, 1976, 1975];
  }

  /** A table listed prefecture by prefecture still shows the most recent
      year first. */
  lemma YearListByPrefecture()
    ensures var data := [
        Record(None, None, "Aomori", None, 1975, 1),
        Record(None, None, "Aomori", None, 1976, 2),
        Record(None, None, "Iwate", None, 1975, 3),
        Record(None, None, "Iwate", None, 1976, 4)];
      YearList(data) == [1976, 1975]
  {
    var data := [
        Record(None, None, "Aomori", None, 1975, 1),
        Record(None, None, "Aomori", None, 1976, 2),
        Record(None, None, "Iwate", None, 1975, 3),
        Record(None, None, "Iwate", None, 1976, 4)];
    assert Years(data) == [1975, 1976, 1975, 1976];
    DistinctOfTwoYears();
    assert Seqs.Reverse([1975, 1976]) == [1976, 1975];
  }

  /** One row of the grouped table: a year and its national total. */
  datatype YearTotal = YearTotal(year: int, population: int)

  /** Adds `y` to a strictly increasing sequence of years. */
  function InsertYear(y: int, ys: seq<int>): (r: seq<int>)
    requires Seqs.Increasing(ys)
    ensures Seqs.Increasing(r)
    ensures forall z :: z in r <==> z in ys || z == y
  {
    if ys == [] || y < ys[0] then [y] + ys
    else if y == ys[0] then ys
    else
      var tail := InsertYear(y, ys[1..]);
      assert ys == [ys[0]] + ys[1..];
      assert forall k :: 0 <= k < |tail| ==> ys[0] < tail[k] by {
        forall k | 0 <= k < |tail| ensures ys[0] < tail[k] {
          assert tail[k] in ys[1..] || tail[k] == y;
        }
      }
      [ys[0]] + tail
  }

  /** The distinct years, ascending, as `groupby` orders its keys. */
  function AscendingYears(data: seq<Record>): (r: seq<int>)
    ensures Seqs.Increasing(r)
    ensures forall y :: y in r <==> y in Years(data)
  {
    if data == [] then []
    else
      assert Years(data) == [data[0].year] + Years(data[1..]);
      InsertYear(data[0].year, AscendingYears(data[1..]))
  }

  function TotalsFor(data: seq<Record>, ys: seq<int>): seq<YearTotal> {
    if ys == [] then []
    else [YearTotal(ys[0], SumPopulation(YearSlice(data, ys[0])))] + TotalsFor(data, ys[1..])
  }

  lemma {:induction false} TotalsForAt(data: seq<Record>, ys: seq<int>)
    ensures |TotalsFor(data, ys)| == |ys|
    ensures forall i :: 0 <= i < |ys| ==>
      TotalsFor(data, ys)[i] == YearTotal(ys[i], SumPopulation(YearSlice(data, ys[i])))
  {
    if ys != [] {
      TotalsForAt(data, ys[1..]);
    }
  }

  /** `df.groupby('year')['population'].sum().reset_index()`: one row per
      distinct year, ascending, each holding the sum over that year's rows. */
  function YearlyTotals(data: seq<Record>): (r: seq<YearTotal>)
    ensures forall i, j :: 0 <= i < j < |r| ==> r[i].year < r[j].year
    ensures forall y :: y in Years(data) ==> exists k :: 0 <= k < |r| && r[k].year == y
    ensures forall k :: 0 <= k < |r| ==>
      r[k].year in Years(data) && r[k].population == SumPopulation(YearSlice(data, r[k].year))
  {
    var ys := AscendingYears(data);
    TotalsForAt(data, ys);
    var r := TotalsFor(data, ys);
    r
  }

  function SumTotals(ts: seq<YearTotal>): int {
    if ts == [] then 0 else ts[0].population + SumTotals(ts[1..])
  }

  lemma SliceSumPeel(x: Record, rest: seq<Record>, year: int)
    ensures SumPopulation(YearSlice([x] + rest, year)) ==
      (if x.year == year then x.population else 0) + SumPopulation(YearSlice(rest, year))
  {
    var data := [x] + rest;
    assert data[0] == x && data[1..] == rest;
    var tail := YearSlice(rest, year);
    if x.year == year {
      assert YearSlice(data, year) == [x] + tail;
      assert ([x] + tail)[1..] == tail;
    } else {
      assert YearSlice(data, year) == tail;
    }
  }

  /** Peeling one row off the table removes its population from exactly one
      of the per-year sums, when the years are distinct. */
  lemma {:induction false} TotalsPeel(x: Record, rest: seq<Record>, ys: seq<int>)
    requires Seqs.NoDuplicates(ys)
    ensures SumTotals(TotalsFor([x] + rest, ys)) ==
      SumTotals(TotalsFor(rest, ys)) + (if x.year in ys then x.population else 0)
  {
    if ys != [] {
      var y := ys[0];
      var data := [x] + rest;
      assert Seqs.NoDuplicates(ys[1..]) by {
        forall i, j | 0 <= i < j < |ys[1..]| ensures ys[1..][i] != ys[1..][j] {
          assert ys[1..][i] == ys[i + 1] && ys[1..][j] == ys[j + 1];
        }
      }
      TotalsPeel(x, rest, ys[1..]);
      SliceSumPeel(x, rest, y);
      assert TotalsFor(data, ys) == [YearTotal(y, SumPopulation(YearSlice(data, y)))] + TotalsFor(data, ys[1..]);
      assert TotalsFor(rest, ys) == [YearTotal(y, SumPopulation(YearSlice(rest, y)))] + TotalsFor(rest, ys[1..]);
      assert x.year in ys <==> x.year == y || x.year in ys[1..];
      if y == x.year {
        assert x.year !in ys[1..] by {
          forall k | 1 <= k < |ys| ensures ys[k] != ys[0] { }
        }
      }
    }
  }

  lemma {:induction false} TotalsConserve(data: seq<Record>, ys: seq<int>)
    requires Seqs.NoDuplicates(ys)
    requires forall i :: 0 <= i < |data| ==> data[i].year in ys
    ensures SumTotals(TotalsFor(data, ys)) == SumPopulation(data)
  {
    if data == [] {
      TotalsEmpty(ys);
    } else {
      assert data == [data[0]] + data[1..];
      TotalsConserve(data[1..], ys);
      TotalsPeel(data[0], data[1..], ys);
    }
  }

  lemma {:induction false} TotalsEmpty(ys: seq<int>)
    ensures SumTotals(TotalsFor([], ys)) == 0
  {
    if ys != [] {
      TotalsEmpty(ys[1..]);
    }
  }

  /** The yearly totals account for every row exactly once: together they
      add up to the population of the whole table. */
  lemma YearlyTotalsConserve(data: seq<Record>)
    ensures SumTotals(YearlyTotals(data)) == SumPopulation(data)
  {
    var ys := AscendingYears(data);
    assert forall i :: 0 <= i < |data| ==> data[i].year in Years(data);
    TotalsConserve(data, ys);
  }

  /** `df[df.year == year].population.iloc[0]` on the grouped table; None
      where pandas would raise an IndexError. */
  function Lookup(ts: seq<YearTotal>, year: int): (r: Option<int>)
    ensures r.Some? <==> exists k :: 0 <= k < |ts| && ts[k].year == year
    ensures r.Some? ==> exists k :: 0 <= k < |ts| && ts[k].year == year && ts[k].population == r.value
  {
    if ts == [] then None
    else if ts[0].year == year then Some(ts[0].population)
    else
      var r := Lookup(ts[1..], year);
      assert forall k :: 1 <= k < |ts| ==> ts[k] == ts[1..][k - 1];
      r
  }

  /** The national total of one year, when the year is in the table. */
  function NationalTotal(data: seq<Record>, year: int): (r: Option<int>)
    ensures r.Some? <==> year in Years(data)
    ensures r.Some? ==> r.value == SumPopulation(YearSlice(data, year))
  {
    Lookup(YearlyTotals(data), year)
  }

  /** The national total metric's delta: blank for the first year, the
      change from the year before otherwise, and an IndexError when either
      year has no rows. */
  datatype Delta = NoDelta | Change(value: int) | MissingYear

  function NationalDelta(data: seq<Record>, year: int): (d: Delta)
    ensures d.NoDelta? <==> year <= FirstYear
    ensures d.Change? <==> year > FirstYear && year in Years(data) && year - 1 in Years(data)
    ensures d.Change? ==>
      d.value == SumPopulation(YearSlice(data, year)) - SumPopulation(YearSlice(data, year - 1))
  {
    if year <= FirstYear then NoDelta
    else
      var now := NationalTotal(data, year);
      var before := NationalTotal(data, year - 1);
      if now.Some? && before.Some? then Change(now.value - before.value) else MissingYear
  }

  /** The rows up to the selected year (`df[df['year'] <= selected_year]`). */
  function UpTo(data: seq<Record>, selected: int): (r: seq<Record>)
    ensures forall x :: x in r <==> x in data && x.year <= selected
  {
    if data == [] then []
    else (if data[0].year <= selected then [data[0]] else []) + UpTo(data[1..], selected)
  }

  lemma {:induction false} UpToKeepsSlice(data: seq<Record>, selected: int, year: int)
    requires year <= selected
    ensures YearSlice(UpTo(data, selected), year) == YearSlice(data, year)
  {
    if data != [] {
      UpToKeepsSlice(data[1..], selected, year);
      var head := if data[0].year <= selected then [data[0]] else [];
      YearSliceAppend(head, UpTo(data[1..], selected), year);
    }
  }

  lemma LineSeriesTotals(data: seq<Record>, selected: int, k: int)
    requires 0 <= k < |YearlyTotals(UpTo(data, selected))|
    ensures var t := YearlyTotals(UpTo(data, selected))[k];
      t.year in Years(data) && t.year <= selected
      && t.population == SumPopulation(YearSlice(data, t.year))
  {
    var kept := UpTo(data, selected);
    var t := YearlyTotals(kept)[k];
    var ys := Years(kept);
    assert t.year in ys;
    var j :| 0 <= j < |ys| && ys[j] == t.year;
    assert kept[j].year <= selected && kept[j] in data;
    var m :| 0 <= m < |data| && data[m] == kept[j];
    assert Years(data)[m] == t.year;
    UpToKeepsSlice(data, selected, t.year);
  }

  lemma LineSeriesCovers(data: seq<Record>, selected: int, i: int) returns (k: nat)
    requires 0 <= i < |data| && data[i].year <= selected
    ensures k < |YearlyTotals(UpTo(data, selected))|
    ensures YearlyTotals(UpTo(data, selected))[k].year == data[i].year
  {
    var kept := UpTo(data, selected);
    var r := YearlyTotals(kept);
    assert data[i] in kept;
    var j :| 0 <= j < |kept| && kept[j] == data[i];
    assert Years(kept)[j] == data[i].year;
    assert data[i].year in Years(kept);
    k :| 0 <= k < |r| && r[k].year == data[i].year;
  }

  /** The line chart's series: national totals of the years up to the
      selected one, each equal to that year's total in the full table. */
  function LineSeries(data: seq<Record>, selected: int): (r: seq<YearTotal>)
    ensures forall i, j :: 0 <= i < j < |r| ==> r[i].year < r[j].year
    ensures forall k :: 0 <= k < |r| ==>
      r[k].year in Years(data) && r[k].year <= selected
      && r[k].population == SumPopulation(YearSlice(data, r[k].year))
    ensures forall i :: 0 <= i < |data| && data[i].year <= selected ==>
      exists k :: 0 <= k < |r| && r[k].year == data[i].year
  {
    var r := YearlyTotals(UpTo(data, selected));
    assert forall k :: 0 <= k < |r| ==>
      r[k].year in Years(data) && r[k].year <= selected
      && r[k].population == SumPopulation(YearSlice(data, r[k].year)) by {
      forall k | 0 <= k < |r|
        ensures r[k].year in Years(data) && r[k].year <= selected
          && r[k].population == SumPopulation(YearSlice(data, r[k].year))
      {
        LineSeriesTotals(data, selected, k);
      }
    }
    assert forall i :: 0 <= i < |data| && data[i].year <= selected ==>
      exists k :: 0 <= k < |r| && r[k].year == data[i].year by {
      forall i | 0 <= i < |data| && data[i].year <= selected
        ensures exists k :: 0 <= k < |r| && r[k].year == data[i].year
      {
        var k := LineSeriesCovers(data, selected, i);
      }
    }
    r
  }
}
