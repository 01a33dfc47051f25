/** `calculate_population_difference` and the "Extreme Prefecture Dynamics"
    pair read from its first and last rows. */
module Difference {
  import opened Optional
  import opened Records
  import Aggregation
  import Ranking

  /** One output row, fields in the output's column order. */
  datatype DiffRow = DiffRow(
    region: Option<string>,
    regionCode: Option<string>,
    prefecture: string,
    prefectureCode: Option<string>,
    population: int,
    difference: int,
    absoluteDifference: int)

  function Abs(x: int): (a: nat)
    ensures a == x || a == -x
  {
    if x < 0 then -x else x
  }

  /** The signed difference as a ranking key. */
  function DifferenceOf(row: DiffRow): int {
    row.difference
  }

  /** The output row for `r`, given the population it is compared with. */
  function MakeRow(r: Record, prior: int): DiffRow {
    var d := r.population - prior;
    DiffRow(r.region, r.regionCode, r.prefecture, r.prefectureCode, r.population, d, Abs(d))
  }

  /** `current.population.sub(previous.population, fill_value=0)` after both
      indexes were reset: row i is compared with row i of the previous year,
      whatever its prefecture, and with 0 where the previous year has no row
      i; previous-year rows beyond the current year's count are dropped. */
  function PositionalDifference(current: seq<Record>, previous: seq<Record>): (r: seq<DiffRow>)
    ensures |r| == |current|
    ensures forall i :: 0 <= i < |r| ==>
      && r[i].region == current[i].region
      && r[i].regionCode == current[i].regionCode
      && r[i].prefecture == current[i].prefecture
      && r[i].prefectureCode == current[i].prefectureCode
      && r[i].population == current[i].population
    ensures forall i :: 0 <= i < |r| ==>
      r[i].difference == current[i].population - (if i < |previous| then previous[i].population else 0)
    ensures forall i :: 0 <= i < |r| ==> r[i].absoluteDifference == Abs(r[i].difference)
  {
    if current == [] then []
    else
      var prior := if previous == [] then 0 else previous[0].population;
      var rest := if previous == [] then [] else previous[1..];
      [MakeRow(current[0], prior)] + PositionalDifference(current[1..], rest)
  }

  /** The difference table of one year, largest growth first. */
  function CalculatePopulationDifference(data: seq<Record>, year: int): (r: seq<DiffRow>)
    ensures |r| == |Aggregation.YearSlice(data, year)|
    ensures Ranking.SortedDesc(r, DifferenceOf)
    ensures multiset(r) == multiset(PositionalDifference(
      Aggregation.YearSlice(data, year), Aggregation.YearSlice(data, year - 1)))
    ensures forall row :: row in r ==> row.absoluteDifference == Abs(row.difference)
  {
    var current := Aggregation.YearSlice(data, year);
    var previous := Aggregation.YearSlice(data, year - 1);
    var unsorted := PositionalDifference(current, previous);
    var r := Ranking.SortDesc(unsorted, DifferenceOf);
    assert |r| == |multiset(r)| == |multiset(unsorted)| == |unsorted|;
    assert forall row :: row in r ==> row in multiset(unsorted);
    r
  }

  /** What the "Extreme Prefecture Dynamics" panel shows: placeholders for
      the first year, otherwise the first and last rows of the difference
      table; an IndexError where that table is empty. */
  datatype Dynamics = NoPriorYear | Movers(grower: DiffRow, shrinker: DiffRow) | EmptyYear

  function ExtremeDynamics(data: seq<Record>, year: int): (d: Dynamics)
    ensures d.NoPriorYear? <==> year <= FirstYear
    ensures d.EmptyYear? <==> year > FirstYear && year !in Years(data)
    ensures d.Movers? ==>
      var rows := CalculatePopulationDifference(data, year);
      && d.grower in rows && d.shrinker in rows
      && forall row :: row in rows ==> d.shrinker.difference <= row.difference <= d.grower.difference
  {
    if year <= FirstYear then NoPriorYear
    else
      var rows := CalculatePopulationDifference(data, year);
      if rows == [] then
        assert year !in Years(data);
        EmptyYear
      else
        Ranking.SortedEnds(rows, DifferenceOf);
        assert year in Years(data) by {
          var s := Aggregation.YearSlice(data, year);
          assert s[0] in data;
          var i :| 0 <= i < |data| && data[i] == s[0];
          assert Years(data)[i] == year;
        }
        Movers(rows[0], rows[|rows| - 1])
  }

  /** The comparison by prefecture name: the population of the first
      previous-year row with the same prefecture, or 0 where there is none. */
  function PriorByName(previous: seq<Record>, prefecture: string): int {
    if previous == [] then 0
    else if previous[0].prefecture == prefecture then previous[0].population
    else PriorByName(previous[1..], prefecture)
  }

  function ByNameDifference(current: seq<Record>, previous: seq<Record>): (r: seq<DiffRow>)
    ensures |r| == |current|
  {
    if current == [] then []
    else
      var row := MakeRow(current[0], PriorByName(previous, current[0].prefecture));
      [row] + ByNameDifference(current[1..], previous)
  }

  lemma {:induction false} ByNameSkip(current: seq<Record>, previous: seq<Record>)
    requires previous != []
    requires forall i :: 0 <= i < |current| ==> current[i].prefecture != previous[0].prefecture
    ensures ByNameDifference(current, previous) == ByNameDifference(current, previous[1..])
  {
    if current != [] {
      ByNameSkip(current[1..], previous);
    }
  }

  /** When both years list the same prefectures in the same order, once
      each, matching by position is matching by name. */
  lemma {:induction false} PositionalAgreesWithByName(current: seq<Record>, previous: seq<Record>)
    requires |current| == |previous|
    requires forall i :: 0 <= i < |current| ==> current[i].prefecture == previous[i].prefecture
    requires forall i, j :: 0 <= i < j < |previous| ==> previous[i].prefecture != previous[j].prefecture
    ensures PositionalDifference(current, previous) == ByNameDifference(current, previous)
  {
    if current != [] {
      PositionalAgreesWithByName(current[1..], previous[1..]);
      ByNameSkip(current[1..], previous);
    }
  }

  /** With the previous year in another order, the positional comparison
      pairs different prefectures and its differences are not the
      prefectures' own. */
  lemma PositionalIsNotByName()
    ensures var a := Record(None, None, "Aomori", None, 2001, 10);
      var b := Record(None, None, "Iwate", None, 2001, 20);
      var a0 := Record(None, None, "Aomori", None, 2000, 5);
      var b0 := Record(None, None, "Iwate", None, 2000, 15);
      && PositionalDifference([a, b], [b0, a0])[0].difference == -5
      && ByNameDifference([a, b], [b0, a0])[0].difference == 5
  {
    var a := Record(None, None, "Aomori", None, 2001, 10);
    var a0 := Record(None, None, "Aomori", None, 2000, 5);
    var b0 := Record(None, None, "Iwate", None, 2000, 15);
    assert "Iwate"[0] != "Aomori"[0];
    assert [b0, a0][1..] == [a0];
    assert PriorByName([b0, a0], a.prefecture) == PriorByName([a0], a.prefecture) == 5;
  }
}
