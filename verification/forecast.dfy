/** Integration of the 2024 forecast into the population table: relabel the
    forecast rows, left-join them onto the prefecture metadata of the
    historical rows, and append them. */
module Forecast {
  import opened Optional
  import opened Records
  import Seqs
  import Aggregation

  /** A row of the forecast table (the interval bounds are not modelled). */
  datatype ForecastRecord = ForecastRecord(prefecture: string, predictedPopulation: int)

  /** A forecast row after the rename of its prediction to `population`, the
      new `year` column and the projection to these three columns. */
  datatype Prediction = Prediction(prefecture: string, population: int, year: int)

  function Relabel(forecast: seq<ForecastRecord>): (r: seq<Prediction>)
    ensures |r| == |forecast|
    ensures forall i :: 0 <= i < |r| ==>
      r[i].prefecture == forecast[i].prefecture
      && r[i].population == forecast[i].predictedPopulation
      && r[i].year == ForecastYear
  {
    if forecast == [] then []
    else
      var f := forecast[0];
      [Prediction(f.prefecture, f.predictedPopulation, ForecastYear)] + Relabel(forecast[1..])
  }

  /** One row of the prefecture mapping. */
  datatype MappingEntry = MappingEntry(
    prefecture: string,
    region: Option<string>,
    regionCode: Option<string>,
    prefectureCode: Option<string>)

  function Project(r: Record): MappingEntry {
    MappingEntry(r.prefecture, r.region, r.regionCode, r.prefectureCode)
  }

  function Projections(hist: seq<Record>): (r: seq<MappingEntry>)
    ensures |r| == |hist|
    ensures forall i :: 0 <= i < |r| ==> r[i] == Project(hist[i])
  {
    if hist == [] then [] else [Project(hist[0])] + Projections(hist[1..])
  }

  /** The de-duplicated metadata projection of the historical rows. */
  function PrefectureMapping(hist: seq<Record>): (m: seq<MappingEntry>)
    ensures Seqs.NoDuplicates(m)
    ensures forall e :: e in m ==> exists i :: 0 <= i < |hist| && Project(hist[i]) == e
    ensures forall i :: 0 <= i < |hist| ==> Project(hist[i]) in m
  {
    var ps := Projections(hist);
    var m := Seqs.Distinct(ps);
    assert forall k :: 0 <= k < |m| ==> m[k] in ps;
    m
  }

  /** At most one mapping entry per prefecture. */
  predicate UniqueKeys(m: seq<MappingEntry>) {
    forall i, j :: 0 <= i < j < |m| ==> m[i].prefecture != m[j].prefecture
  }

  /** Every historical row of a prefecture carries the same metadata. */
  predicate ConsistentMetadata(hist: seq<Record>) {
    forall i, j :: 0 <= i < |hist| && 0 <= j < |hist| && hist[i].prefecture == hist[j].prefecture ==>
      Project(hist[i]) == Project(hist[j])
  }

  /** Consistent historical metadata yields one mapping entry per prefecture. */
  lemma MappingUniqueWhenConsistent(hist: seq<Record>)
    requires ConsistentMetadata(hist)
    ensures UniqueKeys(PrefectureMapping(hist))
  {
    var m := PrefectureMapping(hist);
    forall i, j | 0 <= i < j < |m|
      ensures m[i].prefecture != m[j].prefecture
    {
      assert m[i] in m && m[j] in m;
      var a :| 0 <= a < |hist| && Project(hist[a]) == m[i];
      var b :| 0 <= b < |hist| && Project(hist[b]) == m[j];
    }
  }

  /** The mapping entries of one prefecture, in mapping order. */
  function Matches(mapping: seq<MappingEntry>, prefecture: string): (r: seq<MappingEntry>)
    ensures forall e :: e in r <==> e in mapping && e.prefecture == prefecture
    ensures r == [] <==> forall e :: e in mapping ==> e.prefecture != prefecture
  {
    if mapping == [] then []
    else
      var head := if mapping[0].prefecture == prefecture then [mapping[0]] else [];
      head + Matches(mapping[1..], prefecture)
  }

  lemma {:induction false} MatchesOfUnique(mapping: seq<MappingEntry>, prefecture: string)
    requires UniqueKeys(mapping)
    ensures |Matches(mapping, prefecture)| <= 1
  {
    if mapping != [] {
      MatchesOfUnique(mapping[1..], prefecture);
      if mapping[0].prefecture == prefecture {
        var rest := Matches(mapping[1..], prefecture);
        forall e | e in mapping[1..] ensures e.prefecture != prefecture {
          var k :| 0 <= k < |mapping[1..]| && mapping[1..][k] == e;
          assert mapping[k + 1] == e;
        }
      }
    }
  }

  /** A joined row: the prediction with the metadata of one mapping entry. */
  function Attach(p: Prediction, ms: seq<MappingEntry>): (r: seq<Record>)
    ensures |r| == |ms|
    ensures forall i :: 0 <= i < |r| ==>
      r[i] == Record(ms[i].region, ms[i].regionCode, p.prefecture, ms[i].prefectureCode, p.year, p.population)
  {
    if ms == [] then []
    else
      var e := ms[0];
      [Record(e.region, e.regionCode, p.prefecture, e.prefectureCode, p.year, p.population)] + Attach(p, ms[1..])
  }

  /** The metadata of `x` is that of a mapping entry of its prefecture. */
  predicate Joined(x: Record, mapping: seq<MappingEntry>) {
    MappingEntry(x.prefecture, x.region, x.regionCode, x.prefectureCode) in mapping
  }

  /** `x` found no mapping entry and its metadata cells are missing. */
  predicate Unmatched(x: Record, mapping: seq<MappingEntry>) {
    && x.region.None? && x.regionCode.None? && x.prefectureCode.None?
    && forall e :: e in mapping ==> e.prefecture != x.prefecture
  }

  /** The left join of one prediction: one row per matching entry, or one
      row with missing metadata when nothing matches. */
  function JoinOne(p: Prediction, mapping: seq<MappingEntry>): (r: seq<Record>)
    ensures |r| >= 1
    ensures var ms := Matches(mapping, p.prefecture);
      |r| == if ms == [] then 1 else |ms|
    ensures forall x :: x in r ==>
      x.prefecture == p.prefecture && x.year == p.year && x.population == p.population
    ensures forall x :: x in r ==> Joined(x, mapping) || Unmatched(x, mapping)
    ensures forall e :: e in Matches(mapping, p.prefecture) ==>
      Record(e.region, e.regionCode, p.prefecture, e.prefectureCode, p.year, p.population) in r
  {
    var ms := Matches(mapping, p.prefecture);
    if ms == [] then
      [Record(None, None, p.prefecture, None, p.year, p.population)]
    else
      var r := Attach(p, ms);
      assert forall i :: 0 <= i < |r| ==> ms[i] in ms;
      forall e | e in ms
        ensures Record(e.region, e.regionCode, p.prefecture, e.prefectureCode, p.year, p.population) in r
      {
        var k :| 0 <= k < |ms| && ms[k] == e;
        assert r[k] in r;
      }
      r
  }

  /** `predictions.merge(mapping, on='prefecture', how='left')`: the joins
      of the predictions, in prediction order. */
  function MergeLeft(preds: seq<Prediction>, mapping: seq<MappingEntry>): (r: seq<Record>)
    ensures |r| >= |preds|
    ensures forall x :: x in r ==>
      exists p :: p in preds && x.prefecture == p.prefecture
        && x.year == p.year && x.population == p.population
    ensures forall x :: x in r ==> Joined(x, mapping) || Unmatched(x, mapping)
    ensures forall p, x :: p in preds && x in JoinOne(p, mapping) ==> x in r
  {
    if preds == [] then []
    else
      var head := JoinOne(preds[0], mapping);
      var tail := MergeLeft(preds[1..], mapping);
      assert preds == [preds[0]] + preds[1..];
      head + tail
  }

  /** The unified table: the historical rows, then the joined forecast rows. */
  function IntegrateForecast(hist: seq<Record>, forecast: seq<ForecastRecord>): (r: seq<Record>)
    ensures |r| >= |hist| + |forecast|
    ensures r[..|hist|] == hist
    ensures forall x :: x in r[|hist|..] ==>
      x.year == ForecastYear
      && exists i :: (0 <= i < |forecast| && x.prefecture == forecast[i].prefecture
        && x.population == forecast[i].predictedPopulation)
    ensures forall x :: x in r[|hist|..] ==>
      Joined(x, PrefectureMapping(hist)) || Unmatched(x, PrefectureMapping(hist))
  {
    var preds := Relabel(forecast);
    var appended := MergeLeft(preds, PrefectureMapping(hist));
    var r := hist + appended;
    assert r[..|hist|] == hist && r[|hist|..] == appended;
    r
  }

  lemma {:induction false} MergeLeftUnique(preds: seq<Prediction>, mapping: seq<MappingEntry>)
    requires UniqueKeys(mapping)
    ensures |MergeLeft(preds, mapping)| == |preds|
    ensures forall i :: 0 <= i < |preds| ==>
      var x := MergeLeft(preds, mapping)[i];
      x.prefecture == preds[i].prefecture && x.year == preds[i].year && x.population == preds[i].population
  {
    if preds != [] {
      MatchesOfUnique(mapping, preds[0].prefecture);
      MergeLeftUnique(preds[1..], mapping);
      var head := JoinOne(preds[0], mapping);
      var tail := MergeLeft(preds[1..], mapping);
      var r := MergeLeft(preds, mapping);
      assert r == head + tail && |head| == 1;
      forall i | 0 <= i < |preds|
        ensures r[i].prefecture == preds[i].prefecture && r[i].year == preds[i].year
          && r[i].population == preds[i].population
      {
        if i == 0 {
          assert r[0] == head[0] && head[0] in head;
        } else {
          assert r[i] == tail[i - 1] && preds[i] == preds[1..][i - 1];
        }
      }
    }
  }

  /** When the mapping has one entry per prefecture, exactly one row is
      appended per forecast row, in forecast order, carrying its prefecture,
      its prediction and the forecast year. */
  lemma OneRowPerForecast(hist: seq<Record>, forecast: seq<ForecastRecord>)
    requires UniqueKeys(PrefectureMapping(hist))
    ensures |IntegrateForecast(hist, forecast)| == |hist| + |forecast|
    ensures forall i :: 0 <= i < |forecast| ==>
      var x := IntegrateForecast(hist, forecast)[|hist| + i];
      && x.prefecture == forecast[i].prefecture
      && x.population == forecast[i].predictedPopulation
      && x.year == ForecastYear
  {
    var preds := Relabel(forecast);
    var mapping := PrefectureMapping(hist);
    MergeLeftUnique(preds, mapping);
    assert IntegrateForecast(hist, forecast) == hist + MergeLeft(preds, mapping);
  }

  /** A forecast prefecture that no historical row names is still appended,
      with missing region, region code and prefecture code. */
  lemma UnmatchedGetsMissingMetadata(hist: seq<Record>, forecast: seq<ForecastRecord>, i: int)
    requires 0 <= i < |forecast|
    requires forall h :: h in hist ==> h.prefecture != forecast[i].prefecture
    ensures Record(None, None, forecast[i].prefecture, None, ForecastYear, forecast[i].predictedPopulation)
      in IntegrateForecast(hist, forecast)[|hist|..]
  {
    var preds := Relabel(forecast);
    var mapping := PrefectureMapping(hist);
    forall e | e in mapping ensures e.prefecture != forecast[i].prefecture {
      var k :| 0 <= k < |hist| && Project(hist[k]) == e;
      assert hist[k] in hist;
    }
    assert JoinOne(preds[i], mapping) ==
      [Record(None, None, forecast[i].prefecture, None, ForecastYear, forecast[i].predictedPopulation)];
    assert JoinOne(preds[i], mapping)[0] in MergeLeft(preds, mapping);
    var r := IntegrateForecast(hist, forecast);
    assert r[|hist|..] == MergeLeft(preds, mapping);
  }

  /** With no historical row in the forecast year, the forecast year's slice
      of the unified table is exactly the appended rows. */
  lemma ForecastYearSlice(hist: seq<Record>, forecast: seq<ForecastRecord>)
    requires forall h :: h in hist ==> h.year != ForecastYear
    ensures var r := IntegrateForecast(hist, forecast);
      Aggregation.YearSlice(r, ForecastYear) == r[|hist|..]
  {
    var r := IntegrateForecast(hist, forecast);
    var appended := r[|hist|..];
    assert r == hist + appended;
    Aggregation.YearSliceAppend(hist, appended, ForecastYear);
    Aggregation.YearSliceOfOtherYears(hist, ForecastYear);
    Aggregation.YearSliceOfOneYear(appended, ForecastYear);
  }

  /** Integration leaves every other year's rows as they were. */
  lemma OtherYearsUnchanged(hist: seq<Record>, forecast: seq<ForecastRecord>, year: int)
    requires year != ForecastYear
    ensures Aggregation.YearSlice(IntegrateForecast(hist, forecast), year) == Aggregation.YearSlice(hist, year)
  {
    var r := IntegrateForecast(hist, forecast);
    var appended := r[|hist|..];
    assert r == hist + appended;
    Aggregation.YearSliceAppend(hist, appended, year);
    Aggregation.YearSliceOfOtherYears(appended, year);
  }
}
