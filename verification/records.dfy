/** The optional value used for cells that may be missing (a pandas NaN). */
module Optional {
  datatype Option<+T> = None | Some(value: T)
}

/** The population table: one row per prefecture and year. */
module Records {
  import opened Optional

  /** The first year of the historical series; the dashboard shows no
      year-over-year change for it. */
  const FirstYear := 1975

  /** The year that the forecast rows are labelled with. */
  const ForecastYear := 2024

  /** One row of the population table, fields in the table's column order
      region, region_code, prefecture, prefecture_code, year, population.
      The three metadata cells are None where a left join found no match. */
  datatype Record = Record(
    region: Option<string>,
    regionCode: Option<string>,
    prefecture: string,
    prefectureCode: Option<string>,
    year: int,
    population: int)

  /** The population column as a key for ranking. */
  function PopulationOf(r: Record): int {
    r.population
  }

  /** The year column, row by row. */
  function Years(data: seq<Record>): (ys: seq<int>)
    ensures |ys| == |data|
    ensures forall i :: 0 <= i < |data| ==> ys[i] == data[i].year
  {
    seq(|data|, i requires 0 <= i < |data| => data[i].year)
  }

  /** Sum of the population column. */
  function SumPopulation(data: seq<Record>): int {
    if data == [] then 0 else data[0].population + SumPopulation(data[1..])
  }
}

/** Generic sequence helpers: order-preserving de-duplication and reversal. */
module Seqs {
  predicate NoDuplicates<T(==)>(s: seq<T>) {
    forall i, j :: 0 <= i < j < |s| ==> s[i] != s[j]
  }

  predicate Increasing(s: seq<int>) {
    forall i, j :: 0 <= i < j < |s| ==> s[i] < s[j]
  }

  predicate Decreasing(s: seq<int>) {
    forall i, j :: 0 <= i < j < |s| ==> s[i] > s[j]
  }

  /** The position where `x` first appears in `s`. */
  function FirstIndex<T(==)>(s: seq<T>, x: T): (k: nat)
    requires x in s
    ensures k < |s| && s[k] == x && x !in s[..k]
  {
    if s[0] == x then 0
    else
      var k := 1 + FirstIndex(s[1..], x);
      assert s[..k] == [s[0]] + s[1..][..k - 1];
      k
  }

  /** Where `x` occurs in a prefix, it first appears at the same place in
      the whole sequence. */
  lemma FirstIndexInPrefix<T>(s: seq<T>, n: nat, x: T)
    requires n <= |s| && x in s[..n]
    ensures FirstIndex(s, x) == FirstIndex(s[..n], x)
  {
    var k := FirstIndex(s, x);
    var k' := FirstIndex(s[..n], x);
    assert s[k'] == x;
  }

  /** The distinct elements of `s` in order of first appearance
      (pandas `unique()` and `drop_duplicates()`). */
  function Distinct<T(==,!new)>(s: seq<T>): (r: seq<T>)
    ensures NoDuplicates(r)
    ensures forall x :: x in r <==> x in s
    ensures forall i, j {:trigger FirstIndex(s, r[i]), FirstIndex(s, r[j])} :: 0 <= i < j < |r| ==> FirstIndex(s, r[i]) < FirstIndex(s, r[j])
  {
    if s == [] then []
    else
      var n := |s| - 1;
      var init := s[..n];
      assert s == init + [s[n]];
      var u := Distinct(init);
      forall i | 0 <= i < |u|
        ensures FirstIndex(s, u[i]) == FirstIndex(init, u[i]) < n
      {
        FirstIndexInPrefix(s, n, u[i]);
      }
      if s[n] in u then u
      else
        assert s[n] !in init;
        assert FirstIndex(s, s[n]) == n;
        u + [s[n]]
  }

  /** Every value first appears before any occurrence of a larger value. */
  predicate FirstAppearancesAscend(s: seq<int>) {
    forall i, j {:trigger s[i], FirstIndex(s, s[j])} ::
      0 <= i < |s| && 0 <= j < |s| && s[j] < s[i] ==> FirstIndex(s, s[j]) < i
  }

  /** When first appearances ascend, de-duplication gives an increasing sequence. */
  lemma DistinctAscends(s: seq<int>)
    requires FirstAppearancesAscend(s)
    ensures Increasing(Distinct(s))
  {
    var u := Distinct(s);
    forall a, b | 0 <= a < b < |u|
      ensures u[a] < u[b]
    {
      var p := FirstIndex(s, u[a]);
      var q := FirstIndex(s, u[b]);
      assert p < q && s[p] == u[a] && s[q] == u[b];
    }
  }

  /** When first appearances ascend, the reversed de-duplication strictly
      decreases and starts with the largest value. */
  lemma ReversedDistinctDescends(s: seq<int>)
    requires FirstAppearancesAscend(s)
    ensures Decreasing(Reverse(Distinct(s)))
    ensures forall i :: 0 <= i < |s| ==> s[i] <= Reverse(Distinct(s))[0]
  {
    var u := Distinct(s);
    DistinctAscends(s);
    ReverseOfIncreasing(u);
    forall i | 0 <= i < |s|
      ensures s[i] <= Reverse(u)[0]
    {
      assert s[i] in u;
    }
  }

  /** Reversing an increasing sequence gives a decreasing one that starts
      with its largest element. */
  lemma ReverseOfIncreasing(u: seq<int>)
    requires Increasing(u)
    ensures Decreasing(Reverse(u))
    ensures forall x :: x in u ==> x <= Reverse(u)[0]
  {
    var r := Reverse(u);
    forall i, j | 0 <= i < j < |r|
      ensures r[i] > r[j]
    {
      assert r[i] == u[|u| - 1 - i] && r[j] == u[|u| - 1 - j];
    }
    forall x | x in u
      ensures x <= r[0]
    {
      var k :| 0 <= k < |u| && u[k] == x;
      assert r[0] == u[|u| - 1];
    }
  }

  /** `s[::-1]`. */
  function Reverse<T>(s: seq<T>): (r: seq<T>)
    ensures |r| == |s|
    ensures forall i :: 0 <= i < |s| ==> r[i] == s[|s| - 1 - i]
  {
    if s == [] then [] else Reverse(s[1..]) + [s[0]]
  }

  lemma ReverseMembership<T>(s: seq<T>)
    ensures forall x :: x in Reverse(s) <==> x in s
  {
  }

  /** `unique()[::-1]`: each element once, later first appearances first. */
  lemma ReversedDistinct<T(!new)>(s: seq<T>)
    ensures var r := Reverse(Distinct(s));
      && NoDuplicates(r)
      && (forall x :: x in r <==> x in s)
      && (forall i, j :: 0 <= i < j < |r| ==> FirstIndex(s, r[j]) < FirstIndex(s, r[i]))
  {
    var u := Distinct(s);
    var r := Reverse(u);
    ReverseMembership(u);
    forall i, j | 0 <= i < j < |r|
      ensures r[i] != r[j] && FirstIndex(s, r[j]) < FirstIndex(s, r[i])
    {
      assert r[i] == u[|u| - 1 - i] && r[j] == u[|u| - 1 - j];
    }
  }
}
