/** The total-population metric of the page: the yearly totals feeding the
    formatter. */
module Dashboard {
  import opened Optional
  import opened Records
  import Aggregation
  import Format

  /** Two years of national totals, 100,000,000 and 101,000,000: the 1976
      delta is +1,000,000, which the formatter prints as "1000 K" because its
      millions form starts strictly above one million. */
  lemma DeltaOfOneMillion()
    ensures var data := [
        Record(None, None, "Tokyo", None, 1975, 100000000),
        Record(None, None, "Tokyo", None, 1976, 101000000)];
      && Aggregation.NationalDelta(data, 1976) == Aggregation.Change(1000000)
      && Format.FormatNumber(Aggregation.NationalDelta(data, 1976).value) == Format.Text("1000 K")
  {
    var a := Record(None, None, "Tokyo", None, 1975, 100000000);
    var b := Record(None, None, "Tokyo", None, 1976, 101000000);
    var data := [a, b];
    assert data[1..] == [b] && [b][1..] == [];
    assert Years(data) == [1975, 1976];
    assert Aggregation.YearSlice(data, 1976) == [b];
    assert Aggregation.YearSlice(data, 1975) == [a];
    Format.Examples();
  }
}
