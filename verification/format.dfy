/** `format_number`: a population count rendered with a " M" or " K" suffix. */
module Format {
  import opened Optional
  import opened Decimal

  const Million := 1000000
  const Thousand := 1000

  /** Python's `n // d` for a positive divisor: rounds toward minus infinity. */
  function FloorDiv(n: int, d: int): (q: int)
    requires d > 0
    ensures d * q <= n < d * q + d
  {
    n / d
  }

  /** A formatted count. `RoundedMillions(n)` stands for the text Python makes
      from `round(n / 1000000, 1)` and " M", which this model leaves
      uninterpreted because it goes through floating point. */
  datatype Label = Text(text: string) | RoundedMillions(count: int)

  /** The formatter: above one million, whole millions print without a
      decimal point and other counts take the rounded-millions branch; at or
      below one million the count prints as floored thousands. */
  function FormatNumber(num: int): (r: Label)
    ensures r.RoundedMillions? <==> num > Million && num % Million != 0
    ensures r.RoundedMillions? ==> r.count == num
  {
    if num > Million then
      if num % Million == 0 then Text(IntToString(FloorDiv(num, Million)) + " M")
      else RoundedMillions(num)
    else Text(IntToString(FloorDiv(num, Thousand)) + " K")
  }

  datatype Unit = Thousands | Millions

  /** What a reader takes from a label: a whole amount and its unit. */
  datatype Reading = Reading(amount: int, unit: Unit)

  function Scale(r: Reading): int {
    match r.unit
    case Thousands => r.amount * Thousand
    case Millions => r.amount * Million
  }

  /** Reads a label "<integer> M" or "<integer> K". */
  function ParseLabel(s: string): Option<Reading> {
    if |s| < 2 then None
    else
      var unit := s[|s| - 2..];
      var amount := ParseInt(s[..|s| - 2]);
      if amount.None? then None
      else if unit == " M" then Some(Reading(amount.value, Millions))
      else if unit == " K" then Some(Reading(amount.value, Thousands))
      else None
  }

  lemma SuffixSplit(t: string, suffix: string)
    requires |suffix| == 2
    ensures var s := t + suffix; |s| >= 2 && s[..|s| - 2] == t && s[|s| - 2..] == suffix
  {
  }

  /** A multiple of one million above one million prints as its exact number
      of millions, with no decimal point: nothing is lost. */
  lemma ExactMillions(num: int)
    requires num > Million && num % Million == 0
    ensures FormatNumber(num).Text?
    ensures '.' !in FormatNumber(num).text
    ensures ParseLabel(FormatNumber(num).text) == Some(Reading(num / Million, Millions))
    ensures Scale(Reading(num / Million, Millions)) == num
  {
    var t := IntToString(num / Million);
    SuffixSplit(t, " M");
    IntToStringRoundTrip(num / Million);
  }

  /** Up to and including one million, and for every negative count, the
      label is the floored number of thousands; the millions form is never
      used there. */
  lemma FlooredThousands(num: int)
    requires num <= Million
    ensures FormatNumber(num).Text?
    ensures '.' !in FormatNumber(num).text
    ensures ParseLabel(FormatNumber(num).text) == Some(Reading(num / Thousand, Thousands))
    ensures Scale(Reading(num / Thousand, Thousands)) <= num < Scale(Reading(num / Thousand, Thousands)) + Thousand
  {
    var t := IntToString(num / Thousand);
    SuffixSplit(t, " K");
    IntToStringRoundTrip(num / Thousand);
  }

  /** Values at the edges of the branches. */
  lemma Examples()
    ensures FormatNumber(1000000) == Text("1000 K")
    ensures FormatNumber(-1500) == Text("-2 K")
    ensures FormatNumber(5000000) == Text("5 M")
    ensures FormatNumber(999000) == Text("999 K")
    ensures FormatNumber(5500000) == RoundedMillions(5500000)
  {
  }
}
