/**
  `formatNumber`: picks a magnitude tier by threshold, scales the number to it,
  and writes "$" + digits + suffix. Digit rendering (`toFixed(2)` for the
  scaled tiers, `toLocaleString` with two decimals otherwise) is left abstract:
  the two renderers are parameters.
*/
module NumberFormat {

  /** The three branches of `formatNumber`. */
  datatype Scale = Billions | Millions | Units {

    /** The number the value is divided by before it is rendered. */
    function Divisor(): real
    {
      match this
      case Billions => 1000000000.0
      case Millions => 1000000.0
      case Units => 1.0
    }

    /** The letter written after the digits. */
    function Suffix(): string
    {
      match this
      case Billions => "B"
      case Millions => "M"
      case Units => ""
    }
  }

  /**
    The tier of a number. The scaled value handed to the renderer is at least 1
    for billions and lies in [1, 1000) for millions; units cover everything below
    a million. Rounding to two decimals can still show 1000.00 before "M".
  */
  function ScaleOf(num: real): (s: Scale)
    ensures s == Billions ==> num / s.Divisor() >= 1.0
    ensures s == Millions ==> 1.0 <= num / s.Divisor() < 1000.0
    ensures s == Units ==> num < 1000000.0
  {
    if num >= 1000000000.0 then Billions
    else if num >= 1000000.0 then Millions
    else Units
  }

  /** Text `toLocaleString` produces for a real: digits, grouping commas, a decimal point, a sign. */
  predicate NumericText(t: string)
  {
    forall i | 0 <= i < |t| :: t[i] in "0123456789,.-"
  }

  /**
    The renderer of the untiered branch produces numeric text for every input.
    Nothing is assumed of `fixed2`: `toFixed(2)` writes exponent form from 1e21 on.
  */
  ghost predicate NumericRenderer(grouped2: real -> string)
  {
    forall x :: NumericText(grouped2(x))
  }

  /**
    `formatNumber(num)` with `fixed2` for `toFixed(2)` and `grouped2` for
    `toLocaleString('en-US', 2 fraction digits)`. The text always starts with
    "$" and ends with the tier's suffix; between them stands the number scaled
    to its tier, rendered by `fixed2` for billions and millions and by
    `grouped2`, unscaled, for units.
  */
  function FormatNumber(num: real, fixed2: real -> string, grouped2: real -> string): (r: string)
    ensures |r| >= 1 && r[0] == '$'
    ensures var suffix := ScaleOf(num).Suffix();
      |r| >= 1 + |suffix| && r[|r| - |suffix|..] == suffix
    ensures var s := ScaleOf(num);
      r == "$" + (if s == Units then grouped2(num) else fixed2(num / s.Divisor())) + s.Suffix()
  {
    if num >= 1000000000.0 then "$" + fixed2(num / 1000000000.0) + "B"
    else if num >= 1000000.0 then "$" + fixed2(num / 1000000.0) + "M"
    else "$" + grouped2(num)
  }

  /** Reads the tier back from a formatted text, by its last character. */
  function ScaleOfText(t: string): Scale
  {
    if t != [] && t[|t| - 1] == 'B' then Billions
    else if t != [] && t[|t| - 1] == 'M' then Millions
    else Units
  }

  /**
    With a `grouped2` that writes only numeric text, the tier can be read back
    from the formatted text: it ends in "B" exactly for num >= 1e9 and in "M"
    exactly for 1e6 <= num < 1e9; smaller numbers get neither letter.
  */
  lemma ScaleReadBack(num: real, fixed2: real -> string, grouped2: real -> string)
    requires NumericRenderer(grouped2)
    ensures ScaleOfText(FormatNumber(num, fixed2, grouped2)) == ScaleOf(num)
  {
  }

  /**
    The suffix letter by threshold, read off `ScaleReadBack`: "B" exactly when
    num >= 1e9, "M" exactly when 1e6 <= num < 1e9, neither below 1e6.
  */
  lemma SuffixByThreshold(num: real, fixed2: real -> string, grouped2: real -> string)
    requires NumericRenderer(grouped2)
    ensures var r := FormatNumber(num, fixed2, grouped2);
      (r[|r| - 1] == 'B' <==> num >= 1000000000.0) &&
      (r[|r| - 1] == 'M' <==> 1000000.0 <= num < 1000000000.0)
  {
    ScaleReadBack(num, fixed2, grouped2);
  }
}
