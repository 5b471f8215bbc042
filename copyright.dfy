/**
 * The copyright-year string: the first year of the guide alone in that year,
 * otherwise the range from it to the current year. The current year is a
 * parameter instead of a reading of the wall clock.
 */
module Copyright {
  import opened Wrappers
  import opened Decimal

  /** The year the guide was first published. */
  const FirstYear: nat := 2020

  /** `str(this_year) if this_year == 2020 else f'2020-{this_year}'`. */
  function CopyrightYear(thisYear: nat): (r: string)
    ensures |r| >= 4 && r[..4] == "2020"
    ensures r == "2020" <==> thisYear == FirstYear
    ensures thisYear != FirstYear ==> |r| > 5 && r[4] == '-' && r[5..] == NatToDecimal(thisYear)
  {
    assert NatToDecimal(2020) == "2020";
    if thisYear == FirstYear then NatToDecimal(thisYear) else "2020-" + NatToDecimal(thisYear)
  }

  /** Recovers the current year from a copyright-year string, the inverse of `CopyrightYear`. */
  function CurrentYearOf(r: string): Option<nat> {
    if r == "2020" then Some(FirstYear)
    else if |r| > 5 && r[..5] == "2020-" && AllDigits(r[5..]) then Some(DecimalValue(r[5..]))
    else None
  }

  /** The copyright-year string records the current year exactly. */
  lemma CopyrightYearRoundTrip(thisYear: nat)
    ensures CurrentYearOf(CopyrightYear(thisYear)) == Some(thisYear)
  {
    var r := CopyrightYear(thisYear);
    if thisYear != FirstYear {
      assert r[5..] == NatToDecimal(thisYear);
      DecimalRoundTrip(thisYear);
    }
  }

  /** Different years give different copyright-year strings. */
  lemma CopyrightYearInjective(a: nat, b: nat)
    requires CopyrightYear(a) == CopyrightYear(b)
    ensures a == b
  {
    CopyrightYearRoundTrip(a);
    CopyrightYearRoundTrip(b);
  }

  lemma CopyrightYearExamples()
    ensures CopyrightYear(2020) == "2020"
    ensures CopyrightYear(2024) == "2020-2024"
  {
    assert NatToDecimal(2024) == "2024";
  }
}
