/**
  The estimated age-group breakdown of the dashboard: a fixed table of
  (young, adult, elderly) shares chosen by the year, applied to the year's
  population in millions, each product rounded to one decimal place on
  its own.
 */
module AgeGroups {
  import opened Rounding

  /** Shares of the population aged 0-20, 21-64 and 65+. */
  datatype Shares = Shares(young: real, adult: real, elderly: real)

  /** Estimated population of each age group, in millions. */
  datatype Estimate = Estimate(young: real, adult: real, elderly: real)

  /** Every share lies in [0, 1] and the three add up to exactly 1. */
  predicate IsDistribution(s: Shares) {
    && 0.0 <= s.young <= 1.0
    && 0.0 <= s.adult <= 1.0
    && 0.0 <= s.elderly <= 1.0
    && s.young + s.adult + s.elderly == 1.0
  }

  /** The four year ranges of the policy, written as explicit closed ranges:
      band 0 is up to 1979, band 1 is 1980-1999, band 2 is 2000-2010 and
      band 3 is from 2011 on. */
  predicate InBand(year: int, band: int) {
    || (band == 0 && year <= 1979)
    || (band == 1 && 1980 <= year <= 1999)
    || (band == 2 && 2000 <= year <= 2010)
    || (band == 3 && 2011 <= year)
  }

  /** The shares of each band, in band order. */
  const ShareTable: seq<Shares> := [
    Shares(0.45, 0.50, 0.05),
    Shares(0.42, 0.53, 0.05),
    Shares(0.38, 0.56, 0.06),
    Shares(0.36, 0.57, 0.07)
  ]

  /** The band the `if`/`elif` chain of `get_age_group_percentages` picks:
      every year lies in exactly one band. */
  function BandOf(year: int): (band: nat)
    ensures band < 4 && InBand(year, band)
    ensures forall other :: InBand(year, other) ==> other == band
  {
    if year <= 1979 then 0
    else if year <= 1999 then 1
    else if year <= 2010 then 2
    else 3
  }

  /** `get_age_group_percentages(year)`: the shares of the band the year
      lies in, which always form a distribution. */
  function AgeGroupPercentages(year: int): (s: Shares)
    ensures IsDistribution(s)
    ensures forall band :: InBand(year, band) ==> 0 <= band < 4 && s == ShareTable[band]
  {
    if year <= 1979 then Shares(0.45, 0.50, 0.05)
    else if year <= 1999 then Shares(0.42, 0.53, 0.05)
    else if year <= 2010 then Shares(0.38, 0.56, 0.06)
    else Shares(0.36, 0.57, 0.07)
  }

  /** Each boundary year takes the lower band. */
  lemma BoundaryYearsTakeLowerBand()
    ensures BandOf(1979) == 0 && BandOf(1980) == 1
    ensures BandOf(1999) == 1 && BandOf(2000) == 2
    ensures BandOf(2010) == 2 && BandOf(2011) == 3
    ensures AgeGroupPercentages(1979) == Shares(0.45, 0.50, 0.05)
    ensures AgeGroupPercentages(1980) == Shares(0.42, 0.53, 0.05)
    ensures AgeGroupPercentages(1999) == Shares(0.42, 0.53, 0.05)
    ensures AgeGroupPercentages(2000) == Shares(0.38, 0.56, 0.06)
    ensures AgeGroupPercentages(2010) == Shares(0.38, 0.56, 0.06)
    ensures AgeGroupPercentages(2011) == Shares(0.36, 0.57, 0.07)
  {
  }

  /** As the year grows the young share never rises, the adult share never
      falls and the elderly share never falls; between different bands the
      young share strictly falls and the adult share strictly rises. */
  lemma SharesShiftWithYear(earlier: int, later: int)
    requires earlier <= later
    ensures AgeGroupPercentages(earlier).young >= AgeGroupPercentages(later).young
    ensures AgeGroupPercentages(earlier).adult <= AgeGroupPercentages(later).adult
    ensures AgeGroupPercentages(earlier).elderly <= AgeGroupPercentages(later).elderly
    ensures BandOf(earlier) < BandOf(later) ==>
              && AgeGroupPercentages(earlier).young > AgeGroupPercentages(later).young
              && AgeGroupPercentages(earlier).adult < AgeGroupPercentages(later).adult
    ensures BandOf(earlier) == BandOf(later) ==> AgeGroupPercentages(earlier) == AgeGroupPercentages(later)
  {
  }

  /** `population / 1_000_000`. */
  function PopMillion(population: int): (m: real)
    ensures m * 1000000.0 == population as real
    ensures population >= 0 ==> m >= 0.0
  {
    population as real / 1000000.0
  }

  /** The three products before rounding. */
  function ExactValues(population: int, s: Shares): Estimate {
    var m := PopMillion(population);
    Estimate(m * s.young, m * s.adult, m * s.elderly)
  }

  function Total(e: Estimate): real {
    e.young + e.adult + e.elderly
  }

  /** Before rounding the three group values add up exactly to the
      population in millions. */
  lemma ExactValuesPartitionPopulation(population: int, s: Shares)
    ensures IsDistribution(s) ==> Total(ExactValues(population, s)) == PopMillion(population)
  {
    if IsDistribution(s) {
      var m := PopMillion(population);
      calc {
        m * s.young + m * s.adult + m * s.elderly;
        m * (s.young + s.adult + s.elderly);
        m * 1.0;
      }
    }
  }

  /** A non-negative population gives non-negative exact group values. */
  lemma ExactValuesNonNegative(population: int, s: Shares)
    ensures IsDistribution(s) && population >= 0 ==>
              var exact := ExactValues(population, s);
              exact.young >= 0.0 && exact.adult >= 0.0 && exact.elderly >= 0.0
  {
    if IsDistribution(s) && population >= 0 {
      var m := PopMillion(population);
      assert m >= 0.0;
      assert m * s.young >= 0.0;
      assert m * s.adult >= 0.0;
      assert m * s.elderly >= 0.0;
    }
  }

  /** The list `age_group_values`: each product rounded to a whole number of
      tenths, within 0.05 of its exact value; the rounded values are not
      renormalised, so their total is off from the population in millions
      by at most 0.15. */
  function AgeGroupValues(population: int, s: Shares): (e: Estimate)
    ensures IsTenth(e.young) && IsTenth(e.adult) && IsTenth(e.elderly)
    ensures Abs(e.young - ExactValues(population, s).young) <= 0.05
    ensures Abs(e.adult - ExactValues(population, s).adult) <= 0.05
    ensures Abs(e.elderly - ExactValues(population, s).elderly) <= 0.05
    ensures IsDistribution(s) ==> Abs(Total(e) - PopMillion(population)) <= 0.15
    ensures IsDistribution(s) && population >= 0 ==>
              e.young >= 0.0 && e.adult >= 0.0 && e.elderly >= 0.0
  {
    var exact := ExactValues(population, s);
    ExactValuesPartitionPopulation(population, s);
    ExactValuesNonNegative(population, s);
    RoundTenthNonNegative(exact.young);
    RoundTenthNonNegative(exact.adult);
    RoundTenthNonNegative(exact.elderly);
    Estimate(RoundTenth(exact.young), RoundTenth(exact.adult), RoundTenth(exact.elderly))
  }

  /** Each displayed value is the whole number of tenths nearest to its
      exact product. */
  lemma AgeGroupValuesAreNearestTenths(population: int, s: Shares, j: int)
    ensures var e := AgeGroupValues(population, s);
            var exact := ExactValues(population, s);
            && Abs(e.young - exact.young) <= Abs(j as real / 10.0 - exact.young)
            && Abs(e.adult - exact.adult) <= Abs(j as real / 10.0 - exact.adult)
            && Abs(e.elderly - exact.elderly) <= Abs(j as real / 10.0 - exact.elderly)
  {
    var exact := ExactValues(population, s);
    RoundTenthIsNearest(exact.young, j);
    RoundTenthIsNearest(exact.adult, j);
    RoundTenthIsNearest(exact.elderly, j);
  }

  /** The worked example of the year 2000 with 1,059,633,675 people:
      402.7, 593.4 and 63.6 million. */
  lemma Year2000Example()
    ensures AgeGroupValues(1059633675, AgeGroupPercentages(2000)) == Estimate(402.7, 593.4, 63.6)
  {
    assert RoundHalfEven(4026.607965) == 4027;
    assert RoundHalfEven(5933.94858) == 5934;
    assert RoundHalfEven(635.780205) == 636;
  }
}
