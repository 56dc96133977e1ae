/**
  One pass of the dashboard script: look up the selected year's
  population, derive the age-group estimate from it, and pair it with the
  fixed age-distribution curve. The curve used here is the corrected
  real-valued `AgeCurve.CurveTable`; the integer array the script actually
  computes is `AgeCurve.CurveAsWritten`.
 */
module Dashboard {
  import opened Rounding
  import opened YearSelection
  import opened AgeGroups
  import AgeCurve

  /** What the page shows for one selected year. */
  datatype Insight = Insight(year: int, population: int, ageGroups: Estimate, curve: seq<real>)

  /** The numbers behind the page for `year`; `None` where the row lookup
      raises. When it succeeds, the population is the value of the first
      row of that year, the age groups are that population split by the
      year's shares and rounded, and the curve is the corrected
      real-valued curve, the same whatever the year or the data. */
  function YearInsight(data: seq<Row>, year: int): (r: Option<Insight>)
    ensures r.Some? <==> year in Years(data)
    ensures r.Some? ==>
              && FirstIndexOfYear(data, year).Some?
              && r.value.year == year
              && r.value.population == ValueOf(data[FirstIndexOfYear(data, year).value])
              && r.value.ageGroups == AgeGroupValues(r.value.population, AgeGroupPercentages(year))
              && Abs(Total(r.value.ageGroups) - PopMillion(r.value.population)) <= 0.15
              && r.value.curve == AgeCurve.CurveTable()
  {
    SelectRowIsFirstMatch(data, year);
    match PopulationOf(data, year)
    case None => None
    case Some(population) =>
      Some(Insight(year, population,
                   AgeGroupValues(population, AgeGroupPercentages(year)),
                   AgeCurve.CurveTable()))
  }

  /** Whatever year the dropdown offers, the page has its numbers. */
  lemma OfferedYearHasInsight(data: seq<Row>, year: int)
    requires year in YearOptions(data)
    ensures YearInsight(data, year).Some?
  {
    assert year in Elems(YearOptions(data));
  }

  /** The dropdown's initial choice is its first option: for a non-empty
      dataset that is the earliest year, and the page has its numbers. */
  lemma InitialSelectionIsEarliestYear(data: seq<Row>)
    requires data != []
    ensures YearOptions(data) != []
    ensures forall y :: y in Years(data) ==> YearOptions(data)[0] <= y
    ensures YearInsight(data, YearOptions(data)[0]).Some?
  {
    OptionsEmptyIffNoData(data);
    var opts := YearOptions(data);
    forall y | y in Years(data) ensures opts[0] <= y {
      assert y in Elems(opts);
      var k :| 0 <= k < |opts| && opts[k] == y;
      assert k == 0 || opts[0] < opts[k];
    }
    assert opts[0] in Elems(opts);
  }
}
