# India population dashboard: verified model of its computations

The dashboard is a single Streamlit script, `app.py`. It lets the reader pick a
year from a dropdown and looks up that year's population. From the population it
estimates how many people are aged 0-20, 21-64 and 65+, using fixed shares that
depend on the year. It also draws a fixed, illustrative age-distribution curve.
This project models the computations behind those numbers as pure Dafny
functions over exact reals, and proves their properties as lemmas and
postconditions:

- `rounding.dfy` (module `Rounding`): `round(x, 1)` on the `numpy.float64`
  products as nearest-tenth rounding with ties to even. numpy scales by 10,
  rounds half to even and scales back; on exact reals this is the same rule.
- `age_groups.dfy` (module `AgeGroups`): `get_age_group_percentages` and the
  list `age_group_values`.
- `age_curve.dfy` (module `AgeCurve`): the `np.piecewise` tent curve and its
  clip at 0. It is modelled both as the code computes it (integer entries) and
  as evidently intended (real entries); see "Findings".
- `year_selection.dfy` (module `YearSelection`): the dropdown options
  `sorted(df["Year"].unique())` and the lookup `df[df["Year"] == y].iloc[0]`.
  The dataset is a `seq<(int, int)>` of (`Year`, `Value`) rows. The lookup's
  `IndexError` is `None`.
- `dashboard.dfy` (module `Dashboard`): one pass of the script for a selected
  year.

Two points about what the code does:

- The rounded age-group values are not renormalised. Each is within 0.05 of
  its product, so their total is within 0.15 million of
  `population / 1_000_000`.
- Two curves are modelled. `AgeCurve.CurveAsWritten` is the integer array the
  code computes. `AgeCurve.CurveTable` is the corrected real-valued curve. The
  section title "Smooth Shape Distribution" (app.py:75-76) shows that a smooth
  curve was intended. The dashboard pass `Dashboard.YearInsight` uses the
  corrected curve (see "Findings").

## Model

| member | source | states |
|---|---|---|
| AgeGroups.BandOf | app.py:38-46 | The `if`/`elif` chain puts every integer year in exactly one of the ranges ≤1979, 1980–1999, 2000–2010 and ≥2011. |
| AgeGroups.AgeGroupPercentages | app.py:38-46 | Every year gets shares in [0,1] that sum to exactly 1. The shares are the table row of the one range the year lies in. |
| AgeGroups.BoundaryYearsTakeLowerBand | app.py:39-46 | 1979, 1999 and 2010 take the lower band. 1980, 2000 and 2011 start the next band. `AgeGroupPercentages` returns the matching triple at each of these six years. |
| AgeGroups.SharesShiftWithYear | app.py:40-46 | As the year rises, the young share never rises and the adult and elderly shares never fall. Across bands the young share strictly falls and the adult share strictly rises. Within a band the shares are equal. |
| AgeGroups.PopMillion | app.py:50 | `population / 1_000_000` is the real number that gives back the population when multiplied by 1,000,000. It is non-negative for a non-negative population. |
| AgeGroups.ExactValues | app.py:52-54 | The three unrounded products. It has no contract of its own: `ExactValuesPartitionPopulation` and `ExactValuesNonNegative` state its properties. |
| AgeGroups.ExactValuesPartitionPopulation | app.py:50-55 | Before rounding, the three group values add up to exactly `population / 1_000_000`. |
| AgeGroups.ExactValuesNonNegative | app.py:50-55 | A non-negative population gives non-negative unrounded group values. |
| AgeGroups.AgeGroupValues | app.py:50-55 | Each displayed value is a whole number of tenths within 0.05 of its exact product. With shares summing to 1, the three values sum to within 0.15 of the population in millions. They are non-negative for a non-negative population. |
| AgeGroups.AgeGroupValuesAreNearestTenths | app.py:51-55 | Each displayed value is the whole number of tenths nearest to its own exact product. Each is rounded separately, with no renormalisation. |
| AgeGroups.Year2000Example | app.py:49-55 | Year 2000 with 1,059,633,675 people gives 402.7, 593.4 and 63.6 million. |
| Rounding.RoundHalfEven | app.py:52-54 | The integer chosen is within 1/2 of the input. On an exact tie it is even. |
| Rounding.RoundHalfEvenIsNearest | app.py:52-54 | No integer is closer to the input than the one chosen. |
| Rounding.RoundTenth | app.py:52-54 | `round(x, 1)` is a whole number of tenths within 0.05 of `x`. On an exact tie it is an even number of tenths. |
| Rounding.RoundTenthIsNearest | app.py:52-54 | No whole number of tenths is closer to `x` than `round(x, 1)`. |
| Rounding.RoundTenthTiesToEven | app.py:52-54 | 0.25 rounds to 0.2 and 0.75 rounds to 0.8. |
| Rounding.RoundTenthNonNegative | app.py:52-54 | Rounding a non-negative value gives a non-negative value. |
| AgeCurve.BranchOf | app.py:82 | The conditions `a<=20`, `20<a<=64` and `a>64` partition the integers. The chosen branch is exactly the one whose condition holds. |
| AgeCurve.Formula | app.py:83-85 | Each branch's lambda is at most the branch's peak (25, 30 or 10). It equals the peak exactly at the branch's centre (age 15, 30 or 70). |
| AgeCurve.Piecewise | app.py:80-86 | `np.piecewise` starts from zeros and lets each true condition overwrite the value. The result is the formula of the age's unique branch. |
| AgeCurve.Clip | app.py:88 | `np.clip(x, 0, None)` is at least 0 and at least `x`, and it is either 0 or `x`. |
| AgeCurve.Curve | app.py:78-88 | The intended curve is never negative. On ages 0..100 the raw tent is at least 4, so the clip leaves the branch formula unchanged. |
| AgeCurve.CurveTable | app.py:78-88 | The intended curve has exactly 101 entries, for ages 0..100. Each entry is the value at that age and is non-negative. It takes no year or dataset as input. |
| AgeCurve.BranchBoundaries | app.py:82 | Age 20 takes the young branch and age 21 the adult branch. Age 64 takes the adult branch and age 65 the elderly branch. |
| AgeCurve.BranchPeaks | app.py:83-85 | The curve is 25 at age 15, 30 at age 30 and 10 at age 70. No age in a branch exceeds that branch's peak. |
| AgeCurve.TruncTowardZero | app.py:80-86 | Storing a float in an integer array drops its fraction toward zero. The magnitude never grows, it falls by less than 1, and the sign is kept. |
| AgeCurve.ClipInt | app.py:88 | `np.clip` on the integer array gives a value of at least 0 and at least `n`, and it is either 0 or `n`. |
| AgeCurve.CurveAsWrittenAt | app.py:78-88 | The curve as the code computes it is a non-negative integer. On ages 0..100 it is the intended value with its fraction dropped. |
| AgeCurve.CurveAsWritten | app.py:78-88 | The integer array the code plots has 101 non-negative entries, one per age 0..100. |
| AgeCurve.AsWrittenDropsFractions | app.py:78-88 | At age 0 the formula gives 20.5 but the code stores 20. At age 64 the formula gives 16.4 but the code stores 16. |
| YearSelection.Insert | app.py:17 | Inserting a year into a strictly increasing option list keeps the list strictly increasing and adds exactly that year. |
| YearSelection.YearOptions | app.py:17 | The dropdown options are strictly increasing, so each year appears once. They are exactly the set of years in the data. |
| YearSelection.SortedListingIsUnique | app.py:17 | Only one strictly increasing list has a given set of years. Any sorted list of the distinct years therefore equals the options. |
| YearSelection.OptionsEmptyIffNoData | app.py:17 | The dropdown has no options exactly when the dataset has no rows. |
| YearSelection.RowsOfYear | app.py:20 | The filter `df["Year"] == y` keeps exactly the rows of year `y`. Every kept row comes from the data and has that year. Every row of that year is kept. The result is no longer than the data. |
| YearSelection.RowsOfYearKeepsOrder | app.py:20 | The filter keeps data order: filtering two consecutive parts of the data and joining the results is filtering the whole. |
| YearSelection.SelectRow | app.py:20 | `.iloc[0]` of the filter gives a row of the data with the selected year. It gives `None` (the IndexError) exactly when the year is absent. `SelectRowIsFirstMatch` shows it is the first such row. |
| YearSelection.FirstIndexOfYear | app.py:20 | If there is a result, it is an index whose row has the year, and no earlier row has it. There is no result exactly when the year is absent from the data. |
| YearSelection.SelectRowIsFirstMatch | app.py:20 | `.iloc[0]` of the filtered rows is the row at the first matching index. It fails exactly when no row matches. |
| YearSelection.PopulationOf | app.py:20-21 | `row["Value"]` of the selected row is the value of some row of the data with that year. It is `None` exactly when the year is absent. |
| YearSelection.OptionsAlwaysFindARow | app.py:17-21 | Every offered year has a matching row. The lookup returns the `Value` of the first row of that year. |
| YearSelection.MissingYearFails | app.py:20-21 | A year not in the data makes the lookup fail. |
| Dashboard.YearInsight | app.py:20-55 | A selection yields numbers exactly when its year is in the data. The population is the first matching row's value, and the age groups are that population split by the year's shares. The rounded groups sum to within 0.15 of the population in millions. The curve is the corrected real-valued curve, the same for every selection. |
| Dashboard.OfferedYearHasInsight | app.py:17-21 | Every year the dropdown offers yields numbers. |
| Dashboard.InitialSelectionIsEarliestYear | app.py:17 | For a non-empty dataset, the first option is the earliest year and yields numbers. |

## Findings

| source | as written | input that shows it | evidently intended | confidence | as-written member | corrected member |
|---|---|---|---|---|---|---|
| app.py:78-86 | `ages` is an integer array, and `np.piecewise` returns an array of its input's type, so each formula value is truncated to an integer before the clip | age 0: `25 - 0.3*15` is 20.5, but the array holds 20; age 64: 16.4 becomes 16 | the smooth real-valued tent the formulas describe, as the section title "Smooth Shape Distribution" at app.py:75-76 says | high: numpy documents that the output has the input's type; not executed | AgeCurve.AsWrittenDropsFractions | AgeCurve.CurveTable |

`AgeCurve.CurveAsWritten` and `AgeCurve.CurveAsWrittenAt` model the code as
written. `AgeCurve.CurveTable` is the corrected curve, and `Dashboard` uses it.

## Left out

- Page configuration, titles, markdown, the `st.success` text and the
  `selectbox` widget: these are presentation only. The selected year is a
  parameter. `Dashboard.InitialSelectionIsEarliestYear` relies on the widget
  selecting its first option by default, which is Streamlit's behaviour and
  not something the script does.
- `pd.read_csv`: file I/O. The dataset is an input sequence of
  (`Year`, `Value`) rows. A missing or malformed file, and non-numeric
  values, are not modelled.
- All matplotlib and `st.pyplot` / `st.line_chart` drawing, including the bar
  labels and the marker at age 28. That marker is a fixed label, not a
  computed value.
- Binary floating point. Shares, products and the curve are exact reals.
  `round(x, 1)` is exact nearest-tenth rounding with ties to even, so
  representation effects of IEEE-754 doubles are not captured (for example,
  a double just below an exact tie).
- The 64-bit width of pandas' integer column: populations are unbounded
  integers.
