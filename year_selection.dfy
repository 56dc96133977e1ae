/**
  The year dropdown and the row lookup: the options are the sorted distinct
  years of the dataset, and the selected year is looked up as the first row
  whose year matches it.
 */
module YearSelection {

  datatype Option<T> = None | Some(value: T)

  /** One row of the dataset: its `Year` and `Value` columns. */
  type Row = (int, int)

  function YearOf(row: Row): int { row.0 }
  function ValueOf(row: Row): int { row.1 }

  /** The years that occur in the dataset. */
  function Years(data: seq<Row>): set<int> {
    set row | row in data :: YearOf(row)
  }

  function Elems(s: seq<int>): set<int> {
    set x | x in s
  }

  predicate StrictlyIncreasing(s: seq<int>) {
    forall i, j :: 0 <= i < j < |s| ==> s[i] < s[j]
  }

  /** The elements of a sequence with one element in front. */
  lemma ElemsCons(x: int, t: seq<int>)
    ensures Elems([x] + t) == {x} + Elems(t)
  {
    assert forall z :: z in [x] + t <==> z == x || z in t;
  }

  /** Putting a value below every element in front of a strictly increasing
      sequence keeps it strictly increasing. */
  lemma ConsIncreasing(x: int, t: seq<int>)
    requires StrictlyIncreasing(t)
    requires forall z :: z in t ==> x < z
    ensures StrictlyIncreasing([x] + t)
  {
    var r := [x] + t;
    forall i, j | 0 <= i < j < |r| ensures r[i] < r[j] {
      assert r[j] == t[j - 1] && t[j - 1] in t;
      if i > 0 {
        assert r[i] == t[i - 1];
      }
    }
  }

  /** The step of `Insert` that keeps the head of `s` in front of the
      insertion into its tail. */
  lemma InsertAfterHead(s: seq<int>, y: int, rest: seq<int>)
    requires StrictlyIncreasing(s) && s != [] && s[0] < y
    requires StrictlyIncreasing(rest) && Elems(rest) == Elems(s[1..]) + {y}
    ensures StrictlyIncreasing([s[0]] + rest)
    ensures Elems([s[0]] + rest) == Elems(s) + {y}
  {
    ElemsCons(s[0], s[1..]);
    assert s == [s[0]] + s[1..];
    ElemsCons(s[0], rest);
    assert forall z :: z in s[1..] ==> s[0] < z;
    assert forall z :: z in rest ==> z in Elems(rest);
    ConsIncreasing(s[0], rest);
  }

  /** Inserts `y` into a strictly increasing sequence, keeping it strictly
      increasing and adding nothing else. */
  function Insert(s: seq<int>, y: int): (r: seq<int>)
    requires StrictlyIncreasing(s)
    ensures StrictlyIncreasing(r)
    ensures Elems(r) == Elems(s) + {y}
  {
    if s == [] then [y]
    else if y < s[0] then
      ElemsCons(y, s);
      ConsIncreasing(y, s);
      [y] + s
    else if y == s[0] then
      assert s[0] in s;
      s
    else
      var rest := Insert(s[1..], y);
      InsertAfterHead(s, y, rest);
      [s[0]] + rest
  }

  /** `sorted(df["Year"].unique())`: strictly increasing, and holding
      exactly the years of the dataset. */
  function YearOptions(data: seq<Row>): (opts: seq<int>)
    ensures StrictlyIncreasing(opts)
    ensures Elems(opts) == Years(data)
  {
    if data == [] then []
    else
      var front := data[..|data| - 1];
      assert Years(data) == Years(front) + {YearOf(data[|data| - 1])} by {
        assert forall i :: 0 <= i < |front| ==> front[i] == data[i];
      }
      Insert(YearOptions(front), YearOf(data[|data| - 1]))
  }

  lemma ElemsEmpty(s: seq<int>)
    ensures Elems(s) == {} <==> s == []
  {
    if s != [] {
      assert s[0] in Elems(s);
    }
  }

  /** A finite set of integers has only one strictly increasing listing, so
      any sorted list of the distinct years is the option list. */
  lemma {:induction false} SortedListingIsUnique(a: seq<int>, b: seq<int>)
    requires StrictlyIncreasing(a) && StrictlyIncreasing(b)
    requires Elems(a) == Elems(b)
    ensures a == b
  {
    ElemsEmpty(a);
    ElemsEmpty(b);
    if a != [] && b != [] {
      assert a[0] in Elems(b) && b[0] in Elems(a);
      assert a[0] == b[0];
      assert Elems(a) == {a[0]} + Elems(a[1..]);
      assert Elems(b) == {b[0]} + Elems(b[1..]);
      assert a[0] !in Elems(a[1..]);
      assert b[0] !in Elems(b[1..]);
      SortedListingIsUnique(a[1..], b[1..]);
    }
  }

  /** The dropdown has options exactly when the dataset has rows. */
  lemma OptionsEmptyIffNoData(data: seq<Row>)
    ensures YearOptions(data) == [] <==> data == []
  {
    if data != [] {
      assert YearOf(data[0]) in Years(data);
      assert YearOf(data[0]) in Elems(YearOptions(data));
    }
  }

  /** `df[df["Year"] == year]`: the rows of that year, in dataset order. */
  function RowsOfYear(data: seq<Row>, year: int): (rows: seq<Row>)
    ensures |rows| <= |data|
    ensures forall k :: 0 <= k < |rows| ==> YearOf(rows[k]) == year
    ensures forall k :: 0 <= k < |rows| ==> rows[k] in data
    ensures forall r :: r in data && YearOf(r) == year ==> r in rows
  {
    if data == [] then []
    else if YearOf(data[0]) == year then [data[0]] + RowsOfYear(data[1..], year)
    else RowsOfYear(data[1..], year)
  }

  /** The filter keeps dataset order: filtering two consecutive parts of
      the data and joining the results is filtering the whole. */
  lemma {:induction false} RowsOfYearKeepsOrder(a: seq<Row>, b: seq<Row>, year: int)
    ensures RowsOfYear(a + b, year) == RowsOfYear(a, year) + RowsOfYear(b, year)
  {
    if a == [] {
      assert a + b == b;
    } else {
      assert (a + b)[1..] == a[1..] + b;
      RowsOfYearKeepsOrder(a[1..], b, year);
    }
  }

  /** `.iloc[0]` of the filtered rows; `None` stands for the IndexError it
      raises when no row has that year. */
  function SelectRow(data: seq<Row>, year: int): (r: Option<Row>)
    ensures r.Some? ==> r.value in data && YearOf(r.value) == year
    ensures r.None? <==> year !in Years(data)
  {
    var rows := RowsOfYear(data, year);
    if |rows| > 0 then Some(rows[0]) else None
  }

  /** The first index whose row has the given year, if any. */
  function FirstIndexOfYear(data: seq<Row>, year: int): (r: Option<nat>)
    ensures r.Some? ==> r.value < |data| && YearOf(data[r.value]) == year
    ensures r.Some? ==> forall j :: 0 <= j < r.value ==> YearOf(data[j]) != year
    ensures r.None? <==> year !in Years(data)
  {
    if data == [] then None
    else if YearOf(data[0]) == year then Some(0)
    else
      assert Years(data) == {YearOf(data[0])} + Years(data[1..]) by {
        assert forall i :: 1 <= i < |data| ==> data[i] == data[1..][i - 1];
      }
      match FirstIndexOfYear(data[1..], year)
      case None => None
      case Some(i) => Some(i + 1)
  }

  /** The filtered lookup returns the row at the first index with that
      year, and fails exactly when the year does not occur. */
  lemma {:induction false} SelectRowIsFirstMatch(data: seq<Row>, year: int)
    ensures SelectRow(data, year).None? <==> FirstIndexOfYear(data, year).None?
    ensures FirstIndexOfYear(data, year).Some? ==>
              SelectRow(data, year) == Some(data[FirstIndexOfYear(data, year).value])
  {
    if data != [] && YearOf(data[0]) != year {
      SelectRowIsFirstMatch(data[1..], year);
    }
  }

  /** `row["Value"]` of the selected row. */
  function PopulationOf(data: seq<Row>, year: int): (r: Option<int>)
    ensures r.None? <==> year !in Years(data)
    ensures r.Some? ==> exists row :: row in data && YearOf(row) == year && ValueOf(row) == r.value
  {
    match SelectRow(data, year)
    case None => None
    case Some(row) => Some(ValueOf(row))
  }

  /** Every year offered by the dropdown has a matching row, so the lookup
      succeeds and returns the value of the first row of that year. */
  lemma OptionsAlwaysFindARow(data: seq<Row>, year: int)
    requires year in Elems(YearOptions(data))
    ensures FirstIndexOfYear(data, year).Some?
    ensures PopulationOf(data, year) == Some(ValueOf(data[FirstIndexOfYear(data, year).value]))
  {
    SelectRowIsFirstMatch(data, year);
  }

  /** A year outside the dataset makes the lookup fail. */
  lemma MissingYearFails(data: seq<Row>, year: int)
    requires year !in Years(data)
    ensures PopulationOf(data, year) == None
  {
    SelectRowIsFirstMatch(data, year);
  }
}
