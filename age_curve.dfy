/**
  The illustrative age-distribution curve: a three-branch tent function of
  age over the ages 0..100, clipped below at 0. It is a function of age
  alone; neither the selected year nor the dataset enters it.
 */
module AgeCurve {
  import opened Rounding

  /** The three branch conditions, exactly as the condition list states them. */
  predicate YoungCond(age: int) { age <= 20 }
  predicate AdultCond(age: int) { 20 < age && age <= 64 }
  predicate ElderlyCond(age: int) { age > 64 }

  datatype Branch = Young | Adult | Elderly

  /** The branch whose condition holds: the three conditions partition the
      integers, so each age has exactly one. */
  function BranchOf(age: int): (b: Branch)
    ensures (b == Young) == YoungCond(age)
    ensures (b == Adult) == AdultCond(age)
    ensures (b == Elderly) == ElderlyCond(age)
  {
    if age <= 20 then Young else if age <= 64 then Adult else Elderly
  }

  /** `|age - centre|`. */
  function Gap(age: int, centre: int): (g: nat)
    ensures g as int == age - centre || g as int == centre - age
  {
    if age < centre then centre - age else age - centre
  }

  /** The age at which each branch peaks, and its value there. */
  function Centre(b: Branch): int {
    match b
    case Young => 15
    case Adult => 30
    case Elderly => 70
  }

  function Peak(b: Branch): real {
    match b
    case Young => 25.0
    case Adult => 30.0
    case Elderly => 10.0
  }

  /** The formula of each branch: a tent that reaches its peak at its
      centre and nowhere else. */
  function Formula(b: Branch, age: int): (v: real)
    ensures v <= Peak(b)
    ensures v == Peak(b) <==> age == Centre(b)
  {
    match b
    case Young => 25.0 - 0.3 * Gap(age, 15) as real
    case Adult => 30.0 - 0.4 * Gap(age, 30) as real
    case Elderly => 10.0 - 0.2 * Gap(age, 70) as real
  }

  /** `np.piecewise` on one age: the output starts at zero and each
      condition in turn overwrites it with its formula, so where conditions
      overlapped the last would win; as they partition the ages, the value
      is the formula of the age's one branch. */
  function Piecewise(age: int): (v: real)
    ensures v == Formula(BranchOf(age), age)
  {
    var v0 := 0.0;
    var v1 := if YoungCond(age) then Formula(Young, age) else v0;
    var v2 := if AdultCond(age) then Formula(Adult, age) else v1;
    if ElderlyCond(age) then Formula(Elderly, age) else v2
  }

  /** `np.clip(x, 0, None)`: the least value at or above both 0 and `x`. */
  function Clip(x: real): (r: real)
    ensures r >= 0.0 && r >= x
    ensures r == 0.0 || r == x
  {
    if x < 0.0 then 0.0 else x
  }

  /** The curve's value at one age: never negative, and on the plotted ages
      0..100 the raw tent is at least 4, so the clip leaves it unchanged. */
  function Curve(age: int): (v: real)
    ensures v >= 0.0
    ensures 0 <= age <= 100 ==> v == Formula(BranchOf(age), age) && v >= 4.0
  {
    Clip(Piecewise(age))
  }

  /** The whole curve over `np.arange(0, 101, 1)`: one entry per age
      0..100, none negative. */
  function CurveTable(): (c: seq<real>)
    ensures |c| == 101
    ensures forall age :: 0 <= age < |c| ==> c[age] == Curve(age) && c[age] >= 0.0
  {
    seq(101, age => Curve(age))
  }

  /** Age 20 is the last age of the young branch and age 21 the first of
      the adult branch; age 64 is the last adult age and 65 the first
      elderly one. */
  lemma BranchBoundaries()
    ensures BranchOf(20) == Young && BranchOf(21) == Adult
    ensures BranchOf(64) == Adult && BranchOf(65) == Elderly
  {
  }

  /** Each branch peaks at its centre: 25 at age 15, 30 at age 30 and 10 at
      age 70, and no age of the branch goes above that peak. */
  lemma BranchPeaks(age: int)
    ensures Curve(15) == 25.0 && Curve(30) == 30.0 && Curve(70) == 10.0
    ensures YoungCond(age) ==> Curve(age) <= 25.0
    ensures AdultCond(age) ==> Curve(age) <= 30.0
    ensures ElderlyCond(age) ==> Curve(age) <= 10.0
  {
  }

  /** `x` cast to an integer type, as numpy does when it stores a float in
      an integer array: the fraction is dropped, towards zero. */
  function TruncTowardZero(x: real): (n: int)
    ensures Abs(n as real) <= Abs(x) < Abs(n as real) + 1.0
    ensures (x >= 0.0 ==> n >= 0) && (x <= 0.0 ==> n <= 0)
  {
    if x >= 0.0 then x.Floor else -((-x).Floor)
  }

  /** `np.clip(n, 0, None)` on an integer array. */
  function ClipInt(n: int): (r: int)
    ensures r >= 0 && r >= n
    ensures r == 0 || r == n
  {
    if n < 0 then 0 else n
  }

  /** The curve as the code computes it: `np.piecewise` returns an array of
      the type of `ages`, an integer array, so each formula's value is
      truncated before the clip. Each entry is the intended value with its
      fraction dropped. */
  function CurveAsWrittenAt(age: int): (v: int)
    ensures v >= 0
    ensures 0 <= age <= 100 ==> v as real <= Curve(age) < v as real + 1.0
  {
    ClipInt(TruncTowardZero(Piecewise(age)))
  }

  /** The integer array the code plots, one entry per age 0..100. */
  function CurveAsWritten(): (c: seq<int>)
    ensures |c| == 101
    ensures forall age :: 0 <= age < |c| ==> c[age] == CurveAsWrittenAt(age) && c[age] >= 0
  {
    seq(101, age => CurveAsWrittenAt(age))
  }

  /** The truncation is visible: at age 0 the formula gives 20.5 but the
      code stores 20, and at age 64 it gives 16.4 but the code stores 16. */
  lemma AsWrittenDropsFractions()
    ensures Curve(0) == 20.5 && CurveAsWritten()[0] == 20
    ensures Curve(64) == 16.4 && CurveAsWritten()[64] == 16
  {
    assert Piecewise(0) == 20.5;
    assert Piecewise(64) == 16.4;
  }
}
