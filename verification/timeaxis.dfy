/**
 * The time-axis generator (`generate_time_points`): from a start date, an end
 * date and a granularity name, the contiguous run of period labels
 * `"YYYYQn"`, `"YYYY-MM"` or `"YYYY"` between the two dates.
 *
 * A period is a pair (year, index) with the index counted from 1 within the
 * year (quarter 1..4, month 1..12, always 1 for a year). Numbering the periods
 * consecutively (`Ordinal`) turns the source's year/period rollover loop into
 * an interval of integers, which is the reference the loop is proved against.
 */
module TimeAxis {
  import opened Wrappers
  import opened Strings

  /** A `datetime` as the generator reads it: year and month; the day is carried but never used. */
  datatype DateTime = DateTime(year: int, month: int, day: int)

  /** Python's `datetime` always has a month in 1..12. */
  type Date = d: DateTime | 1 <= d.month <= 12 witness DateTime(2025, 1, 1)

  datatype Granularity = Quarter | Month | Year

  const QuarterName: string := "季度"
  const MonthName: string := "月份"
  const YearName: string := "年度"

  /** The granularity a name selects; any other name selects none (the generator then yields `[]`). */
  function ParseGranularity(name: string): (r: Option<Granularity>)
    ensures r == Some(Quarter) <==> name == QuarterName
    ensures r == Some(Month) <==> name == MonthName
    ensures r == Some(Year) <==> name == YearName
    ensures r.None? <==> name !in {QuarterName, MonthName, YearName}
  {
    if name == QuarterName then Some(Quarter)
    else if name == MonthName then Some(Month)
    else if name == YearName then Some(Year)
    else None
  }

  /** Number of periods in a year. */
  function PerYear(g: Granularity): nat {
    match g
    case Quarter => 4
    case Month => 12
    case Year => 1
  }

  datatype Period = Period(year: int, index: int)

  predicate ValidPeriod(g: Granularity, p: Period) {
    1 <= p.index <= PerYear(g)
  }

  /** Consecutive numbering of all periods of one granularity. */
  function Ordinal(g: Granularity, p: Period): int {
    match g
    case Quarter => 4 * p.year + p.index - 1
    case Month => 12 * p.year + p.index - 1
    case Year => p.year + p.index - 1
  }

  /** The period with a given number; the inverse of `Ordinal`. */
  function FromOrdinal(g: Granularity, n: int): (p: Period)
    ensures ValidPeriod(g, p) && Ordinal(g, p) == n
  {
    match g
    case Quarter => Period(n / 4, n % 4 + 1)
    case Month => Period(n / 12, n % 12 + 1)
    case Year => Period(n, 1)
  }

  lemma OrdinalInjective(g: Granularity, p: Period, q: Period)
    requires ValidPeriod(g, p) && ValidPeriod(g, q)
    requires Ordinal(g, p) == Ordinal(g, q)
    ensures p == q
  {
  }

  lemma FromOrdinalOfOrdinal(g: Granularity, p: Period)
    requires ValidPeriod(g, p)
    ensures FromOrdinal(g, Ordinal(g, p)) == p
  {
    OrdinalInjective(g, p, FromOrdinal(g, Ordinal(g, p)));
  }

  /** One step of the source's loop: advance the period, rolling over to period 1 of the next year. */
  function Next(g: Granularity, p: Period): (q: Period)
    requires ValidPeriod(g, p)
    ensures ValidPeriod(g, q) && Ordinal(g, q) == Ordinal(g, p) + 1
  {
    if p.index + 1 > PerYear(g) then Period(p.year + 1, 1) else Period(p.year, p.index + 1)
  }

  /** The source's loop guard: `p` is not after `e`, compared year first, then period. */
  predicate NotAfter(p: Period, e: Period) {
    p.year < e.year || (p.year == e.year && p.index <= e.index)
  }

  lemma NotAfterIsOrdinalOrder(g: Granularity, p: Period, e: Period)
    requires ValidPeriod(g, p) && ValidPeriod(g, e)
    ensures NotAfter(p, e) <==> Ordinal(g, p) <= Ordinal(g, e)
  {
  }

  /** The quarter a month lies in, `(month - 1) // 3 + 1`. */
  function QuarterOfMonth(month: int): (q: int)
    requires 1 <= month <= 12
    ensures 1 <= q <= 4
    ensures 3 * (q - 1) < month <= 3 * q
  {
    (month - 1) / 3 + 1
  }

  /** The period of granularity `g` that contains date `d`. */
  function PeriodOf(g: Granularity, d: Date): (p: Period)
    ensures ValidPeriod(g, p) && Covers(g, p, d)
  {
    match g
    case Quarter => Period(d.year, QuarterOfMonth(d.month))
    case Month => Period(d.year, d.month)
    case Year => Period(d.year, 1)
  }

  /** Period `p` contains date `d`: same year, and `d`'s month is one of `p`'s months. */
  predicate Covers(g: Granularity, p: Period, d: Date) {
    && p.year == d.year
    && match g
       case Quarter => 3 * (p.index - 1) < d.month <= 3 * p.index
       case Month => p.index == d.month
       case Year => true
  }

  /** Number of periods from `s` to `e` inclusive; zero when `s` is after `e`. */
  function Span(g: Granularity, s: Period, e: Period): nat {
    if Ordinal(g, s) <= Ordinal(g, e) then Ordinal(g, e) - Ordinal(g, s) + 1 else 0
  }

  /** Reference definition: the `i`-th period of the run is the one numbered `Ordinal(s) + i`. */
  function Periods(g: Granularity, s: Period, e: Period): (r: seq<Period>)
    ensures |r| == Span(g, s, e)
    ensures forall i :: 0 <= i < |r| ==> ValidPeriod(g, r[i]) && Ordinal(g, r[i]) == Ordinal(g, s) + i
  {
    var r := seq(Span(g, s, e), i => FromOrdinal(g, Ordinal(g, s) + i));
    assert forall i :: 0 <= i < |r| ==> r[i] == FromOrdinal(g, Ordinal(g, s) + i);
    r
  }

  /** The `i`-th element of the run is the period numbered `Ordinal(s) + i`. */
  lemma PeriodsAt(g: Granularity, s: Period, e: Period, i: int)
    requires 0 <= i < Span(g, s, e)
    ensures Periods(g, s, e)[i] == FromOrdinal(g, Ordinal(g, s) + i)
  {
    FromOrdinalOfOrdinal(g, Periods(g, s, e)[i]);
  }

  /** The label the source formats for a period: `f"{y}Q{q}"`, `f"{y}-{m:02d}"` or `f"{y}"`. */
  function Label(g: Granularity, p: Period): string
    requires ValidPeriod(g, p)
  {
    match g
    case Quarter => IntString(p.year) + "Q" + IntString(p.index)
    case Month => IntString(p.year) + "-" + Pad2(p.index)
    case Year => IntString(p.year)
  }

  function Labels(g: Granularity, ps: seq<Period>): (r: seq<string>)
    requires forall i :: 0 <= i < |ps| ==> ValidPeriod(g, ps[i])
    ensures |r| == |ps|
    ensures forall i :: 0 <= i < |ps| ==> r[i] == Label(g, ps[i])
  {
    seq(|ps|, i requires 0 <= i < |ps| => Label(g, ps[i]))
  }

  /** What `generate_time_points(start, end, granularity)` returns. */
  function TimePoints(start: Date, end: Date, granularity: string): seq<string> {
    match ParseGranularity(granularity)
    case None => []
    case Some(g) => Labels(g, Periods(g, PeriodOf(g, start), PeriodOf(g, end)))
  }

  /**
   * The quarter and month branches of the source: a `while` loop over
   * (year, period) pairs from `s` while not after `e`, appending each label.
   */
  method RolloverLabels(g: Granularity, s: Period, e: Period) returns (tps: seq<string>)
    requires ValidPeriod(g, s) && ValidPeriod(g, e)
    ensures tps == Labels(g, Periods(g, s, e))
  {
    tps := [];
    var current := s;
    while current.year < e.year || (current.year == e.year && current.index <= e.index)
      invariant ValidPeriod(g, current)
      invariant Ordinal(g, current) == Ordinal(g, s) + |tps|
      invariant |tps| == 0 || Ordinal(g, current) <= Ordinal(g, e) + 1
      invariant forall i :: 0 <= i < |tps| ==> tps[i] == Label(g, FromOrdinal(g, Ordinal(g, s) + i))
      decreases Ordinal(g, e) - Ordinal(g, current)
    {
      NotAfterIsOrdinalOrder(g, current, e);
      FromOrdinalOfOrdinal(g, current);
      tps := tps + [Label(g, current)];
      current := Next(g, current);
    }
    NotAfterIsOrdinalOrder(g, current, e);
    ghost var ps := Periods(g, s, e);
    forall i | 0 <= i < |ps|
      ensures ps[i] == FromOrdinal(g, Ordinal(g, s) + i)
    {
      PeriodsAt(g, s, e, i);
    }
  }

  /** The year branch of the source: one label per year in `range(start.year, end.year + 1)`. */
  method YearLabels(startYear: int, endYear: int) returns (tps: seq<string>)
    ensures tps == Labels(Year, Periods(Year, Period(startYear, 1), Period(endYear, 1)))
  {
    tps := [];
    var year := startYear;
    while year < endYear + 1
      invariant |tps| == 0 || year <= endYear + 1
      invariant |tps| == year - startYear
      invariant forall i :: 0 <= i < |tps| ==> tps[i] == IntString(startYear + i)
    {
      tps := tps + [IntString(year)];
      year := year + 1;
    }
    ghost var ps := Periods(Year, Period(startYear, 1), Period(endYear, 1));
    assert |ps| == |tps|;
    forall i | 0 <= i < |tps|
      ensures tps[i] == Label(Year, ps[i])
    {
      assert ps[i] == Period(startYear + i, 1);
    }
  }

  /** `generate_time_points`, statement by statement. */
  method GenerateTimePoints(start: Date, end: Date, granularity: string) returns (tps: seq<string>)
    ensures tps == TimePoints(start, end, granularity)
  {
    if granularity == QuarterName {
      tps := RolloverLabels(Quarter, Period(start.year, (start.month - 1) / 3 + 1),
                                     Period(end.year, (end.month - 1) / 3 + 1));
    } else if granularity == MonthName {
      tps := RolloverLabels(Month, Period(start.year, start.month), Period(end.year, end.month));
    } else if granularity == YearName {
      tps := YearLabels(start.year, end.year);
    } else {
      tps := [];
    }
  }

  // ----- Properties of the run -----

  /** The run starts at `s` and ends at `e` whenever it is not empty. */
  lemma PeriodsEnds(g: Granularity, s: Period, e: Period)
    requires ValidPeriod(g, s) && ValidPeriod(g, e)
    ensures |Periods(g, s, e)| > 0 <==> NotAfter(s, e)
    ensures |Periods(g, s, e)| > 0 ==> Periods(g, s, e)[0] == s
    ensures |Periods(g, s, e)| > 0 ==> Periods(g, s, e)[|Periods(g, s, e)| - 1] == e
  {
    var ps := Periods(g, s, e);
    NotAfterIsOrdinalOrder(g, s, e);
    if |ps| > 0 {
      OrdinalInjective(g, ps[0], s);
      OrdinalInjective(g, ps[|ps| - 1], e);
    }
  }

  /** No gaps: each period of the run is followed by its successor, with rollover after the last period of a year. */
  lemma PeriodsContiguous(g: Granularity, s: Period, e: Period, i: int)
    requires ValidPeriod(g, s)
    requires 0 <= i < |Periods(g, s, e)| - 1
    ensures Periods(g, s, e)[i + 1] == Next(g, Periods(g, s, e)[i])
  {
    var ps := Periods(g, s, e);
    OrdinalInjective(g, ps[i + 1], Next(g, ps[i]));
  }

  /** The run is strictly increasing in the source's (year, period) order. */
  lemma PeriodsStrictlyIncreasing(g: Granularity, s: Period, e: Period, i: int, j: int)
    requires 0 <= i < j < |Periods(g, s, e)|
    ensures NotAfter(Periods(g, s, e)[i], Periods(g, s, e)[j])
    ensures Periods(g, s, e)[i] != Periods(g, s, e)[j]
  {
    var ps := Periods(g, s, e);
    NotAfterIsOrdinalOrder(g, ps[i], ps[j]);
  }

  /** Exactly the periods between `s` and `e` (both included) occur in the run. */
  lemma PeriodsMembership(g: Granularity, s: Period, e: Period, p: Period)
    requires ValidPeriod(g, s) && ValidPeriod(g, e)
    ensures p in Periods(g, s, e) <==> ValidPeriod(g, p) && NotAfter(s, p) && NotAfter(p, e)
  {
    var ps := Periods(g, s, e);
    if ValidPeriod(g, p) {
      NotAfterIsOrdinalOrder(g, s, p);
      NotAfterIsOrdinalOrder(g, p, e);
      if NotAfter(s, p) && NotAfter(p, e) {
        var i := Ordinal(g, p) - Ordinal(g, s);
        OrdinalInjective(g, ps[i], p);
      }
    }
    if p in ps {
      var i :| 0 <= i < |ps| && ps[i] == p;
      NotAfterIsOrdinalOrder(g, s, p);
      NotAfterIsOrdinalOrder(g, p, e);
    }
  }

  /** Different periods get different labels. */
  lemma LabelInjective(g: Granularity, p: Period, q: Period)
    requires ValidPeriod(g, p) && ValidPeriod(g, q)
    requires Label(g, p) == Label(g, q)
    ensures p == q
  {
    var l := Label(g, p);
    match g
    case Quarter =>
      assert |IntString(p.index)| == 1 && |IntString(q.index)| == 1;
      assert l[..|l| - 2] == IntString(p.year) && l[..|l| - 2] == IntString(q.year);
      IntStringInjective(p.year, q.year);
      assert l[|l| - 1..] == IntString(p.index) && l[|l| - 1..] == IntString(q.index);
      IntStringInjective(p.index, q.index);
    case Month =>
      assert l[..|l| - 3] == IntString(p.year) && l[..|l| - 3] == IntString(q.year);
      IntStringInjective(p.year, q.year);
      assert l[|l| - 2..] == Pad2(p.index) && l[|l| - 2..] == Pad2(q.index);
      Pad2Injective(p.index, q.index);
    case Year =>
      IntStringInjective(p.year, q.year);
  }

  // ----- Properties of `generate_time_points` in the source's terms -----

  /** Quarter mode: `4*(ey-sy) + (eq-sq) + 1` labels from the start's quarter to the end's. */
  lemma QuarterCount(start: Date, end: Date)
    ensures var n := 4 * (end.year - start.year) + (QuarterOfMonth(end.month) - QuarterOfMonth(start.month)) + 1;
            |TimePoints(start, end, QuarterName)| == if n > 0 then n else 0
  {
  }

  /** Month mode: `12*(ey-sy) + (em-sm) + 1` labels from the start's month to the end's. */
  lemma MonthCount(start: Date, end: Date)
    ensures var n := 12 * (end.year - start.year) + (end.month - start.month) + 1;
            |TimePoints(start, end, MonthName)| == if n > 0 then n else 0
  {
  }

  /** Year mode: exactly one label `f"{y}"` per year from `start.year` to `end.year`. */
  lemma YearAxis(start: Date, end: Date)
    ensures |TimePoints(start, end, YearName)| == if start.year <= end.year then end.year - start.year + 1 else 0
    ensures forall i :: 0 <= i < |TimePoints(start, end, YearName)| ==>
              TimePoints(start, end, YearName)[i] == IntString(start.year + i)
  {
    var ps := Periods(Year, PeriodOf(Year, start), PeriodOf(Year, end));
    assert forall i :: 0 <= i < |ps| ==> ps[i] == Period(start.year + i, 1);
  }

  /** `b` is the label of the period after the one labelled `a`. */
  ghost predicate Successive(g: Granularity, a: string, b: string) {
    exists p :: ValidPeriod(g, p) && a == Label(g, p) && b == Label(g, Next(g, p))
  }

  /**
   * The labels, element by element: the first is the label of the period holding
   * `start`, the last that of the period holding `end`, and each next one is the
   * label of the successor period.
   */
  lemma TimePointsShape(start: Date, end: Date, granularity: string)
    requires ParseGranularity(granularity).Some?
    ensures var g := ParseGranularity(granularity).value;
            var tps := TimePoints(start, end, granularity);
            && (|tps| > 0 ==> tps[0] == Label(g, PeriodOf(g, start)) && tps[|tps| - 1] == Label(g, PeriodOf(g, end)))
            && forall i :: 0 <= i < |tps| - 1 ==> Successive(g, tps[i], tps[i + 1])
  {
    var g := ParseGranularity(granularity).value;
    var s, e := PeriodOf(g, start), PeriodOf(g, end);
    var ps := Periods(g, s, e);
    var tps := TimePoints(start, end, granularity);
    assert tps == Labels(g, ps);
    PeriodsEnds(g, s, e);
    forall i | 0 <= i < |tps| - 1
      ensures Successive(g, tps[i], tps[i + 1])
    {
      PeriodsContiguous(g, s, e, i);
      var p := ps[i];
      assert ValidPeriod(g, p) && tps[i] == Label(g, p) && tps[i + 1] == Label(g, Next(g, p));
    }
  }

  /**
   * The result is empty exactly when the granularity name is not recognised or
   * the start's period comes after the end's; the comparison is by period, so
   * dates in reversed order inside one period still give one label.
   */
  lemma TimePointsEmpty(start: Date, end: Date, granularity: string)
    ensures TimePoints(start, end, granularity) == [] <==>
              || ParseGranularity(granularity).None?
              || !NotAfter(PeriodOf(ParseGranularity(granularity).value, start),
                           PeriodOf(ParseGranularity(granularity).value, end))
    ensures (&& ParseGranularity(granularity).Some?
             && PeriodOf(ParseGranularity(granularity).value, start) == PeriodOf(ParseGranularity(granularity).value, end))
            ==> |TimePoints(start, end, granularity)| == 1
  {
    if ParseGranularity(granularity).Some? {
      var g := ParseGranularity(granularity).value;
      PeriodsEnds(g, PeriodOf(g, start), PeriodOf(g, end));
    }
  }

  /** No label appears twice, and none is the empty string. */
  lemma TimePointsDistinct(start: Date, end: Date, granularity: string)
    ensures forall i, j :: 0 <= i < j < |TimePoints(start, end, granularity)| ==>
              TimePoints(start, end, granularity)[i] != TimePoints(start, end, granularity)[j]
    ensures "" !in TimePoints(start, end, granularity)
  {
    var tps := TimePoints(start, end, granularity);
    if ParseGranularity(granularity).Some? {
      var g := ParseGranularity(granularity).value;
      var ps := Periods(g, PeriodOf(g, start), PeriodOf(g, end));
      forall i, j | 0 <= i < j < |tps|
        ensures tps[i] != tps[j]
      {
        if tps[i] == tps[j] {
          LabelInjective(g, ps[i], ps[j]);
          PeriodsStrictlyIncreasing(g, PeriodOf(g, start), PeriodOf(g, end), i, j);
        }
      }
    }
  }

  /** The characters a label is made of: digits, the `Q` of a quarter, the `-` of a month or a negative year. */
  predicate LabelChar(c: char) {
    IsDigit(c) || c == 'Q' || c == '-'
  }

  /** A non-empty string of label characters. */
  predicate LabelShaped(s: string) {
    |s| > 0 && forall i :: 0 <= i < |s| ==> LabelChar(s[i])
  }

  /** `f"{n}"` is made of label characters. */
  lemma IntStringShaped(n: int)
    ensures LabelShaped(IntString(n))
  {
    var s := IntString(n);
    if n < 0 {
      forall i | 0 <= i < |s|
        ensures LabelChar(s[i])
      {
        if i > 0 {
          assert s[i] == s[1..][i - 1];
        }
      }
    }
  }

  /** Every label is a non-empty string of digits, `Q` and `-`. */
  lemma LabelAlphabet(g: Granularity, p: Period)
    requires ValidPeriod(g, p)
    ensures LabelShaped(Label(g, p))
  {
    IntStringShaped(p.year);
    var y := IntString(p.year);
    var l := Label(g, p);
    match g
    case Quarter =>
      IntStringShaped(p.index);
      var q := IntString(p.index);
      forall i | 0 <= i < |l|
        ensures LabelChar(l[i])
      {
        if i < |y| {
          assert l[i] == y[i];
        } else if i > |y| {
          assert l[i] == q[i - |y| - 1];
        }
      }
    case Month =>
      var m := Pad2(p.index);
      forall i | 0 <= i < |l|
        ensures LabelChar(l[i])
      {
        if i < |y| {
          assert l[i] == y[i];
        } else if i > |y| {
          assert l[i] == m[i - |y| - 1];
        }
      }
    case Year =>
  }

  /** Every generated time point is a non-empty string of digits, `Q` and `-`. */
  lemma TimePointsShaped(start: Date, end: Date, granularity: string)
    ensures forall tp :: tp in TimePoints(start, end, granularity) ==> LabelShaped(tp)
  {
    var tps := TimePoints(start, end, granularity);
    if ParseGranularity(granularity).Some? {
      var g := ParseGranularity(granularity).value;
      var ps := Periods(g, PeriodOf(g, start), PeriodOf(g, end));
      forall i | 0 <= i < |tps|
        ensures LabelShaped(tps[i])
      {
        LabelAlphabet(g, ps[i]);
      }
    }
  }

  // ----- The scenarios of the source's own tests -----

  lemma YearLabels2024And2025()
    ensures IntString(2024) == "2024" && IntString(2025) == "2025"
  {
    assert DecimalString(2) == "2";
    assert DecimalString(20) == "20";
    assert DecimalString(202) == "202";
  }

  lemma MonthPads()
    ensures Pad2(1) == "01" && Pad2(2) == "02" && Pad2(3) == "03"
    ensures Pad2(11) == "11" && Pad2(12) == "12"
  {
    assert DecimalString(1) == "1";
  }

  /** The month labels the scenarios below meet. */
  lemma MonthLabels()
    ensures Label(Month, Period(2024, 11)) == "2024-11" && Label(Month, Period(2024, 12)) == "2024-12"
    ensures Label(Month, Period(2025, 1)) == "2025-01" && Label(Month, Period(2025, 2)) == "2025-02"
    ensures Label(Month, Period(2025, 3)) == "2025-03"
  {
    YearLabels2024And2025();
    MonthPads();
  }

  /** The quarter labels the scenarios below meet. */
  lemma QuarterLabels()
    ensures Label(Quarter, Period(2024, 4)) == "2024Q4"
    ensures Label(Quarter, Period(2025, 1)) == "2025Q1" && Label(Quarter, Period(2025, 2)) == "2025Q2"
    ensures Label(Quarter, Period(2025, 3)) == "2025Q3" && Label(Quarter, Period(2025, 4)) == "2025Q4"
  {
    YearLabels2024And2025();
    assert IntString(1) == "1" && IntString(2) == "2" && IntString(3) == "3" && IntString(4) == "4";
  }

  /** `generate_time_points(2025-01-01, 2025-12-31, '季度')` gives the four quarters of 2025. */
  lemma QuarterScenario()
    ensures TimePoints(DateTime(2025, 1, 1), DateTime(2025, 12, 31), QuarterName)
            == ["2025Q1", "2025Q2", "2025Q3", "2025Q4"]
  {
    QuarterLabels();
    var s, e := Period(2025, 1), Period(2025, 4);
    assert PeriodOf(Quarter, DateTime(2025, 1, 1)) == s;
    assert PeriodOf(Quarter, DateTime(2025, 12, 31)) == e;
    var ps := Periods(Quarter, s, e);
    assert |ps| == 4;
    OrdinalInjective(Quarter, ps[0], Period(2025, 1));
    OrdinalInjective(Quarter, ps[1], Period(2025, 2));
    OrdinalInjective(Quarter, ps[2], Period(2025, 3));
    OrdinalInjective(Quarter, ps[3], Period(2025, 4));
    var tps := Labels(Quarter, ps);
    assert tps[0] == Label(Quarter, Period(2025, 1)) && tps[1] == Label(Quarter, Period(2025, 2));
    assert tps[2] == Label(Quarter, Period(2025, 3)) && tps[3] == Label(Quarter, Period(2025, 4));
  }

  /** `generate_time_points(2025-01-01, 2025-03-31, '月份')` gives January to March 2025. */
  lemma MonthScenario()
    ensures TimePoints(DateTime(2025, 1, 1), DateTime(2025, 3, 31), MonthName)
            == ["2025-01", "2025-02", "2025-03"]
  {
    MonthLabels();
    var s, e := Period(2025, 1), Period(2025, 3);
    assert PeriodOf(Month, DateTime(2025, 1, 1)) == s && PeriodOf(Month, DateTime(2025, 3, 31)) == e;
    var ps := Periods(Month, s, e);
    assert |ps| == 3;
    OrdinalInjective(Month, ps[0], Period(2025, 1));
    OrdinalInjective(Month, ps[1], Period(2025, 2));
    OrdinalInjective(Month, ps[2], Period(2025, 3));
    var tps := Labels(Month, ps);
    assert tps[0] == Label(Month, Period(2025, 1)) && tps[1] == Label(Month, Period(2025, 2)) && tps[2] == Label(Month, Period(2025, 3));
  }

  /** `generate_time_points(2025-01-01, 2025-12-31, '年度')` gives the single year 2025. */
  lemma YearScenario()
    ensures TimePoints(DateTime(2025, 1, 1), DateTime(2025, 12, 31), YearName) == ["2025"]
  {
    YearLabels2024And2025();
    YearAxis(DateTime(2025, 1, 1), DateTime(2025, 12, 31));
  }

  /** `generate_time_points(2024-11-01, 2025-02-01, '季度')` rolls from 2024Q4 over to 2025Q1. */
  lemma CrossYearQuarterScenario()
    ensures TimePoints(DateTime(2024, 11, 1), DateTime(2025, 2, 1), QuarterName) == ["2024Q4", "2025Q1"]
  {
    QuarterLabels();
    var s, e := Period(2024, 4), Period(2025, 1);
    assert PeriodOf(Quarter, DateTime(2024, 11, 1)) == s && PeriodOf(Quarter, DateTime(2025, 2, 1)) == e;
    var ps := Periods(Quarter, s, e);
    assert |ps| == 2;
    OrdinalInjective(Quarter, ps[0], s);
    OrdinalInjective(Quarter, ps[1], e);
    var tps := Labels(Quarter, ps);
    assert tps[0] == Label(Quarter, s) && tps[1] == Label(Quarter, e);
  }

  /** `generate_time_points(2024-11-01, 2025-02-01, '月份')` rolls from 2024-12 over to 2025-01. */
  lemma CrossYearMonthScenario()
    ensures TimePoints(DateTime(2024, 11, 1), DateTime(2025, 2, 1), MonthName)
            == ["2024-11", "2024-12", "2025-01", "2025-02"]
  {
    MonthLabels();
    var s, e := Period(2024, 11), Period(2025, 2);
    assert PeriodOf(Month, DateTime(2024, 11, 1)) == s && PeriodOf(Month, DateTime(2025, 2, 1)) == e;
    var ps := Periods(Month, s, e);
    assert |ps| == 4;
    OrdinalInjective(Month, ps[0], Period(2024, 11));
    OrdinalInjective(Month, ps[1], Period(2024, 12));
    OrdinalInjective(Month, ps[2], Period(2025, 1));
    OrdinalInjective(Month, ps[3], Period(2025, 2));
    var tps := Labels(Month, ps);
    assert tps[0] == Label(Month, Period(2024, 11)) && tps[1] == Label(Month, Period(2024, 12));
    assert tps[2] == Label(Month, Period(2025, 1)) && tps[3] == Label(Month, Period(2025, 2));
  }
}
