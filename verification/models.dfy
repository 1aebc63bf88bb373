/** The report helpers: calendar month bounds for period comparison, the
    percent-change guard, period totals, the daily overview and the
    substring count of stored quality flags. The SQL queries and the pandas
    grouping that feed them are not part of this model; their results are
    the inputs here. */
module Reports {
  import opened Wrappers
  import opened Text
  import opened Flags

  // ---------------------------------------------------------------------
  // Calendar
  // ---------------------------------------------------------------------

  /** `calendar.isleap`: the Gregorian rule. */
  predicate IsLeap(year: nat) {
    year % 4 == 0 && (year % 100 != 0 || year % 400 == 0)
  }

  /** `calendar.monthrange(year, month)[1]`, the number of days in the month. */
  function DaysInMonth(year: nat, month: nat): (d: nat)
    requires 1 <= month <= 12
    ensures 28 <= d <= 31
  {
    if month == 2 then (if IsLeap(year) then 29 else 28)
    else if month == 4 || month == 6 || month == 9 || month == 11 then 30
    else 31
  }

  /** Days in the first `months` months of the year. */
  function DaysBefore(year: nat, months: nat): nat
    requires months <= 12
  {
    if months == 0 then 0 else DaysBefore(year, months - 1) + DaysInMonth(year, months)
  }

  /** The twelve months fill a year of 366 days in a leap year and 365
      otherwise. */
  lemma {:induction false} MonthsFillYear(year: nat)
    ensures DaysBefore(year, 12) == if IsLeap(year) then 366 else 365
  {
    assert DaysBefore(year, 2) == 31 + DaysInMonth(year, 2) by {
      assert DaysBefore(year, 1) == 31;
    }
    assert DaysBefore(year, 6) == DaysBefore(year, 2) + 122 by {
      assert DaysBefore(year, 3) == DaysBefore(year, 2) + 31;
      assert DaysBefore(year, 4) == DaysBefore(year, 2) + 61;
      assert DaysBefore(year, 5) == DaysBefore(year, 2) + 92;
    }
    assert DaysBefore(year, 9) == DaysBefore(year, 6) + 92 by {
      assert DaysBefore(year, 7) == DaysBefore(year, 6) + 31;
      assert DaysBefore(year, 8) == DaysBefore(year, 6) + 62;
    }
    assert DaysBefore(year, 12) == DaysBefore(year, 9) + 92 by {
      assert DaysBefore(year, 10) == DaysBefore(year, 9) + 31;
      assert DaysBefore(year, 11) == DaysBefore(year, 9) + 61;
    }
  }

  /** February follows the leap-year rule: 2024 and 2000 are leap years,
      1900 and 2023 are not. */
  lemma FebruaryExamples()
    ensures DaysInMonth(2024, 2) == 29 && DaysInMonth(2000, 2) == 29
    ensures DaysInMonth(1900, 2) == 28 && DaysInMonth(2023, 2) == 28
    ensures DaysInMonth(2023, 4) == 30 && DaysInMonth(2023, 12) == 31
  {
  }

  // ---------------------------------------------------------------------
  // Period bounds
  // ---------------------------------------------------------------------

  /** The first and last day of a month, as the query's date bounds. */
  datatype Period = Period(start: string, end: string)

  /** `f"{year}-{month:02d}-{day:02d}"`. */
  function DateText(year: nat, month: nat, day: nat): string {
    NatToString(year) + "-" + Pad2(month) + "-" + Pad2(day)
  }

  /** `get_period_bounds("Y-M")`. `None` is the exception it raises: not
      exactly two pieces around `-` (unpacking fails), a piece `int` cannot
      read, or a month outside 1..12 (`calendar.monthrange` rejects it). */
  function PeriodBounds(period: string): (r: Option<Period>)
    ensures r.Some? ==> |Split(period, '-')| == 2
  {
    var parts := Split(period, '-');
    if |parts| != 2 then None
    else
      match (ParseNat(parts[0]), ParseNat(parts[1]))
      case (Some(year), Some(month)) =>
        if 1 <= month <= 12 then
          var prefix := NatToString(year) + "-" + Pad2(month);
          Some(Period(prefix + "-01", prefix + "-" + NatToString(DaysInMonth(year, month))))
        else None
      case _ => None
  }

  /** The bounds of an accepted period are the first and the last day of the
      month named by its two pieces. */
  lemma PeriodBoundsMeaning(period: string)
    requires PeriodBounds(period).Some?
    ensures var parts := Split(period, '-');
            ParseNat(parts[0]).Some? && ParseNat(parts[1]).Some? &&
            var year := ParseNat(parts[0]).value;
            var month := ParseNat(parts[1]).value;
            1 <= month <= 12 &&
            PeriodBounds(period).value == Period(DateText(year, month, 1), DateText(year, month, DaysInMonth(year, month)))
  {
    var parts := Split(period, '-');
    var year := ParseNat(parts[0]).value;
    var month := ParseNat(parts[1]).value;
    var prefix := NatToString(year) + "-" + Pad2(month);
    assert Pad2(1) == "01";
    assert DateText(year, month, 1) == prefix + "-01";
    assert DateText(year, month, DaysInMonth(year, month)) == prefix + "-" + NatToString(DaysInMonth(year, month));
  }

  lemma NoDash(s: string)
    requires forall i :: 0 <= i < |s| ==> IsDigit(s[i])
    ensures '-' !in s
  {
  }

  /** A period written as `{year}-{month:02d}`, or with an unpadded month,
      gives the month's first and last day. */
  lemma {:induction false} PeriodRoundTrip(year: nat, month: nat)
    requires 1 <= month <= 12
    ensures var bounds := Period(DateText(year, month, 1), DateText(year, month, DaysInMonth(year, month)));
            PeriodBounds(NatToString(year) + "-" + Pad2(month)) == Some(bounds) &&
            PeriodBounds(NatToString(year) + "-" + NatToString(month)) == Some(bounds)
  {
    NoDash(NatToString(year));
    NoDash(Pad2(month));
    NoDash(NatToString(month));
    SplitJoin(NatToString(year), '-', Pad2(month));
    SplitJoin(NatToString(year), '-', NatToString(month));
    assert NatToString(year) + "-" + Pad2(month) == NatToString(year) + ['-'] + Pad2(month);
    assert NatToString(year) + "-" + NatToString(month) == NatToString(year) + ['-'] + NatToString(month);
    ParseNatOfString(year);
    ParseNatOfPad2(month);
    ParseNatOfString(month);
    PeriodBoundsMeaning(NatToString(year) + "-" + Pad2(month));
    PeriodBoundsMeaning(NatToString(year) + "-" + NatToString(month));
  }

  /** A bound reads back, piece by piece, as the year, month and day it was
      written from. */
  lemma {:induction false} DateTextReadBack(year: nat, month: nat, day: nat)
    ensures var parts := Split(DateText(year, month, day), '-');
            |parts| == 3 &&
            ParseNat(parts[0]) == Some(year) && ParseNat(parts[1]) == Some(month) && ParseNat(parts[2]) == Some(day)
  {
    NoDash(NatToString(year));
    NoDash(Pad2(month));
    NoDash(Pad2(day));
    assert DateText(year, month, day) == NatToString(year) + ['-'] + (Pad2(month) + ['-'] + Pad2(day));
    SplitAfter(NatToString(year), '-', Pad2(month) + ['-'] + Pad2(day));
    SplitJoin(Pad2(month), '-', Pad2(day));
    ParseNatOfString(year);
    ParseNatOfPad2(month);
    ParseNatOfPad2(day);
  }

  /** Periods the source refuses: no `-` at all, a third piece, or a month
      outside 1..12. */
  lemma {:induction false} PeriodRejects(s: string, year: nat, month: nat, day: nat)
    requires '-' !in s
    requires month == 0 || month > 12
    ensures PeriodBounds(s) == None
    ensures PeriodBounds(DateText(year, 1, day)) == None
    ensures PeriodBounds(NatToString(year) + "-" + NatToString(month)) == None
  {
    SplitWithout(s, '-');
    DateTextReadBack(year, 1, day);
    NoDash(NatToString(year));
    NoDash(NatToString(month));
    SplitJoin(NatToString(year), '-', NatToString(month));
    assert NatToString(year) + "-" + NatToString(month) == NatToString(year) + ['-'] + NatToString(month);
    ParseNatOfString(year);
    ParseNatOfString(month);
  }

  // ---------------------------------------------------------------------
  // Period totals and growth
  // ---------------------------------------------------------------------

  function Sum(amounts: seq<real>): real {
    if amounts == [] then 0.0 else Sum(amounts[..|amounts| - 1]) + amounts[|amounts| - 1]
  }

  lemma {:induction false} SumConcat(a: seq<real>, b: seq<real>)
    ensures Sum(a + b) == Sum(a) + Sum(b)
  {
    if b != [] {
      SumConcat(a, b[..|b| - 1]);
      assert (a + b)[..|a + b| - 1] == a + b[..|b| - 1];
    } else {
      assert a + b == a;
    }
  }

  /** The totals `summarize` reports for one period's amounts. */
  datatype PeriodTotals = PeriodTotals(totalSales: real, transactionCount: nat)

  /** `summarize(df)`: zeros for no rows, otherwise the sum and the count. */
  function Summarize(amounts: seq<real>): (s: PeriodTotals)
    ensures s.transactionCount == |amounts|
    ensures s.totalSales == Sum(amounts)
    ensures amounts == [] ==> s == PeriodTotals(0.0, 0)
  {
    if amounts == [] then PeriodTotals(0.0, 0) else PeriodTotals(Sum(amounts), |amounts|)
  }

  /** Totals are additive: two batches of rows summarize to the sum of their
      totals (so the empty-period shortcut agrees with the general case). */
  lemma SummarizeConcat(a: seq<real>, b: seq<real>)
    ensures Summarize(a + b).totalSales == Summarize(a).totalSales + Summarize(b).totalSales
    ensures Summarize(a + b).transactionCount == Summarize(a).transactionCount + Summarize(b).transactionCount
  {
    SumConcat(a, b);
    if a == [] {
      assert a + b == b;
    }
    if b == [] {
      assert a + b == a;
    }
  }

  /** `pct_change(v1, v2)` before rounding: no value when the first period's
      figure is zero, otherwise the percentage that takes `v1` to `v2`. */
  function PctChange(v1: real, v2: real): (r: Option<real>)
    ensures r.None? <==> v1 == 0.0
    ensures r.Some? ==> v1 + v1 * r.value / 100.0 == v2
  {
    if v1 == 0.0 then None else Some(((v2 - v1) / v1) * 100.0)
  }

  /** The `growth` block of a period comparison. */
  datatype Growth = Growth(salesChangePercent: Option<real>, transactionChangePercent: Option<real>)

  function CompareTotals(s1: PeriodTotals, s2: PeriodTotals): Growth {
    Growth(PctChange(s1.totalSales, s2.totalSales), PctChange(s1.transactionCount as real, s2.transactionCount as real))
  }

  /** A first period without rows gives no growth figures; comparing a
      period with itself gives 0% wherever a figure exists. */
  lemma GrowthCases(a: seq<real>, b: seq<real>)
    ensures CompareTotals(Summarize([]), Summarize(b)) == Growth(None, None)
    ensures a != [] ==> CompareTotals(Summarize(a), Summarize(a)).transactionChangePercent == Some(0.0)
    ensures Summarize(a).totalSales != 0.0 ==> CompareTotals(Summarize(a), Summarize(a)).salesChangePercent == Some(0.0)
  {
  }

  // ---------------------------------------------------------------------
  // Daily overview
  // ---------------------------------------------------------------------

  /** One row of the per-day table after grouping by local date. */
  datatype DaySales = DaySales(date: string, totalSales: real, transactionCount: nat)

  /** The `summary` block of the daily report. */
  datatype Overview = Overview(totalSales: real, totalTransactions: nat, averageDailySales: real)

  function DaysTotal(days: seq<DaySales>): real {
    if days == [] then 0.0 else DaysTotal(days[..|days| - 1]) + days[|days| - 1].totalSales
  }

  function DaysCount(days: seq<DaySales>): nat {
    if days == [] then 0 else DaysCount(days[..|days| - 1]) + days[|days| - 1].transactionCount
  }

  /** The overall summary of `get_daily_sales_summary` from the stored row
      count and the per-day table. With no stored rows it reports zeros.
      With rows but no day in range the average divides by zero days:
      `None`. */
  function DailyOverview(storedRows: nat, days: seq<DaySales>): (o: Option<Overview>)
    ensures storedRows == 0 ==> o == Some(Overview(0.0, 0, 0.0))
    ensures o.None? <==> storedRows > 0 && days == []
    ensures storedRows > 0 && o.Some? ==>
              o.value.totalSales == DaysTotal(days) &&
              o.value.averageDailySales * |days| as real == o.value.totalSales &&
              o.value.totalTransactions == DaysCount(days)
  {
    if storedRows == 0 then Some(Overview(0.0, 0, 0.0))
    else if days == [] then None
    else
      var total := DaysTotal(days);
      Some(Overview(total, DaysCount(days), total / |days| as real))
  }

  // ---------------------------------------------------------------------
  // Data quality report
  // ---------------------------------------------------------------------

  /** `count_flag`: how many stored flag texts contain the keyword. */
  function CountFlag(texts: seq<string>, keyword: string): (n: nat)
    ensures n <= |texts|
  {
    if texts == [] then 0
    else CountFlag(texts[..|texts| - 1], keyword) + (if Contains(texts[|texts| - 1], keyword) then 1 else 0)
  }

  lemma {:induction false} CountFlagConcat(a: seq<string>, b: seq<string>, keyword: string)
    ensures CountFlag(a + b, keyword) == CountFlag(a, keyword) + CountFlag(b, keyword)
  {
    if b != [] {
      CountFlagConcat(a, b[..|b| - 1], keyword);
      assert (a + b)[..|a + b| - 1] == a + b[..|b| - 1];
    } else {
      assert a + b == a;
    }
  }

  /** The count is zero exactly when no text contains the keyword, and the
      row total exactly when every text does. */
  lemma {:induction false} CountFlagExtremes(texts: seq<string>, keyword: string)
    ensures CountFlag(texts, keyword) == 0 <==> forall i :: 0 <= i < |texts| ==> !Contains(texts[i], keyword)
    ensures CountFlag(texts, keyword) == |texts| <==> forall i :: 0 <= i < |texts| ==> Contains(texts[i], keyword)
  {
    if texts != [] {
      var front := texts[..|texts| - 1];
      CountFlagExtremes(front, keyword);
      assert forall i :: 0 <= i < |front| ==> front[i] == texts[i];
    }
  }

  /** How many tag lists hold the tag. */
  function CountTagged(tagLists: seq<seq<string>>, tag: string): nat {
    if tagLists == [] then 0
    else CountTagged(tagLists[..|tagLists| - 1], tag) + (if tag in tagLists[|tagLists| - 1] then 1 else 0)
  }

  /** The stored documents for some tag lists. */
  function FlagTexts(tagLists: seq<seq<string>>): (texts: seq<string>)
    ensures |texts| == |tagLists|
  {
    if tagLists == [] then [] else FlagTexts(tagLists[..|tagLists| - 1]) + [Render(Dumps(tagLists[|tagLists| - 1]))]
  }

  /** Counting a known tag's name in the stored documents counts exactly the
      records carrying that tag: no tag name occurs inside another tag or in
      the document's own text. */
  lemma {:induction false} CountFlagCountsTags(tagLists: seq<seq<string>>, tag: string)
    requires forall i, j :: 0 <= i < |tagLists| && 0 <= j < |tagLists[i]| ==> KnownTag(tagLists[i][j])
    requires KnownTag(tag)
    ensures CountFlag(FlagTexts(tagLists), tag) == CountTagged(tagLists, tag)
  {
    if tagLists != [] {
      var front := tagLists[..|tagLists| - 1];
      var last := tagLists[|tagLists| - 1];
      CountFlagCountsTags(front, tag);
      assert FlagTexts(tagLists)[..|tagLists| - 1] == FlagTexts(front);
      RenderContains(last, tag);
    }
  }

  /** The `issues_found` block and the row total of the quality report. */
  datatype QualityReport = QualityReport(totalRecords: nat, invalidDates: nat, missingTimezones: nat,
                                         duplicateTransactions: nat, outOfOrderRecords: nat)

  /** `get_data_quality_report` over the stored flag texts. */
  function DataQualityReport(texts: seq<string>): (r: QualityReport)
    ensures r.totalRecords == |texts|
    ensures r.invalidDates <= r.totalRecords && r.missingTimezones <= r.totalRecords
    ensures r.duplicateTransactions <= r.totalRecords && r.outOfOrderRecords <= r.totalRecords
  {
    QualityReport(|texts|, CountFlag(texts, InvalidDateFormat), CountFlag(texts, MissingTimezone),
                  CountFlag(texts, DuplicateCandidate), CountFlag(texts, OutOfOrder))
  }

  /** With no stored rows every figure is zero. */
  lemma EmptyReport()
    ensures DataQualityReport([]) == QualityReport(0, 0, 0, 0, 0)
  {
  }
}
