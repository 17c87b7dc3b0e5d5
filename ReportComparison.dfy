/**
 * The advanced (A/B comparison) mode of the reports page: the two date ranges a
 * preset picks, each range's income / expense / savings under the category filter,
 * the per-category expense breakdown of both sides, and the top five expense
 * categories handed to the report analysis.
 */
module ReportComparison {
  import opened Types
  import opened Calendar
  import opened Sorting
  import opened Tally

  // ===================================================================
  // Ranges
  // ===================================================================

  /** 'weekly' | 'monthly' | '3month' | '6month' | 'custom' */
  datatype Preset = Weekly | Monthly | ThreeMonth | SixMonth | CustomPeriods

  /** An inclusive range of instants and its label (`title`). */
  datatype Range = Range(start: int, end: int, title: string)

  /** `getStartOfMonth(d)`: 00:00 on the 1st of `d`'s month. */
  function StartOfMonth(d: int): int {
    NewDate(FullYear(d), Month(d), 1, 0, 0, 0)
  }

  /** `getEndOfMonth(d)`: 23:59:59 on the last day of `d`'s month. */
  function EndOfMonth(d: int): int {
    NewDate(FullYear(d), Month(d) + 1, 0, 23, 59, 59)
  }

  /** 00:00 on the last day of the month of `d`: `new Date(y, m + 1, 0)`. */
  function LastDayOfMonth(d: int): int {
    NewDate(FullYear(d), Month(d) + 1, 0, 0, 0, 0)
  }

  /** The start of the monthly preset's B side: the 1st of the previous month, at `now`'s time of day. */
  function PrevMonthStart(now: int): int {
    SetMonth(SetDate(now, 1), Month(now) - 1)
  }

  /**
   * `comparisonRanges`. The custom periods `dA` and `dB` are the instants the two
   * month inputs resolve to, and `labelA` / `labelB` their texts. The monthly B side
   * moves back a month before it moves to the 1st, as the page does: it is the
   * previous month only when today's day of the month exists in that month.
   */
  method ComparisonRanges(preset: Preset, now: int, dA: int, labelA: string, dB: int, labelB: string)
    returns (a: Range, b: Range)
    ensures preset == Weekly ==>
              a == Range(now - 6 * MsPerDay, now, "This Week")
              && b == Range(now - 13 * MsPerDay, now - 7 * MsPerDay, "Prev Week")
    ensures preset == Monthly ==>
              a == Range(StartOfMonth(now), now, "This Month")
              && b == Range(MonthlyStartBAsWritten(now), LastDayOfMonth(MonthlyStartBAsWritten(now)), "Last Month")
    ensures preset == Monthly && FitsPrevMonth(now) ==> b.start == PrevMonthStart(now)
    ensures preset != Weekly && preset != Monthly ==>
              a == Range(StartOfMonth(dA), EndOfMonth(dA), labelA)
              && b == Range(StartOfMonth(dB), EndOfMonth(dB), labelB)
  {
    if preset == Weekly {
      a, b := WeeklyRanges(now);
    } else if preset == Monthly {
      a, b := MonthlyRanges(now);
    } else {
      a := Range(StartOfMonth(dA), EndOfMonth(dA), labelA);
      b := Range(StartOfMonth(dB), EndOfMonth(dB), labelB);
    }
  }

  /** The weekly preset: back six days for A's start, one more for B's end, six more for B's start. */
  method WeeklyRanges(now: int) returns (a: Range, b: Range)
    ensures a == Range(now - 6 * MsPerDay, now, "This Week")
    ensures b == Range(now - 13 * MsPerDay, now - 7 * MsPerDay, "Prev Week")
  {
    var endA := now;
    var startA := now;
    SetDateShift(startA, -6);
    startA := SetDate(startA, DayOfMonth(startA) - 6);
    var endB := startA;
    SetDateShift(endB, -1);
    endB := SetDate(endB, DayOfMonth(endB) - 1);
    var startB := endB;
    SetDateShift(startB, -6);
    startB := SetDate(startB, DayOfMonth(startB) - 6);
    a := Range(startA, endA, "This Week");
    b := Range(startB, endB, "Prev Week");
  }

  /**
   * The monthly preset: this month so far, and B from a copy of now moved back a
   * month and then to the 1st, up to 00:00 on the last day of the month it lands in.
   */
  method MonthlyRanges(now: int) returns (a: Range, b: Range)
    ensures a == Range(StartOfMonth(now), now, "This Month")
    ensures b == Range(MonthlyStartBAsWritten(now), LastDayOfMonth(MonthlyStartBAsWritten(now)), "Last Month")
    ensures FitsPrevMonth(now) ==> b.start == PrevMonthStart(now)
  {
    var startA := StartOfMonth(now);
    var endA := now;
    var startB := now;
    startB := SetMonth(startB, Month(now) - 1);
    startB := SetDate(startB, 1);
    var endB := NewDate(FullYear(startB), Month(startB) + 1, 0, 0, 0, 0);
    a := Range(startA, endA, "This Month");
    b := Range(startB, endB, "Last Month");
    if FitsPrevMonth(now) {
      AsWrittenAgrees(now);
    }
  }

  /** The year and month (0..11) before those of `t`. */
  function PrevMonth(t: int): (r: (int, int))
    ensures 0 <= r.1 < 12
  {
    if Month(t) == 0 then (FullYear(t) - 1, 11) else (FullYear(t), Month(t) - 1)
  }

  /** The B side of the monthly preset starts on the 1st of the previous month, at now's time of day. */
  lemma PrevMonthStartCivil(now: int)
    ensures Civil(PrevMonthStart(now)) == Ymd(PrevMonth(now).0, PrevMonth(now).1, 1)
    ensures Day(PrevMonthStart(now)) == DayFromCivil(PrevMonth(now).0, PrevMonth(now).1, 1)
    ensures TimeWithinDay(PrevMonthStart(now)) == TimeWithinDay(now)
  {
    var first := SetDate(now, 1);
    SetDateCivil(now, 1);
    SetMonthBackCivil(first);
    DayOfInstant(PrevMonthStart(now));
  }

  /** The weekly preset: two back-to-back seven-day windows ending at now, B ending a day before A starts. */
  lemma WeeklyRangesMeaning(now: int)
    ensures Day(now - 6 * MsPerDay) == Day(now) - 6 && TimeWithinDay(now - 6 * MsPerDay) == TimeWithinDay(now)
    ensures Day(now - 7 * MsPerDay) == Day(now) - 7 && Day(now - 13 * MsPerDay) == Day(now) - 13
    ensures now - 13 * MsPerDay <= now - 7 * MsPerDay < now - 6 * MsPerDay <= now
  {
    var d := Day(now);
    var tod := TimeWithinDay(now);
    assert now == d * MsPerDay + tod;
    assert now - 6 * MsPerDay == (d - 6) * MsPerDay + tod;
    assert now - 7 * MsPerDay == (d - 7) * MsPerDay + tod;
    assert now - 13 * MsPerDay == (d - 13) * MsPerDay + tod;
  }

  /** `getStartOfMonth(d)` is 00:00 on the 1st of `d`'s month. */
  lemma StartOfMonthCivil(d: int)
    requires !(0 <= FullYear(d) <= 99)
    ensures Civil(StartOfMonth(d)) == Ymd(FullYear(d), Month(d), 1) && TimeWithinDay(StartOfMonth(d)) == 0
    ensures StartOfMonth(d) == DayFromCivil(FullYear(d), Month(d), 1) * MsPerDay
  {
    FirstOfMonthCivil(FullYear(d), Month(d));
  }

  /** `new Date(y, m + 1, 0)` is 00:00 on the last day of `d`'s month. */
  lemma LastDayOfMonthCivil(d: int)
    requires !(0 <= FullYear(d) <= 99)
    ensures Civil(LastDayOfMonth(d)) == Ymd(FullYear(d), Month(d), DaysInMonth(FullYear(d), Month(d)))
    ensures TimeWithinDay(LastDayOfMonth(d)) == 0
    ensures LastDayOfMonth(d) == DayFromCivil(FullYear(d), Month(d), DaysInMonth(FullYear(d), Month(d))) * MsPerDay
  {
    LastOfMonthCivil(FullYear(d), Month(d), 0, 0, 0);
    assert MakeTime(0, 0, 0, 0) == 0;
  }

  /** `getEndOfMonth(d)` is 23:59:59 on the last day of `d`'s month. */
  lemma EndOfMonthCivil(d: int)
    requires !(0 <= FullYear(d) <= 99)
    ensures Civil(EndOfMonth(d)) == Ymd(FullYear(d), Month(d), DaysInMonth(FullYear(d), Month(d)))
    ensures TimeWithinDay(EndOfMonth(d)) == MakeTime(23, 59, 59, 0)
  {
    LastOfMonthCivil(FullYear(d), Month(d), 23, 59, 59);
  }

  /**
   * The monthly preset, for years the `Date` constructor leaves alone: A runs from
   * 00:00 on the 1st of this month to now; B runs from the 1st of the previous month
   * (at now's time of day) to 00:00 on that month's last day, and ends before A starts.
   */
  lemma MonthlyRangesIntended(now: int)
    requires !(0 <= FullYear(now) <= 100)
    ensures Civil(StartOfMonth(now)) == Ymd(FullYear(now), Month(now), 1) && TimeWithinDay(StartOfMonth(now)) == 0
    ensures Civil(PrevMonthStart(now)) == Ymd(PrevMonth(now).0, PrevMonth(now).1, 1)
    ensures Civil(LastDayOfMonth(PrevMonthStart(now)))
         == Ymd(PrevMonth(now).0, PrevMonth(now).1, DaysInMonth(PrevMonth(now).0, PrevMonth(now).1))
    ensures TimeWithinDay(LastDayOfMonth(PrevMonthStart(now))) == 0
    ensures PrevMonthStart(now) < LastDayOfMonth(PrevMonthStart(now)) < StartOfMonth(now)
  {
    var s := PrevMonthStart(now);
    StartOfMonthCivil(now);
    PrevMonthStartCivil(now);
    assert FullYear(s) == PrevMonth(now).0 && Month(s) == PrevMonth(now).1;
    LastDayOfMonthCivil(s);
    MonthlyOrder(now);
  }

  lemma MonthlyOrder(now: int)
    requires !(0 <= FullYear(now) <= 100)
    ensures PrevMonthStart(now) < LastDayOfMonth(PrevMonthStart(now)) < StartOfMonth(now)
  {
    var py := PrevMonth(now).0;
    var pm := PrevMonth(now).1;
    var s := PrevMonthStart(now);
    PrevMonthStartCivil(now);
    assert FullYear(s) == py && Month(s) == pm;
    LastDayOfMonthCivil(s);
    StartOfMonthCivil(now);
    MonthLength(py, pm);
    PrevMonthEndsBeforeFirst(now);
    DayOrder(DayFromCivil(py, pm, 1), DayFromCivil(py, pm, DaysInMonth(py, pm)), s);
  }

  /** The last day of the previous month is the day before the 1st of this one. */
  lemma PrevMonthEndsBeforeFirst(now: int)
    ensures DayFromCivil(PrevMonth(now).0, PrevMonth(now).1, DaysInMonth(PrevMonth(now).0, PrevMonth(now).1)) + 1
         == DayFromCivil(FullYear(now), Month(now), 1)
  {
    var py := PrevMonth(now).0;
    var pm := PrevMonth(now).1;
    LastDayBeforeFirst(py, pm);
    var y := FullYear(now);
    var m := Month(now);
    if m == 0 {
      assert py + 1 == y && pm == 11;
    } else {
      assert py == y && pm + 1 == m;
    }
  }

  /** An instant of day `first` lies before 00:00 of a later day `last`, which lies before the next day. */
  lemma DayOrder(first: int, last: int, s: int)
    requires first < last && Day(s) == first
    ensures s < last * MsPerDay < (last + 1) * MsPerDay
  {
    assert s < (first + 1) * MsPerDay;
    assert (first + 1) * MsPerDay <= last * MsPerDay;
  }

  /** Every preset other than weekly and monthly, '3month' and '6month' included, uses the custom periods. */
  lemma CustomRangeMeaning(d: int)
    requires !(0 <= FullYear(d) <= 99)
    ensures Civil(StartOfMonth(d)) == Ymd(FullYear(d), Month(d), 1) && TimeWithinDay(StartOfMonth(d)) == 0
    ensures Civil(EndOfMonth(d)) == Ymd(FullYear(d), Month(d), DaysInMonth(FullYear(d), Month(d)))
    ensures TimeWithinDay(EndOfMonth(d)) == MakeTime(23, 59, 59, 0)
    ensures StartOfMonth(d) < EndOfMonth(d)
  {
    StartOfMonthCivil(d);
    EndOfMonthCivil(d);
    DayOfInstant(EndOfMonth(d));
  }

  /** The monthly B start as the page computes it: back a month first, then to the 1st. */
  function MonthlyStartBAsWritten(now: int): int {
    SetDate(SetMonth(now, Month(now) - 1), 1)
  }

  /** Today's day of the month exists in the previous month. */
  predicate FitsPrevMonth(now: int) {
    DayOfMonth(now) <= DaysInMonth(PrevMonth(now).0, PrevMonth(now).1)
  }

  /**
   * The as-written start is the 1st of the previous month when today's day exists
   * there, and otherwise (the 29th to 31st after a shorter month) the 1st of the
   * current month; it keeps now's time of day either way.
   */
  lemma MonthlyStartBAsWrittenCivil(now: int)
    ensures Civil(MonthlyStartBAsWritten(now))
         == if FitsPrevMonth(now) then Ymd(PrevMonth(now).0, PrevMonth(now).1, 1) else Ymd(FullYear(now), Month(now), 1)
    ensures TimeWithinDay(MonthlyStartBAsWritten(now)) == TimeWithinDay(now)
  {
    var y, m, d := FullYear(now), Month(now), DayOfMonth(now);
    var py, pm := PrevMonth(now).0, PrevMonth(now).1;
    var tod := TimeWithinDay(now);
    var back := SetMonth(now, m - 1);
    if m == 0 {
      MakeDayBeforeJanuary(y, d);
    } else {
      MakeDayInRange(y, m - 1, d);
    }
    assert back == MakeDate(DayFromCivil(py, pm, d), tod);
    if FitsPrevMonth(now) {
      MakeDateCivil(py, pm, d, tod);
    } else {
      var len := DaysInMonth(py, pm);
      OverflowIntoThisMonth(now);
      assert DayFromCivil(py, pm, d) == DayFromCivil(y, m, d - len);
      MakeDateCivil(y, m, d - len, tod);
    }
    SetDateCivil(back, 1);
  }

  /** A day past the end of the previous month is day `d - len` of the current month, and that day exists. */
  lemma OverflowIntoThisMonth(now: int)
    requires !FitsPrevMonth(now)
    ensures var len := DaysInMonth(PrevMonth(now).0, PrevMonth(now).1);
            DayFromCivil(PrevMonth(now).0, PrevMonth(now).1, DayOfMonth(now))
              == DayFromCivil(FullYear(now), Month(now), DayOfMonth(now) - len)
            && 1 <= DayOfMonth(now) - len <= DaysInMonth(FullYear(now), Month(now))
  {
    PrevMonthEndsBeforeFirst(now);
    var py, pm := PrevMonth(now).0, PrevMonth(now).1;
    assert DaysInMonth(py, pm) >= 28;
  }

  /** When today's day exists in the previous month, the as-written start is the corrected one. */
  lemma AsWrittenAgrees(now: int)
    requires FitsPrevMonth(now)
    ensures MonthlyStartBAsWritten(now) == PrevMonthStart(now)
  {
    var w, c := MonthlyStartBAsWritten(now), PrevMonthStart(now);
    MonthlyStartBAsWrittenCivil(now);
    PrevMonthStartCivil(now);
    DayOfInstant(w);
    DayOfInstant(c);
    assert Day(w) == Day(c);
  }

  /**
   * On 31 March 2024 (noon) moving back a month lands on "31 February", which the
   * host normalises to 2 March; the range meant to be February then starts on 1 March,
   * in the current month, and ends at 00:00 on 31 March.
   */
  lemma MonthlyStartBAsWrittenOverflows()
    ensures var now := NewDate(2024, 2, 31, 12, 0, 0);
            Month(now) == 2
            && Civil(MonthlyStartBAsWritten(now)) == Ymd(2024, 2, 1)
            && Civil(LastDayOfMonth(MonthlyStartBAsWritten(now))) == Ymd(2024, 2, 31)
            && Civil(PrevMonthStart(now)) == Ymd(2024, 1, 1)
  {
    var now := NewDate(2024, 2, 31, 12, 0, 0);
    NewDateCivil(2024, 2, 31, 12, 0, 0);
    var back := SetMonth(now, 1);
    BackFromMarch31(now);
    SetDateCivil(back, 1);
    LastOfMonthCivil(2024, 2, 0, 0, 0);
    PrevMonthStartCivil(now);
  }

  /** `setMonth(1)` on 31 March 2024 lands on 2 March. */
  lemma BackFromMarch31(now: int)
    requires Civil(now) == Ymd(2024, 2, 31)
    ensures Civil(SetMonth(now, 1)) == Ymd(2024, 2, 2)
  {
    MakeDayInRange(2024, 1, 31);
    FebruaryOverflow();
    MakeDateCivil(2024, 2, 2, TimeWithinDay(now));
  }

  /** Day 31 of February 2024 is 2 March. */
  lemma FebruaryOverflow()
    ensures DayFromCivil(2024, 1, 31) == DayFromCivil(2024, 2, 2)
  {
    MonthLength(2024, 1);
  }

  // ===================================================================
  // Period metrics
  // ===================================================================

  /**
   * The category filter: `catFilter` is a category id, `subFilter` a sub-category
   * name, "" meaning no filter. The sub-category filter counts only with a category filter.
   */
  predicate InPeriod(tx: Transaction, r: Range, catFilter: string, subFilter: string) {
    r.start <= tx.date <= r.end
    && (catFilter != "" ==>
          tx.categoryId == Some(catFilter) && (subFilter != "" ==> tx.subCategory == Some(subFilter)))
  }

  function PeriodTest(r: Range, catFilter: string, subFilter: string): Transaction -> bool {
    tx => InPeriod(tx, r, catFilter, subFilter)
  }

  /** The sum of the amounts of the transactions of kind `kind`. */
  function KindSum(txs: seq<Transaction>, kind: TransactionType): int {
    if txs == [] then 0
    else KindSum(txs[..|txs| - 1], kind) + (if txs[|txs| - 1].kind == kind then txs[|txs| - 1].amount else 0)
  }

  /** The sum of the amounts of the transactions of kind `kind` that pass `p`. */
  function KindSumWhere(txs: seq<Transaction>, kind: TransactionType, p: Transaction -> bool): int {
    if txs == [] then 0
    else
      var last := txs[|txs| - 1];
      KindSumWhere(txs[..|txs| - 1], kind, p) + (if last.kind == kind && p(last) then last.amount else 0)
  }

  datatype Metrics = Metrics(income: int, expense: int, savings: int, txs: seq<Transaction>)

  /** `getPeriodMetrics(range)` */
  function PeriodMetrics(txs: seq<Transaction>, r: Range, catFilter: string, subFilter: string): Metrics {
    var ts := Filter(txs, PeriodTest(r, catFilter, subFilter));
    var income := KindSum(ts, Income);
    var expense := KindSum(ts, Expense);
    Metrics(income, expense, income - expense, ts)
  }

  lemma {:induction false} KindSumFilter(txs: seq<Transaction>, kind: TransactionType, p: Transaction -> bool)
    ensures KindSum(Filter(txs, p), kind) == KindSumWhere(txs, kind, p)
  {
    if txs != [] {
      var init := txs[..|txs| - 1];
      var last := txs[|txs| - 1];
      KindSumFilter(init, kind, p);
      FilterSnoc(txs, p);
      var before := Filter(init, p);
      assert KindSumWhere(txs, kind, p)
          == KindSum(before, kind) + (if last.kind == kind && p(last) then last.amount else 0);
      if p(last) {
        assert Filter(txs, p) == before + [last];
        KindSumSnoc(before, last, kind);
      } else {
        assert Filter(txs, p) == before;
      }
    }
  }

  lemma KindSumSnoc(s: seq<Transaction>, x: Transaction, kind: TransactionType)
    ensures KindSum(s + [x], kind) == KindSum(s, kind) + (if x.kind == kind then x.amount else 0)
  {
    assert (s + [x])[..|s|] == s;
  }

  /**
   * The metrics of a range: exactly the transactions of the log inside it (both ends
   * included) that pass the filter, in log order; income and expense sum those of
   * their kind, so transfers count in neither; savings is their difference.
   */
  lemma PeriodMetricsLaws(txs: seq<Transaction>, r: Range, catFilter: string, subFilter: string)
    ensures var m := PeriodMetrics(txs, r, catFilter, subFilter);
            && (forall x :: x in m.txs <==> x in txs && InPeriod(x, r, catFilter, subFilter))
            && m.income == KindSumWhere(txs, Income, PeriodTest(r, catFilter, subFilter))
            && m.expense == KindSumWhere(txs, Expense, PeriodTest(r, catFilter, subFilter))
            && m.savings == m.income - m.expense
  {
    KindSumFilter(txs, Income, PeriodTest(r, catFilter, subFilter));
    KindSumFilter(txs, Expense, PeriodTest(r, catFilter, subFilter));
  }

  lemma {:induction false} KindSumSplit(txs: seq<Transaction>, kind: TransactionType, p: Transaction -> bool, p1: Transaction -> bool, p2: Transaction -> bool)
    requires forall x :: p(x) <==> p1(x) || p2(x)
    requires forall x :: !(p1(x) && p2(x))
    ensures KindSumWhere(txs, kind, p) == KindSumWhere(txs, kind, p1) + KindSumWhere(txs, kind, p2)
  {
    if txs != [] {
      KindSumSplit(txs[..|txs| - 1], kind, p, p1, p2);
    }
  }

  /**
   * Splitting a range at an instant splits its income and expense: the part up to
   * `mid - 1` and the part from `mid` add up to the whole.
   */
  lemma PeriodMetricsAdditive(txs: seq<Transaction>, start: int, mid: int, end: int, catFilter: string, subFilter: string)
    requires start <= mid <= end + 1
    ensures var whole := PeriodMetrics(txs, Range(start, end, ""), catFilter, subFilter);
            var first := PeriodMetrics(txs, Range(start, mid - 1, ""), catFilter, subFilter);
            var second := PeriodMetrics(txs, Range(mid, end, ""), catFilter, subFilter);
            whole.income == first.income + second.income && whole.expense == first.expense + second.expense
  {
    var p := PeriodTest(Range(start, end, ""), catFilter, subFilter);
    var p1 := PeriodTest(Range(start, mid - 1, ""), catFilter, subFilter);
    var p2 := PeriodTest(Range(mid, end, ""), catFilter, subFilter);
    PeriodMetricsLaws(txs, Range(start, end, ""), catFilter, subFilter);
    PeriodMetricsLaws(txs, Range(start, mid - 1, ""), catFilter, subFilter);
    PeriodMetricsLaws(txs, Range(mid, end, ""), catFilter, subFilter);
    KindSumSplit(txs, Income, p, p1, p2);
    KindSumSplit(txs, Expense, p, p1, p2);
  }

  /** Transfers count in neither sum: income plus expense is the total of the non-transfers. */
  lemma {:induction false} IncomeExpenseCover(txs: seq<Transaction>)
    ensures KindSum(txs, Income) + KindSum(txs, Expense) + KindSum(txs, Transfer) == AmountTotal(txs)
  {
    if txs != [] {
      IncomeExpenseCover(txs[..|txs| - 1]);
    }
  }

  function AmountTotal(txs: seq<Transaction>): int {
    if txs == [] then 0 else AmountTotal(txs[..|txs| - 1]) + txs[|txs| - 1].amount
  }

  // ===================================================================
  // Expense tallies: breakdown and top categories
  // ===================================================================

  /** What an expense tally loop adds, in order: one (key, amount) pair per expense. */
  function ExpenseInputs(txs: seq<Transaction>, key: Transaction -> string): seq<Entry<string, int>> {
    if txs == [] then []
    else
      var last := txs[|txs| - 1];
      ExpenseInputs(txs[..|txs| - 1], key) + (if last.kind == Expense then [Entry(key(last), last.amount)] else [])
  }

  /** The sum of the amounts of the expenses whose key is `k`. */
  function ExpenseSum(txs: seq<Transaction>, key: Transaction -> string, k: string): int {
    if txs == [] then 0
    else
      var last := txs[|txs| - 1];
      ExpenseSum(txs[..|txs| - 1], key, k) + (if last.kind == Expense && key(last) == k then last.amount else 0)
  }

  lemma ExpenseInputsStep(txs: seq<Transaction>, i: int, key: Transaction -> string)
    requires 0 <= i < |txs|
    ensures ExpenseInputs(txs[..i + 1], key)
         == ExpenseInputs(txs[..i], key) + (if txs[i].kind == Expense then [Entry(key(txs[i]), txs[i].amount)] else [])
  {
    assert txs[..i + 1][..i] == txs[..i];
  }

  /** The tally loop over the expenses of `txs`, keyed by `key`. */
  method ExpenseTally(txs: seq<Transaction>, key: Transaction -> string) returns (g: seq<Entry<string, int>>)
    ensures g == TallyOf(ExpenseInputs(txs, key))
  {
    g := [];
    var i := 0;
    while i < |txs|
      invariant 0 <= i <= |txs|
      invariant g == TallyOf(ExpenseInputs(txs[..i], key))
    {
      var tx := txs[i];
      ExpenseInputsStep(txs, i, key);
      if tx.kind == Expense {
        var k := key(tx);
        TallyOfSnoc(ExpenseInputs(txs[..i], key), Entry(k, tx.amount));
        g := Bump(g, k, tx.amount);
      } else {
        assert ExpenseInputs(txs[..i], key) + [] == ExpenseInputs(txs[..i], key);
      }
      i := i + 1;
    }
    assert txs[..|txs|] == txs;
  }

  lemma {:induction false} ExpenseInputsSum(txs: seq<Transaction>, key: Transaction -> string, k: string)
    ensures SumFor(ExpenseInputs(txs, key), k) == ExpenseSum(txs, key, k)
  {
    if txs != [] {
      var init := txs[..|txs| - 1];
      var last := txs[|txs| - 1];
      ExpenseInputsSum(init, key, k);
      var before := ExpenseInputs(init, key);
      if last.kind == Expense {
        var e := Entry(key(last), last.amount);
        assert ExpenseInputs(txs, key) == before + [e];
        assert (before + [e])[..|before|] == before;
      } else {
        assert ExpenseInputs(txs, key) == before + [];
        assert before + [] == before;
      }
    }
  }

  lemma {:induction false} ExpenseInputsKeys(txs: seq<Transaction>, key: Transaction -> string, k: string)
    ensures k in Keys(ExpenseInputs(txs, key)) <==> exists i :: 0 <= i < |txs| && txs[i].kind == Expense && key(txs[i]) == k
  {
    if txs != [] {
      var init := txs[..|txs| - 1];
      var last := txs[|txs| - 1];
      ExpenseInputsKeys(init, key, k);
      var before := ExpenseInputs(init, key);
      var mine := if last.kind == Expense then [Entry(key(last), last.amount)] else [];
      assert ExpenseInputs(txs, key) == before + mine;
      assert Keys(before + mine) == Keys(before) + Keys(mine);
      assert forall i :: 0 <= i < |init| ==> txs[i] == init[i];
      if k in Keys(before + mine) && k !in Keys(before) {
        assert txs[|txs| - 1].kind == Expense && key(txs[|txs| - 1]) == k;
      }
    }
  }

  /**
   * An expense tally has one entry per key of an expense, each once, holding the sum
   * of those expenses' amounts; a key no expense has reads 0.
   */
  lemma ExpenseTallyLaws(txs: seq<Transaction>, key: Transaction -> string, k: string)
    ensures Distinct(Keys(TallyOf(ExpenseInputs(txs, key))))
    ensures k in Keys(TallyOf(ExpenseInputs(txs, key))) <==>
              exists i :: 0 <= i < |txs| && txs[i].kind == Expense && key(txs[i]) == k
    ensures Get(TallyOf(ExpenseInputs(txs, key)), k) == ExpenseSum(txs, key, k)
  {
    TallyKeys(ExpenseInputs(txs, key));
    TallyGet(ExpenseInputs(txs, key), k);
    ExpenseInputsSum(txs, key, k);
    ExpenseInputsKeys(txs, key, k);
  }

  /** The breakdown key: the sub-category or 'General' under a category filter, else the translated category name or 'Uncategorized'. */
  function GroupKey(tx: Transaction, cats: seq<Category>, catFilter: string, t: string -> string): string {
    if catFilter != "" then OrElse(tx.subCategory, "General")
    else match FindCategory(cats, tx.categoryId)
      case Some(c) => t(c.name)
      case None => "Uncategorized"
  }

  function GroupKeyOf(cats: seq<Category>, catFilter: string, t: string -> string): Transaction -> string {
    tx => GroupKey(tx, cats, catFilter, t)
  }

  /** `groupData(txs)` */
  method GroupData(txs: seq<Transaction>, cats: seq<Category>, catFilter: string, t: string -> string)
    returns (g: seq<Entry<string, int>>)
    ensures g == TallyOf(ExpenseInputs(txs, GroupKeyOf(cats, catFilter, t)))
  {
    g := ExpenseTally(txs, GroupKeyOf(cats, catFilter, t));
  }

  /** One row of the breakdown table. */
  datatype Row = Row(name: string, amountA: int, amountB: int, diff: int)

  function RowsOf(keys: seq<string>, gA: seq<Entry<string, int>>, gB: seq<Entry<string, int>>): (r: seq<Row>)
    ensures |r| == |keys|
    ensures forall i :: 0 <= i < |keys| ==> r[i].name == keys[i] && r[i].amountA == Get(gA, keys[i])
                                            && r[i].amountB == Get(gB, keys[i]) && r[i].diff == r[i].amountA - r[i].amountB
  {
    if keys == [] then []
    else [Row(keys[0], Get(gA, keys[0]), Get(gB, keys[0]), Get(gA, keys[0]) - Get(gB, keys[0]))] + RowsOf(keys[1..], gA, gB)
  }

  function RowAmountA(r: Row): int {
    r.amountA
  }

  /** The table for two tallies: the union of their keys, each side's amount or 0, sorted by A descending. */
  function BreakdownOf(gA: seq<Entry<string, int>>, gB: seq<Entry<string, int>>): seq<Row> {
    SortDesc(RowsOf(Dedup(Keys(gA) + Keys(gB)), gA, gB), RowAmountA)
  }

  /** `breakdownData` for the transactions of the two ranges. */
  method BreakdownData(txsA: seq<Transaction>, txsB: seq<Transaction>, cats: seq<Category>, catFilter: string, t: string -> string)
    returns (rows: seq<Row>)
    ensures rows == BreakdownOf(TallyOf(ExpenseInputs(txsA, GroupKeyOf(cats, catFilter, t))),
                                TallyOf(ExpenseInputs(txsB, GroupKeyOf(cats, catFilter, t))))
  {
    var groupA := GroupData(txsA, cats, catFilter, t);
    var groupB := GroupData(txsB, cats, catFilter, t);
    var allKeys := Dedup(Keys(groupA) + Keys(groupB));
    rows := SortDesc(RowsOf(allKeys, groupA, groupB), RowAmountA);
  }

  /** Some row of `rows` is named `k`. */
  predicate HasRow(rows: seq<Row>, k: string) {
    exists r :: r in rows && r.name == k
  }

  /**
   * The breakdown table is sorted by A's amount, largest first; each row holds its
   * key's amount on both sides (0 where a side lacks it) and their difference; and the
   * rows are named by exactly the keys of either side.
   */
  lemma BreakdownLaws(gA: seq<Entry<string, int>>, gB: seq<Entry<string, int>>, k: string)
    ensures SortedDesc(BreakdownOf(gA, gB), RowAmountA)
    ensures forall r :: r in BreakdownOf(gA, gB) ==>
              r.amountA == Get(gA, r.name) && r.amountB == Get(gB, r.name) && r.diff == r.amountA - r.amountB
    ensures HasRow(BreakdownOf(gA, gB), k) <==> k in Keys(gA) || k in Keys(gB)
  {
    SortDescSorted(RowsOf(Dedup(Keys(gA) + Keys(gB)), gA, gB), RowAmountA);
    BreakdownRowValues(gA, gB);
    BreakdownRowNames(gA, gB, k);
  }

  lemma BreakdownRowValues(gA: seq<Entry<string, int>>, gB: seq<Entry<string, int>>)
    ensures forall r :: r in BreakdownOf(gA, gB) ==>
              r.amountA == Get(gA, r.name) && r.amountB == Get(gB, r.name) && r.diff == r.amountA - r.amountB
  {
    var unsorted := RowsOf(Dedup(Keys(gA) + Keys(gB)), gA, gB);
    forall r | r in BreakdownOf(gA, gB)
      ensures r.amountA == Get(gA, r.name) && r.amountB == Get(gB, r.name) && r.diff == r.amountA - r.amountB
    {
      SortDescMember(unsorted, RowAmountA, r);
    }
  }

  lemma BreakdownRowNames(gA: seq<Entry<string, int>>, gB: seq<Entry<string, int>>, k: string)
    ensures HasRow(BreakdownOf(gA, gB), k) <==> k in Keys(gA) || k in Keys(gB)
  {
    var keys := Dedup(Keys(gA) + Keys(gB));
    var unsorted := RowsOf(keys, gA, gB);
    DedupLaws(Keys(gA) + Keys(gB));
    assert k in keys <==> k in Keys(gA) + Keys(gB);
    if HasRow(BreakdownOf(gA, gB), k) {
      var r :| r in BreakdownOf(gA, gB) && r.name == k;
      SortDescMember(unsorted, RowAmountA, r);
      var i :| 0 <= i < |unsorted| && unsorted[i] == r;
      assert keys[i] == k;
    }
    if k in keys {
      var i :| 0 <= i < |keys| && keys[i] == k;
      SortDescMember(unsorted, RowAmountA, unsorted[i]);
      assert unsorted[i] in BreakdownOf(gA, gB) && unsorted[i].name == k;
    }
  }

  /**
   * Whenever the A side has no expenses under a key, the B side is kept in its own
   * key order after A's keys: the union lists A's keys first, unchanged.
   */
  lemma BreakdownKeyOrder(gA: seq<Entry<string, int>>, gB: seq<Entry<string, int>>)
    requires Distinct(Keys(gA))
    ensures |Keys(gA)| <= |Dedup(Keys(gA) + Keys(gB))|
    ensures Dedup(Keys(gA) + Keys(gB))[..|Keys(gA)|] == Keys(gA)
  {
    DedupOfDistinct(Keys(gA), Keys(gB));
  }

  /** The top-categories key: the category's name, else 'Other' (an empty name is falsy too). */
  function TopKey(tx: Transaction, cats: seq<Category>): string {
    var name := match FindCategory(cats, tx.categoryId) case Some(c) => Some(c.name) case None => None;
    OrElse(name, "Other")
  }

  function TopKeyOf(cats: seq<Category>): Transaction -> string {
    tx => TopKey(tx, cats)
  }

  function EntryAmount(e: Entry<string, int>): int {
    e.value
  }

  function Min(a: int, b: int): int {
    if a <= b then a else b
  }

  /** `getTopCategories(txs)`: the expense totals per category name, largest first, at most five. */
  method TopCategories(txs: seq<Transaction>, cats: seq<Category>) returns (top: seq<Entry<string, int>>)
    ensures var all := SortDesc(TallyOf(ExpenseInputs(txs, TopKeyOf(cats))), EntryAmount);
            top == all[..Min(5, |all|)]
  {
    var totals := ExpenseTally(txs, TopKeyOf(cats));
    var sorted := SortDesc(totals, EntryAmount);
    top := sorted[..Min(5, |sorted|)];
  }

  /**
   * The top list holds at most five totals, largest first, and no total left out is
   * larger than one kept; each kept total is the sum of that name's expenses.
   */
  lemma TopCategoriesLaws(txs: seq<Transaction>, cats: seq<Category>)
    ensures var totals := TallyOf(ExpenseInputs(txs, TopKeyOf(cats)));
            var all := SortDesc(totals, EntryAmount);
            var top := all[..Min(5, |all|)];
            && |top| == Min(5, |totals|)
            && SortedDesc(top, EntryAmount)
            && (forall i, j :: 0 <= i < |top| <= j < |all| ==> top[i].value >= all[j].value)
            && (forall e :: e in top ==> e.value == ExpenseSum(txs, TopKeyOf(cats), e.key))
  {
    var totals := TallyOf(ExpenseInputs(txs, TopKeyOf(cats)));
    var all := SortDesc(totals, EntryAmount);
    var top := all[..Min(5, |all|)];
    SortDescSorted(totals, EntryAmount);
    assert SortedDesc(top, EntryAmount) by {
      forall i, j | 0 <= i < j < |top| ensures top[i].value >= top[j].value {
        assert top[i] == all[i] && top[j] == all[j];
      }
    }
    forall i, j | 0 <= i < |top| <= j < |all| ensures top[i].value >= all[j].value {
      assert top[i] == all[i];
    }
    forall e | e in top ensures e.value == ExpenseSum(txs, TopKeyOf(cats), e.key) {
      TopEntryIsSum(txs, cats, e);
    }
  }

  lemma TopEntryIsSum(txs: seq<Transaction>, cats: seq<Category>, e: Entry<string, int>)
    requires e in SortDesc(TallyOf(ExpenseInputs(txs, TopKeyOf(cats))), EntryAmount)
    ensures e.value == ExpenseSum(txs, TopKeyOf(cats), e.key)
  {
    var totals := TallyOf(ExpenseInputs(txs, TopKeyOf(cats)));
    SortDescMember(totals, EntryAmount, e);
    var j :| 0 <= j < |totals| && totals[j] == e;
    ExpenseTallyLaws(txs, TopKeyOf(cats), e.key);
    FindAt(totals, j);
  }
}
