/**
 * The dashboard's figures: the accounts worth showing, this month's income and
 * expenses, last month's expenses up to the same day, the all-time net, the
 * expense pie by category name, the spending per category id, the fifteen most
 * recent transactions, what the pie shows beside the expenses, and the budget
 * health score.
 */
module Dashboard {
  import opened Types
  import opened Calendar
  import opened Sorting
  import opened Tally
  import opened AppContext
  import opened ReportFilters
  import opened ReportComparison
  import opened Charts

  // ===================================================================
  // Active accounts
  // ===================================================================

  /** `{ ...acc, balance }` */
  datatype AccountRow = AccountRow(account: Account, balance: int)

  /** Each account with `getAccountBalance(acc.id)`, in the list's order. */
  function WithBalances(accs: seq<Account>, txs: seq<Transaction>): (r: seq<AccountRow>)
    ensures |r| == |accs|
    ensures forall i :: 0 <= i < |accs| ==> r[i] == AccountRow(accs[i], AccountBalance(txs, accs[i].id))
  {
    if accs == [] then []
    else [AccountRow(accs[0], AccountBalance(txs, accs[0].id))] + WithBalances(accs[1..], txs)
  }

  /** `Math.abs(balance) >= 0.01`: in minor units, any balance other than 0. */
  predicate IsActive(r: AccountRow) {
    Abs(r.balance) >= 1
  }

  function ActiveTest(): AccountRow -> bool {
    r => IsActive(r)
  }

  /** `activeAccounts` */
  function ActiveAccounts(accs: seq<Account>, txs: seq<Transaction>): seq<AccountRow> {
    Filter(WithBalances(accs, txs), ActiveTest())
  }

  /** A row is shown exactly for a listed account whose balance is not zero, and it carries that balance. */
  lemma ActiveAccountsLaws(accs: seq<Account>, txs: seq<Transaction>, r: AccountRow)
    ensures r in ActiveAccounts(accs, txs) <==>
              r.account in accs && r.balance == AccountBalance(txs, r.account.id) && r.balance != 0
  {
    var rows := WithBalances(accs, txs);
    if r.account in accs && r.balance == AccountBalance(txs, r.account.id) {
      var i :| 0 <= i < |accs| && accs[i] == r.account;
      assert rows[i] == r;
    }
    if r in rows {
      var i :| 0 <= i < |rows| && rows[i] == r;
      assert accs[i] == r.account;
    }
  }

  /** The rows keep the order of the account list: the rows of a concatenation are the rows of each part. */
  lemma {:induction false} ActiveAccountsAppend(a: seq<Account>, b: seq<Account>, txs: seq<Transaction>)
    ensures ActiveAccounts(a + b, txs) == ActiveAccounts(a, txs) + ActiveAccounts(b, txs)
  {
    WithBalancesAppend(a, b, txs);
    FilterAppend(WithBalances(a, txs), WithBalances(b, txs), ActiveTest());
  }

  lemma WithBalancesAppend(a: seq<Account>, b: seq<Account>, txs: seq<Transaction>)
    ensures WithBalances(a + b, txs) == WithBalances(a, txs) + WithBalances(b, txs)
  {
    var l := WithBalances(a + b, txs);
    var r := WithBalances(a, txs) + WithBalances(b, txs);
    assert |l| == |r|;
    forall i | 0 <= i < |l| ensures l[i] == r[i] {
      if i < |a| {
        assert (a + b)[i] == a[i];
      } else {
        assert (a + b)[i] == b[i - |a|];
      }
    }
  }

  /** An account that no transaction names is not shown. */
  lemma UnusedAccountHidden(accs: seq<Account>, txs: seq<Transaction>, acc: Account)
    requires forall i :: 0 <= i < |txs| ==> !Mentions(txs[i], acc.id)
    ensures forall r :: r in ActiveAccounts(accs, txs) ==> r.account != acc
  {
    BalanceOfUnknown(txs, acc.id);
    forall r | r in ActiveAccounts(accs, txs) ensures r.account != acc {
      ActiveAccountsLaws(accs, txs, r);
    }
  }

  // ===================================================================
  // This month and last month
  // ===================================================================

  /** `tx.type === kind && new Date(tx.date) >= start` */
  predicate Since(tx: Transaction, kind: TransactionType, start: int) {
    tx.kind == kind && tx.date >= start
  }

  function SinceTest(kind: TransactionType, start: int): Transaction -> bool {
    tx => Since(tx, kind, start)
  }

  /** The filter-and-reduce of `monthlyExpenses` (kind Expense) and `monthlyIncome` (kind Income). */
  function MonthlySum(txs: seq<Transaction>, kind: TransactionType, start: int): int {
    AmountTotal(Filter(txs, SinceTest(kind, start)))
  }

  /** The sum it should be, written out from the front of the log. */
  function SumSince(txs: seq<Transaction>, kind: TransactionType, start: int): int {
    if txs == [] then 0
    else (if txs[0].kind == kind && txs[0].date >= start then txs[0].amount else 0) + SumSince(txs[1..], kind, start)
  }

  lemma {:induction false} AmountTotalCons(x: Transaction, s: seq<Transaction>)
    ensures AmountTotal([x] + s) == x.amount + AmountTotal(s)
  {
    if s != [] {
      var init := s[..|s| - 1];
      AmountTotalCons(x, init);
      assert ([x] + s)[..|s|] == [x] + init;
    } else {
      assert [x] + s == [x];
      assert [x][..0] == [];
    }
  }

  /** The monthly sum adds up the amounts of exactly the transactions of the kind dated at or after the start. */
  lemma {:induction false} MonthlySumIs(txs: seq<Transaction>, kind: TransactionType, start: int)
    ensures MonthlySum(txs, kind, start) == SumSince(txs, kind, start)
  {
    if txs != [] {
      MonthlySumIs(txs[1..], kind, start);
      if Since(txs[0], kind, start) {
        AmountTotalCons(txs[0], Filter(txs[1..], SinceTest(kind, start)));
      }
    }
  }

  /** A transaction added by the store (at the front of the log) moves the sum by its amount exactly when it counts. */
  lemma MonthlySumAfterAdd(txs: seq<Transaction>, data: Transaction, id: string, kind: TransactionType, start: int)
    ensures MonthlySum(PrependTransaction(txs, data, id), kind, start)
         == MonthlySum(txs, kind, start) + (if data.kind == kind && data.date >= start then data.amount else 0)
  {
    var r := PrependTransaction(txs, data, id);
    assert r == [r[0]] + r[1..];
    MonthlySumIs(r, kind, start);
    MonthlySumIs(txs, kind, start);
  }

  /** `startOfLastMonth`: 00:00 on the 1st of the month before now's. */
  function LastMonthStart(now: int): int {
    NewDate(FullYear(now), Month(now) - 1, 1, 0, 0, 0)
  }

  /** `daysInLastMonth`: `new Date(y, m, 0).getDate()`. */
  function DaysInLastMonth(now: int): int {
    DayOfMonth(NewDate(FullYear(now), Month(now), 0, 0, 0, 0))
  }

  /** `compareDay`: today's day of month, cut down to the length of last month. */
  function CompareDay(now: int): int {
    Min(DayOfMonth(now), DaysInLastMonth(now))
  }

  /** `endOfLastMonthSamePeriod`: 23:59:59 on the compare day of last month. */
  function LastMonthSamePeriodEnd(now: int): int {
    NewDate(FullYear(now), Month(now) - 1, CompareDay(now), 23, 59, 59)
  }

  /** The `lastMonthSamePeriodExpenses` filter: an expense dated inside the window, both ends included. */
  predicate InWindow(tx: Transaction, start: int, end: int) {
    tx.kind == Expense && start <= tx.date <= end
  }

  function WindowTest(start: int, end: int): Transaction -> bool {
    tx => InWindow(tx, start, end)
  }

  function LastMonthSamePeriodExpenses(txs: seq<Transaction>, now: int): int {
    AmountTotal(Filter(txs, WindowTest(LastMonthStart(now), LastMonthSamePeriodEnd(now))))
  }

  /** Month `m - 1` of the constructor is the month before now's, whichever year it falls in. */
  lemma MonthBefore(now: int, d: int)
    requires !(0 <= FullYear(now) <= 99)
    ensures MakeDay(ConstructorYear(FullYear(now)), Month(now) - 1, d) == DayFromCivil(PrevMonth(now).0, PrevMonth(now).1, d)
  {
    if Month(now) == 0 {
      MakeDayBeforeJanuary(FullYear(now), d);
    } else {
      MakeDayInRange(FullYear(now), Month(now) - 1, d);
    }
  }

  /** `new Date(y, m, 0).getDate()` is the length of the month before now's. */
  lemma DaysInLastMonthIs(now: int)
    requires !(0 <= FullYear(now) <= 99)
    ensures DaysInLastMonth(now) == DaysInMonth(PrevMonth(now).0, PrevMonth(now).1)
  {
    var y := FullYear(now);
    var m := Month(now);
    var (py, pm) := PrevMonth(now);
    DayZeroOfNextMonth(py, pm);
    if m == 0 {
      MakeDayAfterDecember(y - 1, 0);
      MakeDayInRange(y, 0, 0);
      assert MakeDay(y, m, 0) == MakeDay(py, pm + 1, 0);
    } else {
      assert MakeDay(y, m, 0) == MakeDay(py, pm + 1, 0);
    }
    assert MakeTime(0, 0, 0, 0) == 0;
    DayOfMakeDate(MakeDay(y, m, 0), 0);
  }

  /** The window starts at 00:00 on the 1st of last month. */
  lemma LastMonthStartCivil(now: int)
    requires !(0 <= FullYear(now) <= 99)
    ensures Civil(LastMonthStart(now)) == Ymd(PrevMonth(now).0, PrevMonth(now).1, 1)
    ensures LastMonthStart(now) == DayFromCivil(PrevMonth(now).0, PrevMonth(now).1, 1) * MsPerDay
  {
    var (py, pm) := PrevMonth(now);
    MonthBefore(now, 1);
    assert MakeTime(0, 0, 0, 0) == 0;
    MakeDateCivil(py, pm, 1, 0);
  }

  /** The window ends at 23:59:59 on the compare day of last month, which lies in last month and is no later than today's day. */
  lemma LastMonthEndCivil(now: int)
    requires !(0 <= FullYear(now) <= 99)
    ensures 1 <= CompareDay(now) <= DaysInMonth(PrevMonth(now).0, PrevMonth(now).1)
    ensures CompareDay(now) <= DayOfMonth(now)
    ensures Civil(LastMonthSamePeriodEnd(now)) == Ymd(PrevMonth(now).0, PrevMonth(now).1, CompareDay(now))
    ensures LastMonthSamePeriodEnd(now)
         == DayFromCivil(PrevMonth(now).0, PrevMonth(now).1, CompareDay(now)) * MsPerDay + MakeTime(23, 59, 59, 0)
  {
    var (py, pm) := PrevMonth(now);
    DaysInLastMonthIs(now);
    var cd := CompareDay(now);
    MonthBefore(now, cd);
    MakeDateCivil(py, pm, cd, MakeTime(23, 59, 59, 0));
  }

  /**
   * Last month's window runs from 00:00 on the 1st of the previous month to 23:59:59
   * on day min(today, that month's length) of it, so it never spills into this month.
   */
  lemma LastMonthWindow(now: int)
    requires !(0 <= FullYear(now) <= 99)
    ensures Civil(LastMonthStart(now)) == Ymd(PrevMonth(now).0, PrevMonth(now).1, 1)
    ensures Civil(LastMonthSamePeriodEnd(now)) == Ymd(PrevMonth(now).0, PrevMonth(now).1, CompareDay(now))
    ensures TimeWithinDay(LastMonthSamePeriodEnd(now)) == MakeTime(23, 59, 59, 0)
    ensures 1 <= CompareDay(now) <= DaysInMonth(PrevMonth(now).0, PrevMonth(now).1)
    ensures CompareDay(now) == Min(DayOfMonth(now), DaysInMonth(PrevMonth(now).0, PrevMonth(now).1))
    ensures LastMonthStart(now) <= LastMonthSamePeriodEnd(now) < StartOfMonth(now)
  {
    var (py, pm) := PrevMonth(now);
    LastMonthStartCivil(now);
    LastMonthEndCivil(now);
    DaysInLastMonthIs(now);
    StartOfMonthCivil(now);
    LastDayBeforeFirst(py, pm);
    var cd := CompareDay(now);
    var e := LastMonthSamePeriodEnd(now);
    assert TimeWithinDay(e) == MakeTime(23, 59, 59, 0) by {
      assert e == DayFromCivil(py, pm, cd) * MsPerDay + MakeTime(23, 59, 59, 0);
      DayOfMakeDate(DayFromCivil(py, pm, cd), MakeTime(23, 59, 59, 0));
    }
  }

  // ===================================================================
  // All-time net
  // ===================================================================

  /** The `combinedTotal` reducer, started at `acc`. */
  function Combine(acc: int, txs: seq<Transaction>): int
    decreases |txs|
  {
    if txs == [] then acc
    else
      var tx := txs[0];
      var next := if tx.kind == Income then acc + tx.amount else if tx.kind == Expense then acc - tx.amount else acc;
      Combine(next, txs[1..])
  }

  function CombinedTotal(txs: seq<Transaction>): int {
    Combine(0, txs)
  }

  lemma {:induction false} KindSumCons(x: Transaction, s: seq<Transaction>, kind: TransactionType)
    ensures KindSum([x] + s, kind) == (if x.kind == kind then x.amount else 0) + KindSum(s, kind)
  {
    if s != [] {
      var init := s[..|s| - 1];
      KindSumCons(x, init, kind);
      assert ([x] + s)[..|s|] == [x] + init;
    } else {
      assert [x] + s == [x];
      assert [x][..0] == [];
    }
  }

  lemma {:induction false} CombineIs(acc: int, txs: seq<Transaction>)
    ensures Combine(acc, txs) == acc + KindSum(txs, Income) - KindSum(txs, Expense)
    decreases |txs|
  {
    if txs != [] {
      var tx := txs[0];
      var next := if tx.kind == Income then acc + tx.amount else if tx.kind == Expense then acc - tx.amount else acc;
      CombineIs(next, txs[1..]);
      assert txs == [tx] + txs[1..];
      KindSumCons(tx, txs[1..], Income);
      KindSumCons(tx, txs[1..], Expense);
    }
  }

  /** The all-time net is all income minus all expenses; transfers do not move it. */
  lemma CombinedTotalIs(txs: seq<Transaction>)
    ensures CombinedTotal(txs) == KindSum(txs, Income) - KindSum(txs, Expense)
  {
    CombineIs(0, txs);
  }

  /** A transaction the store adds moves the net by its signed amount; a transfer leaves it. */
  lemma CombinedTotalAfterAdd(txs: seq<Transaction>, data: Transaction, id: string)
    ensures CombinedTotal(PrependTransaction(txs, data, id))
         == CombinedTotal(txs) + (if data.kind == Income then data.amount else if data.kind == Expense then -data.amount else 0)
  {
    var r := PrependTransaction(txs, data, id);
    assert r == [r[0]] + txs;
    CombinedTotalIs(r);
    CombinedTotalIs(txs);
    KindSumCons(r[0], txs, Income);
    KindSumCons(r[0], txs, Expense);
  }

  // ===================================================================
  // Expense pie and spending per category
  // ===================================================================

  /** `Object.entries(chartDataMap).map(([name, value]) => ({ name: t(name), value }))` */
  function NamedSlices(e: seq<Entry<string, int>>, t: string -> string): (r: seq<Slice>)
    ensures |r| == |e|
    ensures forall i :: 0 <= i < |e| ==> r[i] == Slice(t(e[i].key), e[i].value, false)
  {
    if e == [] then [] else NamedSlices(e[..|e| - 1], t) + [Slice(t(e[|e| - 1].key), e[|e| - 1].value, false)]
  }

  /** The pie's data: this month's expenses tallied under their category name, else 'Other'. */
  method ChartData(txs: seq<Transaction>, cats: seq<Category>, start: int, t: string -> string) returns (slices: seq<Slice>)
    ensures slices == NamedSlices(TallyOf(ExpenseInputs(Filter(txs, SinceTest(Expense, start)), TopKeyOf(cats))), t)
  {
    var monthly := Filter(txs, SinceTest(Expense, start));
    var totals := ExpenseTally(monthly, TopKeyOf(cats));
    slices := NamedSlices(totals, t);
  }

  lemma {:induction false} NamedSlicesTotal(e: seq<Entry<string, int>>, t: string -> string)
    ensures SliceTotal(NamedSlices(e, t)) == Total(e)
  {
    if e != [] {
      var init := e[..|e| - 1];
      NamedSlicesTotal(init, t);
      var r := NamedSlices(e, t);
      assert r[..|r| - 1] == NamedSlices(init, t);
    }
  }

  lemma {:induction false} ExpenseInputsTotal(s: seq<Transaction>, key: Transaction -> string)
    ensures Total(ExpenseInputs(s, key)) == KindSum(s, Expense)
  {
    if s != [] {
      var init := s[..|s| - 1];
      var last := s[|s| - 1];
      ExpenseInputsTotal(init, key);
      var before := ExpenseInputs(init, key);
      if last.kind == Expense {
        var e := Entry(key(last), last.amount);
        assert ExpenseInputs(s, key) == before + [e];
        assert (before + [e])[..|before|] == before;
      } else {
        assert ExpenseInputs(s, key) == before + [];
        assert before + [] == before;
      }
    }
  }

  lemma {:induction false} KindSumAll(s: seq<Transaction>, kind: TransactionType)
    requires forall x :: x in s ==> x.kind == kind
    ensures KindSum(s, kind) == AmountTotal(s)
  {
    if s != [] {
      KindSumAll(s[..|s| - 1], kind);
      assert s[|s| - 1] in s;
    }
  }

  /** The slices of the pie add up to this month's expenses. */
  lemma ChartDataTotal(txs: seq<Transaction>, cats: seq<Category>, start: int, t: string -> string)
    ensures SliceTotal(NamedSlices(TallyOf(ExpenseInputs(Filter(txs, SinceTest(Expense, start)), TopKeyOf(cats))), t))
         == MonthlySum(txs, Expense, start)
  {
    var monthly := Filter(txs, SinceTest(Expense, start));
    var key := TopKeyOf(cats);
    TallyTotal(ExpenseInputs(monthly, key));
    NamedSlicesTotal(TallyOf(ExpenseInputs(monthly, key)), t);
    ExpenseInputsTotal(monthly, key);
    KindSumAll(monthly, Expense);
  }

  /**
   * The pie has one entry per category name of this month's expenses (else 'Other'),
   * each once, holding the sum of those expenses.
   */
  lemma ChartDataKeys(txs: seq<Transaction>, cats: seq<Category>, start: int, name: string)
    ensures var g := TallyOf(ExpenseInputs(Filter(txs, SinceTest(Expense, start)), TopKeyOf(cats)));
            && Distinct(Keys(g))
            && (name in Keys(g) <==> exists x :: x in txs && Since(x, Expense, start) && TopKey(x, cats) == name)
            && Get(g, name) == ExpenseSum(Filter(txs, SinceTest(Expense, start)), TopKeyOf(cats), name)
  {
    var monthly := Filter(txs, SinceTest(Expense, start));
    var key := TopKeyOf(cats);
    ExpenseTallyLaws(monthly, key, name);
    MonthlyWitness(txs, start, key, name);
  }

  /** A transaction of this month's expenses with key `k` is an expense of the filtered list with that key, and back. */
  lemma MonthlyWitness(txs: seq<Transaction>, start: int, key: Transaction -> string, k: string)
    ensures (exists i :: 0 <= i < |Filter(txs, SinceTest(Expense, start))| && Filter(txs, SinceTest(Expense, start))[i].kind == Expense
                         && key(Filter(txs, SinceTest(Expense, start))[i]) == k)
        <==> exists x :: x in txs && Since(x, Expense, start) && key(x) == k
  {
    var monthly := Filter(txs, SinceTest(Expense, start));
    if exists x :: x in txs && Since(x, Expense, start) && key(x) == k {
      var x :| x in txs && Since(x, Expense, start) && key(x) == k;
      assert x in monthly;
      var i :| 0 <= i < |monthly| && monthly[i] == x;
      assert 0 <= i < |monthly| && monthly[i].kind == Expense && key(monthly[i]) == k;
      assert exists j :: 0 <= j < |Filter(txs, SinceTest(Expense, start))| && Filter(txs, SinceTest(Expense, start))[j].kind == Expense
                         && key(Filter(txs, SinceTest(Expense, start))[j]) == k;
    } else {
      forall i | 0 <= i < |monthly|
        ensures !(monthly[i].kind == Expense && key(monthly[i]) == k)
      {
        assert monthly[i] in monthly;
      }
    }
  }

  /** `tx.categoryId` as a key; a missing id never becomes one, since the loop skips falsy ids. */
  function CategoryKey(tx: Transaction): string {
    match tx.categoryId case Some(c) => c case None => ""
  }

  /** What the `spentByCategory` loop adds: one (categoryId, amount) pair per expense with a truthy category id. */
  function SpentInputs(txs: seq<Transaction>): seq<Entry<string, int>> {
    if txs == [] then []
    else
      var last := txs[|txs| - 1];
      SpentInputs(txs[..|txs| - 1]) + (if last.kind == Expense && Truthy(last.categoryId) then [Entry(CategoryKey(last), last.amount)] else [])
  }

  lemma SpentInputsStep(txs: seq<Transaction>, i: int)
    requires 0 <= i < |txs|
    ensures SpentInputs(txs[..i + 1])
         == SpentInputs(txs[..i]) + (if txs[i].kind == Expense && Truthy(txs[i].categoryId) then [Entry(CategoryKey(txs[i]), txs[i].amount)] else [])
  {
    assert txs[..i + 1][..i] == txs[..i];
  }

  /** The `spentByCategory` loop over this month's expenses. */
  method SpentByCategory(txs: seq<Transaction>, start: int) returns (g: seq<Entry<string, int>>)
    ensures g == TallyOf(SpentInputs(Filter(txs, SinceTest(Expense, start))))
  {
    var monthly := Filter(txs, SinceTest(Expense, start));
    g := [];
    var i := 0;
    while i < |monthly|
      invariant 0 <= i <= |monthly|
      invariant g == TallyOf(SpentInputs(monthly[..i]))
    {
      var tx := monthly[i];
      assert tx in monthly;
      SpentInputsStep(monthly, i);
      ghost var before := SpentInputs(monthly[..i]);
      if tx.categoryId.Some? && tx.categoryId.value != "" {
        TallyOfSnoc(before, Entry(tx.categoryId.value, tx.amount));
        g := Bump(g, tx.categoryId.value, tx.amount);
      } else {
        assert before + [] == before;
      }
      i := i + 1;
    }
    assert monthly[..|monthly|] == monthly;
  }

  lemma {:induction false} SpentInputsSum(txs: seq<Transaction>, k: string)
    requires k != ""
    ensures SumFor(SpentInputs(txs), k) == ExpenseSum(txs, CategoryKey, k)
  {
    if txs != [] {
      var init := txs[..|txs| - 1];
      var last := txs[|txs| - 1];
      SpentInputsSum(init, k);
      var before := SpentInputs(init);
      if last.kind == Expense && Truthy(last.categoryId) {
        var e := Entry(CategoryKey(last), last.amount);
        assert SpentInputs(txs) == before + [e];
        assert (before + [e])[..|before|] == before;
      } else {
        assert SpentInputs(txs) == before + [];
        assert before + [] == before;
      }
    }
  }

  lemma {:induction false} SpentInputsKeys(txs: seq<Transaction>, k: string)
    ensures k in Keys(SpentInputs(txs)) <==> k != "" && exists i :: 0 <= i < |txs| && txs[i].kind == Expense && CategoryKey(txs[i]) == k
  {
    if txs != [] {
      var init := txs[..|txs| - 1];
      SpentInputsKeys(init, k);
      SpentKeysStep(init, txs[|txs| - 1], k);
      assert init + [txs[|txs| - 1]] == txs;
    }
  }

  lemma SpentKeysStep(init: seq<Transaction>, last: Transaction, k: string)
    requires k in Keys(SpentInputs(init)) <==> k != "" && exists i :: 0 <= i < |init| && init[i].kind == Expense && CategoryKey(init[i]) == k
    ensures var txs := init + [last];
            k in Keys(SpentInputs(txs)) <==> k != "" && exists i :: 0 <= i < |txs| && txs[i].kind == Expense && CategoryKey(txs[i]) == k
  {
    var txs := init + [last];
    assert txs[..|txs| - 1] == init;
    var before := SpentInputs(init);
    var mine := if last.kind == Expense && Truthy(last.categoryId) then [Entry(CategoryKey(last), last.amount)] else [];
    assert SpentInputs(txs) == before + mine;
    assert Keys(before + mine) == Keys(before) + Keys(mine);
    if k in Keys(before + mine) {
      if k in Keys(before) {
        var i :| 0 <= i < |init| && init[i].kind == Expense && CategoryKey(init[i]) == k;
        assert txs[i] == init[i];
        assert 0 <= i < |txs| && txs[i].kind == Expense && CategoryKey(txs[i]) == k;
      } else {
        assert txs[|init|] == last;
        assert 0 <= |init| < |txs| && txs[|init|].kind == Expense && CategoryKey(txs[|init|]) == k;
      }
    }
    if k != "" && exists i :: 0 <= i < |txs| && txs[i].kind == Expense && CategoryKey(txs[i]) == k {
      var i :| 0 <= i < |txs| && txs[i].kind == Expense && CategoryKey(txs[i]) == k;
      if i < |init| {
        assert txs[i] == init[i];
        assert k in Keys(before);
      } else {
        assert txs[i] == last;
        assert Keys(mine) == [k];
      }
    }
  }

  /**
   * `spentByCategory` has one entry per category id of this month's expenses (never
   * for a missing or empty id), each once, holding the sum of those expenses.
   */
  lemma SpentByCategoryLaws(txs: seq<Transaction>, start: int, k: string)
    ensures var g := TallyOf(SpentInputs(Filter(txs, SinceTest(Expense, start))));
            && Distinct(Keys(g))
            && (k in Keys(g) <==> k != "" && exists x :: x in txs && Since(x, Expense, start) && CategoryKey(x) == k)
            && (k != "" ==> Get(g, k) == ExpenseSum(Filter(txs, SinceTest(Expense, start)), CategoryKey, k))
            && (k == "" ==> Get(g, k) == 0)
  {
    var monthly := Filter(txs, SinceTest(Expense, start));
    var g := TallyOf(SpentInputs(monthly));
    TallyKeys(SpentInputs(monthly));
    TallyGet(SpentInputs(monthly), k);
    SpentInputsKeys(monthly, k);
    MonthlyWitness(txs, start, CategoryKey, k);
    if k != "" {
      SpentInputsSum(monthly, k);
    } else {
      GetAbsent(g, k);
    }
  }

  // ===================================================================
  // Recent transactions
  // ===================================================================

  /** `recent`: newest first (a stable sort), the first fifteen. */
  function Recent(txs: seq<Transaction>): seq<Transaction> {
    var sorted := SortDesc(txs, TxDate);
    sorted[..Min(15, |sorted|)]
  }

  /**
   * The recent list holds min(15, n) transactions of the log, newest first, and no
   * transaction left out of it is newer than one in it.
   */
  lemma RecentLaws(txs: seq<Transaction>)
    ensures |Recent(txs)| == Min(15, |txs|)
    ensures SortedDesc(Recent(txs), TxDate)
    ensures multiset(Recent(txs)) <= multiset(txs)
    ensures forall x, y :: x in multiset(txs) - multiset(Recent(txs)) && y in Recent(txs) ==> x.date <= y.date
  {
    var sorted := SortDesc(txs, TxDate);
    var n := Min(15, |sorted|);
    SortDescSorted(txs, TxDate);
    PrefixSorted(sorted, n, TxDate);
    PrefixMultiset(sorted, n);
    LeftOutNotNewer(sorted, n, TxDate);
  }

  lemma PrefixSorted<T>(s: seq<T>, n: int, key: T -> int)
    requires SortedDesc(s, key) && 0 <= n <= |s|
    ensures SortedDesc(s[..n], key)
  {
    forall i, j | 0 <= i < j < n ensures key(s[..n][i]) >= key(s[..n][j]) {
      assert s[..n][i] == s[i] && s[..n][j] == s[j];
    }
  }

  lemma PrefixMultiset<T>(s: seq<T>, n: int)
    requires 0 <= n <= |s|
    ensures multiset(s[..n]) <= multiset(s)
    ensures multiset(s) - multiset(s[..n]) == multiset(s[n..])
  {
    assert s == s[..n] + s[n..];
    assert multiset(s) == multiset(s[..n]) + multiset(s[n..]);
  }

  /** In a list sorted newest first, nothing after the first `n` is newer than anything among them. */
  lemma LeftOutNotNewer<T>(s: seq<T>, n: int, key: T -> int)
    requires SortedDesc(s, key) && 0 <= n <= |s|
    ensures forall x, y :: x in s[n..] && y in s[..n] ==> key(x) <= key(y)
  {
    forall x, y | x in s[n..] && y in s[..n] ensures key(x) <= key(y) {
      var j :| 0 <= j < |s| - n && s[n..][j] == x;
      var i :| 0 <= i < n && s[..n][i] == y;
      assert s[n + j] == x && s[i] == y;
    }
  }

  // ===================================================================
  // Pie remainder and health
  // ===================================================================

  /**
   * `remainingForChart`: with a budget, what is left of it (negative once the month's
   * expenses pass it); without one, what is left of the month's income, never below 0.
   */
  function RemainingForChart(budget: int, income: int, expenses: int): (r: int)
    ensures budget > 0 ==> r == budget - expenses
    ensures budget <= 0 ==> r == Max(0, income - expenses)
    ensures r < 0 <==> budget > 0 && expenses > budget
  {
    var r0 := if budget > 0 then Max(0, budget - expenses) else Max(0, income - expenses);
    if budget > 0 && expenses > budget then budget - expenses else r0
  }

  /**
   * The pie beside the month's expenses: with a budget the slices add up to the
   * budget until it is passed, and to twice the expenses minus the budget after;
   * without one they add up to the month's income when it covers the expenses.
   */
  lemma OverviewWhole(data: seq<Slice>, budget: int, income: int, t: string -> string)
    requires SliceTotal(data) >= 0
    ensures var exp := SliceTotal(data);
            var total := SliceTotal(OverviewSlices(data, RemainingForChart(budget, income, exp), t));
            && (budget > 0 && exp <= budget ==> total == budget)
            && (budget > 0 && exp > budget ==> total == 2 * exp - budget)
            && (budget <= 0 && income >= exp ==> total == income)
            && (budget <= 0 && income < exp ==> total == exp)
  {
  }

  /** `Math.round(n / d)` for a non-negative `n` and a positive `d`: halves round up. */
  function RoundDiv(n: int, d: int): (q: int)
    requires n >= 0 && d >= 1
    ensures q >= 0
    ensures (2 * q - 1) * d <= 2 * n < (2 * q + 1) * d
  {
    var q := (2 * n + d) / (2 * d);
    var r := (2 * n + d) % (2 * d);
    assert 2 * n + d == q * (2 * d) + r;
    assert (2 * q - 1) * d == q * (2 * d) - d;
    assert (2 * q + 1) * d == q * (2 * d) + d;
    q
  }

  /**
   * `health`: 100 without a budget; otherwise the share of the budget still left, in
   * percent, rounded half up and never below 0.
   */
  function Health(budget: int, expenses: int): (h: int)
    ensures budget <= 0 ==> h == 100
    ensures budget > 0 && expenses >= budget ==> h == 0
    ensures budget > 0 && expenses < budget ==>
              (2 * h - 1) * budget <= 200 * (budget - expenses) < (2 * h + 1) * budget
    ensures h >= 0
    ensures expenses >= 0 ==> h <= 100
  {
    if budget <= 0 then 100
    else if expenses >= budget then 0
    else
      var h := RoundDiv(100 * (budget - expenses), budget);
      if expenses >= 0 then
        assert 200 * (budget - expenses) < 201 * budget;
        CancelLess(2 * h - 1, 201, budget);
        h
      else h
  }

  /** Spending more never raises the health score. */
  lemma HealthMonotone(budget: int, e1: int, e2: int)
    requires e1 <= e2
    ensures Health(budget, e2) <= Health(budget, e1)
  {
    if budget > 0 && e2 < budget {
      var h1 := Health(budget, e1);
      var h2 := Health(budget, e2);
      assert (2 * h2 - 1) * budget <= 200 * (budget - e2) <= 200 * (budget - e1) < (2 * h1 + 1) * budget;
      CancelLess(2 * h2 - 1, 2 * h1 + 1, budget);
    }
  }

  // ===================================================================
  // The whole `stats` memo
  // ===================================================================

  datatype Stats = Stats(
    monthlyExpenses: int,
    monthlyIncome: int,
    lastMonthSamePeriodExpenses: int,
    combinedTotal: int,
    recent: seq<Transaction>,
    chartData: seq<Slice>,
    remainingForChart: int,
    health: int,
    spentByCategory: seq<Entry<string, int>>,
    currentDay: int)

  /** `stats`, computed at instant `now`. */
  method ComputeStats(txs: seq<Transaction>, cats: seq<Category>, budget: int, now: int, t: string -> string) returns (s: Stats)
    ensures s.monthlyExpenses == SumSince(txs, Expense, StartOfMonth(now))
    ensures s.monthlyIncome == SumSince(txs, Income, StartOfMonth(now))
    ensures s.lastMonthSamePeriodExpenses == LastMonthSamePeriodExpenses(txs, now)
    ensures s.combinedTotal == KindSum(txs, Income) - KindSum(txs, Expense)
    ensures s.recent == Recent(txs)
    ensures s.chartData == NamedSlices(TallyOf(ExpenseInputs(Filter(txs, SinceTest(Expense, StartOfMonth(now))), TopKeyOf(cats))), t)
    ensures SliceTotal(s.chartData) == s.monthlyExpenses
    ensures s.remainingForChart == RemainingForChart(budget, s.monthlyIncome, s.monthlyExpenses)
    ensures s.health == Health(budget, s.monthlyExpenses)
    ensures s.spentByCategory == TallyOf(SpentInputs(Filter(txs, SinceTest(Expense, StartOfMonth(now)))))
    ensures 1 <= s.currentDay <= 31 && s.currentDay == DayOfMonth(now)
  {
    var start := StartOfMonth(now);
    var expenses := MonthlySum(txs, Expense, start);
    var income := MonthlySum(txs, Income, start);
    MonthlySumIs(txs, Expense, start);
    MonthlySumIs(txs, Income, start);
    CombinedTotalIs(txs);
    var chart := ChartData(txs, cats, start, t);
    ChartDataTotal(txs, cats, start, t);
    var spent := SpentByCategory(txs, start);
    s := Stats(expenses, income, LastMonthSamePeriodExpenses(txs, now), CombinedTotal(txs), Recent(txs), chart,
               RemainingForChart(budget, income, expenses), Health(budget, expenses), spent, DayOfMonth(now));
  }
}
