/**
 * The data behind the reports page's charts, computed from the displayed list:
 * the pie's totals per category label, and the per-day income/expense buckets
 * the bar, line and calendar views draw.
 */
module ReportCharts {
  import opened Types
  import opened LocalDates
  import opened Sorting
  import opened Tally

  // ===================================================================
  // Pie
  // ===================================================================

  /** A slice's label: the translated category name, else `t('cat_uncategorized')`. */
  function PieKey(tx: Transaction, cats: seq<Category>, t: string -> string): string {
    match FindCategory(cats, tx.categoryId)
    case Some(cat) => t(cat.name)
    case None => t("cat_uncategorized")
  }

  /** What the loop adds, in order: one (label, amount) pair per non-transfer. */
  function PieInputs(txs: seq<Transaction>, cats: seq<Category>, t: string -> string): seq<Entry<string, int>> {
    if txs == [] then []
    else
      var last := txs[|txs| - 1];
      PieInputs(txs[..|txs| - 1], cats, t) + (if last.kind == Transfer then [] else [Entry(PieKey(last, cats, t), last.amount)])
  }

  /** The sum of the amounts of the non-transfers labelled `k`. */
  function SliceSum(txs: seq<Transaction>, cats: seq<Category>, t: string -> string, k: string): int {
    if txs == [] then 0
    else
      var last := txs[|txs| - 1];
      SliceSum(txs[..|txs| - 1], cats, t, k) + (if last.kind != Transfer && PieKey(last, cats, t) == k then last.amount else 0)
  }

  /** The sum of the amounts of all non-transfers. */
  function NonTransferTotal(txs: seq<Transaction>): int {
    if txs == [] then 0
    else
      var last := txs[|txs| - 1];
      NonTransferTotal(txs[..|txs| - 1]) + (if last.kind == Transfer then 0 else last.amount)
  }

  /** The pie branch of `chartData`: the `catMap` loop, read back as entries. */
  method PieData(txs: seq<Transaction>, cats: seq<Category>, t: string -> string) returns (r: seq<Entry<string, int>>)
    ensures r == TallyOf(PieInputs(txs, cats, t))
  {
    r := [];
    var i := 0;
    while i < |txs|
      invariant 0 <= i <= |txs|
      invariant r == TallyOf(PieInputs(txs[..i], cats, t))
    {
      var tx := txs[i];
      PieInputsStep(txs, i, cats, t);
      ghost var before := PieInputs(txs[..i], cats, t);
      if tx.kind != Transfer {
        var key := PieKey(tx, cats, t);
        TallyOfSnoc(before, Entry(key, tx.amount));
        r := Bump(r, key, tx.amount);
      } else {
        assert before + [] == before;
      }
      assert r == TallyOf(PieInputs(txs[..i + 1], cats, t));
      i := i + 1;
    }
    assert txs[..|txs|] == txs;
  }

  lemma PieInputsStep(txs: seq<Transaction>, i: int, cats: seq<Category>, t: string -> string)
    requires 0 <= i < |txs|
    ensures PieInputs(txs[..i + 1], cats, t)
         == PieInputs(txs[..i], cats, t) + (if txs[i].kind == Transfer then [] else [Entry(PieKey(txs[i], cats, t), txs[i].amount)])
  {
    assert txs[..i + 1][..i] == txs[..i];
  }

  lemma {:induction false} PieInputsSum(txs: seq<Transaction>, cats: seq<Category>, t: string -> string, k: string)
    ensures SumFor(PieInputs(txs, cats, t), k) == SliceSum(txs, cats, t, k)
  {
    if txs != [] {
      var init := txs[..|txs| - 1];
      var last := txs[|txs| - 1];
      PieInputsSum(init, cats, t, k);
      var before := PieInputs(init, cats, t);
      if last.kind == Transfer {
        assert PieInputs(txs, cats, t) == before + [];
        assert before + [] == before;
      } else {
        var e := Entry(PieKey(last, cats, t), last.amount);
        assert PieInputs(txs, cats, t) == before + [e];
        assert (before + [e])[..|before|] == before;
      }
    }
  }

  lemma {:induction false} PieInputsTotal(txs: seq<Transaction>, cats: seq<Category>, t: string -> string)
    ensures Total(PieInputs(txs, cats, t)) == NonTransferTotal(txs)
  {
    if txs != [] {
      var init := txs[..|txs| - 1];
      var last := txs[|txs| - 1];
      PieInputsTotal(init, cats, t);
      var before := PieInputs(init, cats, t);
      if last.kind == Transfer {
        assert PieInputs(txs, cats, t) == before + [];
        assert before + [] == before;
      } else {
        var e := Entry(PieKey(last, cats, t), last.amount);
        assert PieInputs(txs, cats, t) == before + [e];
        assert (before + [e])[..|before|] == before;
      }
    }
  }

  lemma {:induction false} PieInputsKeys(txs: seq<Transaction>, cats: seq<Category>, t: string -> string, k: string)
    ensures k in Keys(PieInputs(txs, cats, t)) <==>
              exists i :: 0 <= i < |txs| && txs[i].kind != Transfer && PieKey(txs[i], cats, t) == k
  {
    if txs != [] {
      var init := txs[..|txs| - 1];
      var last := txs[|txs| - 1];
      PieInputsKeys(init, cats, t, k);
      var before := PieInputs(init, cats, t);
      var mine := if last.kind == Transfer then [] else [Entry(PieKey(last, cats, t), last.amount)];
      assert PieInputs(txs, cats, t) == before + mine;
      assert Keys(before + mine) == Keys(before) + Keys(mine);
      assert forall i :: 0 <= i < |init| ==> txs[i] == init[i];
      if k in Keys(before + mine) && k !in Keys(before) {
        assert txs[|txs| - 1].kind != Transfer && PieKey(txs[|txs| - 1], cats, t) == k;
      }
    }
  }

  /**
   * The slices are labelled by distinct keys, exactly the labels of the non-transfers;
   * each slice holds the sum of its transactions' amounts, and the slices add up to
   * the sum of all non-transfer amounts.
   */
  lemma PieLaws(txs: seq<Transaction>, cats: seq<Category>, t: string -> string, k: string)
    ensures Distinct(Keys(TallyOf(PieInputs(txs, cats, t))))
    ensures k in Keys(TallyOf(PieInputs(txs, cats, t))) <==>
              exists i :: 0 <= i < |txs| && txs[i].kind != Transfer && PieKey(txs[i], cats, t) == k
    ensures Get(TallyOf(PieInputs(txs, cats, t)), k) == SliceSum(txs, cats, t, k)
    ensures Total(TallyOf(PieInputs(txs, cats, t))) == NonTransferTotal(txs)
  {
    var pairs := PieInputs(txs, cats, t);
    TallyKeys(pairs);
    TallyGet(pairs, k);
    TallyTotal(pairs);
    PieInputsSum(txs, cats, t, k);
    PieInputsTotal(txs, cats, t);
    PieInputsKeys(txs, cats, t, k);
  }

  // ===================================================================
  // Per-day buckets
  // ===================================================================

  /** `{ income, expense, date }`: `date` is the instant of the first transaction met that day. */
  datatype Bucket = Bucket(income: int, expense: int, date: int)

  /** The bucket key: the local `YYYY-MM-DD` of the transaction's instant. */
  function DayKey(tx: Transaction): string {
    LocalYmd(tx.date)
  }

  /**
   * One step of the `dateMap` loop under the key `k`: create the day's bucket when
   * missing, then add the amount to its income or expense (a transfer adds nothing).
   */
  function AddToDay(m: seq<Entry<string, Bucket>>, k: string, tx: Transaction): seq<Entry<string, Bucket>> {
    Put(m, k, NextBucket(m, k, tx))
  }

  /** `dateMap` after the loop over `txs`, each transaction filed under `dayKey(tx)`. */
  function DaysBy(txs: seq<Transaction>, dayKey: Transaction -> string): seq<Entry<string, Bucket>> {
    if txs == [] then []
    else
      var last := txs[|txs| - 1];
      AddToDay(DaysBy(txs[..|txs| - 1], dayKey), dayKey(last), last)
  }

  /** The ascending sort by stored date, as a descending sort on the negated date. */
  function NegBucketDate(b: Bucket): int {
    -b.date
  }

  lemma DaysBySnoc(txs: seq<Transaction>, i: int, dayKey: Transaction -> string)
    requires 0 <= i < |txs|
    ensures DaysBy(txs[..i + 1], dayKey) == AddToDay(DaysBy(txs[..i], dayKey), dayKey(txs[i]), txs[i])
  {
    assert txs[..i + 1][..i] == txs[..i];
  }

  /** The loop body: `dateMap[key]` is created when missing, then updated in place. */
  method FileUnder(m: seq<Entry<string, Bucket>>, key: string, tx: Transaction) returns (m': seq<Entry<string, Bucket>>)
    ensures m' == AddToDay(m, key, tx)
  {
    m' := m;
    if Find(m', key).None? {
      m' := Put(m', key, Bucket(0, 0, tx.date));
    }
    PutFind(m, key, Bucket(0, 0, tx.date), key);
    var cur := Find(m', key).value;
    if tx.kind == Income {
      PutPut(m, key, Bucket(0, 0, tx.date), cur.(income := cur.income + tx.amount));
      m' := Put(m', key, cur.(income := cur.income + tx.amount));
    } else if tx.kind == Expense {
      PutPut(m, key, Bucket(0, 0, tx.date), cur.(expense := cur.expense + tx.amount));
      m' := Put(m', key, cur.(expense := cur.expense + tx.amount));
    } else if Find(m, key).Some? {
      PutSame(m, key, cur);
    }
  }

  /** The date branch of `chartData`: the `dateMap` loop, then `Object.values` sorted by date. */
  method DateBuckets(txs: seq<Transaction>) returns (r: seq<Bucket>)
    ensures r == SortDesc(Values(DaysBy(txs, DayKey)), NegBucketDate)
    ensures SortedDesc(r, NegBucketDate)
    ensures multiset(r) == multiset(Values(DaysBy(txs, DayKey)))
  {
    var m: seq<Entry<string, Bucket>> := [];
    var i := 0;
    while i < |txs|
      invariant 0 <= i <= |txs|
      invariant m == DaysBy(txs[..i], DayKey)
    {
      var tx := txs[i];
      DaysBySnoc(txs, i, DayKey);
      m := FileUnder(m, DayKey(tx), tx);
      i := i + 1;
    }
    assert txs[..|txs|] == txs;
    r := SortDesc(Values(m), NegBucketDate);
    SortDescSorted(Values(m), NegBucketDate);
  }

  /** The sum of the amounts of kind `kind` filed under `k`. */
  function DaySum(txs: seq<Transaction>, kind: TransactionType, k: string, dayKey: Transaction -> string): int {
    if txs == [] then 0
    else
      var last := txs[|txs| - 1];
      DaySum(txs[..|txs| - 1], kind, k, dayKey) + (if last.kind == kind && dayKey(last) == k then last.amount else 0)
  }

  predicate NoneOnDay(txs: seq<Transaction>, k: string, dayKey: Transaction -> string) {
    forall i :: 0 <= i < |txs| ==> dayKey(txs[i]) != k
  }

  /** `txs[i]` is the first transaction filed under `k`. */
  predicate FirstOnDay(txs: seq<Transaction>, i: int, k: string, dayKey: Transaction -> string) {
    0 <= i < |txs| && dayKey(txs[i]) == k && forall j :: 0 <= j < i ==> dayKey(txs[j]) != k
  }

  /** `b` is the bucket the key `k` should have. */
  predicate BucketOf(txs: seq<Transaction>, k: string, b: Bucket, dayKey: Transaction -> string) {
    b.income == DaySum(txs, Income, k, dayKey) && b.expense == DaySum(txs, Expense, k, dayKey)
    && exists i :: 0 <= i < |txs| && FirstOnDay(txs, i, k, dayKey) && b.date == txs[i].date
  }

  lemma {:induction false} DaySumNone(txs: seq<Transaction>, kind: TransactionType, k: string, dayKey: Transaction -> string)
    requires NoneOnDay(txs, k, dayKey)
    ensures DaySum(txs, kind, k, dayKey) == 0
  {
    if txs != [] {
      var init := txs[..|txs| - 1];
      assert NoneOnDay(init, k, dayKey) by {
        forall i | 0 <= i < |init| ensures dayKey(init[i]) != k {
          assert init[i] == txs[i];
        }
      }
      DaySumNone(init, kind, k, dayKey);
      assert dayKey(txs[|txs| - 1]) != k;
    }
  }

  /** A key has a bucket exactly when a transaction is filed under it, and the bucket is the right one. */
  lemma {:induction false} DaysByAt(txs: seq<Transaction>, k: string, dayKey: Transaction -> string)
    ensures Find(DaysBy(txs, dayKey), k).None? <==> NoneOnDay(txs, k, dayKey)
    ensures Find(DaysBy(txs, dayKey), k).Some? ==> BucketOf(txs, k, Find(DaysBy(txs, dayKey), k).value, dayKey)
  {
    if txs != [] {
      DaysByAt(txs[..|txs| - 1], k, dayKey);
      DaysByStep(txs, k, dayKey);
    }
  }

  /** The bucket `AddToDay` files `tx` into, given what `m` held. */
  function NextBucket(m: seq<Entry<string, Bucket>>, k: string, tx: Transaction): Bucket {
    var cur := match Find(m, k) case Some(b) => b case None => Bucket(0, 0, tx.date);
    if tx.kind == Income then cur.(income := cur.income + tx.amount)
    else if tx.kind == Expense then cur.(expense := cur.expense + tx.amount)
    else cur
  }

  lemma {:induction false} DaysByStep(txs: seq<Transaction>, k: string, dayKey: Transaction -> string)
    requires txs != []
    requires Find(DaysBy(txs[..|txs| - 1], dayKey), k).None? <==> NoneOnDay(txs[..|txs| - 1], k, dayKey)
    requires Find(DaysBy(txs[..|txs| - 1], dayKey), k).Some? ==>
               BucketOf(txs[..|txs| - 1], k, Find(DaysBy(txs[..|txs| - 1], dayKey), k).value, dayKey)
    ensures Find(DaysBy(txs, dayKey), k).None? <==> NoneOnDay(txs, k, dayKey)
    ensures Find(DaysBy(txs, dayKey), k).Some? ==> BucketOf(txs, k, Find(DaysBy(txs, dayKey), k).value, dayKey)
  {
    var init := txs[..|txs| - 1];
    var last := txs[|txs| - 1];
    var m := DaysBy(init, dayKey);
    var lk := dayKey(last);
    var nb := NextBucket(m, lk, last);
    assert DaysBy(txs, dayKey) == Put(m, lk, nb);
    PutFind(m, lk, nb, k);
    if k != lk {
      StepOtherDay(txs, k, dayKey, Find(m, k));
    } else {
      StepSameDay(txs, k, dayKey, Find(m, k), nb);
    }
  }

  lemma StepOtherDay(txs: seq<Transaction>, k: string, dayKey: Transaction -> string, found: Option<Bucket>)
    requires txs != [] && dayKey(txs[|txs| - 1]) != k
    requires found.None? <==> NoneOnDay(txs[..|txs| - 1], k, dayKey)
    requires found.Some? ==> BucketOf(txs[..|txs| - 1], k, found.value, dayKey)
    ensures found.None? <==> NoneOnDay(txs, k, dayKey)
    ensures found.Some? ==> BucketOf(txs, k, found.value, dayKey)
  {
    var init := txs[..|txs| - 1];
    assert forall i :: 0 <= i < |init| ==> txs[i] == init[i];
    assert DaySum(txs, Income, k, dayKey) == DaySum(init, Income, k, dayKey);
    assert DaySum(txs, Expense, k, dayKey) == DaySum(init, Expense, k, dayKey);
    if found.Some? {
      var i :| 0 <= i < |init| && FirstOnDay(init, i, k, dayKey) && found.value.date == init[i].date;
      assert FirstOnDay(txs, i, k, dayKey);
    }
  }

  lemma StepSameDay(txs: seq<Transaction>, k: string, dayKey: Transaction -> string, found: Option<Bucket>, nb: Bucket)
    requires txs != [] && dayKey(txs[|txs| - 1]) == k
    requires found.None? <==> NoneOnDay(txs[..|txs| - 1], k, dayKey)
    requires found.Some? ==> BucketOf(txs[..|txs| - 1], k, found.value, dayKey)
    requires nb == (var last := txs[|txs| - 1];
                    var cur := match found case Some(b) => b case None => Bucket(0, 0, last.date);
                    if last.kind == Income then cur.(income := cur.income + last.amount)
                    else if last.kind == Expense then cur.(expense := cur.expense + last.amount)
                    else cur)
    ensures !NoneOnDay(txs, k, dayKey)
    ensures BucketOf(txs, k, nb, dayKey)
  {
    var init := txs[..|txs| - 1];
    var last := txs[|txs| - 1];
    assert forall i :: 0 <= i < |init| ==> txs[i] == init[i];
    assert dayKey(txs[|txs| - 1]) == k;
    assert DaySum(txs, Income, k, dayKey) == DaySum(init, Income, k, dayKey) + (if last.kind == Income then last.amount else 0);
    assert DaySum(txs, Expense, k, dayKey) == DaySum(init, Expense, k, dayKey) + (if last.kind == Expense then last.amount else 0);
    if found.Some? {
      var i :| 0 <= i < |init| && FirstOnDay(init, i, k, dayKey) && found.value.date == init[i].date;
      assert FirstOnDay(txs, i, k, dayKey);
    } else {
      DaySumNone(init, Income, k, dayKey);
      DaySumNone(init, Expense, k, dayKey);
      assert FirstOnDay(txs, |init|, k, dayKey);
    }
  }

  lemma {:induction false} DaysByDistinct(txs: seq<Transaction>, dayKey: Transaction -> string)
    ensures Distinct(Keys(DaysBy(txs, dayKey)))
  {
    if txs != [] {
      var init := txs[..|txs| - 1];
      var last := txs[|txs| - 1];
      DaysByDistinct(init, dayKey);
      var m := DaysBy(init, dayKey);
      var lk := dayKey(last);
      PutDistinct(m, lk, NextBucket(m, lk, last));
    }
  }

  /** Every value of the map is the bucket of its key. */
  lemma ValuesAreBuckets(txs: seq<Transaction>, dayKey: Transaction -> string, j: int)
    requires 0 <= j < |DaysBy(txs, dayKey)|
    ensures BucketOf(txs, DaysBy(txs, dayKey)[j].key, DaysBy(txs, dayKey)[j].value, dayKey)
  {
    var m := DaysBy(txs, dayKey);
    DaysByDistinct(txs, dayKey);
    FindAt(m, j);
    DaysByAt(txs, m[j].key, dayKey);
  }

  /** Every key a transaction is filed under has an entry in the map. */
  lemma KeyHasEntry(txs: seq<Transaction>, dayKey: Transaction -> string, i: int)
    requires 0 <= i < |txs|
    ensures exists j :: 0 <= j < |DaysBy(txs, dayKey)| && DaysBy(txs, dayKey)[j].key == dayKey(txs[i])
  {
    var m := DaysBy(txs, dayKey);
    DaysByAt(txs, dayKey(txs[i]), dayKey);
    FindKeys(m, dayKey(txs[i]));
  }

  /** Every bucket the chart gets is the bucket of its own local day. */
  lemma BucketInOutput(txs: seq<Transaction>, b: Bucket)
    requires b in SortDesc(Values(DaysBy(txs, DayKey)), NegBucketDate)
    ensures BucketOf(txs, LocalYmd(b.date), b, DayKey)
  {
    var m := DaysBy(txs, DayKey);
    var vs := Values(m);
    SortDescMember(vs, NegBucketDate, b);
    var j :| 0 <= j < |vs| && vs[j] == b;
    ValuesAreBuckets(txs, DayKey, j);
    var i :| 0 <= i < |txs| && FirstOnDay(txs, i, m[j].key, DayKey) && b.date == txs[i].date;
    assert m[j].key == LocalYmd(b.date);
  }

  /** Some bucket of `r` lies on the local day `d`. */
  predicate HasBucketOn(r: seq<Bucket>, d: string) {
    exists b :: b in r && LocalYmd(b.date) == d
  }

  /** Every local day with a transaction, transfers included, gets a bucket. */
  lemma DayInOutput(txs: seq<Transaction>, i: int)
    requires 0 <= i < |txs|
    ensures HasBucketOn(SortDesc(Values(DaysBy(txs, DayKey)), NegBucketDate), LocalYmd(txs[i].date))
  {
    var m := DaysBy(txs, DayKey);
    var vs := Values(m);
    KeyHasEntry(txs, DayKey, i);
    var j :| 0 <= j < |m| && m[j].key == DayKey(txs[i]);
    ValuesAreBuckets(txs, DayKey, j);
    var w :| 0 <= w < |txs| && FirstOnDay(txs, w, m[j].key, DayKey) && vs[j].date == txs[w].date;
    SortDescMember(vs, NegBucketDate, vs[j]);
  }

  /**
   * The chart's buckets: each is the bucket of its own local day (income and expense
   * summed separately over that day, and the date of the first transaction met that
   * day); every day with a transaction has one; no two entries of `dateMap` share a day.
   */
  lemma DateBucketsLaws(txs: seq<Transaction>)
    ensures Distinct(Keys(DaysBy(txs, DayKey)))
    ensures forall b :: b in SortDesc(Values(DaysBy(txs, DayKey)), NegBucketDate) ==>
              BucketOf(txs, LocalYmd(b.date), b, DayKey)
    ensures forall i :: 0 <= i < |txs| ==>
              HasBucketOn(SortDesc(Values(DaysBy(txs, DayKey)), NegBucketDate), LocalYmd(txs[i].date))
  {
    DaysByDistinct(txs, DayKey);
    forall b | b in SortDesc(Values(DaysBy(txs, DayKey)), NegBucketDate)
      ensures BucketOf(txs, LocalYmd(b.date), b, DayKey) {
      BucketInOutput(txs, b);
    }
    forall i | 0 <= i < |txs|
      ensures HasBucketOn(SortDesc(Values(DaysBy(txs, DayKey)), NegBucketDate), LocalYmd(txs[i].date)) {
      DayInOutput(txs, i);
    }
  }

  lemma {:induction false} OnlyTransfersSum(txs: seq<Transaction>, kind: TransactionType, k: string, dayKey: Transaction -> string)
    requires kind != Transfer
    requires forall i :: 0 <= i < |txs| && dayKey(txs[i]) == k ==> txs[i].kind == Transfer
    ensures DaySum(txs, kind, k, dayKey) == 0
  {
    if txs != [] {
      var init := txs[..|txs| - 1];
      assert forall i :: 0 <= i < |init| ==> init[i] == txs[i];
      OnlyTransfersSum(init, kind, k, dayKey);
    }
  }

  /** A day with only transfers gets a 0/0 bucket. */
  lemma TransferOnlyDay(txs: seq<Transaction>, k: string)
    requires exists i :: 0 <= i < |txs| && LocalYmd(txs[i].date) == k
    requires forall i :: 0 <= i < |txs| && LocalYmd(txs[i].date) == k ==> txs[i].kind == Transfer
    ensures Find(DaysBy(txs, DayKey), k).Some?
    ensures Find(DaysBy(txs, DayKey), k).value.income == 0 && Find(DaysBy(txs, DayKey), k).value.expense == 0
  {
    DaysByAt(txs, k, DayKey);
    OnlyTransfersSum(txs, Income, k, DayKey);
    OnlyTransfersSum(txs, Expense, k, DayKey);
  }
}
