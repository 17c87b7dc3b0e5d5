/**
 * The transaction list of the reports page: the log sorted newest first and
 * filtered by the search box and the quick-range option, then narrowed by the
 * drill-down a chart click sets.
 */
module ReportFilters {
  import opened Types
  import opened Text
  import opened Calendar
  import opened LocalDates
  import opened Sorting

  /** The sort key: `new Date(tx.date).getTime()`. */
  function TxDate(tx: Transaction): int {
    tx.date
  }

  // ===================================================================
  // Search and quick range
  // ===================================================================

  /** 'all' | 'today' | 'week' | 'month' | 'custom' */
  datatype FilterType = AllTime | Today | Week | ThisMonth | CustomRange

  /**
   * The filter controls. The custom bounds are the resolved instants of the two date
   * inputs; None stands for an empty input.
   */
  datatype Criteria = Criteria(searchTerm: string, filter: FilterType, customStart: Option<int>, customEnd: Option<int>)

  /** The lower-cased term occurs in the lower-cased note, in the amount's text, or in the lower-cased category name. */
  predicate MatchesSearch(tx: Transaction, cats: seq<Category>, term: string) {
    var lt := Lower(term);
    var cat := FindCategory(cats, tx.categoryId);
    Contains(Lower(tx.note), lt) || Contains(AmountString(tx.amount), lt)
    || (cat.Some? && Contains(Lower(cat.value.name), lt))
  }

  /** The quick-range test, on the local midnight of the transaction's day. */
  predicate InRange(tx: Transaction, c: Criteria, now: int) {
    match c.filter
    case AllTime => true
    case Today => Midnight(tx.date) == Midnight(now)
    case Week => Midnight(tx.date) >= Midnight(now) - 7 * MsPerDay
    case ThisMonth => Month(tx.date) == Month(now) && FullYear(tx.date) == FullYear(now)
    case CustomRange =>
      if c.customStart.Some? && c.customEnd.Some? then
        c.customStart.value <= Midnight(tx.date) <= c.customEnd.value
      else true
  }

  /** The search applies whatever the range option; an empty term matches everything. */
  predicate Keep(tx: Transaction, cats: seq<Category>, c: Criteria, now: int) {
    (c.searchTerm == "" || MatchesSearch(tx, cats, c.searchTerm)) && InRange(tx, c, now)
  }

  /** The search-and-range test as a value for `filter`. */
  function KeepTest(cats: seq<Category>, c: Criteria, now: int): Transaction -> bool {
    tx => Keep(tx, cats, c, now)
  }

  /** `baseFilteredTransactions`: sort newest first, then filter. */
  function BaseFiltered(txs: seq<Transaction>, cats: seq<Category>, c: Criteria, now: int): seq<Transaction> {
    Filter(SortDesc(txs, TxDate), KeepTest(cats, c, now))
  }

  /**
   * The list is newest first, and it holds every transaction of the log that passes
   * the search and the range, as often as the log does, and nothing else.
   */
  lemma BaseFilteredLaws(txs: seq<Transaction>, cats: seq<Category>, c: Criteria, now: int)
    ensures SortedDesc(BaseFiltered(txs, cats, c, now), TxDate)
    ensures forall x :: multiset(BaseFiltered(txs, cats, c, now))[x]
                        == if Keep(x, cats, c, now) then multiset(txs)[x] else 0
  {
    var sorted := SortDesc(txs, TxDate);
    SortDescSorted(txs, TxDate);
    FilterSorted(sorted, KeepTest(cats, c, now), TxDate);
    forall x ensures multiset(BaseFiltered(txs, cats, c, now))[x]
                     == if Keep(x, cats, c, now) then multiset(txs)[x] else 0 {
      FilterCount(sorted, KeepTest(cats, c, now), x);
    }
  }

  /** Filtering the filtered list again with the same controls changes nothing. */
  lemma BaseFilteredIdempotent(txs: seq<Transaction>, cats: seq<Category>, c: Criteria, now: int)
    ensures BaseFiltered(BaseFiltered(txs, cats, c, now), cats, c, now) == BaseFiltered(txs, cats, c, now)
  {
    var r := BaseFiltered(txs, cats, c, now);
    BaseFilteredLaws(txs, cats, c, now);
    SortDescOfSorted(r, TxDate);
    FilterIdempotent(SortDesc(txs, TxDate), KeepTest(cats, c, now));
  }

  /** For instants whose year the `Date` constructor keeps, 'today' is the same local day. */
  lemma TodayMeaning(tx: Transaction, c: Criteria, now: int)
    requires c.filter == Today
    requires !(0 <= FullYear(tx.date) <= 99) && !(0 <= FullYear(now) <= 99)
    ensures InRange(tx, c, now) <==> Day(tx.date) == Day(now)
    ensures InRange(tx, c, now) <==> LocalYmd(tx.date) == LocalYmd(now)
  {
    MidnightIsStartOfDay(tx.date);
    MidnightIsStartOfDay(now);
    LocalYmdSameDay(tx.date, now);
  }

  /** 'week' is any local day from seven days ago on, with no upper bound. */
  lemma WeekMeaning(tx: Transaction, c: Criteria, now: int)
    requires c.filter == Week
    requires !(0 <= FullYear(tx.date) <= 99) && !(0 <= FullYear(now) <= 99)
    ensures InRange(tx, c, now) <==> Day(tx.date) >= Day(now) - 7
  {
    MidnightIsStartOfDay(tx.date);
    MidnightIsStartOfDay(now);
    var a := Day(tx.date);
    var b := Day(now);
    assert InRange(tx, c, now) <==> a * MsPerDay >= b * MsPerDay - 7 * MsPerDay;
    assert a * MsPerDay - (b - 7) * MsPerDay == (a - (b - 7)) * MsPerDay;
  }

  // ===================================================================
  // Drill-down
  // ===================================================================

  /** `{ type: 'category' | 'date', value }`; the display label is left out. */
  datatype DrillDown = ByCategory(value: string) | ByDate(value: string)

  /** The drill-down's category label: the translated category name, else the sub-category, else 'Uncategorized'. */
  function CategoryLabel(tx: Transaction, cats: seq<Category>, t: string -> string): string {
    match FindCategory(cats, tx.categoryId)
    case Some(cat) => t(cat.name)
    case None => OrElse(tx.subCategory, "Uncategorized")
  }

  predicate DrillMatches(tx: Transaction, d: DrillDown, cats: seq<Category>, t: string -> string) {
    match d
    case ByCategory(v) => CategoryLabel(tx, cats, t) == v
    case ByDate(v) => LocalYmd(tx.date) == v
  }

  function DrillTest(d: DrillDown, cats: seq<Category>, t: string -> string): Transaction -> bool {
    tx => DrillMatches(tx, d, cats, t)
  }

  /** `displayedTransactions` */
  function Displayed(base: seq<Transaction>, dd: Option<DrillDown>, cats: seq<Category>, t: string -> string): seq<Transaction> {
    match dd
    case None => base
    case Some(d) => Filter(base, DrillTest(d, cats, t))
  }

  /**
   * The displayed list keeps the order of the base list and holds exactly its
   * transactions that match the drill-down; a date drill-down on the key of an
   * instant keeps exactly the transactions of that local day.
   */
  lemma DisplayedLaws(base: seq<Transaction>, dd: Option<DrillDown>, cats: seq<Category>, t: string -> string, t0: int)
    ensures SortedDesc(base, TxDate) ==> SortedDesc(Displayed(base, dd, cats, t), TxDate)
    ensures forall x :: x in Displayed(base, dd, cats, t) <==> x in base && (dd.None? || DrillMatches(x, dd.value, cats, t))
    ensures dd == Some(ByDate(LocalYmd(t0))) ==>
              forall x :: x in Displayed(base, dd, cats, t) <==> x in base && Day(x.date) == Day(t0)
  {
    if dd.Some? && SortedDesc(base, TxDate) {
      FilterSorted(base, DrillTest(dd.value, cats, t), TxDate);
    }
    if dd == Some(ByDate(LocalYmd(t0))) {
      forall x ensures x in Displayed(base, dd, cats, t) <==> x in base && Day(x.date) == Day(t0) {
        LocalYmdSameDay(x.date, t0);
      }
    }
  }

  /**
   * The pie labels a transaction without a known category `t('cat_uncategorized')`,
   * while the category drill-down calls it by its sub-category or 'Uncategorized':
   * clicking that slice selects such a transaction only when the two texts agree.
   */
  lemma UncategorizedSliceDrill(tx: Transaction, cats: seq<Category>, t: string -> string)
    requires FindCategory(cats, tx.categoryId).None? && !Truthy(tx.subCategory)
    ensures DrillMatches(tx, ByCategory(t("cat_uncategorized")), cats, t) <==> t("cat_uncategorized") == "Uncategorized"
  {
  }

  /** `handleHeatmapClick(dateStr)`: the same date again clears the drill-down, any other click selects the date. */
  function HeatmapToggle(dd: Option<DrillDown>, dateStr: string): (r: Option<DrillDown>)
    ensures r.None? <==> dd == Some(ByDate(dateStr))
    ensures r.Some? ==> r == Some(ByDate(dateStr))
  {
    if dd.Some? && dd.value.ByDate? && dd.value.value == dateStr then None else Some(ByDate(dateStr))
  }

  /** Clicking the same heatmap date twice leaves no drill-down, unless that date was the drill-down to begin with. */
  lemma HeatmapTwice(dd: Option<DrillDown>, dateStr: string)
    ensures HeatmapToggle(HeatmapToggle(dd, dateStr), dateStr)
         == if dd == Some(ByDate(dateStr)) then dd else None
  {
  }

  /** The drill-down state of the reports page. */
  class DrillDownControl {
    var current: Option<DrillDown>

    constructor()
      ensures current == None
    {
      current := None;
    }

    method HeatmapClick(dateStr: string)
      modifies this
      ensures current == HeatmapToggle(old(current), dateStr)
    {
      if current.Some? && current.value.ByDate? && current.value.value == dateStr {
        current := None;
      } else {
        current := Some(ByDate(dateStr));
      }
    }

    /** A click on a chart element or calendar day sets the drill-down outright. */
    method Select(d: DrillDown)
      modifies this
      ensures current == Some(d)
    {
      current := Some(d);
    }

    /** 'Clear Filter' */
    method Clear()
      modifies this
      ensures current == None
    {
      current := None;
    }
  }
}
