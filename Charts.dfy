/**
 * The data preparation of the chart components: the dashboard's budget pie with
 * its extra "remaining" or "extra expense" slice, the spending heatmap (net per
 * local day, shaded against the largest surplus and deficit, 105 days laid out
 * in columns of seven), and the calendar (per-day totals, shading and the month
 * grid with its navigation).
 */
module Charts {
  import opened Types
  import opened Calendar
  import opened LocalDates
  import opened Sorting
  import opened Tally
  import opened ReportCharts

  function Abs(x: int): (r: int)
    ensures r >= 0 && (r == x || r == -x)
  {
    if x < 0 then -x else x
  }

  function Max(a: int, b: int): int {
    if a >= b then a else b
  }

  /** `Math.ceil(n / d)` for a non-negative `n` and a positive `d`, counted in steps of `d`. */
  function CeilDiv(n: int, d: int): (q: int)
    requires n >= 0 && d >= 1
    ensures q >= 0 && (q - 1) * d < n <= q * d
    decreases n
  {
    if n == 0 then 0
    else if n <= d then 1
    else 1 + CeilDiv(n - d, d)
  }

  /** A quotient no larger than one: `ceil(4 * a / m)` is at most 4 when `a <= m`. */
  lemma CeilDivAtMostFour(a: int, m: int)
    requires 0 <= a <= m && m >= 1
    ensures CeilDiv(4 * a, m) <= 4
  {
    var q := CeilDiv(4 * a, m);
    CancelLess(q - 1, 4, m);
  }

  /** Cancelling a positive factor from a strict inequality. */
  lemma CancelLess(a: int, c: int, b: int)
    requires b >= 1 && a * b < c * b
    ensures a < c
  {
  }

  // ===================================================================
  // Financial overview (the dashboard's budget pie)
  // ===================================================================

  /** `{ name, value, isSpecial }`; the colour is left out. */
  datatype Slice = Slice(name: string, value: int, isSpecial: bool)

  function SliceTotal(s: seq<Slice>): int {
    if s == [] then 0 else SliceTotal(s[..|s| - 1]) + s[|s| - 1].value
  }

  /**
   * `chartData` of `FinancialOverviewChart`: the given slices, then one slice
   * worth |remaining| when something remains ('reminding') or the budget is
   * exceeded ('extraExpense'), nothing when remaining is 0.
   */
  function OverviewSlices(data: seq<Slice>, remaining: int, t: string -> string): (r: seq<Slice>)
    ensures |r| == |data| + (if remaining == 0 then 0 else 1)
    ensures r[..|data|] == data
    ensures remaining > 0 ==> r[|data|] == Slice(t("reminding"), remaining, true)
    ensures remaining < 0 ==> r[|data|] == Slice(t("extraExpense"), Abs(remaining), true)
    ensures SliceTotal(r) == SliceTotal(data) + Abs(remaining)
  {
    if remaining > 0 then
      var r := data + [Slice(t("reminding"), remaining, true)];
      assert r[..|data|] == data;
      r
    else if remaining < 0 then
      var r := data + [Slice(t("extraExpense"), Abs(remaining), true)];
      assert r[..|data|] == data;
      r
    else data
  }

  // ===================================================================
  // Spending heatmap
  // ===================================================================

  const Weeks: int := 15
  const HeatmapDays: int := Weeks * 7

  /** What one transaction adds to `dateMap`: income with its amount, an expense with minus its amount, a transfer nothing. */
  function NetEntry(tx: Transaction, dayKey: Transaction -> string): seq<Entry<string, int>> {
    if tx.kind == Income then [Entry(dayKey(tx), tx.amount)]
    else if tx.kind == Expense then [Entry(dayKey(tx), -tx.amount)]
    else []
  }

  /** What the `dateMap` loop adds, in order, each transaction under `dayKey(tx)`. */
  function NetInputs(txs: seq<Transaction>, dayKey: Transaction -> string): seq<Entry<string, int>> {
    if txs == [] then [] else NetInputs(txs[..|txs| - 1], dayKey) + NetEntry(txs[|txs| - 1], dayKey)
  }

  /** Income minus expenses of the day `k`. */
  function DayNet(txs: seq<Transaction>, k: string, dayKey: Transaction -> string): int {
    if txs == [] then 0
    else
      var last := txs[|txs| - 1];
      DayNet(txs[..|txs| - 1], k, dayKey)
      + (if dayKey(last) != k then 0
         else if last.kind == Income then last.amount
         else if last.kind == Expense then -last.amount
         else 0)
  }

  /** Some income or expense falls on day `k`. */
  predicate Active(txs: seq<Transaction>, k: string, dayKey: Transaction -> string) {
    exists i :: 0 <= i < |txs| && txs[i].kind != Transfer && dayKey(txs[i]) == k
  }

  lemma NetInputsStep(txs: seq<Transaction>, i: int, dayKey: Transaction -> string)
    requires 0 <= i < |txs|
    ensures NetInputs(txs[..i + 1], dayKey) == NetInputs(txs[..i], dayKey) + NetEntry(txs[i], dayKey)
  {
    assert txs[..i + 1][..i] == txs[..i];
  }

  /** One step of the loop: an income bumps the day by its amount, an expense by minus its amount, a transfer leaves the map. */
  lemma NetTallyStep(txs: seq<Transaction>, i: int, dayKey: Transaction -> string)
    requires 0 <= i < |txs|
    ensures txs[i].kind == Income ==>
              TallyOf(NetInputs(txs[..i + 1], dayKey)) == Bump(TallyOf(NetInputs(txs[..i], dayKey)), dayKey(txs[i]), txs[i].amount)
    ensures txs[i].kind == Expense ==>
              TallyOf(NetInputs(txs[..i + 1], dayKey)) == Bump(TallyOf(NetInputs(txs[..i], dayKey)), dayKey(txs[i]), -txs[i].amount)
    ensures txs[i].kind == Transfer ==>
              TallyOf(NetInputs(txs[..i + 1], dayKey)) == TallyOf(NetInputs(txs[..i], dayKey))
  {
    NetInputsStep(txs, i, dayKey);
    var before := NetInputs(txs[..i], dayKey);
    if txs[i].kind == Income {
      TallyOfSnoc(before, Entry(dayKey(txs[i]), txs[i].amount));
    } else if txs[i].kind == Expense {
      TallyOfSnoc(before, Entry(dayKey(txs[i]), -txs[i].amount));
    } else {
      assert before + [] == before;
    }
  }

  /** The `dateMap` loop of the heatmap, keyed by `dayKey` (the heatmap passes the local day key). */
  method DailyNet(txs: seq<Transaction>, dayKey: Transaction -> string) returns (m: seq<Entry<string, int>>)
    ensures m == TallyOf(NetInputs(txs, dayKey))
  {
    m := [];
    var i := 0;
    while i < |txs|
      invariant 0 <= i <= |txs|
      invariant m == TallyOf(NetInputs(txs[..i], dayKey))
    {
      var tx := txs[i];
      NetTallyStep(txs, i, dayKey);
      var key := dayKey(tx);
      if tx.kind == Income {
        m := Bump(m, key, tx.amount);
      } else if tx.kind == Expense {
        m := Bump(m, key, -tx.amount);
      }
      i := i + 1;
    }
    assert txs[..|txs|] == txs;
  }

  lemma {:induction false} NetInputsSum(txs: seq<Transaction>, k: string, dayKey: Transaction -> string)
    ensures SumFor(NetInputs(txs, dayKey), k) == DayNet(txs, k, dayKey)
  {
    if txs != [] {
      var init := txs[..|txs| - 1];
      var last := txs[|txs| - 1];
      NetInputsSum(init, k, dayKey);
      var before := NetInputs(init, dayKey);
      if last.kind == Transfer {
        assert NetInputs(txs, dayKey) == before + [];
        assert before + [] == before;
      } else {
        var e := NetEntry(last, dayKey)[0];
        assert NetInputs(txs, dayKey) == before + [e];
        assert (before + [e])[..|before|] == before;
      }
    }
  }

  /** A day has an entry exactly when an income or an expense falls on it. */
  lemma {:induction false} NetInputsKeys(txs: seq<Transaction>, k: string, dayKey: Transaction -> string)
    ensures k in Keys(NetInputs(txs, dayKey)) <==> Active(txs, k, dayKey)
  {
    if txs != [] {
      var init := txs[..|txs| - 1];
      NetInputsKeys(init, k, dayKey);
      NetKeysStep(init, txs[|txs| - 1], k, dayKey);
      assert init + [txs[|txs| - 1]] == txs;
    }
  }

  lemma NetKeysStep(init: seq<Transaction>, last: Transaction, k: string, dayKey: Transaction -> string)
    requires k in Keys(NetInputs(init, dayKey)) <==> Active(init, k, dayKey)
    ensures k in Keys(NetInputs(init + [last], dayKey)) <==> Active(init + [last], k, dayKey)
  {
    NetKeysSnoc(init, last, dayKey);
    ActiveSnoc(init, last, k, dayKey);
    var mine := NetEntry(last, dayKey);
    assert k in Keys(mine) <==> last.kind != Transfer && dayKey(last) == k;
  }

  lemma NetKeysSnoc(init: seq<Transaction>, last: Transaction, dayKey: Transaction -> string)
    ensures Keys(NetInputs(init + [last], dayKey)) == Keys(NetInputs(init, dayKey)) + Keys(NetEntry(last, dayKey))
  {
    var txs := init + [last];
    assert txs[..|init|] == init;
    assert NetInputs(txs, dayKey) == NetInputs(init, dayKey) + NetEntry(last, dayKey);
  }

  lemma ActiveSnoc(init: seq<Transaction>, last: Transaction, k: string, dayKey: Transaction -> string)
    ensures Active(init + [last], k, dayKey) <==> Active(init, k, dayKey) || (last.kind != Transfer && dayKey(last) == k)
  {
    var txs := init + [last];
    if Active(init, k, dayKey) {
      var i :| 0 <= i < |init| && init[i].kind != Transfer && dayKey(init[i]) == k;
      assert txs[i] == init[i];
    }
    if last.kind != Transfer && dayKey(last) == k {
      assert txs[|init|] == last;
    }
    if Active(txs, k, dayKey) {
      var i :| 0 <= i < |txs| && txs[i].kind != Transfer && dayKey(txs[i]) == k;
      if i < |init| {
        assert init[i] == txs[i];
      }
    }
  }

  /**
   * `dateMap` has one entry per local day with an income or an expense, each day
   * once, holding that day's income minus its expenses; a day without reads 0.
   */
  lemma DailyNetLaws(txs: seq<Transaction>, k: string, dayKey: Transaction -> string)
    ensures Distinct(Keys(TallyOf(NetInputs(txs, dayKey))))
    ensures k in Keys(TallyOf(NetInputs(txs, dayKey))) <==> Active(txs, k, dayKey)
    ensures Get(TallyOf(NetInputs(txs, dayKey)), k) == DayNet(txs, k, dayKey)
  {
    TallyKeys(NetInputs(txs, dayKey));
    TallyGet(NetInputs(txs, dayKey), k);
    NetInputsSum(txs, k, dayKey);
    NetInputsKeys(txs, k, dayKey);
  }

  /**
   * The scaling loop over `Object.values(dateMap)`: the largest surplus and the
   * largest deficit over every day of the data, each 1 when there is none.
   */
  method Scales(vals: seq<int>) returns (maxSurplus: int, maxDeficit: int)
    ensures maxSurplus >= 1 && maxDeficit >= 1
    ensures forall v :: v in vals && v > 0 ==> v <= maxSurplus
    ensures forall v :: v in vals && v < 0 ==> -v <= maxDeficit
    ensures maxSurplus == 1 || maxSurplus in vals
    ensures maxDeficit == 1 || -maxDeficit in vals
  {
    maxSurplus := 0;
    maxDeficit := 0;
    var i := 0;
    while i < |vals|
      invariant 0 <= i <= |vals|
      invariant maxSurplus >= 0 && maxDeficit >= 0
      invariant forall j :: 0 <= j < i && vals[j] > 0 ==> vals[j] <= maxSurplus
      invariant forall j :: 0 <= j < i && vals[j] < 0 ==> -vals[j] <= maxDeficit
      invariant maxSurplus == 0 || maxSurplus in vals[..i]
      invariant maxDeficit == 0 || -maxDeficit in vals[..i]
    {
      var val := vals[i];
      if val > 0 && val > maxSurplus {
        maxSurplus := val;
      }
      if val < 0 && Abs(val) > maxDeficit {
        maxDeficit := Abs(val);
      }
      i := i + 1;
    }
    assert vals[..|vals|] == vals;
    if maxSurplus == 0 {
      maxSurplus := 1;
    }
    if maxDeficit == 0 {
      maxDeficit := 1;
    }
  }

  /**
   * What the scaling loop delivers: both scales at least 1, each bounding the values
   * of its sign, and each attained by a value or 1; this fixes both scales.
   */
  predicate IsScales(vals: seq<int>, maxSurplus: int, maxDeficit: int) {
    && maxSurplus >= 1 && maxDeficit >= 1
    && (forall v :: v in vals && v > 0 ==> v <= maxSurplus)
    && (forall v :: v in vals && v < 0 ==> -v <= maxDeficit)
    && (maxSurplus == 1 || maxSurplus in vals)
    && (maxDeficit == 1 || -maxDeficit in vals)
  }

  /** The scales are determined by the values. */
  lemma IsScalesUnique(vals: seq<int>, s1: int, d1: int, s2: int, d2: int)
    requires IsScales(vals, s1, d1) && IsScales(vals, s2, d2)
    ensures s1 == s2 && d1 == d2
  {
  }

  /** 'neutral' | 'surplus' | 'deficit' */
  datatype Tone = Neutral | Surplus | Deficit

  /** `{ date, key, amount, intensity, type }` */
  datatype Cell = Cell(date: int, key: string, amount: int, intensity: int, tone: Tone)

  /** A day's shade: 0 for a net of 0, else ceil(|net| / max * 4) against the maximum of the net's sign. */
  function HeatIntensity(amount: int, maxSurplus: int, maxDeficit: int): (r: int)
    requires maxSurplus >= 1 && maxDeficit >= 1
    ensures r >= 0
    ensures r == 0 <==> amount == 0
    ensures 0 < amount <= maxSurplus ==> r <= 4
    ensures 0 < -amount <= maxDeficit ==> r <= 4
  {
    if amount > 0 then
      if amount <= maxSurplus then CeilDivAtMostFour(amount, maxSurplus); CeilDiv(4 * amount, maxSurplus)
      else CeilDiv(4 * amount, maxSurplus)
    else if amount < 0 then
      if -amount <= maxDeficit then CeilDivAtMostFour(-amount, maxDeficit); CeilDiv(4 * -amount, maxDeficit)
      else CeilDiv(4 * -amount, maxDeficit)
    else 0
  }

  function ToneOf(amount: int): (r: Tone)
    ensures r == Neutral <==> amount == 0
    ensures r == Surplus <==> amount > 0
  {
    if amount > 0 then Surplus else if amount < 0 then Deficit else Neutral
  }

  /** The cell of the day of instant `d`: its key, `dateMap[key] || 0`, the shade and the tone. */
  function CellAt(d: int, m: seq<Entry<string, int>>, maxSurplus: int, maxDeficit: int): Cell
    requires maxSurplus >= 1 && maxDeficit >= 1
  {
    var key := LocalYmd(d);
    var amount := Get(m, key);
    Cell(d, key, amount, HeatIntensity(amount, maxSurplus, maxDeficit), ToneOf(amount))
  }

  /**
   * The cell loop: `i` runs from 104 down to 0 and each cell is for today moved back
   * `i` days with `setDate`, so the cells are the 105 consecutive days ending today,
   * oldest first.
   */
  method HeatmapCells(now: int, m: seq<Entry<string, int>>, maxSurplus: int, maxDeficit: int) returns (cells: seq<Cell>)
    requires maxSurplus >= 1 && maxDeficit >= 1
    ensures |cells| == HeatmapDays
    ensures forall j :: 0 <= j < |cells| ==>
              cells[j] == CellAt(now - (HeatmapDays - 1 - j) * MsPerDay, m, maxSurplus, maxDeficit)
    ensures forall j :: 0 <= j < |cells| ==> cells[j].date == now - (HeatmapDays - 1 - j) * MsPerDay
    ensures forall c :: c in cells ==> c == CellAt(c.date, m, maxSurplus, maxDeficit)
  {
    cells := [];
    var i := HeatmapDays - 1;
    while i >= 0
      invariant -1 <= i < HeatmapDays
      invariant |cells| == HeatmapDays - 1 - i
      invariant forall j :: 0 <= j < |cells| ==>
                  cells[j] == CellAt(now - (HeatmapDays - 1 - j) * MsPerDay, m, maxSurplus, maxDeficit)
    {
      var d := SetDate(now, DayOfMonth(now) - i);
      SetDateShift(now, -i);
      assert d == now - (HeatmapDays - 1 - |cells|) * MsPerDay;
      cells := cells + [CellAt(d, m, maxSurplus, maxDeficit)];
      i := i - 1;
    }
    CellsByDate(now, cells, m, maxSurplus, maxDeficit);
  }

  /** Cells built for the days ending at `now` carry those days as dates, and each is the cell of its own date. */
  lemma CellsByDate(now: int, cells: seq<Cell>, m: seq<Entry<string, int>>, maxSurplus: int, maxDeficit: int)
    requires maxSurplus >= 1 && maxDeficit >= 1
    requires forall j :: 0 <= j < |cells| ==>
               cells[j] == CellAt(now - (HeatmapDays - 1 - j) * MsPerDay, m, maxSurplus, maxDeficit)
    ensures forall j :: 0 <= j < |cells| ==> cells[j].date == now - (HeatmapDays - 1 - j) * MsPerDay
    ensures forall c :: c in cells ==> c == CellAt(c.date, m, maxSurplus, maxDeficit)
  {
    forall j | 0 <= j < |cells|
      ensures cells[j].date == now - (HeatmapDays - 1 - j) * MsPerDay
    {
      CellAtDate(now - (HeatmapDays - 1 - j) * MsPerDay, m, maxSurplus, maxDeficit);
    }
  }

  lemma CellAtDate(d: int, m: seq<Entry<string, int>>, maxSurplus: int, maxDeficit: int)
    requires maxSurplus >= 1 && maxDeficit >= 1
    ensures CellAt(d, m, maxSurplus, maxDeficit).date == d
  {
  }

  /** Scales that bound every value of the map bound every cell: the shade of a day is 0..4, and 0 exactly on a net of 0. */
  lemma CellShade(d: int, m: seq<Entry<string, int>>, maxSurplus: int, maxDeficit: int)
    requires maxSurplus >= 1 && maxDeficit >= 1
    requires forall v :: v in Values(m) && v > 0 ==> v <= maxSurplus
    requires forall v :: v in Values(m) && v < 0 ==> -v <= maxDeficit
    ensures 0 <= CellAt(d, m, maxSurplus, maxDeficit).intensity <= 4
    ensures CellAt(d, m, maxSurplus, maxDeficit).intensity == 0 <==> CellAt(d, m, maxSurplus, maxDeficit).amount == 0
  {
    var key := LocalYmd(d);
    if Find(m, key).Some? {
      FindValue(m, key);
    }
  }

  /** The elements of the chunks, in order. */
  function Flatten<T>(ws: seq<seq<T>>): seq<T> {
    if ws == [] then [] else Flatten(ws[..|ws| - 1]) + ws[|ws| - 1]
  }

  lemma FlattenSnoc<T>(ws: seq<seq<T>>, w: seq<T>)
    ensures Flatten(ws + [w]) == Flatten(ws) + w
  {
    assert (ws + [w])[..|ws|] == ws;
  }

  /** Pushing the next cell onto the current week keeps the chunks a prefix of the cells. */
  lemma PushCell<T>(flat: seq<T>, current: seq<T>, cells: seq<T>, i: int)
    requires 0 <= i < |cells| && flat + current == cells[..i]
    ensures flat + (current + [cells[i]]) == cells[..i + 1]
  {
    assert cells[..i + 1] == cells[..i] + [cells[i]];
  }

  /** Closing the current week keeps the chunks a prefix of the cells. */
  lemma CloseWeek<T>(weeks: seq<seq<T>>, current: seq<T>, prefix: seq<T>)
    requires Flatten(weeks) + current == prefix
    ensures Flatten(weeks + [current]) + [] == prefix
  {
    FlattenSnoc(weeks, current);
  }

  /** The week loop: cells are pushed onto the current week, which is closed at seven cells or at the last cell. */
  method ChunkWeeks<T>(cells: seq<T>) returns (weeks: seq<seq<T>>)
    ensures Flatten(weeks) == cells
    ensures forall j :: 0 <= j < |weeks| ==> 1 <= |weeks[j]| <= 7
    ensures forall j :: 0 <= j < |weeks| - 1 ==> |weeks[j]| == 7
  {
    weeks := [];
    var current: seq<T> := [];
    var i := 0;
    while i < |cells|
      invariant 0 <= i <= |cells|
      invariant Flatten(weeks) + current == cells[..i]
      invariant |current| < 7
      invariant forall j :: 0 <= j < |weeks| ==> 1 <= |weeks[j]| <= 7
      invariant i < |cells| ==> forall j :: 0 <= j < |weeks| ==> |weeks[j]| == 7
      invariant forall j :: 0 <= j < |weeks| - 1 ==> |weeks[j]| == 7
      invariant i == |cells| ==> current == []
    {
      PushCell(Flatten(weeks), current, cells, i);
      current := current + [cells[i]];
      if |current| == 7 || i == |cells| - 1 {
        CloseWeek(weeks, current, cells[..i + 1]);
        weeks := weeks + [current];
        current := [];
      }
      i := i + 1;
    }
    assert cells[..|cells|] == cells;
  }

  lemma {:induction false} FlattenFull<T>(ws: seq<seq<T>>)
    requires forall j :: 0 <= j < |ws| ==> |ws[j]| == 7
    ensures |Flatten(ws)| == 7 * |ws|
  {
    if ws != [] {
      FlattenFull(ws[..|ws| - 1]);
    }
  }

  /** Chunks of the week loop's shape that hold exactly `7 * n` cells are `n` full weeks. */
  lemma FullWeeks<T>(weeks: seq<seq<T>>, n: nat)
    requires forall j :: 0 <= j < |weeks| ==> 1 <= |weeks[j]| <= 7
    requires forall j :: 0 <= j < |weeks| - 1 ==> |weeks[j]| == 7
    requires |Flatten(weeks)| == 7 * n
    ensures |weeks| == n
    ensures forall j :: 0 <= j < |weeks| ==> |weeks[j]| == 7
  {
    if weeks != [] {
      var init := weeks[..|weeks| - 1];
      FlattenFull(init);
      assert |Flatten(weeks)| == 7 * |init| + |weeks[|weeks| - 1]|;
    }
  }

  /** A heatmap cell of the transactions: its local day key, that day's net, and a shade of 0..4 that is 0 exactly when the net is. */
  predicate DayCell(txs: seq<Transaction>, c: Cell) {
    && c.key == LocalYmd(c.date)
    && c.amount == DayNet(txs, c.key, DayKey)
    && 0 <= c.intensity <= 4
    && (c.intensity == 0 <==> c.amount == 0)
  }

  lemma CellOfDay(txs: seq<Transaction>, m: seq<Entry<string, int>>, maxSurplus: int, maxDeficit: int, d: int, c: Cell)
    requires m == TallyOf(NetInputs(txs, DayKey))
    requires maxSurplus >= 1 && maxDeficit >= 1
    requires forall v :: v in Values(m) && v > 0 ==> v <= maxSurplus
    requires forall v :: v in Values(m) && v < 0 ==> -v <= maxDeficit
    requires c == CellAt(d, m, maxSurplus, maxDeficit)
    ensures DayCell(txs, c)
  {
    CellShade(d, m, maxSurplus, maxDeficit);
    DailyNetLaws(txs, LocalYmd(d), DayKey);
  }

  lemma DayCells(txs: seq<Transaction>, cells: seq<Cell>, m: seq<Entry<string, int>>, maxSurplus: int, maxDeficit: int)
    requires m == TallyOf(NetInputs(txs, DayKey))
    requires maxSurplus >= 1 && maxDeficit >= 1
    requires forall v :: v in Values(m) && v > 0 ==> v <= maxSurplus
    requires forall v :: v in Values(m) && v < 0 ==> -v <= maxDeficit
    requires forall c :: c in cells ==> c == CellAt(c.date, m, maxSurplus, maxDeficit)
    ensures forall c :: c in cells ==> DayCell(txs, c)
  {
    forall c | c in cells
      ensures DayCell(txs, c)
    {
      CellOfDay(txs, m, maxSurplus, maxDeficit, c.date, c);
    }
  }

  /**
   * `SpendingHeatmap`'s data: 15 columns of seven cells, the 105 days ending today,
   * oldest first; each cell holds its day's net and a shade of 0..4, 0 exactly
   * when the net is 0.
   */
  method SpendingHeatmap(txs: seq<Transaction>, now: int) returns (weeks: seq<seq<Cell>>)
    ensures |weeks| == Weeks && forall j :: 0 <= j < |weeks| ==> |weeks[j]| == 7
    ensures |Flatten(weeks)| == HeatmapDays
    ensures forall j :: 0 <= j < HeatmapDays ==> Flatten(weeks)[j].date == now - (HeatmapDays - 1 - j) * MsPerDay
    ensures forall c :: c in Flatten(weeks) ==> DayCell(txs, c)
    ensures exists maxSurplus, maxDeficit ::
              IsScales(Values(TallyOf(NetInputs(txs, DayKey))), maxSurplus, maxDeficit)
              && forall c :: c in Flatten(weeks) ==> c.intensity == HeatIntensity(c.amount, maxSurplus, maxDeficit)
  {
    var m := DailyNet(txs, DayKey);
    var maxSurplus, maxDeficit := Scales(Values(m));
    var cells := HeatmapCells(now, m, maxSurplus, maxDeficit);
    DayCells(txs, cells, m, maxSurplus, maxDeficit);
    weeks := ChunkWeeks(cells);
    FullWeeks(weeks, Weeks);
    assert IsScales(Values(m), maxSurplus, maxDeficit);
  }

  // ===================================================================
  // Calendar
  // ===================================================================

  /** `{ income, expense, balance }` of one local day. */
  datatype DayTotals = DayTotals(income: int, expense: int, balance: int)

  /** The calendar's key of a bucket: the local `YYYY-MM-DD` of its date. */
  function BucketDay(b: Bucket): string {
    LocalYmd(b.date)
  }

  /** One step of the `map` loop under key `k`: create the day's record when missing, then add the bucket's income, expense and balance. */
  function AddBucket(m: seq<Entry<string, DayTotals>>, k: string, b: Bucket): seq<Entry<string, DayTotals>> {
    var cur := match Find(m, k) case Some(v) => v case None => DayTotals(0, 0, 0);
    Put(m, k, DayTotals(cur.income + b.income, cur.expense + b.expense, cur.balance + (b.income - b.expense)))
  }

  /** `map` after the loop over `data`, each bucket under `bucketDay(b)`. */
  function CalTotals(data: seq<Bucket>, bucketDay: Bucket -> string): seq<Entry<string, DayTotals>> {
    if data == [] then []
    else AddBucket(CalTotals(data[..|data| - 1], bucketDay), bucketDay(data[|data| - 1]), data[|data| - 1])
  }

  /** The |balance| of the record a step has just updated. */
  function StepBalance(data: seq<Bucket>, bucketDay: Bucket -> string): int
    requires data != []
  {
    match Find(CalTotals(data, bucketDay), bucketDay(data[|data| - 1]))
    case Some(v) => Abs(v.balance)
    case None => 0
  }

  /** `maxBal` before `|| 1`: the largest |balance| any record had right after an update. */
  function CalPeak(data: seq<Bucket>, bucketDay: Bucket -> string): int {
    if data == [] then 0 else Max(CalPeak(data[..|data| - 1], bucketDay), StepBalance(data, bucketDay))
  }

  /** `maxBal || 1` */
  function MaxBal(data: seq<Bucket>, bucketDay: Bucket -> string): int {
    if CalPeak(data, bucketDay) == 0 then 1 else CalPeak(data, bucketDay)
  }

  lemma CalTotalsStep(data: seq<Bucket>, i: int, bucketDay: Bucket -> string)
    requires 0 <= i < |data|
    ensures CalTotals(data[..i + 1], bucketDay) == AddBucket(CalTotals(data[..i], bucketDay), bucketDay(data[i]), data[i])
    ensures CalPeak(data[..i + 1], bucketDay) == Max(CalPeak(data[..i], bucketDay), StepBalance(data[..i + 1], bucketDay))
  {
    assert data[..i + 1][..i] == data[..i];
  }

  /** The loop body: `map[dateKey]` is created when missing, then its three totals are increased. */
  method AddToRecord(m: seq<Entry<string, DayTotals>>, key: string, d: Bucket) returns (m': seq<Entry<string, DayTotals>>)
    ensures m' == AddBucket(m, key, d)
    ensures Find(m', key).Some?
  {
    var bal := d.income - d.expense;
    m' := m;
    if Find(m', key).None? {
      m' := Put(m', key, DayTotals(0, 0, 0));
    }
    PutFind(m, key, DayTotals(0, 0, 0), key);
    var cur := Find(m', key).value;
    var next := DayTotals(cur.income + d.income, cur.expense + d.expense, cur.balance + bal);
    if Find(m, key).None? {
      PutPut(m, key, DayTotals(0, 0, 0), next);
    }
    m' := Put(m', key, next);
    PutFind(m, key, next, key);
  }

  /** The `dayData` loop. */
  method CalendarDays(data: seq<Bucket>) returns (m: seq<Entry<string, DayTotals>>, maxBal: int)
    ensures m == CalTotals(data, BucketDay)
    ensures maxBal == MaxBal(data, BucketDay)
  {
    m := [];
    maxBal := 0;
    var i := 0;
    while i < |data|
      invariant 0 <= i <= |data|
      invariant m == CalTotals(data[..i], BucketDay)
      invariant maxBal == CalPeak(data[..i], BucketDay)
    {
      var d := data[i];
      var key := LocalYmd(d.date);
      CalTotalsStep(data, i, BucketDay);
      m := AddToRecord(m, key, d);
      if Abs(Find(m, key).value.balance) > maxBal {
        maxBal := Abs(Find(m, key).value.balance);
      }
      i := i + 1;
    }
    assert data[..|data|] == data;
    if maxBal == 0 {
      maxBal := 1;
    }
  }

  /** The sum of the incomes of the buckets on day `k`. */
  function IncomeOn(data: seq<Bucket>, k: string, bucketDay: Bucket -> string): int {
    if data == [] then 0
    else IncomeOn(data[..|data| - 1], k, bucketDay) + (if bucketDay(data[|data| - 1]) == k then data[|data| - 1].income else 0)
  }

  /** The sum of the expenses of the buckets on day `k`. */
  function ExpenseOn(data: seq<Bucket>, k: string, bucketDay: Bucket -> string): int {
    if data == [] then 0
    else ExpenseOn(data[..|data| - 1], k, bucketDay) + (if bucketDay(data[|data| - 1]) == k then data[|data| - 1].expense else 0)
  }

  predicate NoBucketOn(data: seq<Bucket>, k: string, bucketDay: Bucket -> string) {
    forall i :: 0 <= i < |data| ==> bucketDay(data[i]) != k
  }

  /** The record of day `k` as the sums of that day's buckets. */
  function DayRecord(data: seq<Bucket>, k: string, bucketDay: Bucket -> string): DayTotals {
    var inc := IncomeOn(data, k, bucketDay);
    var exp := ExpenseOn(data, k, bucketDay);
    DayTotals(inc, exp, inc - exp)
  }

  /**
   * A day has a record exactly when a bucket falls on it; the record sums that
   * day's incomes and expenses, and its balance is always income minus expense.
   */
  lemma {:induction false} CalTotalsAt(data: seq<Bucket>, k: string, bucketDay: Bucket -> string)
    ensures Find(CalTotals(data, bucketDay), k).None? <==> NoBucketOn(data, k, bucketDay)
    ensures Find(CalTotals(data, bucketDay), k).Some? ==> Find(CalTotals(data, bucketDay), k).value == DayRecord(data, k, bucketDay)
  {
    if data != [] {
      var init := data[..|data| - 1];
      CalTotalsAt(init, k, bucketDay);
      CalTotalsAtStep(init, data[|data| - 1], k, bucketDay);
      assert init + [data[|data| - 1]] == data;
    }
  }

  lemma CalTotalsAtStep(init: seq<Bucket>, last: Bucket, k: string, bucketDay: Bucket -> string)
    requires Find(CalTotals(init, bucketDay), k).None? <==> NoBucketOn(init, k, bucketDay)
    requires Find(CalTotals(init, bucketDay), k).Some? ==> Find(CalTotals(init, bucketDay), k).value == DayRecord(init, k, bucketDay)
    ensures Find(CalTotals(init + [last], bucketDay), k).None? <==> NoBucketOn(init + [last], k, bucketDay)
    ensures Find(CalTotals(init + [last], bucketDay), k).Some? ==>
              Find(CalTotals(init + [last], bucketDay), k).value == DayRecord(init + [last], k, bucketDay)
  {
    var data := init + [last];
    assert data[..|init|] == init;
    var m := CalTotals(init, bucketDay);
    var lk := bucketDay(last);
    var cur := match Find(m, lk) case Some(v) => v case None => DayTotals(0, 0, 0);
    var next := DayTotals(cur.income + last.income, cur.expense + last.expense, cur.balance + (last.income - last.expense));
    assert CalTotals(data, bucketDay) == Put(m, lk, next);
    PutFind(m, lk, next, k);
    assert IncomeOn(data, k, bucketDay) == IncomeOn(init, k, bucketDay) + (if lk == k then last.income else 0);
    assert ExpenseOn(data, k, bucketDay) == ExpenseOn(init, k, bucketDay) + (if lk == k then last.expense else 0);
    if k == lk {
      assert bucketDay(data[|init|]) == k;
      if Find(m, k).None? {
        IncomeOnNone(init, k, bucketDay);
      }
    } else {
      if NoBucketOn(init, k, bucketDay) {
        forall i | 0 <= i < |data| ensures bucketDay(data[i]) != k {
          if i < |init| {
            assert data[i] == init[i];
          }
        }
      }
      if NoBucketOn(data, k, bucketDay) {
        forall i | 0 <= i < |init| ensures bucketDay(init[i]) != k {
          assert data[i] == init[i];
        }
      }
    }
  }

  lemma {:induction false} IncomeOnNone(data: seq<Bucket>, k: string, bucketDay: Bucket -> string)
    requires NoBucketOn(data, k, bucketDay)
    ensures IncomeOn(data, k, bucketDay) == 0 && ExpenseOn(data, k, bucketDay) == 0
  {
    if data != [] {
      var init := data[..|data| - 1];
      assert NoBucketOn(init, k, bucketDay) by {
        forall i | 0 <= i < |init| ensures bucketDay(init[i]) != k {
          assert init[i] == data[i];
        }
      }
      IncomeOnNone(init, k, bucketDay);
      assert bucketDay(data[|data| - 1]) != k;
    }
  }

  /** No record ends the loop with a larger |balance| than the scale `maxBal`. */
  lemma {:induction false} CalPeakBound(data: seq<Bucket>, k: string, bucketDay: Bucket -> string)
    ensures CalPeak(data, bucketDay) >= 0
    ensures Find(CalTotals(data, bucketDay), k).Some? ==> Abs(Find(CalTotals(data, bucketDay), k).value.balance) <= CalPeak(data, bucketDay)
  {
    if data != [] {
      var init := data[..|data| - 1];
      var last := data[|data| - 1];
      CalPeakBound(init, k, bucketDay);
      var m := CalTotals(init, bucketDay);
      var lk := bucketDay(last);
      var cur := match Find(m, lk) case Some(v) => v case None => DayTotals(0, 0, 0);
      var next := DayTotals(cur.income + last.income, cur.expense + last.expense, cur.balance + (last.income - last.expense));
      assert CalTotals(data, bucketDay) == Put(m, lk, next);
      PutFind(m, lk, next, k);
      PutFind(m, lk, next, lk);
      assert StepBalance(data, bucketDay) == Abs(next.balance);
    }
  }

  /** A calendar day's shade: min(4, ceil(|balance| / maxBal * 4)), with 0 shown as 1. */
  function CalIntensity(balance: int, maxBal: int): (r: int)
    requires maxBal >= 1
    ensures 1 <= r <= 4
    ensures 0 < Abs(balance) <= maxBal ==> r == CeilDiv(4 * Abs(balance), maxBal)
  {
    if Abs(balance) <= maxBal then CeilDivAtMostFour(Abs(balance), maxBal); CalCap(balance, maxBal)
    else CalCap(balance, maxBal)
  }

  function CalCap(balance: int, maxBal: int): int
    requires maxBal >= 1
  {
    var c := CeilDiv(4 * Abs(balance), maxBal);
    var capped := if c <= 4 then c else 4;
    if capped == 0 then 1 else capped
  }

  /**
   * Every record the calendar shows sums its day's buckets, and is shaded by
   * ceil(|balance| / maxBal * 4), never capped; a zero balance shows as 1.
   */
  lemma CalendarShade(data: seq<Bucket>, k: string, bucketDay: Bucket -> string)
    requires Find(CalTotals(data, bucketDay), k).Some?
    ensures Find(CalTotals(data, bucketDay), k).value == DayRecord(data, k, bucketDay)
    ensures var e := Find(CalTotals(data, bucketDay), k).value;
            && Abs(e.balance) <= MaxBal(data, bucketDay)
            && (e.balance != 0 ==> CalIntensity(e.balance, MaxBal(data, bucketDay)) == CeilDiv(4 * Abs(e.balance), MaxBal(data, bucketDay)))
            && (e.balance == 0 ==> CalIntensity(e.balance, MaxBal(data, bucketDay)) == 1)
  {
    CalTotalsAt(data, k, bucketDay);
    CalPeakBound(data, k, bucketDay);
  }

  // ----- the month grid -----

  /** `new Date(year, month, 1).getDay()` */
  function FirstWeekDay(year: int, month: int): int {
    WeekDay(NewDate(year, month, 1, 0, 0, 0))
  }

  /** `new Date(year, month + 1, 0).getDate()` */
  function MonthDays(year: int, month: int): int {
    DayOfMonth(NewDate(year, month + 1, 0, 0, 0, 0))
  }

  /** The grid loops: `firstDayOfMonth` blanks, then the days 1..`daysInMonth`. */
  method DayGrid(year: int, month: int) returns (days: seq<Option<int>>)
    ensures |days| == FirstWeekDay(year, month) + MonthDays(year, month)
    ensures forall i :: 0 <= i < FirstWeekDay(year, month) ==> days[i] == None
    ensures forall d :: 1 <= d <= MonthDays(year, month) ==> days[FirstWeekDay(year, month) + d - 1] == Some(d)
  {
    var first := FirstWeekDay(year, month);
    var count := MonthDays(year, month);
    days := [];
    var i := 0;
    while i < first
      invariant 0 <= i <= first
      invariant |days| == i
      invariant forall j :: 0 <= j < i ==> days[j] == None
    {
      days := days + [None];
      i := i + 1;
    }
    var d := 1;
    while d <= count
      invariant 1 <= d <= count + 1 || (count < 1 && d == 1)
      invariant |days| == first + d - 1
      invariant forall j :: 0 <= j < first ==> days[j] == None
      invariant forall e :: 1 <= e < d ==> days[first + e - 1] == Some(e)
    {
      days := days + [Some(d)];
      d := d + 1;
    }
  }

  /**
   * The grid has the month's own length, and the cell of day `d` sits in the column
   * of that day's weekday (grid index modulo 7, Sunday first).
   */
  lemma DayGridMeaning(year: int, month: int, d: int)
    requires 0 <= month < 12
    ensures MonthDays(year, month) == DaysInMonth(ConstructorYear(year), month)
    ensures 0 <= FirstWeekDay(year, month) < 7
    ensures WeekDay(NewDate(year, month, d, 0, 0, 0)) == (FirstWeekDay(year, month) + d - 1) % 7
  {
    MonthDaysLength(year, month);
    GridColumn(year, month, d);
  }

  /** Day `d` of the month falls `d - 1` weekdays after the 1st. */
  lemma GridColumn(year: int, month: int, d: int)
    requires 0 <= month < 12
    ensures WeekDay(NewDate(year, month, d, 0, 0, 0)) == (FirstWeekDay(year, month) + d - 1) % 7
  {
    var z := DayOfFirst(year, month, d);
    WeekColumn(Day(NewDate(year, month, 1, 0, 0, 0)), Day(NewDate(year, month, d, 0, 0, 0)), d);
  }

  /** Weekdays are day numbers plus 4, modulo 7. */
  lemma WeekColumn(z1: int, zd: int, d: int)
    requires zd == z1 + d - 1
    ensures (zd + 4) % 7 == ((z1 + 4) % 7 + d - 1) % 7
  {
    WeekShift(z1 + 4, d - 1);
  }

  lemma MonthDaysLength(year: int, month: int)
    requires 0 <= month < 12
    ensures MonthDays(year, month) == DaysInMonth(ConstructorYear(year), month)
  {
    var y := ConstructorYear(year);
    var z := MakeDay(y, month + 1, 0);
    var t := NewDate(year, month + 1, 0, 0, 0, 0);
    assert t == MakeDate(z, 0);
    DayOfMakeDate(z, 0);
    DayZeroOfNextMonth(y, month);
    assert Civil(t) == CivilOfDay(z);
  }

  /** The day number of midnight on day `d` of the month is the 1st's plus `d - 1`. */
  lemma DayOfFirst(year: int, month: int, d: int) returns (z: int)
    requires 0 <= month < 12
    ensures Day(NewDate(year, month, d, 0, 0, 0)) == z + d - 1
    ensures Day(NewDate(year, month, 1, 0, 0, 0)) == z
  {
    var y := ConstructorYear(year);
    MakeDayInRange(y, month, 1);
    MakeDayInRange(y, month, d);
    assert NewDate(year, month, 1, 0, 0, 0) == MakeDate(MakeDay(y, month, 1), 0);
    assert NewDate(year, month, d, 0, 0, 0) == MakeDate(MakeDay(y, month, d), 0);
    DayOfMakeDate(MakeDay(y, month, 1), 0);
    DayOfMakeDate(MakeDay(y, month, d), 0);
    z := DayFromCivil(y, month, 1);
  }

  lemma WeekShift(a: int, b: int)
    ensures (a + b) % 7 == (a % 7 + b) % 7
  {
    var q := a / 7;
    assert a == 7 * q + a % 7;
    assert a + b == 7 * q + (a % 7 + b);
  }

  /** The key the grid looks up for day `d` is the local day key of that day's midnight. */
  lemma GridKey(year: int, month: int, d: int)
    requires !(0 <= year <= 99) && 0 <= month < 12 && 1 <= d <= DaysInMonth(year, month)
    ensures YmdString(year, month + 1, d) == LocalYmd(NewDate(year, month, d, 0, 0, 0))
  {
    var t := NewDate(year, month, d, 0, 0, 0);
    NewDateCivil(year, month, d, 0, 0, 0);
    assert Civil(t) == Ymd(year, month, d);
    assert FullYear(t) == year && Month(t) == month && DayOfMonth(t) == d;
  }

  // ----- the view month -----

  /** The view starts at the latest date of the data (the last after an ascending sort), else at now. */
  function InitialView(data: seq<Bucket>, now: int): int {
    if data == [] then now
    else
      var sorted := SortDesc(data, NegBucketDate);
      sorted[|sorted| - 1].date
  }

  /** The initial view is the latest date of the data. */
  lemma InitialViewLaws(data: seq<Bucket>, now: int)
    ensures data == [] ==> InitialView(data, now) == now
    ensures data != [] ==> exists b :: b in data && b.date == InitialView(data, now)
    ensures forall b :: b in data ==> b.date <= InitialView(data, now)
  {
    if data != [] {
      var sorted := SortDesc(data, NegBucketDate);
      var last := sorted[|sorted| - 1];
      SortDescSorted(data, NegBucketDate);
      SortDescMember(data, NegBucketDate, last);
      forall b | b in data ensures b.date <= last.date {
        SortDescMember(data, NegBucketDate, b);
        var i :| 0 <= i < |sorted| && sorted[i] == b;
        if i < |sorted| - 1 {
          assert NegBucketDate(sorted[i]) >= NegBucketDate(sorted[|sorted| - 1]);
        }
      }
    }
  }

  /** `new Date(year, month - 1, 1)` */
  function PrevView(v: int): int {
    NewDate(FullYear(v), Month(v) - 1, 1, 0, 0, 0)
  }

  /** `new Date(year, month + 1, 1)` */
  function NextView(v: int): int {
    NewDate(FullYear(v), Month(v) + 1, 1, 0, 0, 0)
  }

  /** Previous moves to 00:00 on the 1st of the month before. */
  lemma PrevViewCivil(v: int)
    requires !(0 <= FullYear(v) <= 99)
    ensures Civil(PrevView(v)) == if Month(v) == 0 then Ymd(FullYear(v) - 1, 11, 1) else Ymd(FullYear(v), Month(v) - 1, 1)
    ensures TimeWithinDay(PrevView(v)) == 0
  {
    var y := FullYear(v);
    var m := Month(v);
    assert MakeTime(0, 0, 0, 0) == 0;
    assert PrevView(v) == MakeDate(MakeDay(y, m - 1, 1), 0);
    if m == 0 {
      MakeDayBeforeJanuary(y, 1);
      MakeDateCivil(y - 1, 11, 1, 0);
    } else {
      MakeDayInRange(y, m - 1, 1);
      MakeDateCivil(y, m - 1, 1, 0);
    }
  }

  /** Next moves to 00:00 on the 1st of the month after. */
  lemma NextViewCivil(v: int)
    requires !(0 <= FullYear(v) <= 99)
    ensures Civil(NextView(v)) == if Month(v) == 11 then Ymd(FullYear(v) + 1, 0, 1) else Ymd(FullYear(v), Month(v) + 1, 1)
    ensures TimeWithinDay(NextView(v)) == 0
  {
    var y := FullYear(v);
    var m := Month(v);
    assert MakeTime(0, 0, 0, 0) == 0;
    assert NextView(v) == MakeDate(MakeDay(y, m + 1, 1), 0);
    if m == 11 {
      MakeDayAfterDecember(y, 1);
      MakeDateCivil(y + 1, 0, 1, 0);
    } else {
      MakeDayInRange(y, m + 1, 1);
      MakeDateCivil(y, m + 1, 1, 0);
    }
  }

  /** Previous then next lands on the 1st of the month the view started in, and so does next then previous. */
  lemma PrevNextRoundTrip(v: int)
    requires !(-1 <= FullYear(v) <= 100)
    ensures Civil(NextView(PrevView(v))) == Ymd(FullYear(v), Month(v), 1)
    ensures Civil(PrevView(NextView(v))) == Ymd(FullYear(v), Month(v), 1)
  {
    PrevViewCivil(v);
    NextViewCivil(PrevView(v));
    NextViewCivil(v);
    PrevViewCivil(NextView(v));
  }

  /** The calendar's view month. */
  class CalendarView {
    var viewDate: int

    constructor(data: seq<Bucket>, now: int)
      ensures viewDate == InitialView(data, now)
    {
      if data == [] {
        viewDate := now;
      } else {
        var sorted := SortDesc(data, NegBucketDate);
        viewDate := sorted[|sorted| - 1].date;
      }
    }

    method Prev()
      modifies this
      ensures viewDate == PrevView(old(viewDate))
    {
      viewDate := NewDate(FullYear(viewDate), Month(viewDate) - 1, 1, 0, 0, 0);
    }

    method Next()
      modifies this
      ensures viewDate == NextView(old(viewDate))
    {
      viewDate := NewDate(FullYear(viewDate), Month(viewDate) + 1, 1, 0, 0, 0);
    }
  }
}
