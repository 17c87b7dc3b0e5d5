/**
 * Local `YYYY-MM-DD` day keys (`getLocalDateStr` of the entry form and the same
 * template repeated inline by the report and chart code), and the reading of a
 * date input value back into an instant.
 */
module LocalDates {
  import opened Types
  import opened Calendar
  import opened Text

  /** `${y}-${String(m).padStart(2,'0')}-${String(d).padStart(2,'0')}` */
  function YmdString(y: int, m: nat, d: nat): string {
    IntToString(y) + "-" + Pad2(m) + "-" + Pad2(d)
  }

  /** The local day key of an instant: its year, 1-based month and day of month. */
  function LocalYmd(t: int): (s: string)
    ensures |s| == |IntToString(FullYear(t))| + 6
  {
    YmdString(FullYear(t), Month(t) + 1, DayOfMonth(t))
  }

  /** Four-digit years give the ten-character `YYYY-MM-DD` form. */
  lemma YmdStringShape(y: int, m: nat, d: nat)
    requires 1000 <= y <= 9999 && m < 100 && d < 100
    ensures |YmdString(y, m, d)| == 10
    ensures YmdString(y, m, d)[4] == '-' && YmdString(y, m, d)[7] == '-'
    ensures AllDigits(YmdString(y, m, d)[..4]) && AllDigits(YmdString(y, m, d)[5..7])
    ensures AllDigits(YmdString(y, m, d)[8..])
  {
    var ys := IntToString(y);
    assert |ys| == 4 by {
      assert ys == NatToString(y / 10) + [DigitChar(y % 10)];
      assert NatToString(y / 10) == NatToString(y / 100) + [DigitChar(y / 10 % 10)];
    }
    var s := YmdString(y, m, d);
    assert s[..4] == ys;
    assert s[5..7] == Pad2(m);
    assert s[8..] == Pad2(d);
  }

  /** Where the three parts sit in `ys-ms-ds` when the last two have two characters. */
  lemma DashedParts(ys: string, ms: string, ds: string)
    requires |ms| == 2 && |ds| == 2
    ensures var s := ys + "-" + ms + "-" + ds;
            |s| == |ys| + 6 && s[..|ys|] == ys && s[|ys| + 1..|ys| + 3] == ms && s[|ys| + 4..] == ds
  {
    var s := ys + "-" + ms + "-" + ds;
    assert s[..|ys|] == ys;
    assert s[|ys| + 1..|ys| + 3] == ms;
    assert s[|ys| + 4..] == ds;
  }

  /** The day key determines year, month and day. */
  lemma YmdStringInjective(y1: int, m1: nat, d1: nat, y2: int, m2: nat, d2: nat)
    requires m1 < 100 && d1 < 100 && m2 < 100 && d2 < 100
    requires YmdString(y1, m1, d1) == YmdString(y2, m2, d2)
    ensures y1 == y2 && m1 == m2 && d1 == d2
  {
    DashedParts(IntToString(y1), Pad2(m1), Pad2(d1));
    DashedParts(IntToString(y2), Pad2(m2), Pad2(d2));
    IntToStringInjective(y1, y2);
    Pad2Value(m1);
    Pad2Value(m2);
    Pad2Value(d1);
    Pad2Value(d2);
  }

  /** Two instants have the same key exactly when they fall on the same local day. */
  lemma LocalYmdSameDay(a: int, b: int)
    ensures LocalYmd(a) == LocalYmd(b) <==> Day(a) == Day(b)
  {
    if Day(a) == Day(b) {
      assert Civil(a) == Civil(b);
      assert FullYear(a) == FullYear(b) && Month(a) == Month(b) && DayOfMonth(a) == DayOfMonth(b);
      SameDaySameKey(a, b);
    } else if LocalYmd(a) == LocalYmd(b) {
      SameKeySameDay(a, b);
    }
  }

  lemma SameDaySameKey(a: int, b: int)
    requires FullYear(a) == FullYear(b) && Month(a) == Month(b) && DayOfMonth(a) == DayOfMonth(b)
    ensures LocalYmd(a) == LocalYmd(b)
  {
  }

  lemma SameKeySameDay(a: int, b: int)
    requires LocalYmd(a) == LocalYmd(b)
    ensures Day(a) == Day(b)
  {
    YmdStringInjective(FullYear(a), Month(a) + 1, DayOfMonth(a), FullYear(b), Month(b) + 1, DayOfMonth(b));
    DayOfInstant(a);
    DayOfInstant(b);
  }

  /**
   * `const [y, m, d] = date.split('-').map(Number); new Date(y, m - 1, d)`.
   * None stands for the Invalid Date that a missing or non-numeric part produces.
   */
  function ParseDateInput(s: string): Option<int> {
    var parts := Split(s, '-');
    if |parts| < 3 then None
    else
      match (NumberOf(parts[0]), NumberOf(parts[1]), NumberOf(parts[2]))
      case (Some(y), Some(m), Some(d)) => Some(NewDate(y, m - 1, d, 0, 0, 0))
      case _ => None
  }

  lemma NoDashInDigits(s: string)
    requires AllDigits(s)
    ensures '-' !in s
  {
    assert forall i :: 0 <= i < |s| ==> s[i] != '-';
  }

  /** Reading back a day key with a year of at least 100 gives the local midnight of that day. */
  lemma YmdStringParse(y: nat, m: nat, d: nat)
    requires y >= 100
    ensures ParseDateInput(YmdString(y, m, d)) == Some(NewDate(y, m - 1, d, 0, 0, 0))
  {
    var ys, ms, ds := IntToString(y), Pad2(m), Pad2(d);
    NoDashInDigits(ys);
    NoDashInDigits(ms);
    NoDashInDigits(ds);
    assert YmdString(y, m, d) == ys + ['-'] + (ms + ['-'] + ds);
    SplitFirst(ys, '-', ms + ['-'] + ds);
    SplitFirst(ms, '-', ds);
    SplitNoSep(ds, '-');
    NatToStringValue(y);
    Pad2Value(m);
    Pad2Value(d);
  }

  /** The form writes the local key of a day and reads it back as that day's local midnight. */
  lemma DateInputRoundTrip(t: int)
    requires FullYear(t) >= 100
    ensures ParseDateInput(LocalYmd(t)) == Some(Midnight(t))
  {
    YmdStringParse(FullYear(t), Month(t) + 1, DayOfMonth(t));
  }
}
