/**
 * The string operations of the host that the core relies on: `toLowerCase`,
 * `includes`, `String(n)` / `Number.prototype.toString`, `padStart(2, '0')`,
 * `split` and `Number` on digit strings.
 */
module Text {
  import opened Types

  /** `toLowerCase` on one character (ASCII letters only). */
  function LowerChar(c: char): char {
    if 'A' <= c <= 'Z' then (c as int + 32) as char else c
  }

  /** `s.toLowerCase()`: same length, every letter lowered, nothing else touched. */
  function Lower(s: string): (r: string)
    ensures |r| == |s|
    ensures forall i :: 0 <= i < |s| ==> r[i] == LowerChar(s[i])
  {
    if s == [] then [] else [LowerChar(s[0])] + Lower(s[1..])
  }

  lemma {:induction false} LowerIdempotent(s: string)
    ensures Lower(Lower(s)) == Lower(s)
  {
    var a := Lower(Lower(s));
    var b := Lower(s);
    assert |a| == |b|;
    forall i | 0 <= i < |s| ensures a[i] == b[i] {
      assert LowerChar(LowerChar(s[i])) == LowerChar(s[i]);
    }
  }

  /** Case-insensitive equality as the source writes it: `a.toLowerCase() === b.toLowerCase()`. */
  predicate SameIgnoringCase(a: string, b: string) {
    Lower(a) == Lower(b)
  }

  predicate StartsWith(s: string, p: string) {
    |p| <= |s| && s[..|p|] == p
  }

  /** `s.includes(p)` */
  predicate Contains(s: string, p: string)
    decreases |s|
  {
    StartsWith(s, p) || (|s| > 0 && Contains(s[1..], p))
  }

  /** `p` occurs in `s` at position `i`. */
  predicate OccursAt(s: string, p: string, i: int) {
    0 <= i <= |s| - |p| && s[i..i + |p|] == p
  }

  /** `includes` holds exactly when `p` occurs at some position of `s`. */
  lemma {:induction false} ContainsAt(s: string, p: string)
    ensures Contains(s, p) <==> exists i :: OccursAt(s, p, i)
    decreases |s|
  {
    if StartsWith(s, p) {
      assert s[0..0 + |p|] == p;
      assert OccursAt(s, p, 0);
    } else if |s| > 0 {
      ContainsAt(s[1..], p);
      if Contains(s[1..], p) {
        var i :| OccursAt(s[1..], p, i);
        assert s[i + 1..i + 1 + |p|] == s[1..][i..i + |p|];
        assert OccursAt(s, p, i + 1);
      } else {
        forall i | 0 <= i <= |s| - |p| ensures !OccursAt(s, p, i) {
          if i == 0 {
            assert s[..|p|] == s[0..0 + |p|];
          } else {
            var here := s[i..i + |p|];
            var there := s[1..][i - 1..i - 1 + |p|];
            forall j | 0 <= j < |p| ensures here[j] == there[j] {
              assert s[1..][i - 1 + j] == s[i + j];
            }
            assert here == there;
            assert !OccursAt(s[1..], p, i - 1);
          }
        }
      }
    }
  }

  // ----- decimal digits -----

  predicate IsDigit(c: char) {
    '0' <= c <= '9'
  }

  predicate AllDigits(s: string) {
    forall i :: 0 <= i < |s| ==> IsDigit(s[i])
  }

  function DigitChar(n: int): (c: char)
    requires 0 <= n < 10
    ensures IsDigit(c) && c as int - '0' as int == n
  {
    (n + '0' as int) as char
  }

  /** `Number(s)` for a string of decimal digits. */
  function DigitsValue(s: string): (v: nat)
    requires AllDigits(s)
  {
    if s == [] then 0 else DigitsValue(s[..|s| - 1]) * 10 + (s[|s| - 1] as int - '0' as int)
  }

  /** `String(n)` for a natural number: decimal digits, no leading zero. */
  function NatToString(n: nat): (s: string)
    ensures |s| >= 1 && AllDigits(s)
    ensures s[0] == '0' ==> n == 0
    ensures n < 10 ==> |s| == 1
    ensures 10 <= n < 100 ==> |s| == 2
    decreases n
  {
    if n < 10 then [DigitChar(n)] else NatToString(n / 10) + [DigitChar(n % 10)]
  }

  lemma {:induction false} NatToStringValue(n: nat)
    ensures DigitsValue(NatToString(n)) == n
    decreases n
  {
    if n >= 10 {
      NatToStringValue(n / 10);
      var s := NatToString(n);
      assert s[..|s| - 1] == NatToString(n / 10);
    }
  }

  lemma NatToStringInjective(a: nat, b: nat)
    requires NatToString(a) == NatToString(b)
    ensures a == b
  {
    NatToStringValue(a);
    NatToStringValue(b);
  }

  /** `String(n)` for an integer. */
  function IntToString(n: int): (s: string)
    ensures |s| >= 1
    ensures n >= 0 ==> AllDigits(s)
    ensures n < 0 <==> s[0] == '-'
  {
    if n < 0 then "-" + NatToString(-n) else NatToString(n)
  }

  lemma IntToStringInjective(a: int, b: int)
    requires IntToString(a) == IntToString(b)
    ensures a == b
  {
    if a < 0 {
      assert IntToString(a)[1..] == NatToString(-a);
      assert IntToString(b)[1..] == NatToString(-b);
      NatToStringInjective(-a, -b);
    } else {
      NatToStringInjective(a, b);
    }
  }

  /** `String(n).padStart(2, '0')` */
  function Pad2(n: nat): (s: string)
    ensures AllDigits(s)
    ensures n < 100 ==> |s| == 2
  {
    if n < 10 then "0" + NatToString(n) else NatToString(n)
  }

  lemma Pad2Value(n: nat)
    ensures DigitsValue(Pad2(n)) == n
  {
    NatToStringValue(n);
    if n < 10 {
      assert Pad2(n) == [DigitChar(0), DigitChar(n)];
      assert Pad2(n)[..1] == [DigitChar(0)];
    }
  }

  // ----- amounts -----

  /** The decimal fraction `Number.prototype.toString` prints for `f` hundredths: trailing zeros dropped. */
  function Fraction(f: nat): string
    requires f < 100
  {
    if f == 0 then ""
    else if f % 10 == 0 then "." + [DigitChar(f / 10)]
    else "." + [DigitChar(f / 10), DigitChar(f % 10)]
  }

  /** `amount.toString()` for an amount of `c` minor units, that is the number c / 100. */
  function AmountString(c: int): string {
    if c < 0 then "-" + NatToString(-c / 100) + Fraction(-c % 100)
    else NatToString(c / 100) + Fraction(c % 100)
  }

  /** Decimal text with an optional sign and at most two fraction digits, in minor units. */
  function ParseAmount(s: string): (r: Option<int>) {
    if |s| > 0 && s[0] == '-' then
      match ParseUnsigned(s[1..])
      case Some(v) => Some(-v)
      case None => None
    else ParseUnsigned(s)
  }

  function IndexOfDot(s: string): (i: nat)
    ensures i <= |s|
    ensures forall j :: 0 <= j < i ==> s[j] != '.'
    ensures i < |s| ==> s[i] == '.'
  {
    if s == [] then 0 else if s[0] == '.' then 0 else 1 + IndexOfDot(s[1..])
  }

  /** The whole part: at least one digit and nothing else. */
  function WholePart(w: string): (r: Option<int>)
    ensures r.Some? <==> w != [] && AllDigits(w)
  {
    if w != [] && AllDigits(w) then Some(DigitsValue(w)) else None
  }

  /** The fraction after the dot, in hundredths: one digit counts tens, two count units. */
  function FractionPart(f: string): (r: Option<int>)
    ensures r.Some? <==> AllDigits(f) && 1 <= |f| <= 2
  {
    if |f| == 1 && AllDigits(f) then Some(DigitsValue(f) * 10)
    else if |f| == 2 && AllDigits(f) then Some(DigitsValue(f))
    else None
  }

  function ParseUnsigned(s: string): Option<int> {
    var i := IndexOfDot(s);
    match WholePart(s[..i])
    case None => None
    case Some(v) =>
      if i == |s| then Some(v * 100)
      else
        match FractionPart(s[i + 1..])
        case None => None
        case Some(f) => Some(v * 100 + f)
  }

  lemma DigitsNoDot(s: string)
    requires AllDigits(s)
    ensures IndexOfDot(s) == |s|
  {
    if s != [] {
      assert AllDigits(s[1..]);
      DigitsNoDot(s[1..]);
    }
  }

  lemma DigitsValueOne(a: char)
    requires IsDigit(a)
    ensures DigitsValue([a]) == a as int - '0' as int
  {
    assert [a][..0] == [];
  }

  lemma DigitsValueTwo(a: char, b: char)
    requires IsDigit(a) && IsDigit(b)
    ensures DigitsValue([a, b]) == (a as int - '0' as int) * 10 + (b as int - '0' as int)
  {
    assert [a, b][..1] == [a];
    DigitsValueOne(a);
  }

  lemma UnsignedRoundTrip(c: nat)
    ensures ParseUnsigned(NatToString(c / 100) + Fraction(c % 100)) == Some(c)
  {
    var w := NatToString(c / 100);
    NatToStringValue(c / 100);
    assert DigitsValue(w) * 100 + c % 100 == c;
    WholeAndFraction(w, c % 100, c);
  }

  /** A non-empty digit string followed by the printed fraction of `f` hundredths reads back in hundredths. */
  lemma WholeAndFraction(w: string, f: nat, v: int)
    requires w != [] && AllDigits(w) && f < 100
    requires v == DigitsValue(w) * 100 + f
    ensures ParseUnsigned(w + Fraction(f)) == Some(v)
  {
    if f == 0 {
      DigitsNoDot(w);
      assert w + Fraction(f) == w;
      assert w[..|w|] == w;
    } else {
      FractionValue(f);
      var d := Fraction(f)[1..];
      assert Fraction(f) == "." + d;
      assert w + Fraction(f) == w + "." + d;
      DottedValues(w + Fraction(f), w, d, DigitsValue(w), f);
      assert ParseUnsigned(w + Fraction(f)) == Some(DigitsValue(w) * 100 + f);
    }
  }

  /** Whole digits `w` worth `a`, a dot and one or two fraction digits worth `b` hundredths. */
  lemma DottedValues(s: string, w: string, d: string, a: int, b: int)
    requires s == w + "." + d
    requires w != [] && AllDigits(w) && AllDigits(d) && 1 <= |d| <= 2
    requires a == DigitsValue(w)
    requires |d| == 1 ==> b == DigitsValue(d) * 10
    requires |d| == 2 ==> b == DigitsValue(d)
    ensures ParseUnsigned(s) == Some(a * 100 + b)
  {
    DottedParseAt(s, w, d);
    assert FractionPart(d) == Some(b);
    ParseAtDot(s, |w|, a, b);
  }

  /** The first dot of `w + "." + d` follows the whole digits. */
  lemma DottedParseAt(s: string, w: string, d: string)
    requires s == w + "." + d
    requires w != [] && AllDigits(w) && AllDigits(d) && 1 <= |d| <= 2
    ensures WholePart(s[..|w|]) == Some(DigitsValue(w))
    ensures |w| < |s| && s[|w| + 1..] == d
    ensures IndexOfDot(s) == |w|
  {
    DotAfterDigits(w, d);
    assert s[..|w|] == w;
    assert s[|w| + 1..] == d;
  }

  /** The text splits at its first dot into a whole part worth `a` and a fraction worth `b`. */
  lemma ParseAtDot(s: string, i: nat, a: int, b: int)
    requires IndexOfDot(s) == i < |s|
    requires WholePart(s[..i]) == Some(a) && FractionPart(s[i + 1..]) == Some(b)
    ensures ParseUnsigned(s) == Some(a * 100 + b)
  {
  }

  lemma {:induction false} DotAfterDigits(w: string, rest: string)
    requires AllDigits(w)
    ensures IndexOfDot(w + "." + rest) == |w|
  {
    if w != [] {
      assert (w + "." + rest)[0] == w[0];
      assert (w + "." + rest)[1..] == w[1..] + "." + rest;
      DotAfterDigits(w[1..], rest);
    }
  }

  /** The digits after the dot of a printed fraction. */
  lemma FractionValue(f: nat)
    requires 0 < f < 100
    ensures |Fraction(f)| >= 2 && Fraction(f)[0] == '.'
    ensures var frac := Fraction(f)[1..];
            AllDigits(frac)
            && (|frac| == 1 ==> DigitsValue(frac) * 10 == f)
            && (|frac| == 2 ==> DigitsValue(frac) == f)
            && (|frac| == 1 || |frac| == 2)
  {
    var frac := Fraction(f)[1..];
    if f % 10 == 0 {
      assert frac == [DigitChar(f / 10)];
      DigitsValueOne(DigitChar(f / 10));
    } else {
      assert frac == [DigitChar(f / 10), DigitChar(f % 10)];
      DigitsValueTwo(DigitChar(f / 10), DigitChar(f % 10));
    }
  }

  lemma IndexOfDotAt(s: string, k: nat)
    requires k < |s| && s[k] == '.'
    requires forall j :: 0 <= j < k ==> s[j] != '.'
    ensures IndexOfDot(s) == k
  {
    if k > 0 {
      IndexOfDotAt(s[1..], k - 1);
    }
  }

  /** Reading back the printed amount yields the amount. */
  lemma AmountRoundTrip(c: int)
    ensures ParseAmount(AmountString(c)) == Some(c)
  {
    if c < 0 {
      NegativeAmountRoundTrip(c);
    } else {
      var u := NatToString(c / 100) + Fraction(c % 100);
      UnsignedRoundTrip(c);
      assert u[0] == NatToString(c / 100)[0];
      UnsignedText(u);
    }
  }

  lemma NegativeAmountRoundTrip(c: int)
    requires c < 0
    ensures ParseAmount(AmountString(c)) == Some(c)
  {
    var n: nat := -c;
    var u := NatToString(n / 100) + Fraction(n % 100);
    assert AmountString(c) == "-" + u;
    UnsignedRoundTrip(n);
    SignedText(u, n, AmountString(c));
  }

  lemma SignedText(u: string, v: int, t: string)
    requires ParseUnsigned(u) == Some(v) && t == "-" + u
    ensures ParseAmount(t) == Some(-v)
  {
    assert t[1..] == u;
  }

  lemma UnsignedText(u: string)
    requires |u| > 0 && IsDigit(u[0])
    ensures ParseAmount(u) == ParseUnsigned(u)
  {
  }

  // ----- split -----

  /** `s.split(sep)` for a one-character separator. */
  function Split(s: string, sep: char): (parts: seq<string>)
    ensures |parts| >= 1
  {
    if s == [] then [""]
    else
      var rest := Split(s[1..], sep);
      if s[0] == sep then [""] + rest else [[s[0]] + rest[0]] + rest[1..]
  }

  lemma {:induction false} SplitNoSep(a: string, sep: char)
    requires sep !in a
    ensures Split(a, sep) == [a]
  {
    if a != [] {
      SplitNoSep(a[1..], sep);
      assert [a[0]] + a[1..] == a;
    }
  }

  lemma {:induction false} SplitFirst(a: string, sep: char, b: string)
    requires sep !in a
    ensures Split(a + [sep] + b, sep) == [a] + Split(b, sep)
  {
    if a == [] {
      assert a + [sep] + b == [sep] + b;
      assert ([sep] + b)[1..] == b;
    } else {
      SplitFirst(a[1..], sep, b);
      assert (a + [sep] + b)[1..] == a[1..] + [sep] + b;
      assert [a[0]] + a[1..] == a;
    }
  }

  /** `Number(part)` for the parts of a date input: digits (the empty string counts as 0), else NaN. */
  function NumberOf(part: string): Option<int> {
    if AllDigits(part) then Some(DigitsValue(part)) else None
  }
}
