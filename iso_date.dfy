/** The canonical storage format of dates: ISO `YYYY-MM-DD` strings, as
    Python's `strftime("%Y-%m-%d")` writes them and
    `strptime(s, "%Y-%m-%d")` reads them.

    Slot dates are stored and compared as these strings, so the lemmas here
    show that string order is day order and that formatting and parsing are
    inverse.
 */
module IsoDate {
  import opened Wrappers
  import opened Lexicographic
  import opened Calendar

  predicate IsDigit(c: char)
  {
    '0' <= c <= '9'
  }

  function DigitChar(k: nat): (c: char)
    requires k < 10
    ensures IsDigit(c)
  {
    (48 + k) as char
  }

  function DigitValue(c: char): (k: nat)
    requires IsDigit(c)
    ensures k < 10 && DigitChar(k) == c
  {
    (c as int) - 48
  }

  /** Two decimal digits with a leading zero (`%m`, `%d`). */
  function Pad2(k: nat): (s: string)
    requires k < 100
    ensures |s| == 2
  {
    [DigitChar(k / 10), DigitChar(k % 10)]
  }

  /** Four decimal digits with leading zeros (`%Y` for years 1 to 9999). */
  function Pad4(k: nat): (s: string)
    requires k < 10000
    ensures |s| == 4
  {
    Pad2(k / 100) + Pad2(k % 100)
  }

  /** The year field: four digits while Python's `date` can hold the year.
      Past 9999 the date arithmetic raises `OverflowError` before anything
      is formatted; the model leaves the field empty there, so such a
      string is never a date string. */
  function YearText(y: nat): string
  {
    if y < 10000 then Pad4(y) else ""
  }

  function FormatCivil(c: Civil): string
    requires ValidCivil(c)
  {
    YearText(c.year) + "-" + Pad2(c.month) + "-" + Pad2(c.day)
  }

  /** `strftime("%Y-%m-%d")` of day `n`: the format of its date. The
      definition is stated through the formatted date, so that proofs that
      only compare or pass on ISO strings do not expand the digits;
      `IsoFormat` states it directly. */
  ghost function Iso(n: nat): (s: string)
    ensures forall c {:trigger FormatCivil(c)} :: ValidCivil(c) && c == FromDay(n) ==> s == FormatCivil(c)
  {
    var s :| forall c {:trigger FormatCivil(c)} :: ValidCivil(c) && c == FromDay(n) ==> s == FormatCivil(c);
    s
  }

  lemma IsoFormat(n: nat)
    ensures Iso(n) == FormatCivil(FromDay(n))
  {
  }

  /** Formats day `n` as the store writes dates. */
  method FormatDay(n: nat) returns (s: string)
    ensures s == Iso(n)
  {
    var c := DateOf(n);
    s := FormatCivil(c);
  }

  function Number2(a: char, b: char): nat
    requires IsDigit(a) && IsDigit(b)
  {
    10 * DigitValue(a) + DigitValue(b)
  }

  /** `strptime(s, "%Y-%m-%d")` for the zero-padded form: `None` where
      Python raises `ValueError`. */
  function ParseIso(s: string): (r: Option<Civil>)
    ensures r.Some? ==> ValidCivil(r.value) && r.value.year <= 9999
  {
    if |s| == 10 && s[4] == '-' && s[7] == '-'
       && IsDigit(s[0]) && IsDigit(s[1]) && IsDigit(s[2]) && IsDigit(s[3])
       && IsDigit(s[5]) && IsDigit(s[6]) && IsDigit(s[8]) && IsDigit(s[9])
    then
      var c := Civil(100 * Number2(s[0], s[1]) + Number2(s[2], s[3]),
                     Number2(s[5], s[6]), Number2(s[8], s[9]));
      if ValidCivil(c) then Some(c) else None
    else None
  }

  lemma Pad2Digits(k: nat)
    requires k < 100
    ensures Number2(Pad2(k)[0], Pad2(k)[1]) == k
  {
  }

  /** Parsing what was formatted gives the date back. */
  lemma {:induction false} ParseFormatCivil(c: Civil)
    requires ValidCivil(c) && c.year <= 9999
    ensures ParseIso(FormatCivil(c)) == Some(c)
  {
    var s := FormatCivil(c);
    var y := Pad4(c.year);
    assert y == Pad2(c.year / 100) + Pad2(c.year % 100);
    assert s == y + "-" + Pad2(c.month) + "-" + Pad2(c.day);
    assert s[0] == y[0] && s[1] == y[1] && s[2] == y[2] && s[3] == y[3];
    assert s[5] == Pad2(c.month)[0] && s[6] == Pad2(c.month)[1];
    assert s[8] == Pad2(c.day)[0] && s[9] == Pad2(c.day)[1];
    Pad2Digits(c.year / 100);
    Pad2Digits(c.year % 100);
    Pad2Digits(c.month);
    Pad2Digits(c.day);
  }

  lemma Pad2OfNumber2(a: char, b: char)
    requires IsDigit(a) && IsDigit(b)
    ensures Number2(a, b) < 100 && Pad2(Number2(a, b)) == [a, b]
  {
    var k := Number2(a, b);
    assert k / 10 == DigitValue(a) && k % 10 == DigitValue(b);
  }

  /** Every string that parses is the format of what it parses to: the
      zero-padded ISO strings are exactly the formatted dates. */
  lemma {:induction false} FormatParseIso(s: string)
    requires ParseIso(s).Some?
    ensures FormatCivil(ParseIso(s).value) == s
  {
    var c := ParseIso(s).value;
    var hi, lo := Number2(s[0], s[1]), Number2(s[2], s[3]);
    Pad2OfNumber2(s[0], s[1]);
    Pad2OfNumber2(s[2], s[3]);
    Pad2OfNumber2(s[5], s[6]);
    Pad2OfNumber2(s[8], s[9]);
    assert c.year / 100 == hi && c.year % 100 == lo;
    assert Pad4(c.year) == s[0..4];
    assert Pad2(c.month) == s[5..7];
    assert Pad2(c.day) == s[8..10];
    assert s == s[0..4] + [s[4]] + s[5..7] + [s[7]] + s[8..10];
  }

  /** The round trip at the level of day numbers, for the days Python's
      `date` can hold. */
  lemma ParseIsoOfIso(n: nat)
    requires n < DayCount
    ensures ParseIso(Iso(n)) == Some(FromDay(n))
  {
    InRangeIffFourDigitYear(n);
    ParseFormatCivil(FromDay(n));
  }

  /** The ISO string has ten characters exactly for the days Python's
      `date` can hold. */
  lemma IsoLength(n: nat)
    ensures |Iso(n)| == 10 <==> n < DayCount
  {
    InRangeIffFourDigitYear(n);
    IsoFormat(n);
  }

  /** Distinct days in Python's range have distinct ISO strings. */
  lemma IsoInjective(a: nat, b: nat)
    requires a < DayCount && b < DayCount && Iso(a) == Iso(b)
    ensures a == b
  {
    ParseIsoOfIso(a);
    ParseIsoOfIso(b);
  }

  /** A day in Python's range and any other day have different ISO strings. */
  lemma IsoDistinct(a: nat, b: nat)
    requires a < DayCount && a != b
    ensures Iso(a) != Iso(b)
  {
    IsoLength(a);
    IsoLength(b);
    if b < DayCount && Iso(a) == Iso(b) {
      IsoInjective(a, b);
    }
  }

  lemma DigitCharOrder(x: nat, y: nat)
    requires x < 10 && y < 10
    ensures DigitChar(x) < DigitChar(y) <==> x < y
  {
  }

  lemma Pad2Order(a: nat, b: nat)
    requires a < 100 && b < 100
    ensures StrLt(Pad2(a), Pad2(b)) <==> a < b
  {
    StrLtConcat([DigitChar(a / 10)], [DigitChar(a % 10)], [DigitChar(b / 10)], [DigitChar(b % 10)]);
    StrLtSingle(DigitChar(a / 10), DigitChar(b / 10));
    StrLtSingle(DigitChar(a % 10), DigitChar(b % 10));
    assert Pad2(a) == [DigitChar(a / 10)] + [DigitChar(a % 10)];
    assert Pad2(b) == [DigitChar(b / 10)] + [DigitChar(b % 10)];
    DigitCharOrder(a / 10, b / 10);
    DigitCharOrder(a % 10, b % 10);
    Pad2Digits(a);
    Pad2Digits(b);
  }

  lemma Pad2Injective(a: nat, b: nat)
    requires a < 100 && b < 100 && Pad2(a) == Pad2(b)
    ensures a == b
  {
    Pad2Digits(a);
    Pad2Digits(b);
  }

  lemma Pad4Order(a: nat, b: nat)
    requires a < 10000 && b < 10000
    ensures StrLt(Pad4(a), Pad4(b)) <==> a < b
  {
    StrLtConcat(Pad2(a / 100), Pad2(a % 100), Pad2(b / 100), Pad2(b % 100));
    Pad2Order(a / 100, b / 100);
    Pad2Order(a % 100, b % 100);
    if Pad2(a / 100) == Pad2(b / 100) {
      Pad2Injective(a / 100, b / 100);
    }
  }

  lemma Pad4Injective(a: nat, b: nat)
    requires a < 10000 && b < 10000 && Pad4(a) == Pad4(b)
    ensures a == b
  {
    StrLtIrreflexive(Pad4(a));
    Pad4Order(a, b);
    Pad4Order(b, a);
  }

  /** Comparing the month-and-day tails `-MM-DD` compares (month, day). */
  lemma TailOrder(m1: nat, d1: nat, m2: nat, d2: nat)
    requires m1 < 100 && d1 < 100 && m2 < 100 && d2 < 100
    ensures StrLt("-" + Pad2(m1) + "-" + Pad2(d1), "-" + Pad2(m2) + "-" + Pad2(d2))
            <==> m1 < m2 || (m1 == m2 && d1 < d2)
  {
    var p1, p2 := "-" + Pad2(m1) + "-", "-" + Pad2(m2) + "-";
    StrLtConcat(p1, Pad2(d1), p2, Pad2(d2));
    StrLtConcat("-", Pad2(m1) + "-", "-", Pad2(m2) + "-");
    assert p1 == "-" + (Pad2(m1) + "-") && p2 == "-" + (Pad2(m2) + "-");
    StrLtIrreflexive("-");
    StrLtConcat(Pad2(m1), "-", Pad2(m2), "-");
    StrLtIrreflexive("-");
    Pad2Order(m1, m2);
    Pad2Order(d1, d2);
    if p1 == p2 {
      assert Pad2(m1) == p1[1..3] && Pad2(m2) == p2[1..3];
      Pad2Injective(m1, m2);
    }
  }

  /** ISO-string order is day order, for the days Python's `date` can hold.
      This is what makes the string comparisons on `slot_date` correct. */
  lemma IsoOrder(a: nat, b: nat)
    requires a < DayCount && b < DayCount
    ensures StrLt(Iso(a), Iso(b)) <==> a < b
  {
    var ca, cb := FromDay(a), FromDay(b);
    IsoFormat(a);
    IsoFormat(b);
    InRangeIffFourDigitYear(a);
    InRangeIffFourDigitYear(b);
    var ta, tb := "-" + Pad2(ca.month) + "-" + Pad2(ca.day), "-" + Pad2(cb.month) + "-" + Pad2(cb.day);
    assert Iso(a) == Pad4(ca.year) + ta;
    assert Iso(b) == Pad4(cb.year) + tb;
    StrLtConcat(Pad4(ca.year), ta, Pad4(cb.year), tb);
    Pad4Order(ca.year, cb.year);
    TailOrder(ca.month, ca.day, cb.month, cb.day);
    if Pad4(ca.year) == Pad4(cb.year) {
      StrLtIrreflexive(Pad4(ca.year));
      Pad4Order(ca.year, cb.year);
      Pad4Order(cb.year, ca.year);
    }
    CivilOrderIsDayOrder(a, b);
  }

  /** The non-strict form, used for `<=` and `>=` filters. */
  lemma IsoLe(a: nat, b: nat)
    requires a < DayCount && b < DayCount
    ensures StrLe(Iso(a), Iso(b)) <==> a <= b
  {
    IsoOrder(a, b);
    if Iso(a) == Iso(b) {
      IsoInjective(a, b);
    }
  }
}
