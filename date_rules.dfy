/** The date helpers of the booking engine: the week anchor, resolving a
    weekday name within a week, and the rules that block a date (Bavarian
    public holidays and the summer break). */
module DateRules {
  import opened Wrappers
  import opened Lexicographic
  import opened Calendar
  import opened IsoDate

  /** `week_start(d)`: the Monday on or before `d`. */
  function WeekStart(d: nat): (ws: nat)
    ensures Weekday(ws) == 0 && ws <= d < ws + 7
  {
    d - d % 7
  }

  /** The anchor is the only Monday of `d`'s week, so anchoring twice
      changes nothing. */
  lemma WeekStartUnique(d: nat, m: nat)
    requires Weekday(m) == 0 && m <= d < m + 7
    ensures m == WeekStart(d)
  {
  }

  lemma WeekStartIdempotent(d: nat)
    ensures WeekStart(WeekStart(d)) == WeekStart(d)
  {
    WeekStartUnique(WeekStart(d), WeekStart(d));
  }

  /** Offset of a lower-case English weekday name from Monday; any other
      name gets offset 0, as the source's `days.get(day, 0)` does. */
  function DayOffset(name: string): (k: nat)
    ensures k < 7
  {
    if name == "monday" then 0
    else if name == "tuesday" then 1
    else if name == "wednesday" then 2
    else if name == "thursday" then 3
    else if name == "friday" then 4
    else if name == "saturday" then 5
    else if name == "sunday" then 6
    else 0
  }

  /** `slot_date(ws, day)`: the ISO date of weekday `day` in the week that
      starts on `ws`. */
  ghost function SlotDate(ws: nat, day: string): string
  {
    Iso(ws + DayOffset(day))
  }

  /** Computes `slot_date(ws, day)`. */
  method SlotDateOf(ws: nat, day: string) returns (s: string)
    ensures s == SlotDate(ws, day)
  {
    s := FormatDay(ws + DayOffset(day));
  }

  /** A resolved slot date lies in the anchor's week, on the named weekday;
      an unknown name resolves to the Monday. */
  lemma SlotDateInWeek(ws: nat, day: string)
    requires Weekday(ws) == 0
    ensures var e := ws + DayOffset(day);
            SlotDate(ws, day) == Iso(e) && WeekStart(e) == ws && Weekday(e) == DayOffset(day)
  {
    WeekStartUnique(ws + DayOffset(day), ws);
  }

  /** Resolving `day` in the week of `d` gives `d` back exactly when `d` is
      that weekday: the test the free-slot scans use to pick the template
      slots of a day. */
  lemma SlotDateMatches(d: nat, day: string)
    requires d < DayCount
    ensures SlotDate(WeekStart(d), day) == Iso(d) <==> DayOffset(day) == Weekday(d)
  {
    OffsetMatches(d, DayOffset(day));
  }

  lemma OffsetMatches(d: nat, k: nat)
    requires d < DayCount && k < 7
    ensures Iso(WeekStart(d) + k) == Iso(d) <==> k == Weekday(d)
  {
    if WeekStart(d) + k != d {
      IsoDistinct(d, WeekStart(d) + k);
    }
  }

  /** `BAVARIA_HOLIDAYS`: public holidays per year, keyed by the year's
      four digits. */
  const Holidays: map<string, seq<string>> := map[
    "2025" := ["2025-01-01", "2025-01-06", "2025-04-18", "2025-04-21", "2025-05-01",
               "2025-05-29", "2025-06-09", "2025-06-19", "2025-08-15", "2025-10-03",
               "2025-11-01", "2025-12-25", "2025-12-26"],
    "2026" := ["2026-01-01", "2026-01-06", "2026-04-03", "2026-04-06", "2026-05-01",
               "2026-05-14", "2026-05-25", "2026-06-04", "2026-08-15", "2026-10-03",
               "2026-11-01", "2026-12-25", "2026-12-26"]
  ]

  /** Python's `d[:4]`. */
  function YearKey(s: string): string
  {
    if |s| <= 4 then s else s[..4]
  }

  /** `is_holiday(d)`: `d` is listed under its year; a year the table does
      not list has no holidays. */
  predicate IsHoliday(s: string)
    ensures IsHoliday(s) ==> YearKey(s) == "2025" || YearKey(s) == "2026"
  {
    YearKey(s) in Holidays && s in Holidays[YearKey(s)]
  }

  lemma HolidayYears(key: string)
    requires key in Holidays
    ensures key == "2025" || key == "2026"
  {
  }

  /** A holiday is a ten-character string under one of the table's years. */
  lemma HolidayShape(s: string)
    requires IsHoliday(s)
    ensures |s| == 10 && (YearKey(s) == "2025" || YearKey(s) == "2026")
  {
    if YearKey(s) == "2025" {
      assert forall h :: h in Holidays["2025"] ==> |h| == 10;
    } else {
      assert forall h :: h in Holidays["2026"] ==> |h| == 10;
    }
  }

  /** Only days of the years in the table can be holidays. */
  lemma HolidayOnlyInListedYears(n: nat)
    requires IsHoliday(Iso(n))
    ensures FromDay(n).year == 2025 || FromDay(n).year == 2026
  {
    HolidayShape(Iso(n));
    IsoLength(n);
    IsoFormat(n);
    InRangeIffFourDigitYear(n);
    var c := FromDay(n);
    assert Iso(n) == Pad4(c.year) + ("-" + Pad2(c.month) + "-" + Pad2(c.day));
    assert YearKey(Iso(n)) == Pad4(c.year);
    assert Pad4(2025) == "2025" && Pad4(2026) == "2026" by {
      assert Pad2(20) == "20" && Pad2(25) == "25" && Pad2(26) == "26";
    }
    if Pad4(c.year) == "2025" {
      Pad4Injective(c.year, 2025);
    } else {
      Pad4Injective(c.year, 2026);
    }
  }

  /** `is_summer(d)`: the month is June to September; a string that does
      not parse is not summer. */
  predicate IsSummer(s: string)
    ensures ParseIso(s).None? ==> !IsSummer(s)
    ensures ParseIso(s).Some? ==> (IsSummer(s) <==> 6 <= ParseIso(s).value.month <= 9)
  {
    match ParseIso(s)
    case None => false
    case Some(c) => 6 <= c.month <= 9
  }

  lemma IsSummerOfDay(n: nat)
    requires n < DayCount
    ensures IsSummer(Iso(n)) <==> 6 <= FromDay(n).month <= 9
  {
    ParseIsoOfIso(n);
  }

  /** `is_blocked(d)`: no bookings on holidays and in the summer break. */
  predicate IsBlocked(s: string)
    ensures IsBlocked(s) ==> YearKey(s) == "2025" || YearKey(s) == "2026"
                             || (ParseIso(s).Some? && 6 <= ParseIso(s).value.month <= 9)
  {
    IsHoliday(s) || IsSummer(s)
  }

  /** The reasons `block_reason` reports. */
  datatype Reason = Holiday | SummerBreak

  /** The German label the week view shows. */
  function ReasonLabel(r: Reason): (text: string)
    ensures text == "Feiertag" <==> r == Holiday
    ensures text == "Sommerpause" <==> r == SummerBreak
  {
    match r
    case Holiday => "Feiertag"
    case SummerBreak => "Sommerpause"
  }

  /** `block_reason(d)`: why `d` is blocked, holidays first; `None` exactly
      when `d` is not blocked. */
  function BlockReason(s: string): (r: Option<Reason>)
    ensures r.None? <==> !IsBlocked(s)
    ensures IsHoliday(s) ==> r == Some(Holiday)
    ensures r == Some(SummerBreak) <==> IsSummer(s) && !IsHoliday(s)
  {
    if IsHoliday(s) then Some(Holiday)
    else if IsSummer(s) then Some(SummerBreak)
    else None
  }

  /** A holiday inside the summer break is reported as a holiday. */
  lemma HolidayWinsInSummer()
    ensures IsSummer("2025-06-19") && BlockReason("2025-06-19") == Some(Holiday)
  {
    assert ParseIso("2025-06-19") == Some(Civil(2025, 6, 19)) by {
      assert ValidCivil(Civil(2025, 6, 19));
    }
    assert YearKey("2025-06-19") == "2025";
    assert "2025-06-19" in Holidays["2025"];
  }

  /** A June Tuesday that is not a holiday is blocked by the summer break. */
  lemma JuneTuesdayIsSummerBreak()
    ensures BlockReason("2025-06-03") == Some(SummerBreak)
  {
    assert ParseIso("2025-06-03") == Some(Civil(2025, 6, 3)) by {
      assert ValidCivil(Civil(2025, 6, 3));
    }
    assert YearKey("2025-06-03") == "2025";
    assert "2025-06-03" !in Holidays["2025"];
  }

  /** A November Tuesday that is not a holiday is not blocked. */
  lemma NovemberTuesdayIsOpen()
    ensures !IsBlocked("2025-11-04")
  {
    assert ParseIso("2025-11-04") == Some(Civil(2025, 11, 4)) by {
      assert ValidCivil(Civil(2025, 11, 4));
    }
    assert YearKey("2025-11-04") == "2025";
    assert "2025-11-04" !in Holidays["2025"];
  }
}
