/** The weekly shift template and the free-slot scan over a horizon of days
    that both the statistics page (days 0 to 27 from today) and the
    free-slot alarm (days 1 to 7) run. */
module Slots {
  import opened Wrappers
  import opened Calendar
  import opened IsoDate
  import opened DateRules
  import opened Records

  /** One entry of the weekly template. */
  datatype SlotDef = SlotDef(id: nat, day: string, dayName: string, start: string, end: string)

  /** `WEEKLY_SLOTS`, in display order. */
  const WeeklySlots: seq<SlotDef> := [
    SlotDef(1, "tuesday", "Dienstag", "17:00", "20:00"),
    SlotDef(2, "friday", "Freitag", "17:00", "20:00"),
    SlotDef(3, "saturday", "Samstag", "14:00", "17:00")
  ]

  /** The `slot_time` a booking of this slot carries, `start-end`. */
  function TimeRange(s: SlotDef): (t: string)
    ensures |t| == |s.start| + 1 + |s.end| && t[|s.start|] == '-'
  {
    s.start + "-" + s.end
  }

  /** The template names three different weekdays (Tuesday, Friday,
      Saturday), so a date carries at most one template slot. */
  lemma OneSlotPerWeekday(s1: SlotDef, s2: SlotDef)
    requires s1 in WeeklySlots && s2 in WeeklySlots
    requires DayOffset(s1.day) == DayOffset(s2.day)
    ensures s1 == s2
  {
    assert DayOffset("tuesday") == 1 && DayOffset("friday") == 4 && DayOffset("saturday") == 5;
  }

  lemma TemplateWeekdays(s: SlotDef)
    requires s in WeeklySlots
    ensures DayOffset(s.day) == 1 || DayOffset(s.day) == 4 || DayOffset(s.day) == 5
  {
    assert DayOffset("tuesday") == 1 && DayOffset("friday") == 4 && DayOffset("saturday") == 5;
  }

  // ----- the free-slot scan -----

  /** An entry of the scan's result: the date and the template slot. */
  datatype FreeSlot = FreeSlot(date: string, slot: SlotDef)

  /** A confirmed booking holds the slot `(date, time)`. */
  predicate Taken(bs: seq<Booking>, date: string, time: string)
  {
    exists b :: b in bs && IsConfirmedAt(b, date, time)
  }

  /** Template slot `s` falls on day `d` and no confirmed booking holds it. */
  ghost predicate OpenOn(bs: seq<Booking>, d: nat, s: SlotDef)
  {
    DayOffset(s.day) == Weekday(d) && !Taken(bs, Iso(d), TimeRange(s))
  }

  /** The inner loop over the template for one date, in template order:
      the slots that `open` accepts. */
  function OpenSlotsOn(date: string, slots: seq<SlotDef>, open: SlotDef -> bool): seq<FreeSlot>
  {
    if slots == [] then []
    else
      var s := slots[|slots| - 1];
      OpenSlotsOn(date, slots[..|slots| - 1], open) + (if open(s) then [FreeSlot(date, s)] else [])
  }

  /** The entries the scan adds for day `d`: none on a blocked date. */
  ghost function FreeOnDay(bs: seq<Booking>, d: nat): seq<FreeSlot>
  {
    var date := Iso(d);
    if IsBlocked(date) then [] else OpenSlotsOn(date, WeeklySlots, OpenTest(bs, d))
  }

  ghost function OpenTest(bs: seq<Booking>, d: nat): SlotDef -> bool
  {
    s => OpenOn(bs, d, s)
  }

  /** The entries the scan produces for the days `today + first` up to
      `today + last - 1`, day by day. */
  ghost function FreeSlotsIn(bs: seq<Booking>, today: nat, first: nat, last: nat): seq<FreeSlot>
  {
    Horizon(first, last, DayEntries(bs, today))
  }

  /** Day `i` of the horizon lists the entries of day `today + i`. */
  ghost function DayEntries(bs: seq<Booking>, today: nat): nat -> seq<FreeSlot>
  {
    (i: nat) => FreeOnDay(bs, today + i)
  }

  /** The outer loop over the days `first` up to `last - 1`, concatenating
      each day's entries. */
  function Horizon(first: nat, last: nat, onDay: nat -> seq<FreeSlot>): seq<FreeSlot>
    decreases last
  {
    if last <= first then []
    else Horizon(first, last - 1, onDay) + onDay(last - 1)
  }

  /** One more day of the horizon appends that day's entries. */
  lemma FreeSlotsInStep(bs: seq<Booking>, today: nat, first: nat, i: nat)
    requires first <= i
    ensures FreeSlotsIn(bs, today, first, i + 1) == FreeSlotsIn(bs, today, first, i) + FreeOnDay(bs, today + i)
  {
    assert DayEntries(bs, today)(i) == FreeOnDay(bs, today + i);
  }

  /** When only day `k` can contribute `x`, `x` is listed exactly when day
      `k` is in the horizon and contributes it. */
  lemma {:induction false} HorizonMeans(first: nat, last: nat, onDay: nat -> seq<FreeSlot>, x: FreeSlot, k: nat)
    requires forall i :: first <= i < last && i != k ==> x !in onDay(i)
    ensures x in Horizon(first, last, onDay) <==> first <= k < last && x in onDay(k)
    decreases last
  {
    if first < last {
      HorizonMeans(first, last - 1, onDay, x, k);
    }
  }

  lemma {:induction false} OpenSlotsOnMeans(date: string, slots: seq<SlotDef>, open: SlotDef -> bool, f: FreeSlot)
    ensures f in OpenSlotsOn(date, slots, open) <==> f.date == date && f.slot in slots && open(f.slot)
  {
    if slots != [] {
      var init, s := slots[..|slots| - 1], slots[|slots| - 1];
      OpenSlotsOnMeans(date, init, open, f);
      assert slots == init + [s];
    }
  }

  /** The scan lists `(date, slot)` exactly when the date is in the
      horizon, is not blocked, the template slot falls on it and no
      confirmed booking holds the slot. The horizon must end by 9999-12-31,
      the last date the source can represent. */
  lemma FreeSlotsInMeans(bs: seq<Booking>, today: nat, first: nat, last: nat, d: nat, s: SlotDef)
    requires today + last <= DayCount
    ensures FreeSlot(Iso(d), s) in FreeSlotsIn(bs, today, first, last) <==>
              today + first <= d < today + last && !IsBlocked(Iso(d)) && s in WeeklySlots
                && OpenOn(bs, d, s)
  {
    var k := if d < today then last else d - today;
    OnlyOwnDay(bs, today, first, last, d, s, k);
    HorizonMeans(first, last, DayEntries(bs, today), FreeSlot(Iso(d), s), k);
    if first <= k < last {
      FreeOnDayMeans(bs, today + k, d, s);
    }
  }

  /** Every entry the scan lists is dated on a day of the horizon. */
  lemma {:induction false} FreeSlotsInDates(bs: seq<Booking>, today: nat, first: nat, last: nat, x: FreeSlot)
    requires x in FreeSlotsIn(bs, today, first, last)
    ensures exists d :: today + first <= d < today + last && x.date == Iso(d)
    decreases last
  {
    var onDay := DayEntries(bs, today);
    if x in Horizon(first, last - 1, onDay) {
      FreeSlotsInDates(bs, today, first, last - 1, x);
    } else {
      var d := today + last - 1;
      assert x in FreeOnDay(bs, d);
      OpenSlotsOnMeans(Iso(d), WeeklySlots, OpenTest(bs, d), x);
    }
  }

  /** Hence every listed entry is a free template slot of a horizon day:
      the scans never list a blocked date, a booked slot or a day outside
      the horizon. */
  lemma FreeSlotsInSound(bs: seq<Booking>, today: nat, first: nat, last: nat, x: FreeSlot)
    requires today + last <= DayCount
    requires x in FreeSlotsIn(bs, today, first, last)
    ensures exists d :: today + first <= d < today + last && x == FreeSlot(Iso(d), x.slot)
              && !IsBlocked(Iso(d)) && x.slot in WeeklySlots && OpenOn(bs, d, x.slot)
  {
    FreeSlotsInDates(bs, today, first, last, x);
    var d :| today + first <= d < today + last && x.date == Iso(d);
    FreeSlotsInMeans(bs, today, first, last, d, x.slot);
  }

  lemma OnlyOwnDay(bs: seq<Booking>, today: nat, first: nat, last: nat, d: nat, s: SlotDef, k: nat)
    requires today + last <= DayCount
    requires k == if d < today then last else d - today
    ensures forall i :: first <= i < last && i != k ==> FreeSlot(Iso(d), s) !in DayEntries(bs, today)(i)
  {
    forall i | first <= i < last && i != k
      ensures FreeSlot(Iso(d), s) !in DayEntries(bs, today)(i)
    {
      DayEntryOther(bs, today, i, d, s);
    }
  }

  lemma DayEntryOther(bs: seq<Booking>, today: nat, i: nat, d: nat, s: SlotDef)
    requires today + i < DayCount && d != today + i
    ensures FreeSlot(Iso(d), s) !in DayEntries(bs, today)(i)
  {
    var e := today + i;
    assert DayEntries(bs, today)(i) == FreeOnDay(bs, e);
    FreeOnOtherDay(bs, e, d, s);
  }

  /** A day lists only its own date. */
  lemma FreeOnOtherDay(bs: seq<Booking>, e: nat, d: nat, s: SlotDef)
    requires e < DayCount && d != e
    ensures FreeSlot(Iso(d), s) !in FreeOnDay(bs, e)
  {
    OpenSlotsOnMeans(Iso(e), WeeklySlots, OpenTest(bs, e), FreeSlot(Iso(d), s));
    IsoDistinct(e, d);
  }

  lemma FreeOnDayMeans(bs: seq<Booking>, e: nat, d: nat, s: SlotDef)
    requires e < DayCount
    ensures FreeSlot(Iso(d), s) in FreeOnDay(bs, e) <==>
              d == e && !IsBlocked(Iso(d)) && s in WeeklySlots && OpenOn(bs, d, s)
  {
    OpenSlotsOnMeans(Iso(e), WeeklySlots, OpenTest(bs, e), FreeSlot(Iso(d), s));
    if d != e {
      IsoDistinct(e, d);
    }
  }

  /** The same test as the source states it: resolving the slot's weekday
      in the date's week gives the date back, and no booking is found for
      the slot. */
  lemma OpenOnAsWritten(bs: seq<Booking>, d: nat, s: SlotDef)
    requires d < DayCount
    ensures OpenOn(bs, d, s)
            <==> (SlotDate(WeekStart(d), s.day) == Iso(d) && First(bs, SlotQuery(Iso(d), TimeRange(s))).None?)
  {
    SlotDateMatches(d, s.day);
    forall b | b in bs
      ensures Matches(b, SlotQuery(Iso(d), TimeRange(s))) <==> IsConfirmedAt(b, Iso(d), TimeRange(s))
    {
      SlotQueryMeans(b, Iso(d), TimeRange(s));
    }
  }
}
