/** The home page's week view: one card per template slot of the shown
    week, in template order, each blocked, booked or available; and what
    the buttons of a card do to the store. The cards stand for the HTML the
    page renders. */
module Home {
  import opened Wrappers
  import opened Calendar
  import opened IsoDate
  import opened DateRules
  import opened Records
  import opened Slots
  import opened Database

  /** What a card shows: the block reason, the booking that holds the
      slot, or that the slot is free. */
  datatype SlotStatus = Blocked(reason: Reason) | Booked(booking: Booking) | Available

  datatype SlotCard = SlotCard(slot: SlotDef, date: string, time: string, status: SlotStatus)

  /** `booking_map`: the week's bookings keyed by `(slot_date, slot_time)`;
      of two bookings with one key the later wins, as in a dict
      comprehension. */
  function BookingMap(bs: seq<Booking>): (m: map<(string, string), Booking>)
    ensures forall k :: k in m ==> m[k] in bs && (m[k].slotDate, m[k].slotTime) == k
    ensures forall b :: b in bs ==> (b.slotDate, b.slotTime) in m
  {
    if bs == [] then map[]
    else
      var last := bs[|bs| - 1];
      BookingMap(bs[..|bs| - 1])[(last.slotDate, last.slotTime) := last]
  }

  /** `booking_map.get(key)`. */
  function Lookup(m: map<(string, string), Booking>, date: string, time: string): Option<Booking>
  {
    if (date, time) in m then Some(m[(date, time)]) else None
  }

  /** The status choice of a card: a blocked date wins over a booking, a
      booking over a free slot. */
  function Classify(date: string, booking: Option<Booking>): (s: SlotStatus)
    ensures s.Blocked? <==> IsBlocked(date)
    ensures s.Blocked? ==> BlockReason(date) == Some(s.reason)
    ensures s.Booked? <==> !IsBlocked(date) && booking.Some?
    ensures s.Booked? ==> booking == Some(s.booking)
    ensures s == Available <==> !IsBlocked(date) && booking.None?
  {
    if IsBlocked(date) then Blocked(BlockReason(date).value)
    else if booking.Some? then Booked(booking.value)
    else Available
  }

  /** The card of template slot `slot` in the week starting on day `ws`,
      as the page computes it from the week's bookings. */
  ghost function CardOf(bs: seq<Booking>, ws: nat, slot: SlotDef): SlotCard
  {
    var date := SlotDate(ws, slot.day);
    var time := TimeRange(slot);
    SlotCard(slot, date, time, Classify(date, Lookup(BookingMap(WeekBookings(bs, Iso(ws))), date, time)))
  }

  /** The cards of the week, in template order. */
  ghost function WeekView(bs: seq<Booking>, ws: nat): seq<SlotCard>
  {
    seq(|WeeklySlots|, i requires 0 <= i < |WeeklySlots| => CardOf(bs, ws, WeeklySlots[i]))
  }

  /** The slot loop of `show_home` for the week starting on day `ws`. The
      page raises on a week whose Saturday would be past 9999-12-31, when
      it resolves that slot's date. */
  method ShowWeek(db: WasserwachtDB, ws: nat, indexAvailable: bool) returns (cards: seq<SlotCard>)
    requires ws + DayOffset("saturday") < DayCount
    ensures cards == WeekView(db.bookings, ws)
  {
    var wsText := FormatDay(ws);
    var bookings := db.GetWeekBookings(wsText, indexAvailable);
    var bookingMap := BookingMap(bookings);
    cards := [];
    var i := 0;
    while i < |WeeklySlots|
      invariant 0 <= i <= |WeeklySlots|
      invariant |cards| == i
      invariant forall j :: 0 <= j < i ==> cards[j] == CardOf(db.bookings, ws, WeeklySlots[j])
    {
      var slot := WeeklySlots[i];
      var sd := SlotDateOf(ws, slot.day);
      var time := TimeRange(slot);
      var booking := Lookup(bookingMap, sd, time);
      cards := cards + [SlotCard(slot, sd, time, Classify(sd, booking))];
      i := i + 1;
    }
  }

  /** A confirmed booking dated on a day of the week starting on `ws` is
      among the week's bookings; each of those is a stored confirmed
      booking. */
  lemma WeekBookingsOfSlot(bs: seq<Booking>, ws: nat, e: nat, time: string)
    requires ws + 6 < DayCount && ws <= e <= ws + 6
    ensures (Iso(e), time) in BookingMap(WeekBookings(bs, Iso(ws))) <==> Taken(bs, Iso(e), time)
  {
    var wb := WeekBookings(bs, Iso(ws));
    var m := BookingMap(wb);
    if (Iso(e), time) in m {
      var b := m[(Iso(e), time)];
      WeekBookingsOfDay(bs, ws, b, e);
      assert b in bs && IsConfirmedAt(b, Iso(e), time);
    }
    if Taken(bs, Iso(e), time) {
      var b :| b in bs && IsConfirmedAt(b, Iso(e), time);
      WeekBookingsOfDay(bs, ws, b, e);
      assert b in wb;
    }
  }

  /** Card `i` of the week starting on Monday `ws` is the template's slot
      `i`, dated on its weekday in that week; it is blocked exactly when
      that date is blocked, booked by a stored confirmed booking of the
      slot exactly when the date is not blocked and such a booking exists,
      and available otherwise. */
  lemma {:induction false} WeekViewAgainstStore(bs: seq<Booking>, ws: nat, i: nat)
    requires Weekday(ws) == 0 && ws + 6 < DayCount && i < |WeeklySlots|
    ensures var slot, card := WeeklySlots[i], WeekView(bs, ws)[i];
            var date := Iso(ws + DayOffset(slot.day));
            card.slot == slot && card.date == date && card.time == TimeRange(slot)
            && Weekday(ws + DayOffset(slot.day)) == DayOffset(slot.day)
            && (card.status.Blocked? <==> IsBlocked(date))
            && (card.status.Booked? <==> !IsBlocked(date) && Taken(bs, date, TimeRange(slot)))
            && (card.status.Booked? ==>
                  card.status.booking in bs && IsConfirmedAt(card.status.booking, date, TimeRange(slot)))
            && (card.status == Available <==> !IsBlocked(date) && !Taken(bs, date, TimeRange(slot)))
  {
    var slot := WeeklySlots[i];
    var e := ws + DayOffset(slot.day);
    SlotDateInWeek(ws, slot.day);
    WeekBookingsOfSlot(bs, ws, e, TimeRange(slot));
    var card := WeekView(bs, ws)[i];
    assert card == CardOf(bs, ws, slot);
    if card.status.Booked? {
      WeekBookingsOfDay(bs, ws, card.status.booking, e);
    }
  }

  /** Under the store's invariant a booked card shows the one confirmed
      booking of its slot. */
  lemma BookedCardIsTheBooking(bs: seq<Booking>, ws: nat, i: nat, b: Booking)
    requires UniqueConfirmed(bs)
    requires Weekday(ws) == 0 && ws + 6 < DayCount && i < |WeeklySlots|
    requires WeekView(bs, ws)[i].status.Booked?
    requires b in bs && IsConfirmedAt(b, WeekView(bs, ws)[i].date, WeekView(bs, ws)[i].time)
    ensures WeekView(bs, ws)[i].status.booking == b
  {
    WeekViewAgainstStore(bs, ws, i);
    var shown := WeekView(bs, ws)[i].status.booking;
    var p :| 0 <= p < |bs| && bs[p] == shown;
    var q :| 0 <= q < |bs| && bs[q] == b;
    assert IsConfirmedAt(bs[q], bs[p].slotDate, bs[p].slotTime);
  }

  // ----- the buttons of a card -----

  /** The cancel button of a booked card: an admin may cancel any booking,
      another user only their own. Pressing it cancels the booking's id in
      the name of the acting user. */
  function CancelAction(card: SlotCard, role: string, email: string): (r: Option<(nat, string)>)
    ensures r.Some? <==> card.status.Booked? && (role == "admin" || card.status.booking.userEmail == email)
    ensures r.Some? ==> r.value == (card.status.booking.id, email)
  {
    match card.status
    case Booked(b) => if role == "admin" || b.userEmail == email then Some((b.id, email)) else None
    case _ => None
  }

  /** A cancel offered by the week view names a stored booking, so
      `cancel_booking` succeeds on it; a user who is not an admin is only
      offered the cancelling of their own bookings. */
  lemma CancelFromWeekView(bs: seq<Booking>, ws: nat, i: nat, role: string, email: string)
    requires Weekday(ws) == 0 && ws + 6 < DayCount && i < |WeeklySlots|
    requires CancelAction(WeekView(bs, ws)[i], role, email).Some?
    ensures CancelAction(WeekView(bs, ws)[i], role, email).value.0 in IdsOf(bs)
    ensures role != "admin" ==> WeekView(bs, ws)[i].status.booking.userEmail == email
  {
    WeekViewAgainstStore(bs, ws, i);
    var b := WeekView(bs, ws)[i].status.booking;
    assert b.id in IdsOf(bs);
  }

  /** The cancel button pressed on a card: when the card offers it, the
      card's booking is cancelled with the acting user recorded as
      `cancelled_by`; otherwise nothing happens. */
  method CancelFromHome(db: WasserwachtDB, card: SlotCard, role: string, email: string) returns (ok: bool)
    requires db.Valid()
    modifies db
    ensures db.Valid()
    ensures ok <==> CancelAction(card, role, email).Some? && card.status.booking.id in IdsOf(old(db.bookings))
    ensures db.bookings == if ok then CancelIn(old(db.bookings), card.status.booking.id, email) else old(db.bookings)
    ensures db.archive == old(db.archive) && db.users == old(db.users) && db.nextId == old(db.nextId)
  {
    var action := CancelAction(card, role, email);
    if action.Some? {
      var (bid, canceller) := action.value;
      ok := db.CancelBooking(bid, canceller);
    } else {
      ok := false;
    }
  }

  /** What the page reports after the book button. */
  datatype BookResult =
    | BookedOk
    | TakenBy(name: string)        // a user who is not an admin: "Bereits von ... gebucht!"
    | OverrideOffer(name: string)  // an admin: the warning with the override button
    | Failed(msg: string)          // `create_booking` refused

  /** The book button of an available card: check the slot again; if a
      confirmed booking holds it report its holder, otherwise create the
      booking. */
  method BookFromHome(db: WasserwachtDB, sd: string, time: string, role: string,
                      email: string, name: string, phone: string) returns (result: BookResult)
    requires db.Valid()
    modifies db
    ensures db.Valid()
    ensures result.BookedOk? <==> !Taken(old(db.bookings), sd, time)
    ensures !result.Failed?
    ensures result.TakenBy? ==> role != "admin"
    ensures result.OverrideOffer? ==> role == "admin"
    ensures result.TakenBy? || result.OverrideOffer? ==>
              First(old(db.bookings), SlotQuery(sd, time)).Some?
              && result.name == First(old(db.bookings), SlotQuery(sd, time)).value.userName
    ensures db.bookings == if result.BookedOk?
                           then old(db.bookings) + [Booking(old(db.nextId), sd, time, email, name, phone, Confirmed, None)]
                           else old(db.bookings)
    ensures db.nextId == if result.BookedOk? then old(db.nextId) + 1 else old(db.nextId)
    ensures db.archive == old(db.archive) && db.users == old(db.users)
  {
    var existing := db.GetBooking(sd, time);
    if existing.Some? && role != "admin" {
      result := TakenBy(existing.value.userName);
    } else if existing.Some? {
      result := OverrideOffer(existing.value.userName);
    } else {
      var ok, msg := db.CreateBooking(sd, time, email, name, phone);
      result := if ok then BookedOk else Failed(msg);
    }
  }
}
