/** `WasserwachtDB`: the document store of the booking engine, with its
    `bookings`, `archive` and `users` collections held in memory, and the
    operations the application performs on them. Document ids are drawn
    from a counter; `hash_pw` is a parameter of the store. */
module Database {
  import opened Wrappers
  import opened Lexicographic
  import opened Calendar
  import opened IsoDate
  import opened DateRules
  import opened Records
  import opened Slots

  // ----- what the queries of the store compute -----

  /** The last day of the week that starts on `ws`, as the store compares
      it; `None` when `ws` does not parse or that day is past 9999-12-31. */
  ghost function WeekEnd(ws: string): (r: Option<string>)
    ensures r.Some? ==> |r.value| == 10
  {
    match ParseIso(ws)
    case None => None
    case Some(c) =>
      if ToDay(c) + 6 < DayCount then IsoLength(ToDay(c) + 6); Some(Iso(ToDay(c) + 6)) else None
  }

  /** `get_week_bookings(ws)`: the confirmed bookings dated from `ws` to six
      days later; none when the end of the week cannot be computed. */
  ghost function WeekBookings(bs: seq<Booking>, ws: string): seq<Booking>
  {
    match WeekEnd(ws)
    case None => []
    case Some(we) => Select(bs, WeekQuery(ws, we))
  }

  /** For the week starting on day `m`, a booking dated on day `e` is
      returned exactly when it is stored, confirmed, and `e` is one of the
      seven days of the week. */
  lemma {:induction false} WeekBookingsOfDay(bs: seq<Booking>, m: nat, b: Booking, e: nat)
    requires m + 6 < DayCount && e < DayCount && b.slotDate == Iso(e)
    ensures WeekEnd(Iso(m)) == Some(Iso(m + 6))
    ensures b in WeekBookings(bs, Iso(m)) <==> b in bs && b.status == Confirmed && m <= e <= m + 6
  {
    WeekEndOfIso(m);
    WeekQueryByDay(b, m, e);
  }

  /** A week start written by `Iso` parses back, and its week ends six days
      later. */
  lemma WeekEndOfIso(m: nat)
    requires m + 6 < DayCount
    ensures WeekEnd(Iso(m)) == Some(Iso(m + 6))
  {
    ParseIsoOfIso(m);
  }

  /** The week query keeps a booking dated on day `e` exactly when it is
      confirmed and `e` is one of the seven days from `m`. */
  lemma WeekQueryByDay(b: Booking, m: nat, e: nat)
    requires m + 6 < DayCount && e < DayCount && b.slotDate == Iso(e)
    ensures Matches(b, WeekQuery(Iso(m), Iso(m + 6))) <==> b.status == Confirmed && m <= e <= m + 6
  {
    WeekQueryMeans(b, Iso(m), Iso(m + 6));
    IsoLe(m, e);
    IsoLe(e, m + 6);
  }

  /** The date before which `archive_old` moves bookings, today minus 360
      days; `None` when that date is before 0001-01-01. */
  ghost function ArchiveCutoff(today: nat): (r: Option<string>)
    ensures r.Some? <==> today >= 360
  {
    if today < 360 then None else Some(Iso(today - 360))
  }

  /** The documents the archive query streams, in the order it streams
      them: Firestore returns a query with a range filter ordered by the
      filtered field, here `slot_date`; documents of one date come in store
      order. */
  ghost function ArchiveStream(bs: seq<Booking>, cutoff: string): (r: seq<Booking>)
    ensures SortedByDate(r)
  {
    SortByDate(Select(bs, ArchiveQuery(cutoff)))
  }

  /** What `archive_old` streams on day `today`. */
  ghost function Archivable(bs: seq<Booking>, today: nat): seq<Booking>
  {
    match ArchiveCutoff(today)
    case None => []
    case Some(cutoff) => ArchiveStream(bs, cutoff)
  }

  /** How many documents are moved before the store fails on the document
      with index `storeFailsAt` (counting from 0), if it does. */
  function MovedBeforeFailure(n: nat, storeFailsAt: Option<nat>): (k: nat)
    ensures k <= n
    ensures k < n <==> storeFailsAt.Some? && storeFailsAt.value < n
  {
    if storeFailsAt.Some? && storeFailsAt.value < n then storeFailsAt.value else n
  }

  /** Archiving splits the bookings by the cutoff: those dated before it, of
      any status, are archived; exactly those dated on or after it remain. */
  lemma ArchiveSplit(bs: seq<Booking>, cutoff: string)
    requires IdsDistinct(bs)
    ensures forall b :: b in ArchiveStream(bs, cutoff) <==> b in bs && StrLt(b.slotDate, cutoff)
    ensures forall b :: b in RemoveIds(bs, IdsOf(ArchiveStream(bs, cutoff)))
                        <==> b in bs && StrLe(cutoff, b.slotDate)
  {
    var moved := ArchiveStream(bs, cutoff);
    forall b ensures b in moved <==> b in Select(bs, ArchiveQuery(cutoff)) {
      SortByDateMembers(Select(bs, ArchiveQuery(cutoff)), b);
    }
    forall b | b in bs
      ensures b in moved <==> StrLt(b.slotDate, cutoff)
      ensures b.id in IdsOf(moved) <==> StrLt(b.slotDate, cutoff)
      ensures !StrLt(b.slotDate, cutoff) <==> StrLe(cutoff, b.slotDate)
    {
      ArchiveQueryMeans(b, cutoff);
      NotLtIsGe(b.slotDate, cutoff);
      if b.id in IdsOf(moved) {
        var x :| x in moved && x.id == b.id;
        SameIdSame(bs, x, b);
      }
    }
  }

  /** In calendar terms: a booking dated on day `e` is archived exactly when
      `e` is more than 360 days before today. */
  lemma {:induction false} ArchivableByDay(bs: seq<Booking>, today: nat, b: Booking, e: nat)
    requires today < DayCount && e < DayCount && b.slotDate == Iso(e)
    ensures b in Archivable(bs, today) <==> b in bs && e + 360 < today
  {
    if today >= 360 {
      var sel := Select(bs, ArchiveQuery(Iso(today - 360)));
      assert Archivable(bs, today) == SortByDate(sel);
      SortByDateMembers(sel, b);
      ArchiveMatchByDay(b, today - 360, e);
      assert b in sel <==> b in bs && Matches(b, ArchiveQuery(Iso(today - 360)));
    }
  }

  /** The archive query keeps a booking dated on day `e` exactly when `e`
      is before the cutoff day `c`. */
  lemma ArchiveMatchByDay(b: Booking, c: nat, e: nat)
    requires c < DayCount && e < DayCount && b.slotDate == Iso(e)
    ensures Matches(b, ArchiveQuery(Iso(c))) <==> e < c
  {
    ArchiveQueryMeans(b, Iso(c));
    IsoOrder(e, c);
  }

  /** The last five days Python's `date` holds, Monday 9999-12-27 to
      Friday 9999-12-31, are not blocked, and the Saturday of their week is
      10000-01-01, one past the last date: resolving the Saturday slot of
      such a day raises. No earlier day resolves a slot past 9999-12-31. */
  lemma {:induction false} LastWeekOverflows(d: nat)
    requires d < DayCount
    ensures WeekStart(d) + DayOffset("saturday") >= DayCount <==> d + 5 >= DayCount
    ensures d + 5 >= DayCount ==> !IsBlocked(Iso(d))
  {
    assert Weekday(DayCount - 5) == 0;
    if d + 5 >= DayCount {
      WeekStartUnique(d, DayCount - 5);
      var c := Civil(9999, 12, 27 + (d - (DayCount - 5)));
      DayCountIsYear10000();
      DaysBeforeYearStep(9999);
      DaysBeforeMonthStep(9999, 12);
      assert ToDay(c) == d;
      FromDayToDay(c);
      IsSummerOfDay(d);
      if IsHoliday(Iso(d)) {
        HolidayOnlyInListedYears(d);
      }
    }
  }

  // ----- the store -----

  class WasserwachtDB {
    var bookings: seq<Booking>
    var archive: seq<Booking>
    var users: seq<User>
    /** The next document id to hand out. */
    var nextId: nat
    /** `hash_pw`, the password digest. */
    const hashPw: string -> string

    /** The invariants every operation keeps: document ids are unique and
        below the counter, at most one confirmed booking per slot, and
        emails identify users. */
    ghost predicate Valid()
      reads this
    {
      IdsDistinct(bookings) && UniqueConfirmed(bookings)
      && (forall b :: b in bookings ==> b.id < nextId)
      && EmailsDistinct(users)
    }

    /** A fresh store: `__init__` with `_init_admin` creating the admin
        account, which a fresh store does not hold yet. */
    constructor (hashPw: string -> string, adminEmail: string, adminPassword: string)
      ensures Valid()
      ensures this.hashPw == hashPw
      ensures bookings == [] && archive == []
      ensures users == [User(0, adminEmail, "Admin", "", hashPw(adminPassword), "admin", true)]
      ensures nextId == 1
    {
      this.hashPw := hashPw;
      bookings := [];
      archive := [];
      users := [User(0, adminEmail, "Admin", "", hashPw(adminPassword), "admin", true)];
      nextId := 1;
    }

    /** Streams the bookings a query matches, in store order. */
    method Stream(q: seq<Clause>) returns (r: seq<Booking>)
      ensures r == Select(bookings, q)
    {
      r := [];
      var i := 0;
      while i < |bookings|
        invariant 0 <= i <= |bookings|
        invariant r == Select(bookings[..i], q)
      {
        SelectStep(bookings, i, q);
        if Matches(bookings[i], q) {
          r := r + [bookings[i]];
        }
        i := i + 1;
      }
      assert bookings[..i] == bookings;
    }

    /** `get_booking`: the first confirmed booking of the slot, if any. */
    method GetBooking(date: string, time: string) returns (r: Option<Booking>)
      ensures r == First(bookings, SlotQuery(date, time))
      ensures r.Some? ==> r.value in bookings && IsConfirmedAt(r.value, date, time)
      ensures r.None? <==> forall b :: b in bookings ==> !IsConfirmedAt(b, date, time)
    {
      var q := SlotQuery(date, time);
      forall b | b in bookings
        ensures Matches(b, q) <==> IsConfirmedAt(b, date, time)
      {
        SlotQueryMeans(b, date, time);
      }
      var i := 0;
      while i < |bookings|
        invariant 0 <= i <= |bookings|
        invariant Select(bookings[..i], q) == []
      {
        SelectStep(bookings, i, q);
        if Matches(bookings[i], q) {
          SelectAppend(bookings[..i + 1], bookings[i + 1..], q);
          assert bookings[..i + 1] + bookings[i + 1..] == bookings;
          return Some(bookings[i]);
        }
        i := i + 1;
      }
      assert bookings[..i] == bookings;
      return None;
    }

    /** `get_week_bookings(ws)`. With the composite index the store runs
        the range query; without it, the store fails and the method streams
        all confirmed bookings and keeps those in range. Either way the
        result is the same. An unparseable `ws`, or a week that ends past
        9999-12-31, raises before the end date is bound, and the fallback
        then fails on it too, so the result is empty. */
    method GetWeekBookings(ws: string, indexAvailable: bool) returns (r: seq<Booking>)
      ensures r == WeekBookings(bookings, ws)
      ensures forall b :: b in r ==> b in bookings && b.status == Confirmed
    {
      var parsed := ParseIso(ws);
      if parsed.None? {
        return [];
      }
      var start := ToDay(parsed.value);
      if start + 6 >= DayCount {
        return [];
      }
      var we := FormatDay(start + 6);
      if indexAvailable {
        r := Stream(WeekQuery(ws, we));
      } else {
        var confirmed := Stream(ConfirmedQuery());
        r := [];
        var i := 0;
        while i < |confirmed|
          invariant 0 <= i <= |confirmed|
          invariant r == Select(confirmed[..i], RangeQuery(ws, we))
        {
          var b := confirmed[i];
          SelectStep(confirmed, i, RangeQuery(ws, we));
          WeekQueryMeans(b, ws, we);
          if StrLe(ws, b.slotDate) && StrLe(b.slotDate, we) {
            r := r + [b];
          }
          i := i + 1;
        }
        assert confirmed[..i] == confirmed;
        FallbackAgreesWithIndex(bookings, ws, we);
      }
      forall b | b in r
        ensures b in bookings && b.status == Confirmed
      {
        WeekQueryMeans(b, ws, we);
      }
    }

    /** `get_user_bookings`: the user's confirmed bookings, from today on
        when `futureOnly`, sorted by date. */
    method GetUserBookings(email: string, futureOnly: bool, today: nat) returns (r: seq<Booking>)
      ensures r == SortByDate(Select(bookings, UserQuery(email, if futureOnly then Some(Iso(today)) else None)))
      ensures SortedByDate(r)
      ensures forall b :: b in r <==> b in bookings && b.userEmail == email && b.status == Confirmed
                                      && (futureOnly ==> StrLe(Iso(today), b.slotDate))
    {
      var from := None;
      if futureOnly {
        var now := FormatDay(today);
        from := Some(now);
      }
      var found := Stream(UserQuery(email, from));
      r := SortByDate(found);
      forall b
        ensures b in r <==> b in bookings && b.userEmail == email && b.status == Confirmed
                            && (futureOnly ==> StrLe(Iso(today), b.slotDate))
      {
        assert b in r <==> b in multiset(r);
        assert b in found <==> b in multiset(found);
        UserQueryMeans(b, email, from);
      }
    }

    /** `create_booking`: refuses a slot that already has a confirmed
        booking and leaves the store as it was; otherwise adds exactly one
        confirmed booking. Every call keeps one confirmed booking per slot. */
    method CreateBooking(date: string, time: string, email: string, name: string, phone: string)
      returns (ok: bool, msg: string)
      requires Valid()
      modifies this
      ensures Valid()
      ensures ok <==> forall b :: b in old(bookings) ==> !IsConfirmedAt(b, date, time)
      ensures msg == if ok then "Buchung erfolgreich" else "Slot bereits gebucht"
      ensures bookings == if ok then old(bookings) + [Booking(old(nextId), date, time, email, name, phone, Confirmed, None)]
                          else old(bookings)
      ensures nextId == if ok then old(nextId) + 1 else old(nextId)
      ensures archive == old(archive) && users == old(users)
    {
      var existing := GetBooking(date, time);
      if existing.Some? {
        return false, "Slot bereits gebucht";
      }
      var b := Booking(nextId, date, time, email, name, phone, Confirmed, None);
      AppendKeepsInvariants(bookings, b);
      bookings := bookings + [b];
      nextId := nextId + 1;
      ok, msg := true, "Buchung erfolgreich";
    }

    /** `cancel_booking`: marks booking `bid` cancelled by `canceller` and
        changes nothing else. Updating a document that does not exist fails
        in the store, and the method then returns false. */
    method CancelBooking(bid: nat, canceller: string) returns (ok: bool)
      requires Valid()
      modifies this
      ensures Valid()
      ensures ok <==> bid in IdsOf(old(bookings))
      ensures bookings == if ok then CancelIn(old(bookings), bid, canceller) else old(bookings)
      ensures archive == old(archive) && users == old(users) && nextId == old(nextId)
    {
      ok := exists i :: 0 <= i < |bookings| && bookings[i].id == bid;
      IdsOfMeans(bookings, bid);
      if ok {
        CancelChangesOnlyTarget(bookings, bid, canceller);
        CancelKeepsIdBound(bookings, bid, canceller, nextId);
        bookings := CancelIn(bookings, bid, canceller);
      }
    }

    /** `archive_old`: moves every booking dated more than 360 days before
        today to the archive, whatever its status, one document at a time
        and oldest first, and returns how many it moved. When the store fails on a document,
        the documents before it stay moved and the count returned is 0. */
    method ArchiveOld(today: nat, storeFailsAt: Option<nat>) returns (count: nat)
      requires Valid()
      modifies this
      ensures Valid()
      ensures var moved := Archivable(old(bookings), today);
              var n := MovedBeforeFailure(|moved|, storeFailsAt);
              archive == old(archive) + moved[..n]
              && bookings == RemoveIds(old(bookings), IdsOf(moved[..n]))
              && count == (if n < |moved| then 0 else n)
      ensures users == old(users) && nextId == old(nextId)
    {
      if today < 360 {
        RemoveIdsNone(bookings);
        assert IdsOf([]) == {};
        return 0;
      }
      var cutoff := FormatDay(today - 360);
      var toMove := StreamByDate(cutoff);
      assert toMove == Archivable(old(bookings), today);
      count := MoveToArchive(toMove, storeFailsAt);
      ghost var moved := toMove[..MovedBeforeFailure(|toMove|, storeFailsAt)];
      RemoveEachIsRemoveIds(old(bookings), moved);
    }

    /** The archive query as Firestore streams it: ordered by `slot_date`,
        the field of its range filter. */
    method StreamByDate(cutoff: string) returns (r: seq<Booking>)
      ensures r == ArchiveStream(bookings, cutoff)
      ensures forall b :: b in r <==> b in bookings && StrLt(b.slotDate, cutoff)
    {
      var selected := Stream(ArchiveQuery(cutoff));
      r := SortByDate(selected);
      forall b ensures b in r <==> b in bookings && StrLt(b.slotDate, cutoff) {
        SortByDateMembers(selected, b);
        ArchiveQueryMeans(b, cutoff);
      }
    }

    /** The loop of `archive_old`: copies each document to the archive and
        deletes it from the bookings, until the store fails. */
    method MoveToArchive(toMove: seq<Booking>, storeFailsAt: Option<nat>) returns (count: nat)
      requires Valid()
      modifies this
      ensures Valid()
      ensures var n := MovedBeforeFailure(|toMove|, storeFailsAt);
              archive == old(archive) + toMove[..n]
              && bookings == RemoveEach(old(bookings), toMove[..n])
              && count == (if n < |toMove| then 0 else n)
      ensures users == old(users) && nextId == old(nextId)
    {
      var i := 0;
      while i < |toMove| && storeFailsAt != Some(i)
        invariant i <= |toMove|
        invariant storeFailsAt.Some? ==> i <= storeFailsAt.value
        invariant archive == old(archive) + toMove[..i]
        invariant bookings == RemoveEach(old(bookings), toMove[..i])
        invariant users == old(users) && nextId == old(nextId)
        invariant Valid()
      {
        MoveOne(toMove[i]);
        MoveStep(old(archive), old(bookings), toMove, i);
        i := i + 1;
      }
      count := if i < |toMove| then 0 else i;
    }

    /** How the archive and the bookings grow by one moved document. */
    static lemma MoveStep(archive0: seq<Booking>, bookings0: seq<Booking>, toMove: seq<Booking>, i: nat)
      requires i < |toMove|
      ensures archive0 + toMove[..i] + [toMove[i]] == archive0 + toMove[..i + 1]
      ensures RemoveIds(RemoveEach(bookings0, toMove[..i]), {toMove[i].id}) == RemoveEach(bookings0, toMove[..i + 1])
    {
      assert toMove[..i + 1] == toMove[..i] + [toMove[i]];
      assert toMove[..i + 1][..i] == toMove[..i];
    }

    /** One document of `archive_old`: added to the archive, then deleted
        from the bookings. */
    method MoveOne(doc: Booking)
      requires Valid()
      modifies this
      ensures Valid()
      ensures archive == old(archive) + [doc]
      ensures bookings == RemoveIds(old(bookings), {doc.id})
      ensures users == old(users) && nextId == old(nextId)
    {
      RemoveIdsKeepsInvariants(bookings, {doc.id});
      archive := archive + [doc];
      bookings := RemoveIds(bookings, {doc.id});
    }

    /** `get_user`: the first user with that email. */
    method GetUser(email: string) returns (r: Option<User>)
      ensures r == FindUser(users, email)
    {
      var i := 0;
      while i < |users|
        invariant 0 <= i <= |users|
        invariant FindUser(users, email) == FindUser(users[i..], email)
      {
        if users[i].email == email {
          return Some(users[i]);
        }
        assert users[i..][1..] == users[i + 1..];
        i := i + 1;
      }
      return None;
    }

    /** `create_user`: refuses an email that is already registered;
        otherwise adds one active user with the hashed password. */
    method CreateUser(email: string, name: string, phone: string, password: string, role: string)
      returns (ok: bool, msg: string)
      requires Valid()
      modifies this
      ensures Valid()
      ensures ok <==> FindUser(old(users), email).None?
      ensures msg == if ok then "Registrierung erfolgreich" else "E-Mail bereits registriert"
      ensures users == if ok then old(users) + [User(old(nextId), email, name, phone, hashPw(password), role, true)]
                       else old(users)
      ensures nextId == if ok then old(nextId) + 1 else old(nextId)
      ensures bookings == old(bookings) && archive == old(archive)
    {
      var existing := GetUser(email);
      if existing.Some? {
        return false, "E-Mail bereits registriert";
      }
      var u := User(nextId, email, name, phone, hashPw(password), role, true);
      assert EmailsDistinct(users + [u]) by {
        var s := users + [u];
        forall i | 0 <= i < |users| ensures s[i] == users[i] && users[i] in users { }
      }
      users := users + [u];
      nextId := nextId + 1;
      ok, msg := true, "Registrierung erfolgreich";
    }

    /** `auth`: succeeds with the user when the email is registered, the
        account is active and the password hashes to the stored digest. */
    method Auth(email: string, password: string) returns (ok: bool, u: Option<User>)
      ensures ok <==> AuthResult(users, hashPw, email, password).Some?
      ensures u == AuthResult(users, hashPw, email, password)
    {
      var found := GetUser(email);
      if found.None? || !found.value.active {
        return false, None;
      }
      if found.value.passwordHash == hashPw(password) {
        return true, found;
      }
      return false, None;
    }

    /** The free-slot loop of `get_stats` and `check_free_slots_alarm` over
        the days `today + first` to `today + last - 1`. On a day from
        9999-12-27 on, the Saturday's `slot_date` (or the date arithmetic
        itself) raises, and both callers then report no free slots. */
    method ScanFreeSlots(today: nat, first: nat, last: nat) returns (r: seq<FreeSlot>)
      requires first <= last
      ensures r == if today + last + 5 <= DayCount then FreeSlotsIn(bookings, today, first, last) else []
    {
      if today + last + 5 > DayCount {
        return [];
      }
      r := [];
      var i := first;
      while i < last
        invariant first <= i <= last
        invariant r == FreeSlotsIn(bookings, today, first, i)
      {
        var entries := ScanDay(today + i);
        FreeSlotsInStep(bookings, today, first, i);
        r := r + entries;
        i := i + 1;
      }
    }

    /** One day of the scan: nothing on a blocked date, otherwise the free
        template slots in template order. */
    method ScanDay(d: nat) returns (entries: seq<FreeSlot>)
      requires d + 5 < DayCount
      ensures entries == FreeOnDay(bookings, d)
    {
      var checkDate := FormatDay(d);
      entries := [];
      if !IsBlocked(checkDate) {
        var j := 0;
        while j < |WeeklySlots|
          invariant 0 <= j <= |WeeklySlots|
          invariant entries == OpenSlotsOn(checkDate, WeeklySlots[..j], OpenTest(bookings, d))
        {
          var slot := WeeklySlots[j];
          assert WeeklySlots[..j + 1][..j] == WeeklySlots[..j];
          var free := SlotIsFree(d, slot);
          if free {
            entries := entries + [FreeSlot(checkDate, slot)];
          }
          j := j + 1;
        }
        assert WeeklySlots[..j] == WeeklySlots;
      }
    }

    /** One slot of the scan: the slot's weekday, resolved in the week of
        the date, is the date itself, and `get_booking` finds no booking. */
    method SlotIsFree(d: nat, slot: SlotDef) returns (free: bool)
      requires d + 5 < DayCount
      ensures free == OpenOn(bookings, d, slot)
    {
      var checkDate := FormatDay(d);
      ParseIsoOfIso(d);
      var ws := WeekStart(ToDay(ParseIso(checkDate).value));
      OpenOnAsWritten(bookings, d, slot);
      free := false;
      var slotDay := SlotDateOf(ws, slot.day);
      if slotDay == checkDate {
        var existing := GetBooking(checkDate, TimeRange(slot));
        free := existing.None?;
      }
    }

    /** `get_stats`: the free slots of the 28 days from today on. */
    method StatsFreeSlots(today: nat) returns (r: seq<FreeSlot>)
      ensures r == if today + 33 <= DayCount then FreeSlotsIn(bookings, today, 0, 28) else []
    {
      r := ScanFreeSlots(today, 0, 28);
    }

    /** `check_free_slots_alarm`: the free slots of the next seven days,
        tomorrow first. */
    method AlarmFreeSlots(today: nat) returns (r: seq<FreeSlot>)
      ensures r == if today + 13 <= DayCount then FreeSlotsIn(bookings, today, 1, 8) else []
    {
      r := ScanFreeSlots(today, 1, 8);
    }
  }
}
