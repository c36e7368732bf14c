/** The documents of the `bookings`, `archive` and `users` collections, the
    document store's `where` queries over bookings, and the properties of a
    collection of bookings that the booking engine keeps. */
module Records {
  import opened Wrappers
  import opened Lexicographic

  datatype Status = Confirmed | Cancelled

  /** The value stored in the `status` field. */
  function StatusName(s: Status): string
  {
    match s
    case Confirmed => "confirmed"
    case Cancelled => "cancelled"
  }

  /** A booking document. The timestamps `created_at` and `cancelled_at`
      are not modelled. */
  datatype Booking = Booking(
    id: nat,
    slotDate: string,
    slotTime: string,
    userEmail: string,
    userName: string,
    userPhone: string,
    status: Status,
    cancelledBy: Option<string>)

  /** A user document; the notification flags are not modelled. */
  datatype User = User(
    id: nat,
    email: string,
    name: string,
    phone: string,
    passwordHash: string,
    role: string,
    active: bool)

  // ----- where-clauses -----

  datatype Field = SlotDateField | SlotTimeField | UserEmailField | StatusField
  datatype Op = Eq | Lt | Le | Ge
  datatype Clause = Where(field: Field, op: Op, value: string)

  function FieldValue(b: Booking, f: Field): string
  {
    match f
    case SlotDateField => b.slotDate
    case SlotTimeField => b.slotTime
    case UserEmailField => b.userEmail
    case StatusField => StatusName(b.status)
  }

  predicate Holds(b: Booking, c: Clause)
  {
    var v := FieldValue(b, c.field);
    match c.op
    case Eq => v == c.value
    case Lt => StrLt(v, c.value)
    case Le => StrLe(v, c.value)
    case Ge => StrLe(c.value, v)
  }

  /** A query is the conjunction of its clauses. */
  predicate Matches(b: Booking, q: seq<Clause>)
  {
    forall i :: 0 <= i < |q| ==> Holds(b, q[i])
  }

  /** The documents a query streams, in store order. */
  function Select(bs: seq<Booking>, q: seq<Clause>): (r: seq<Booking>)
    ensures |r| <= |bs|
    ensures forall b {:trigger b in r} :: b in r <==> b in bs && Matches(b, q)
  {
    if bs == [] then []
    else Select(bs[..|bs| - 1], q) + (if Matches(bs[|bs| - 1], q) then [bs[|bs| - 1]] else [])
  }

  /** A query with `.limit(1)`. */
  function First(bs: seq<Booking>, q: seq<Clause>): (r: Option<Booking>)
    ensures r.Some? ==> r.value in bs && Matches(r.value, q)
    ensures r.None? <==> forall b :: b in bs ==> !Matches(b, q)
  {
    var s := Select(bs, q);
    if s == [] then
      assert forall b :: b in bs ==> (b in s <==> Matches(b, q));
      None
    else
      assert s[0] in s;
      Some(s[0])
  }

  /** Two queries that agree on every document select the same documents. */
  lemma {:induction false} SelectSameQuery(bs: seq<Booking>, q1: seq<Clause>, q2: seq<Clause>)
    requires forall b :: b in bs ==> (Matches(b, q1) <==> Matches(b, q2))
    ensures Select(bs, q1) == Select(bs, q2)
  {
    if bs != [] {
      SelectSameQuery(bs[..|bs| - 1], q1, q2);
    }
  }

  /** Filtering a query's result by a second query is one query whose
      condition is the conjunction. */
  lemma {:induction false} SelectOfSelect(bs: seq<Booking>, q1: seq<Clause>, q2: seq<Clause>, q3: seq<Clause>)
    requires forall b :: b in bs ==> (Matches(b, q3) <==> Matches(b, q1) && Matches(b, q2))
    ensures Select(Select(bs, q1), q2) == Select(bs, q3)
  {
    if bs != [] {
      var init, last := bs[..|bs| - 1], bs[|bs| - 1];
      SelectOfSelect(init, q1, q2, q3);
      var s := Select(init, q1);
      if Matches(last, q1) {
        assert Select(bs, q1) == s + [last];
        assert (s + [last])[..|s + [last]| - 1] == s;
      } else {
        assert Select(bs, q1) == s;
      }
    }
  }

  /** Streaming a concatenation streams the parts one after the other. */
  lemma {:induction false} SelectAppend(s: seq<Booking>, t: seq<Booking>, q: seq<Clause>)
    ensures Select(s + t, q) == Select(s, q) + Select(t, q)
  {
    if t != [] {
      var t', x := t[..|t| - 1], t[|t| - 1];
      SelectAppend(s, t', q);
      assert (s + t)[..|s + t| - 1] == s + t';
      assert (s + t)[|s + t| - 1] == x;
    } else {
      assert s + t == s;
    }
  }

  /** Streaming one more document of `bs` extends the result by that
      document exactly when it matches. */
  lemma SelectStep(bs: seq<Booking>, i: nat, q: seq<Clause>)
    requires i < |bs|
    ensures Select(bs[..i + 1], q) == Select(bs[..i], q) + (if Matches(bs[i], q) then [bs[i]] else [])
  {
    assert bs[..i + 1][..i] == bs[..i];
  }

  // ----- the queries of the booking engine -----

  /** `get_booking`: confirmed bookings of one slot. */
  function SlotQuery(date: string, time: string): seq<Clause>
  {
    [Where(SlotDateField, Eq, date), Where(SlotTimeField, Eq, time), Where(StatusField, Eq, "confirmed")]
  }

  predicate IsConfirmedAt(b: Booking, date: string, time: string)
  {
    b.status == Confirmed && b.slotDate == date && b.slotTime == time
  }

  lemma SlotQueryMeans(b: Booking, date: string, time: string)
    ensures Matches(b, SlotQuery(date, time)) <==> IsConfirmedAt(b, date, time)
  {
    var q := SlotQuery(date, time);
    assert Holds(b, q[0]) && Holds(b, q[1]) && Holds(b, q[2]) ==> Matches(b, q);
  }

  /** The indexed query of `get_week_bookings`. */
  function WeekQuery(ws: string, we: string): seq<Clause>
  {
    [Where(SlotDateField, Ge, ws), Where(SlotDateField, Le, we), Where(StatusField, Eq, "confirmed")]
  }

  /** The query of its fallback, and the range test the fallback applies
      in memory. */
  function ConfirmedQuery(): seq<Clause>
  {
    [Where(StatusField, Eq, "confirmed")]
  }

  function RangeQuery(ws: string, we: string): seq<Clause>
  {
    [Where(SlotDateField, Ge, ws), Where(SlotDateField, Le, we)]
  }

  predicate InWindow(b: Booking, ws: string, we: string)
  {
    b.status == Confirmed && StrLe(ws, b.slotDate) && StrLe(b.slotDate, we)
  }

  lemma WeekQueryMeans(b: Booking, ws: string, we: string)
    ensures Matches(b, WeekQuery(ws, we)) <==> InWindow(b, ws, we)
    ensures Matches(b, ConfirmedQuery()) <==> b.status == Confirmed
    ensures Matches(b, RangeQuery(ws, we)) <==> StrLe(ws, b.slotDate) && StrLe(b.slotDate, we)
  {
    var q, c, r := WeekQuery(ws, we), ConfirmedQuery(), RangeQuery(ws, we);
    assert Holds(b, q[0]) && Holds(b, q[1]) && Holds(b, q[2]) ==> Matches(b, q);
    assert Holds(b, c[0]) ==> Matches(b, c);
    assert Holds(b, r[0]) && Holds(b, r[1]) ==> Matches(b, r);
  }

  /** The index-free fallback returns exactly what the indexed query returns. */
  lemma FallbackAgreesWithIndex(bs: seq<Booking>, ws: string, we: string)
    ensures Select(Select(bs, ConfirmedQuery()), RangeQuery(ws, we)) == Select(bs, WeekQuery(ws, we))
  {
    forall b | b in bs
      ensures Matches(b, WeekQuery(ws, we)) <==> Matches(b, ConfirmedQuery()) && Matches(b, RangeQuery(ws, we))
    {
      WeekQueryMeans(b, ws, we);
    }
    SelectOfSelect(bs, ConfirmedQuery(), RangeQuery(ws, we), WeekQuery(ws, we));
  }

  /** `get_user_bookings`: a user's confirmed bookings, from a date on when
      `from` is given. */
  function UserQuery(email: string, from: Option<string>): seq<Clause>
  {
    [Where(UserEmailField, Eq, email), Where(StatusField, Eq, "confirmed")]
      + (if from.Some? then [Where(SlotDateField, Ge, from.value)] else [])
  }

  lemma UserQueryMeans(b: Booking, email: string, from: Option<string>)
    ensures Matches(b, UserQuery(email, from))
            <==> b.userEmail == email && b.status == Confirmed && (from.Some? ==> StrLe(from.value, b.slotDate))
  {
    var q := UserQuery(email, from);
    if from.Some? {
      assert Holds(b, q[0]) && Holds(b, q[1]) && Holds(b, q[2]) ==> Matches(b, q);
    } else {
      assert Holds(b, q[0]) && Holds(b, q[1]) ==> Matches(b, q);
    }
  }

  /** `archive_old`: bookings of any status dated before the cutoff. */
  function ArchiveQuery(cutoff: string): seq<Clause>
  {
    [Where(SlotDateField, Lt, cutoff)]
  }

  lemma ArchiveQueryMeans(b: Booking, cutoff: string)
    ensures Matches(b, ArchiveQuery(cutoff)) <==> StrLt(b.slotDate, cutoff)
  {
    assert Holds(b, ArchiveQuery(cutoff)[0]) ==> Matches(b, ArchiveQuery(cutoff));
  }

  // ----- invariants of the bookings collection -----

  /** Document ids are unique. */
  predicate IdsDistinct(bs: seq<Booking>)
  {
    forall i, j :: 0 <= i < |bs| && 0 <= j < |bs| && bs[i].id == bs[j].id ==> i == j
  }

  /** The central invariant: at most one confirmed booking per
      (slot_date, slot_time). */
  predicate UniqueConfirmed(bs: seq<Booking>)
  {
    forall i, j :: (0 <= i < |bs| && 0 <= j < |bs| && bs[i].status == Confirmed
      && IsConfirmedAt(bs[j], bs[i].slotDate, bs[i].slotTime)) ==> i == j
  }

  /** Under the invariant, a slot query finds at most one booking. */
  lemma {:induction false} AtMostOnePerSlot(bs: seq<Booking>, date: string, time: string)
    requires UniqueConfirmed(bs)
    ensures |Select(bs, SlotQuery(date, time))| <= 1
  {
    if bs != [] {
      var init, last := bs[..|bs| - 1], bs[|bs| - 1];
      assert UniqueConfirmed(init) by {
        forall i, j | 0 <= i < |init| && 0 <= j < |init| && init[i].status == Confirmed
          && IsConfirmedAt(init[j], init[i].slotDate, init[i].slotTime)
          ensures i == j
        {
          assert bs[i] == init[i] && bs[j] == init[j];
        }
      }
      AtMostOnePerSlot(init, date, time);
      SlotQueryMeans(last, date, time);
      var s := Select(init, SlotQuery(date, time));
      if s != [] {
        SlotQueryMeans(s[0], date, time);
        assert s[0] in s;
        var i :| 0 <= i < |init| && init[i] == s[0];
        assert bs[i] == s[0] && bs[|bs| - 1] == last;
        assert !IsConfirmedAt(last, s[0].slotDate, s[0].slotTime);
      }
    }
  }

  /** Appending a record that takes no confirmed slot keeps the invariants. */
  lemma AppendKeepsInvariants(bs: seq<Booking>, x: Booking)
    requires IdsDistinct(bs) && UniqueConfirmed(bs)
    requires forall b :: b in bs ==> b.id != x.id
    requires x.status == Confirmed ==> forall b :: b in bs ==> !IsConfirmedAt(b, x.slotDate, x.slotTime)
    ensures IdsDistinct(bs + [x]) && UniqueConfirmed(bs + [x])
  {
    var s := bs + [x];
    assert forall i :: 0 <= i < |bs| ==> s[i] == bs[i] && s[i] in bs;
  }

  // ----- cancelling -----

  /** `cancel_booking`'s update of document `bid`. */
  function CancelIn(bs: seq<Booking>, bid: nat, canceller: string): (r: seq<Booking>)
    ensures |r| == |bs|
  {
    seq(|bs|, i requires 0 <= i < |bs| =>
      if bs[i].id == bid then bs[i].(status := Cancelled, cancelledBy := Some(canceller)) else bs[i])
  }

  /** Cancelling changes record `bid` only, and only its status and
      `cancelled_by`; it keeps the invariants. */
  lemma CancelChangesOnlyTarget(bs: seq<Booking>, bid: nat, canceller: string)
    requires IdsDistinct(bs) && UniqueConfirmed(bs)
    ensures IdsDistinct(CancelIn(bs, bid, canceller)) && UniqueConfirmed(CancelIn(bs, bid, canceller))
    ensures forall i :: 0 <= i < |bs| && bs[i].id != bid ==> CancelIn(bs, bid, canceller)[i] == bs[i]
    ensures forall i :: 0 <= i < |bs| && bs[i].id == bid ==>
      CancelIn(bs, bid, canceller)[i] == Booking(bs[i].id, bs[i].slotDate, bs[i].slotTime, bs[i].userEmail,
                                          bs[i].userName, bs[i].userPhone, Cancelled, Some(canceller))
  {
  }

  /** Cancelling the confirmed booking of a slot frees the slot: afterwards
      no booking is confirmed there, so booking it again succeeds. */
  lemma CancelFreesSlot(bs: seq<Booking>, b: Booking, canceller: string)
    requires IdsDistinct(bs) && UniqueConfirmed(bs)
    requires b in bs && b.status == Confirmed
    ensures forall x :: x in CancelIn(bs, b.id, canceller) ==> !IsConfirmedAt(x, b.slotDate, b.slotTime)
  {
    var r := CancelIn(bs, b.id, canceller);
    var p :| 0 <= p < |bs| && bs[p] == b;
    forall x | x in r
      ensures !IsConfirmedAt(x, b.slotDate, b.slotTime)
    {
      var j :| 0 <= j < |r| && r[j] == x;
      assert bs[j].id != b.id ==> !IsConfirmedAt(bs[j], bs[p].slotDate, bs[p].slotTime);
    }
  }

  /** Cancelling keeps the ids, so a bound on them survives. */
  lemma CancelKeepsIdBound(bs: seq<Booking>, bid: nat, canceller: string, bound: nat)
    requires forall b :: b in bs ==> b.id < bound
    ensures forall b :: b in CancelIn(bs, bid, canceller) ==> b.id < bound
  {
    var r := CancelIn(bs, bid, canceller);
    forall b | b in r
      ensures b.id < bound
    {
      var j :| 0 <= j < |r| && r[j] == b;
      assert bs[j] in bs;
    }
  }

  /** A stored document has id `bid` exactly when `bid` is among the ids. */
  lemma IdsOfMeans(bs: seq<Booking>, bid: nat)
    ensures bid in IdsOf(bs) <==> exists i :: 0 <= i < |bs| && bs[i].id == bid
  {
    if bid in IdsOf(bs) {
      var b :| b in bs && b.id == bid;
      var i :| 0 <= i < |bs| && bs[i] == b;
    }
    if exists i :: 0 <= i < |bs| && bs[i].id == bid {
      var i :| 0 <= i < |bs| && bs[i].id == bid;
      assert bs[i] in bs;
    }
  }

  /** Cancelling again leaves the booking cancelled and records the later
      canceller. */
  lemma {:induction false} CancelTwice(bs: seq<Booking>, bid: nat, first: string, second: string)
    ensures CancelIn(CancelIn(bs, bid, first), bid, second) == CancelIn(bs, bid, second)
  {
  }

  // ----- removing archived documents -----

  /** The documents left after deleting those whose ids are in `ids`. */
  function RemoveIds(bs: seq<Booking>, ids: set<nat>): (r: seq<Booking>)
    ensures |r| <= |bs|
    ensures forall b {:trigger b in r} :: b in r <==> b in bs && b.id !in ids
  {
    if bs == [] then []
    else RemoveIds(bs[..|bs| - 1], ids) + (if bs[|bs| - 1].id in ids then [] else [bs[|bs| - 1]])
  }

  /** Deleting in two rounds deletes the union. */
  lemma {:induction false} RemoveIdsTwice(bs: seq<Booking>, a: set<nat>, b: set<nat>)
    ensures RemoveIds(RemoveIds(bs, a), b) == RemoveIds(bs, a + b)
  {
    if bs != [] {
      var init, last := bs[..|bs| - 1], bs[|bs| - 1];
      RemoveIdsTwice(init, a, b);
      var r := RemoveIds(init, a);
      var tail := if last.id in a + b then [] else [last];
      assert RemoveIds(bs, a + b) == RemoveIds(init, a + b) + tail;
      if last.id in a {
        assert RemoveIds(bs, a) == r;
      } else {
        assert RemoveIds(bs, a) == r + [last];
        assert (r + [last])[..|r + [last]| - 1] == r;
        assert RemoveIds(r + [last], b) == RemoveIds(r, b) + tail;
      }
    }
  }

  /** Deleting no ids leaves the collection as it is. */
  lemma {:induction false} RemoveIdsNone(bs: seq<Booking>)
    ensures RemoveIds(bs, {}) == bs
  {
    if bs != [] {
      RemoveIdsNone(bs[..|bs| - 1]);
      assert bs == bs[..|bs| - 1] + [bs[|bs| - 1]];
    }
  }

  /** Deleting the documents of `ds` one after the other. */
  function RemoveEach(bs: seq<Booking>, ds: seq<Booking>): seq<Booking>
  {
    if ds == [] then bs
    else RemoveIds(RemoveEach(bs, ds[..|ds| - 1]), {ds[|ds| - 1].id})
  }

  /** Deleting one document at a time deletes all their ids. */
  lemma {:induction false} RemoveEachIsRemoveIds(bs: seq<Booking>, ds: seq<Booking>)
    ensures RemoveEach(bs, ds) == RemoveIds(bs, IdsOf(ds))
  {
    if ds == [] {
      RemoveIdsNone(bs);
      assert IdsOf(ds) == {};
    } else {
      var init, last := ds[..|ds| - 1], ds[|ds| - 1];
      RemoveEachIsRemoveIds(bs, init);
      RemoveIdsTwice(bs, IdsOf(init), {last.id});
      assert ds == init + [last];
      assert IdsOf(ds) == IdsOf(init) + {last.id};
    }
  }

  /** With distinct ids, a record is identified by its id. */
  lemma SameIdSame(bs: seq<Booking>, x: Booking, y: Booking)
    requires IdsDistinct(bs) && x in bs && y in bs && x.id == y.id
    ensures x == y
  {
    var i :| 0 <= i < |bs| && bs[i] == x;
    var j :| 0 <= j < |bs| && bs[j] == y;
  }

  function IdsOf(bs: seq<Booking>): set<nat>
  {
    set b | b in bs :: b.id
  }

  /** Deleting documents keeps both invariants. */
  lemma {:induction false} RemoveIdsKeepsInvariants(bs: seq<Booking>, ids: set<nat>)
    requires IdsDistinct(bs) && UniqueConfirmed(bs)
    ensures IdsDistinct(RemoveIds(bs, ids)) && UniqueConfirmed(RemoveIds(bs, ids))
  {
    if bs != [] {
      var init, last := bs[..|bs| - 1], bs[|bs| - 1];
      assert IdsDistinct(init) && UniqueConfirmed(init) by {
        forall i | 0 <= i < |init| ensures init[i] == bs[i] { }
      }
      RemoveIdsKeepsInvariants(init, ids);
      if last.id !in ids {
        forall b | b in RemoveIds(init, ids)
          ensures b.id != last.id
          ensures last.status == Confirmed ==> !IsConfirmedAt(b, last.slotDate, last.slotTime)
        {
          var i :| 0 <= i < |init| && init[i] == b;
          assert bs[i] == b;
        }
        AppendKeepsInvariants(RemoveIds(init, ids), last);
      }
    }
  }

  // ----- sorting by date -----

  predicate SortedByDate(s: seq<Booking>)
  {
    forall i, j :: 0 <= i < j < |s| ==> StrLe(s[i].slotDate, s[j].slotDate)
  }

  /** Insert `b` before the first booking dated on or after it. */
  function InsertByDate(b: Booking, s: seq<Booking>): (r: seq<Booking>)
    ensures multiset(r) == multiset(s) + multiset{b}
  {
    if s == [] then [b]
    else if StrLe(b.slotDate, s[0].slotDate) then [b] + s
    else
      assert s == [s[0]] + s[1..];
      [s[0]] + InsertByDate(b, s[1..])
  }

  /** A booking dated no later than every element of a sorted list can be
      put in front of it. */
  lemma ConsSorted(x: Booking, s: seq<Booking>)
    requires SortedByDate(s)
    requires forall k :: 0 <= k < |s| ==> StrLe(x.slotDate, s[k].slotDate)
    ensures SortedByDate([x] + s)
  {
    var r := [x] + s;
    forall i, j | 0 <= i < j < |r| ensures StrLe(r[i].slotDate, r[j].slotDate) {
      assert r[j] == s[j - 1];
      if i > 0 {
        assert r[i] == s[i - 1];
      }
    }
  }

  /** Every element of the insertion result is the inserted booking or was
      already in the list. */
  lemma InsertByDateMembers(b: Booking, s: seq<Booking>, x: Booking)
    requires x in InsertByDate(b, s)
    ensures x == b || x in s
  {
    assert x in multiset(InsertByDate(b, s));
  }

  lemma {:induction false} InsertByDateSorted(b: Booking, s: seq<Booking>)
    requires SortedByDate(s)
    ensures SortedByDate(InsertByDate(b, s))
  {
    if s == [] {
    } else if StrLe(b.slotDate, s[0].slotDate) {
      forall k | 0 <= k < |s| ensures StrLe(b.slotDate, s[k].slotDate) {
        if k > 0 {
          StrLeTransitive(b.slotDate, s[0].slotDate, s[k].slotDate);
        }
      }
      ConsSorted(b, s);
    } else {
      var rest := InsertByDate(b, s[1..]);
      InsertByDateSorted(b, s[1..]);
      StrLtTrichotomy(b.slotDate, s[0].slotDate);
      forall k | 0 <= k < |rest| ensures StrLe(s[0].slotDate, rest[k].slotDate) {
        assert rest[k] in rest;
        InsertByDateMembers(b, s[1..], rest[k]);
        if rest[k] != b {
          var j :| 0 <= j < |s[1..]| && s[1..][j] == rest[k];
          assert s[j + 1] == rest[k];
        }
      }
      ConsSorted(s[0], rest);
    }
  }

  /** Python's `sorted(bookings, key=lambda x: x['slot_date'])`: a stable
      insertion sort. */
  function SortByDate(s: seq<Booking>): (r: seq<Booking>)
    ensures SortedByDate(r)
    ensures multiset(r) == multiset(s)
  {
    if s == [] then []
    else
      assert s == [s[0]] + s[1..];
      InsertByDateSorted(s[0], SortByDate(s[1..]));
      InsertByDate(s[0], SortByDate(s[1..]))
  }
  /** Sorting keeps exactly the same documents. */
  lemma SortByDateMembers(s: seq<Booking>, b: Booking)
    ensures b in SortByDate(s) <==> b in s
  {
    assert b in SortByDate(s) <==> b in multiset(SortByDate(s));
  }


  // ----- users -----

  /** `get_user`: the first user document with that email. */
  function FindUser(us: seq<User>, email: string): (r: Option<User>)
    ensures r.Some? ==> r.value in us && r.value.email == email
    ensures r.None? <==> forall u :: u in us ==> u.email != email
  {
    if us == [] then None
    else if us[0].email == email then Some(us[0])
    else FindUser(us[1..], email)
  }

  /** Emails identify users. */
  predicate EmailsDistinct(us: seq<User>)
  {
    forall i, j :: 0 <= i < |us| && 0 <= j < |us| && us[i].email == us[j].email ==> i == j
  }

  /** `auth`: the user is found, active, and the password hashes match. */
  function AuthResult(us: seq<User>, hash: string -> string, email: string, password: string): (r: Option<User>)
    ensures r.Some? <==> FindUser(us, email).Some? && FindUser(us, email).value.active
                         && FindUser(us, email).value.passwordHash == hash(password)
    ensures r.Some? ==> r == FindUser(us, email)
  {
    match FindUser(us, email)
    case None => None
    case Some(u) => if u.active && u.passwordHash == hash(password) then Some(u) else None
  }

  /** A registration is found by its email afterwards. */
  lemma {:induction false} FindUserAfterAppend(us: seq<User>, u: User)
    requires FindUser(us, u.email).None?
    ensures FindUser(us + [u], u.email) == Some(u)
  {
    if us != [] {
      assert (us + [u])[1..] == us[1..] + [u];
      FindUserAfterAppend(us[1..], u);
    }
  }

  /** Registering and then logging in with the same password succeeds. */
  lemma RegisterThenAuth(us: seq<User>, hash: string -> string, u: User, password: string)
    requires FindUser(us, u.email).None? && u.active && u.passwordHash == hash(password)
    ensures AuthResult(us + [u], hash, u.email, password) == Some(u)
  {
    FindUserAfterAppend(us, u);
  }
}
