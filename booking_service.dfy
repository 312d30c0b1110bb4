/** services/booking_service.py: the booking ledger. A stay is admitted after six checks taken
    in a fixed order, the last being that no confirmed booking of the same room overlaps it;
    it is priced per night and appended as confirmed. Cancelling flips a booking's status. */
module BookingLedger {
  import opened Wrappers
  import opened UserModel
  import opened RoomModel
  import opened BookingModel
  import Helpers
  import Table
  import UserDirectory
  import RoomInventory

  /** The `ValueError`s `create_booking` raises, in the order it checks for them. */
  datatype BookingError =
    | UserNotFound
    | RoomNotFound
    | RoomNotAvailable
    | CheckOutNotAfterCheckIn
    | CheckInInPast
    | AlreadyBooked

  /** Dates are day numbers; a check-in day stands for midnight of that day, and `now` is an
      instant in seconds from midnight of day 0. */
  const SecondsPerDay := 86400

  /** `check_in < datetime.now()`: the check-in day is before today, or is today and today has
      already begun. */
  predicate CheckInBeforeNow(checkIn: int, now: int): (past: bool)
    ensures past <==> checkIn < now / SecondsPerDay
                      || (checkIn == now / SecondsPerDay && now % SecondsPerDay != 0)
  {
    checkIn * SecondsPerDay < now
  }

  /** The overlap test of `_has_conflicting_booking` on the half-open stays
      `[checkIn, checkOut)` and `[otherIn, otherOut)`. */
  predicate Overlaps(checkIn: int, checkOut: int, otherIn: int, otherOut: int) {
    !(checkOut <= otherIn || checkIn >= otherOut)
  }

  /** The night starting on day `night` is part of the stay `[checkIn, checkOut)`. */
  predicate NightOf(night: int, checkIn: int, checkOut: int) {
    checkIn <= night < checkOut
  }

  /** Two non-empty half-open stays overlap exactly when some night belongs to both. */
  lemma OverlapsIffSharedNight(checkIn: int, checkOut: int, otherIn: int, otherOut: int)
    requires checkIn < checkOut && otherIn < otherOut
    ensures Overlaps(checkIn, checkOut, otherIn, otherOut) <==>
            exists night :: NightOf(night, checkIn, checkOut) && NightOf(night, otherIn, otherOut)
  {
    if Overlaps(checkIn, checkOut, otherIn, otherOut) {
      var night := if checkIn < otherIn then otherIn else checkIn;
      assert NightOf(night, checkIn, checkOut) && NightOf(night, otherIn, otherOut);
    }
  }

  /** Stays that meet end to start, where one check-out day is the other's check-in day, do
      not overlap, in either order. */
  lemma AdjacentStaysDoNotOverlap(first: int, middle: int, last: int)
    ensures !Overlaps(first, middle, middle, last)
    ensures !Overlaps(middle, last, first, middle)
  {
  }

  /** An existing booking that makes the stay `[checkIn, checkOut)` on `roomId` a conflict:
      same room, still confirmed, overlapping. */
  predicate Blocks(b: Booking, roomId: int, checkIn: int, checkOut: int) {
    b.roomId == roomId && b.status == Confirmed && Overlaps(checkIn, checkOut, b.checkIn, b.checkOut)
  }

  /** Cancelled (or completed) bookings and bookings of other rooms never block a stay. */
  lemma OnlyConfirmedSameRoomBlocks(b: Booking, roomId: int, checkIn: int, checkOut: int)
    requires b.status != Confirmed || b.roomId != roomId
    ensures !Blocks(b, roomId, checkIn, checkOut)
  {
  }

  /** Some booking of the ledger blocks the stay. */
  ghost predicate HasConflict(bookings: seq<Booking>, roomId: int, checkIn: int, checkOut: int) {
    exists k :: 0 <= k < |bookings| && Blocks(bookings[k], roomId, checkIn, checkOut)
  }

  /** The ledger's invariant: no two distinct confirmed bookings of one room overlap. */
  ghost predicate NoDoubleBooking(bookings: seq<Booking>) {
    forall i, j :: 0 <= i < |bookings| && 0 <= j < |bookings| && i != j && bookings[i].status == Confirmed ==>
      !Blocks(bookings[j], bookings[i].roomId, bookings[i].checkIn, bookings[i].checkOut)
  }

  /** Appending a confirmed stay that nothing blocks keeps the invariant. */
  lemma AdmitKeepsNoDoubleBooking(bookings: seq<Booking>, b: Booking)
    requires NoDoubleBooking(bookings)
    requires b.status == Confirmed && !HasConflict(bookings, b.roomId, b.checkIn, b.checkOut)
    ensures NoDoubleBooking(bookings + [b])
  {
  }

  /** `UPDATE bookings SET status = 'cancelled' WHERE id = ?`: the booking with that id becomes
      cancelled, every other booking is kept as it was. */
  function CancelIn(bookings: seq<Booking>, id: int): (r: seq<Booking>)
    ensures |r| == |bookings|
    ensures forall k :: 0 <= k < |r| && bookings[k].id != id ==> r[k] == bookings[k]
    ensures forall k :: 0 <= k < |r| && bookings[k].id == id ==> r[k] == bookings[k].(status := Cancelled)
  {
    Table.UpdateWhere(bookings, (b: Booking) => b.id == id, (b: Booking) => b.(status := Cancelled))
  }

  /** Cancelling twice is cancelling once. */
  lemma CancelIdempotent(bookings: seq<Booking>, id: int)
    ensures CancelIn(CancelIn(bookings, id), id) == CancelIn(bookings, id)
  {
  }

  /** Cancelling never creates an overlap. */
  lemma CancelKeepsNoDoubleBooking(bookings: seq<Booking>, id: int)
    requires NoDoubleBooking(bookings)
    ensures NoDoubleBooking(CancelIn(bookings, id))
  {
  }

  /** Once a confirmed booking is cancelled, the very same stay on the same room is free again. */
  lemma CancelFreesItsStay(bookings: seq<Booking>, k: nat)
    requires NoDoubleBooking(bookings) && Table.AutoIds(BookingIds(bookings))
    requires k < |bookings| && bookings[k].status == Confirmed
    ensures !HasConflict(CancelIn(bookings, bookings[k].id), bookings[k].roomId, bookings[k].checkIn, bookings[k].checkOut)
  {
  }

  /** Every stay in the ledger is at least one night long. */
  ghost predicate StaysNonEmpty(bookings: seq<Booking>) {
    forall k :: 0 <= k < |bookings| ==> bookings[k].checkIn < bookings[k].checkOut
  }

  /** No operation ever produces the `completed` status. */
  ghost predicate NeverCompleted(bookings: seq<Booking>) {
    forall k :: 0 <= k < |bookings| ==> bookings[k].status != Completed
  }

  class BookingService {
    /** The users table, read to check that the guest exists. */
    const users: UserDirectory.UserService
    /** The rooms table, read to check the room and its price. */
    const rooms: RoomInventory.RoomService
    /** The bookings table, in insertion order. */
    var bookings: seq<Booking>

    ghost predicate Valid()
      reads this
    {
      Table.AutoIds(BookingIds(bookings)) && NoDoubleBooking(bookings)
      && StaysNonEmpty(bookings) && NeverCompleted(bookings)
    }

    constructor (users: UserDirectory.UserService, rooms: RoomInventory.RoomService)
      ensures this.users == users && this.rooms == rooms && bookings == [] && Valid()
    {
      this.users := users;
      this.rooms := rooms;
      bookings := [];
    }

    /** `create_booking`. The checks in order, the first failure winning: the user exists, the
        room exists, the room is available, check-out is after check-in, check-in is not before
        now, nothing blocks the stay. A failure leaves the ledger unchanged; a success appends
        one confirmed booking under a fresh id, priced at nights times the nightly rate. */
    method CreateBooking(userId: int, roomId: int, checkIn: int, checkOut: int, now: int)
      returns (r: Result<Booking, BookingError>)
      requires Valid()
      modifies this
      ensures Valid()
      ensures users.GetUserById(userId).None? ==> r == Failure(UserNotFound)
      ensures users.GetUserById(userId).Some? && rooms.GetRoomById(roomId).None? ==> r == Failure(RoomNotFound)
      ensures users.GetUserById(userId).Some? && rooms.GetRoomById(roomId).Some?
              && !rooms.GetRoomById(roomId).value.isAvailable
              ==> r == Failure(RoomNotAvailable)
      ensures users.GetUserById(userId).Some? && rooms.GetRoomById(roomId).Some?
              && rooms.GetRoomById(roomId).value.isAvailable && checkIn >= checkOut
              ==> r == Failure(CheckOutNotAfterCheckIn)
      ensures users.GetUserById(userId).Some? && rooms.GetRoomById(roomId).Some?
              && rooms.GetRoomById(roomId).value.isAvailable && checkIn < checkOut
              && CheckInBeforeNow(checkIn, now)
              ==> r == Failure(CheckInInPast)
      ensures users.GetUserById(userId).Some? && rooms.GetRoomById(roomId).Some?
              && rooms.GetRoomById(roomId).value.isAvailable && checkIn < checkOut
              && !CheckInBeforeNow(checkIn, now) && HasConflict(old(bookings), roomId, checkIn, checkOut)
              ==> r == Failure(AlreadyBooked)
      ensures r.Failure? ==> bookings == old(bookings)
      ensures users.GetUserById(userId).Some? && rooms.GetRoomById(roomId).Some?
              && rooms.GetRoomById(roomId).value.isAvailable && checkIn < checkOut
              && !CheckInBeforeNow(checkIn, now) && !HasConflict(old(bookings), roomId, checkIn, checkOut)
              ==> r.Success?
      ensures r.Success? ==>
                rooms.GetRoomById(roomId).Some?
                && r.value == Booking(Helpers.NextId(BookingIds(old(bookings))), userId, roomId, checkIn, checkOut,
                                      ((checkOut - checkIn) as real) * rooms.GetRoomById(roomId).value.pricePerNight)
                && r.value.status == Confirmed && checkOut - checkIn >= 1
                && r.value.id !in BookingIds(old(bookings))
                && bookings == old(bookings) + [r.value]
    {
      var user := users.GetUserById(userId);
      if user.None? {
        return Failure(UserNotFound);
      }
      var room := rooms.GetRoomById(roomId);
      if room.None? {
        return Failure(RoomNotFound);
      }
      if !room.value.isAvailable {
        return Failure(RoomNotAvailable);
      }
      if checkIn >= checkOut {
        return Failure(CheckOutNotAfterCheckIn);
      }
      if checkIn * SecondsPerDay < now {
        return Failure(CheckInInPast);
      }
      var conflict := HasConflictingBooking(roomId, checkIn, checkOut);
      if conflict {
        return Failure(AlreadyBooked);
      }
      var nights := checkOut - checkIn;
      var totalPrice := (nights as real) * room.value.pricePerNight;
      var id := Helpers.NextId(BookingIds(bookings));
      var b := Booking(id, userId, roomId, checkIn, checkOut, totalPrice);
      Table.AutoIdsAppend(BookingIds(bookings));
      assert BookingIds(bookings + [b]) == BookingIds(bookings) + [id];
      AdmitKeepsNoDoubleBooking(bookings, b);
      bookings := bookings + [b];
      r := Success(b);
    }

    /** `_has_conflicting_booking`: scans this room's confirmed bookings and reports whether one
        of them overlaps the stay. */
    method HasConflictingBooking(roomId: int, checkIn: int, checkOut: int) returns (conflict: bool)
      ensures conflict <==> HasConflict(bookings, roomId, checkIn, checkOut)
    {
      var rows := Table.FetchAll(bookings, (b: Booking) => b.roomId == roomId && b.status == Confirmed);
      var i := 0;
      while i < |rows|
        invariant 0 <= i <= |rows|
        invariant forall k :: 0 <= k < i ==> !Overlaps(checkIn, checkOut, rows[k].checkIn, rows[k].checkOut)
      {
        if !(checkOut <= rows[i].checkIn || checkIn >= rows[i].checkOut) {
          assert Blocks(rows[i], roomId, checkIn, checkOut);
          return true;
        }
        i := i + 1;
      }
      forall k | 0 <= k < |bookings| && bookings[k].roomId == roomId && bookings[k].status == Confirmed
        ensures !Blocks(bookings[k], roomId, checkIn, checkOut)
      {
        assert bookings[k] in rows;
      }
      return false;
    }

    /** `cancel_booking`: reports whether a booking has this id; that booking, and nothing else,
        becomes cancelled, whatever its status was. */
    method CancelBooking(bookingId: int) returns (found: bool)
      requires Valid()
      modifies this
      ensures Valid()
      ensures found <==> old(GetBookingById(bookingId)).Some?
      ensures bookings == CancelIn(old(bookings), bookingId)
    {
      found := Table.AnyRow(bookings, (b: Booking) => b.id == bookingId);
      var updated := CancelIn(bookings, bookingId);
      assert BookingIds(updated) == BookingIds(bookings);
      CancelKeepsNoDoubleBooking(bookings, bookingId);
      bookings := updated;
    }

    /** `get_booking_by_id`: the booking with this id, or nothing when the id is absent. */
    function GetBookingById(id: int): (r: Option<Booking>)
      reads this
      ensures r.Some? <==> exists k :: 0 <= k < |bookings| && bookings[k].id == id
      ensures r.Some? ==> r.value in bookings && r.value.id == id
    {
      Table.FetchOne(bookings, (b: Booking) => b.id == id)
    }

    /** `get_user_bookings`: exactly the bookings made for this user, in table order. */
    function GetUserBookings(userId: int): (r: seq<Booking>)
      reads this
      ensures forall k :: 0 <= k < |r| ==> r[k] in bookings && r[k].userId == userId
      ensures forall k :: 0 <= k < |bookings| && bookings[k].userId == userId ==> bookings[k] in r
    {
      Table.FetchAll(bookings, (b: Booking) => b.userId == userId)
    }

    /** `list_all_bookings`: the whole table in insertion order. */
    function ListAllBookings(): (r: seq<Booking>)
      reads this
      ensures r == bookings
    {
      Table.FetchAll(bookings, (b: Booking) => true)
    }
  }
}
