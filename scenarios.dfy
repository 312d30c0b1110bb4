/** A guest, room "101" at 2500 a night, and a few concrete stays on it: every outcome below is
    derived from the services' contracts alone. */
module Scenarios {
  import opened Wrappers
  import opened RoomModel
  import opened BookingModel
  import UserModel
  import Helpers
  import UserDirectory
  import RoomInventory
  import BookingLedger

  /** Midnight of day 100, the day the stays below begin. */
  const Now := 100 * BookingLedger.SecondsPerDay

  /** The seeded hostel: one guest, room "101", no bookings yet. */
  predicate Seeded(ledger: BookingLedger.BookingService)
    reads ledger, ledger.users, ledger.rooms
  {
    ledger.users.GetUserById(1).Some?
    && ledger.rooms.GetRoomById(1) == Some(Room(1, "101", Single, 1, 2500.0))
  }

  method SetUp(hash: UserModel.Hasher) returns (ledger: BookingLedger.BookingService)
    ensures fresh(ledger) && ledger.Valid() && ledger.bookings == [] && Seeded(ledger)
  {
    var users := new UserDirectory.UserService(hash);
    var rooms := new RoomInventory.RoomService();
    Helpers.ValidateEmailExamples();
    var guest := users.CreateUser("Guest", "a@b.c", "+254700000000", "secret");
    assert guest.Success? && users.users == [guest.value] && guest.value.id == 1;
    assert users.GetUserById(1).Some? by { assert users.users[0].id == 1; }
    var room := rooms.CreateRoom("101", "single", 1, 2500.0);
    assert room == Success(Room(1, "101", Single, 1, 2500.0)) && rooms.rooms == [room.value];
    assert rooms.GetRoomById(1).Some? by { assert rooms.rooms[0].id == 1; }
    ledger := new BookingLedger.BookingService(users, rooms);
  }

  /** Days 100 to 103 cost three nights; days 102 to 104 share night 102 with them and are
      refused; days 103 to 105 start on their check-out day and are accepted. */
  method OverlappingAndAdjacentStays(ledger: BookingLedger.BookingService)
    requires ledger.Valid() && ledger.bookings == [] && Seeded(ledger)
    modifies ledger
  {
    assert !BookingLedger.HasConflict([], 1, 100, 103);
    var first := ledger.CreateBooking(1, 1, 100, 103, Now);
    assert first.Success? && first.value.totalPrice == 7500.0 && first.value.status == Confirmed;
    assert ledger.bookings == [first.value];

    var second := ledger.CreateBooking(1, 1, 102, 104, Now);
    assert BookingLedger.Blocks(ledger.bookings[0], 1, 102, 104);
    assert second == Failure(BookingLedger.AlreadyBooked);

    assert ledger.bookings == [first.value] && !BookingLedger.Blocks(first.value, 1, 103, 105);
    assert !BookingLedger.HasConflict(ledger.bookings, 1, 103, 105);
    var third := ledger.CreateBooking(1, 1, 103, 105, Now);
    assert third.Success? && third.value.totalPrice == 5000.0;

    var late := ledger.CreateBooking(1, 1, 99, 100, Now);
    assert late == Failure(BookingLedger.CheckInInPast);
  }

  /** Cancelling a stay lets the very same stay be booked again. */
  method CancelThenRebook(ledger: BookingLedger.BookingService)
    requires ledger.Valid() && ledger.bookings == [] && Seeded(ledger)
    modifies ledger
  {
    assert !BookingLedger.HasConflict([], 1, 100, 103);
    var first := ledger.CreateBooking(1, 1, 100, 103, Now);
    assert first.Success? && ledger.bookings == [first.value];

    var cancelled := ledger.CancelBooking(first.value.id);
    assert ledger.bookings[0].id == first.value.id;
    assert cancelled && ledger.bookings[0].status == Cancelled;

    assert |ledger.bookings| == 1 && !BookingLedger.Blocks(ledger.bookings[0], 1, 100, 103);
    assert !BookingLedger.HasConflict(ledger.bookings, 1, 100, 103);
    var again := ledger.CreateBooking(1, 1, 100, 103, Now);
    assert again.Success?;
  }

  /** Check-in is midnight of its day, so once that day has begun a stay starting today is
      already in the past. */
  method SameDayAfterMidnight(ledger: BookingLedger.BookingService)
    requires ledger.Valid() && ledger.bookings == [] && Seeded(ledger)
    modifies ledger
  {
    assert !BookingLedger.HasConflict([], 1, 100, 101);
    var atMidnight := ledger.CreateBooking(1, 1, 100, 101, Now);
    assert atMidnight.Success?;
    var atNoon := ledger.CreateBooking(1, 1, 101, 102, 101 * BookingLedger.SecondsPerDay + 43200);
    assert atNoon == Failure(BookingLedger.CheckInInPast);
  }
}
