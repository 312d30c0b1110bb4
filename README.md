# Hostel booking ledger

A Dafny model of the core of a hostel booking manager: the booking ledger
(`services/booking_service.py`), the user directory and room inventory it
depends on (`services/user_service.py`, `services/room_service.py`), the two
pure helpers they use (`utils/helpers.py`) and the three record types with
their dictionary forms (`models/*.py`).

The SQL tables become sequences of records held by three classes,
`UserService`, `RoomService` and `BookingService`, in insertion order. The
SQL the services issue is modelled once, in module `Table`:
`SELECT … WHERE` followed by `fetchone()` or `fetchall()`, and
`UPDATE … WHERE` with its row count. The schema's guarantees become class
invariants (`Valid()`). E-mails are unique among users. Room numbers are
unique among rooms. Ids are positive and strictly increasing. A new id is
`get_next_id` of the ids in use (`Helpers.NextId`: the largest plus one, or 1
for an empty table). That is what an AUTOINCREMENT column hands out when no
row is ever deleted, as here.

The ledger's central invariant, `BookingLedger.NoDoubleBooking`, says that no
two distinct confirmed bookings of the same room overlap as half-open stays
`[check_in, check_out)`. `CreateBooking` and `CancelBooking` preserve it.
`CreateBooking` states its six checks in the source's order, with the first
failure winning. It states the exact price `nights × price_per_night` and that
a failure leaves the ledger unchanged. The conflict scan
`HasConflictingBooking` is a loop over the room's confirmed bookings with an
early return, proved equal to the predicate `HasConflict`.

Modelling choices:

- Dates are calendar day numbers, so `nights = check_out − check_in`.
- The current time is a parameter `now` of `CreateBooking`, an instant in
  seconds from midnight of day 0. A check-in day stands for midnight of that
  day, because dates are parsed with no time of day. So
  `check_in < datetime.now()` becomes `checkIn * 86400 < now`. A stay that
  starts today is therefore refused once today has begun.
- The password hash is a parameter `hash: string -> string` of
  `UserService`. Nothing is assumed of it, not even injectivity.
- Prices are `real`.
- A dictionary is a `map<string, Value>`. A date value `Date(day)` stands
  for its ISO-8601 text.
- `module Scenarios` (`scenarios.dfy`) derives, from the services'
  contracts alone, the outcomes of a few concrete stays on room "101" at
  2500 a night: days 100–103 cost 7500; days 102–104 share night 102 with
  them and are refused as already booked; days 103–105 start on their
  check-out day and are accepted; a cancelled stay can be booked again; a
  stay starting today, requested at noon, is in the past.

The model follows the code in these points, where one might expect
otherwise:

- All errors are `ValueError`s. They are distinguished by message, and each
  message is one error constructor here. There are no separate
  "not found", "conflict" and "state" error classes.
- `create_room` checks neither capacity nor price. Neither does the model.

One point departs from the code on purpose. `create_room` as written
stores and commits the row before it rejects an unknown room type (see
"Findings"). `RoomInventory.CreateRoomAsWritten` models that order.
`RoomInventory.RoomService.CreateRoom` checks the type before storing
anything, and it is the inventory the booking ledger reads, so the ledger's
properties are proved over the corrected `create_room`.

## Model

| member | source | states |
|---|---|---|
| `Helpers.Split` | utils/helpers.py:36 | `split('@')` gives one more piece than there are `@`s, no piece contains `@`, and joining the pieces with `@` gives back the string |
| `Helpers.ValidateEmail` | utils/helpers.py:34-36 | `validate_email` holds iff there is an `@`, and a `.` follows the first `@` before any second `@`; in particular it is false without an `@` |
| `Helpers.ValidateEmailExamples` | utils/helpers.py:36 | `a@b.c` is accepted and `a@bc` is rejected |
| `Helpers.MaxOf` | utils/helpers.py:25 | `max` of a non-empty list is one of its elements and no element exceeds it |
| `Helpers.NextId` | utils/helpers.py:21-25 | `get_next_id` is 1 for no ids; otherwise it is one more than some existing id and larger than every id |
| `Helpers.NextIdIsFresh` | utils/helpers.py:25 | the next id is not already in use |
| `Table.FetchOne` | services/room_service.py:34 | `fetchone()` after `SELECT … WHERE p` finds a row iff some row satisfies `p`, and the row it returns is a stored one satisfying `p` |
| `Table.FetchAll` | services/room_service.py:46 | `fetchall()` after `SELECT … WHERE p` returns stored rows satisfying `p`, every stored row satisfying `p` among them, and the whole table when every row matches |
| `Table.UpdateWhere` | services/booking_service.py:78 | `UPDATE … SET f WHERE p` keeps the table's length, rewrites every row satisfying `p` by `f`, and leaves every other row as it was |
| `Table.AnyRow` | services/room_service.py:65-66 | `rowcount > 0` after `UPDATE … WHERE p` holds iff `SELECT … WHERE p` with `fetchone()` would find a row |
| `Table.AutoIdsAppend` | utils/database.py:20-55 | appending the next id keeps the id column positive and strictly increasing |
| `UserModel.VerifyStoredPassword` | models/user.py:32-37 | a user stored with `hash_password(p)` verifies `p` |
| `UserModel.VerifyOnlySeesHash` | models/user.py:36-37 | `verify_password` depends on the password only through its hash |
| `UserModel.ToDict` | models/user.py:13-20 | `to_dict` has exactly the five keys, copies every field unchanged, and `from_dict` inverts it |
| `UserModel.FromDict` | models/user.py:22-30 | a missing `id` raises; a success reads each field from its key |
| `UserModel.FromDictToDict` | models/user.py:13-30 | a dictionary `from_dict` accepts agrees with `to_dict` of the result on every key |
| `RoomModel.ParseRoomType` | models/room.py:4-7 | `RoomType(token)` succeeds exactly on the three tokens and returns the type with that token |
| `RoomModel.RoomTypeTokens` | models/room.py:4-7 | the token mapping is a bijection: parsing a type's token gives the type, and only its token does |
| `RoomModel.NewRoomIsAvailable` | models/room.py:16 | a room built without `is_available` is available |
| `RoomModel.ToDict` | models/room.py:18-26 | `to_dict` has exactly the six keys, stores the type as its token, and `from_dict` inverts it |
| `RoomModel.FromDict` | models/room.py:28-37 | a missing `id` raises and an unknown `room_type` token is rejected; a success reads every field from its key, the type through its token |
| `BookingModel.ParseStatus` | models/booking.py:5-8 | `BookingStatus(token)` succeeds exactly on the three tokens and returns the status with that token |
| `BookingModel.StatusTokens` | models/booking.py:5-8 | the status token mapping is a bijection |
| `BookingModel.NewBookingIsConfirmed` | models/booking.py:18 | a booking built without a status is confirmed |
| `BookingModel.ToDict` | models/booking.py:20-29 | `to_dict` has exactly the seven keys, stores dates as ISO text and the status as its token, and `from_dict` inverts it |
| `BookingModel.FromDict` | models/booking.py:31-41 | a missing `id` raises and a status token outside the enumeration is rejected; a success reads every field from its key, dates from their ISO text and the status through its token |
| `UserDirectory.UserService.constructor` | services/user_service.py:6-7 | the users table starts empty and valid |
| `UserDirectory.UserService.CreateUser` | services/user_service.py:9-35 | the checks come in order: bad e-mail, then password shorter than 6, then e-mail taken; any failure leaves the table unchanged; otherwise the user is appended with a fresh id and the password's hash, never the password. E-mails stay unique, and `authenticate_user` with the same e-mail and password then returns that user |
| `UserDirectory.UserService.AuthenticateUser` | services/user_service.py:37-42 | returns a user iff a user with that e-mail stores the hash of that password, and the returned user has that e-mail and verifies the password; it never raises |
| `UserDirectory.UserService.GetUserById` | services/user_service.py:44-54 | returns a user iff one has that id, and it is a stored user with that id |
| `UserDirectory.UserService.GetUserByEmail` | services/user_service.py:56-66 | returns a user iff one has that e-mail, and it is a stored user with that e-mail |
| `UserDirectory.UserService.ListUsers` | services/user_service.py:68-76 | returns the whole table in order |
| `RoomInventory.RoomService.constructor` | services/room_service.py:5-6 | the rooms table starts empty and valid |
| `RoomInventory.RoomService.CreateRoom` | services/room_service.py:8-27 | a taken number is rejected, then an unknown type is rejected, and either failure leaves the table unchanged; otherwise an available room with the given number, type, capacity and price is appended under a fresh id; numbers stay unique |
| `RoomInventory.RoomService.NumberTaken` | services/room_service.py:14-15 | the number check finds a row iff some stored room has that number |
| `RoomInventory.RoomService.GetRoomById` | services/room_service.py:29-39 | returns a room iff one has that id, and it is a stored room with that id |
| `RoomInventory.RoomService.ListAvailableRooms` | services/room_service.py:41-49 | returns exactly the stored rooms whose flag is set, each also in `list_all_rooms` |
| `RoomInventory.RoomService.ListAllRooms` | services/room_service.py:51-59 | returns the whole table in order |
| `RoomInventory.RoomService.UpdateRoomAvailability` | services/room_service.py:61-69 | reports whether a room has that id; that room's flag becomes the given value and every other room is unchanged |
| `RoomInventory.DecodeRow` | services/room_service.py:38 | reading a row back fails exactly when its type text names no room type |
| `RoomInventory.CreateRoomAsWritten` | services/room_service.py:8-27 | `create_room` as written: a taken number fails and leaves the table unchanged; otherwise the row with the next id, the given fields, the type text as passed and availability set is appended, and the call fails exactly when that text names no room type |
| `RoomInventory.UnknownTypeIsStoredAnyway` | services/room_service.py:19-27 | for every type text that names no room type, a new number raises, yet the row is stored and cannot be read back |
| `BookingLedger.CheckInBeforeNow` | services/booking_service.py:31 | `check_in < now` holds iff the check-in day is before today, or is today and today has already begun |
| `BookingLedger.OverlapsIffSharedNight` | services/booking_service.py:69-70 | for non-empty stays, the overlap test holds iff some night belongs to both stays |
| `BookingLedger.AdjacentStaysDoNotOverlap` | services/booking_service.py:70 | a stay starting on another's check-out day does not overlap it, in either order |
| `BookingLedger.OnlyConfirmedSameRoomBlocks` | services/booking_service.py:58-60 | bookings that are not confirmed, or are on another room, never block a stay |
| `BookingLedger.AdmitKeepsNoDoubleBooking` | services/booking_service.py:35-52 | appending a confirmed stay that no booking blocks keeps the no-overlap invariant |
| `BookingLedger.CancelIn` | services/booking_service.py:78 | the booking with that id becomes cancelled and every other booking is unchanged |
| `BookingLedger.CancelIdempotent` | services/booking_service.py:74-82 | cancelling the same id twice is the same as cancelling it once |
| `BookingLedger.CancelKeepsNoDoubleBooking` | services/booking_service.py:74-82 | cancelling keeps the no-overlap invariant |
| `BookingLedger.CancelFreesItsStay` | services/booking_service.py:59 | once a confirmed booking is cancelled, nothing blocks the same stay on the same room |
| `BookingLedger.BookingService.constructor` | services/booking_service.py:8-11 | the ledger starts empty and valid, reading the given user and room tables |
| `BookingLedger.BookingService.CreateBooking` | services/booking_service.py:13-52 | the checks come in order, the first failure winning: user not found, room not found, room not available, check-out not after check-in, check-in before now, already booked. A failure leaves the ledger unchanged. A success appends exactly one confirmed booking with a fresh id, priced at `(check_out − check_in) × price_per_night` with at least one night. It succeeds whenever all checks pass, and it keeps the invariants: no double booking, ids increasing, stays non-empty, never `completed` |
| `BookingLedger.BookingService.HasConflictingBooking` | services/booking_service.py:54-72 | true iff some booking of the same room, still confirmed, overlaps `[check_in, check_out)` |
| `BookingLedger.BookingService.CancelBooking` | services/booking_service.py:74-82 | returns true iff a booking has that id; only that booking's status becomes cancelled, whatever it was; the invariants are kept |
| `BookingLedger.BookingService.GetBookingById` | services/booking_service.py:84-99 | returns a booking iff one has that id, and it is a stored booking with that id |
| `BookingLedger.BookingService.GetUserBookings` | services/booking_service.py:101-114 | returns exactly the stored bookings whose user is the given one |
| `BookingLedger.BookingService.ListAllBookings` | services/booking_service.py:116-129 | returns the whole table in order |

## Left out

- The interactive menus, prompts, table output, demo seeding and the
  logged-in user of `main.py` are presentation and I/O. The ownership check
  before cancelling lives there too, not in the ledger.
- The sqlite connection, DDL, `commit`/`close` and `rowcount` plumbing are
  replaced by in-memory tables. The UNIQUE, DEFAULT and AUTOINCREMENT
  semantics they imply are kept.
- `load_json_data` and `save_json_data` are file I/O.
- `parse_date` wraps `datetime.strptime`, which is not part of this model.
  Dates enter as day numbers, and `datetime.now()` enters as the `now`
  parameter.
- `hashlib.sha256` is a foreign call. It is the uninterpreted `hash`
  parameter.
- ISO-8601 text and float rounding are abstracted: dates are integers and
  prices are exact reals.
- The read-then-insert race between the conflict scan and the insert exists
  only under concurrent access. The modelled code is single-process.
- BookingLedger.BookingService.GetUserBookings: states which bookings are returned, not that they come in table order.
- RoomInventory.RoomService.ListAvailableRooms: states which rooms are returned, not that they come in table order.
- `UserModel.FromDict`, `RoomModel.FromDict` and `BookingModel.FromDict` are
  typed. A value of the wrong kind is a `WrongKind` error, where Python's
  dataclass would store it unchecked. The exceptions are dates and
  enumeration tokens, which Python parses and can reject.

## Findings

| source | as written | input that shows it | evidently intended | confidence | as-written member | corrected member |
|---|---|---|---|---|---|---|
| services/room_service.py:19-27 | the row is inserted and committed before `RoomType(room_type)` checks the type text | `create_room("105", "suite", 1, 100.0)` on a table without room "105": `ValueError` is raised, yet the row is stored, and every later read of it (`get_room_by_id`, `list_all_rooms`) raises too | an unknown type is rejected and the table is left unchanged | not executed | `RoomInventory.UnknownTypeIsStoredAnyway` | `RoomInventory.RoomService.CreateRoom` |
