/** services/room_service.py: adding rooms under unique numbers, availability updates, and
    lookups over the rooms table. */
module RoomInventory {
  import opened Wrappers
  import opened RoomModel
  import Helpers
  import Table

  /** The `ValueError`s `create_room` raises. */
  datatype RoomError = RoomNumberExists | UnknownRoomType(token: string)

  /** The UNIQUE constraint on the number column. */
  ghost predicate NumbersUnique(rooms: seq<Room>) {
    forall i, j :: 0 <= i < j < |rooms| ==> rooms[i].number != rooms[j].number
  }

  class RoomService {
    /** The rooms table, in insertion order. */
    var rooms: seq<Room>

    ghost predicate Valid()
      reads this
    {
      NumbersUnique(rooms) && Table.AutoIds(RoomIds(rooms))
    }

    constructor ()
      ensures rooms == [] && Valid()
    {
      rooms := [];
    }

    /** `create_room` with the type token checked before the row is written: a taken number,
        then an unknown type, is rejected and leaves the table as it was; otherwise one
        available room is appended under a fresh id. */
    method CreateRoom(number: string, roomType: string, capacity: int, pricePerNight: real)
      returns (r: Result<Room, RoomError>)
      requires Valid()
      modifies this
      ensures Valid()
      ensures old(NumberTaken(number)) ==> r == Failure(RoomNumberExists)
      ensures !old(NumberTaken(number)) && ParseRoomType(roomType).None? ==> r == Failure(UnknownRoomType(roomType))
      ensures r.Failure? ==> rooms == old(rooms)
      ensures !old(NumberTaken(number)) && ParseRoomType(roomType).Some? ==>
                r == Success(Room(Helpers.NextId(RoomIds(old(rooms))), number, ParseRoomType(roomType).value,
                                  capacity, pricePerNight))
      ensures r.Success? ==> r.value.isAvailable && r.value.id !in RoomIds(old(rooms))
                             && rooms == old(rooms) + [r.value]
    {
      if NumberTaken(number) {
        return Failure(RoomNumberExists);
      }
      var t := ParseRoomType(roomType);
      if t.None? {
        return Failure(UnknownRoomType(roomType));
      }
      var id := Helpers.NextId(RoomIds(rooms));
      var room := Room(id, number, t.value, capacity, pricePerNight);
      Table.AutoIdsAppend(RoomIds(rooms));
      assert RoomIds(rooms + [room]) == RoomIds(rooms) + [id];
      rooms := rooms + [room];
      r := Success(room);
    }

    /** `SELECT id FROM rooms WHERE number = ?` finds a row. */
    predicate NumberTaken(number: string): (taken: bool)
      reads this
      ensures taken <==> exists k :: 0 <= k < |rooms| && rooms[k].number == number
    {
      Table.FetchOne(rooms, (x: Room) => x.number == number).Some?
    }

    /** `get_room_by_id`: the room with this id, or nothing when the id is absent. */
    function GetRoomById(id: int): (r: Option<Room>)
      reads this
      ensures r.Some? <==> exists k :: 0 <= k < |rooms| && rooms[k].id == id
      ensures r.Some? ==> r.value in rooms && r.value.id == id
    {
      Table.FetchOne(rooms, (x: Room) => x.id == id)
    }

    /** `list_available_rooms`: exactly the rooms whose flag is set, a part of `list_all_rooms`. */
    function ListAvailableRooms(): (r: seq<Room>)
      reads this
      ensures forall k :: 0 <= k < |r| ==> r[k] in rooms && r[k].isAvailable
      ensures forall k :: 0 <= k < |rooms| && rooms[k].isAvailable ==> rooms[k] in r
      ensures forall k :: 0 <= k < |r| ==> r[k] in ListAllRooms()
    {
      Table.FetchAll(rooms, (x: Room) => x.isAvailable)
    }

    /** `list_all_rooms`: the whole table in insertion order. */
    function ListAllRooms(): (r: seq<Room>)
      reads this
      ensures r == rooms
    {
      Table.FetchAll(rooms, (x: Room) => true)
    }

    /** `update_room_availability`: reports whether a room has this id; that room's flag, and
        nothing else, becomes `isAvailable`. */
    method UpdateRoomAvailability(id: int, isAvailable: bool) returns (found: bool)
      requires Valid()
      modifies this
      ensures Valid()
      ensures found <==> old(GetRoomById(id)).Some?
      ensures |rooms| == |old(rooms)|
      ensures forall k :: 0 <= k < |rooms| ==>
                rooms[k] == if old(rooms)[k].id == id then old(rooms)[k].(isAvailable := isAvailable) else old(rooms)[k]
    {
      found := Table.AnyRow(rooms, (x: Room) => x.id == id);
      var updated := Table.UpdateWhere(rooms, (x: Room) => x.id == id, (x: Room) => x.(isAvailable := isAvailable));
      assert RoomIds(updated) == RoomIds(rooms);
      rooms := updated;
    }
  }

  /** A row of the rooms table as `create_room` writes it: the type column holds whatever text the
      caller passed. */
  datatype RoomRow = RoomRow(id: int, number: string, roomType: string, capacity: int,
                             pricePerNight: real, isAvailable: bool)

  /** Reading a row back (`get_room_by_id`, `list_*_rooms`): `RoomType(row[2])` raises on text
      that names no type. */
  function DecodeRow(row: RoomRow): (r: Result<Room, RoomError>)
    ensures r.Failure? <==> ParseRoomType(row.roomType).None?
    ensures r.Success? ==> r.value.id == row.id && TypeToken(r.value.roomType) == row.roomType
  {
    match ParseRoomType(row.roomType)
    case Some(t) => Success(Room(row.id, row.number, t, row.capacity, row.pricePerNight, row.isAvailable))
    case None => Failure(UnknownRoomType(row.roomType))
  }

  function RowIds(rows: seq<RoomRow>): seq<int> {
    seq(|rows|, k requires 0 <= k < |rows| => rows[k].id)
  }

  /** `create_room` as written: the number check, then the INSERT and commit, and only then
      `RoomType(room_type)`. Gives the outcome and the table afterwards. */
  function CreateRoomAsWritten(rows: seq<RoomRow>, number: string, roomType: string, capacity: int,
                               pricePerNight: real): (res: (Result<Room, RoomError>, seq<RoomRow>))
    ensures (exists k :: 0 <= k < |rows| && rows[k].number == number) ==> res == (Failure(RoomNumberExists), rows)
    ensures (forall k :: 0 <= k < |rows| ==> rows[k].number != number) ==>
              res.1 == rows + [RoomRow(Helpers.NextId(RowIds(rows)), number, roomType, capacity, pricePerNight, true)]
              && (res.0.Failure? <==> ParseRoomType(roomType).None?)
  {
    if exists k :: 0 <= k < |rows| && rows[k].number == number then (Failure(RoomNumberExists), rows)
    else
      var row := RoomRow(Helpers.NextId(RowIds(rows)), number, roomType, capacity, pricePerNight, true);
      (DecodeRow(row), rows + [row])
  }

  /** The discrepancy: a new number with a token that names no type raises, yet the row is
      already stored, and reading that row back raises from then on. */
  lemma UnknownTypeIsStoredAnyway(rows: seq<RoomRow>, number: string, token: string, capacity: int,
                                  pricePerNight: real)
    requires forall k :: 0 <= k < |rows| ==> rows[k].number != number
    requires ParseRoomType(token).None?
    ensures var (res, after) := CreateRoomAsWritten(rows, number, token, capacity, pricePerNight);
            res == Failure(UnknownRoomType(token))
            && |after| == |rows| + 1 && after[..|rows|] == rows
            && after[|rows|].number == number && DecodeRow(after[|rows|]).Failure?
  {
  }
}
