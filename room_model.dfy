/** models/room.py: room types and their lowercase tokens, the room record with its default
    availability, and its dictionary form. */
module RoomModel {
  import opened Wrappers
  import opened Records

  datatype RoomType = Single | Double | Dormitory

  /** `RoomType.value`: the lowercase token stored for each type. */
  function TypeToken(t: RoomType): string {
    match t
    case Single => "single"
    case Double => "double"
    case Dormitory => "dormitory"
  }

  /** `RoomType(token)`: the type a token names; `None` where Python raises `ValueError`. */
  function ParseRoomType(token: string): (r: Option<RoomType>)
    ensures r.Some? ==> TypeToken(r.value) == token
    ensures r.None? ==> forall t :: TypeToken(t) != token
  {
    if token == "single" then Some(Single)
    else if token == "double" then Some(Double)
    else if token == "dormitory" then Some(Dormitory)
    else None
  }

  /** The token mapping is a bijection between the three types and the three tokens. */
  lemma RoomTypeTokens(t: RoomType, token: string)
    ensures ParseRoomType(TypeToken(t)) == Some(t)
    ensures ParseRoomType(token) == Some(t) <==> token == TypeToken(t)
  {
  }

  /** A room; like the dataclass, a room built without an availability flag is available. */
  datatype Room = Room(id: int, number: string, roomType: RoomType, capacity: int,
                       pricePerNight: real, isAvailable: bool := true)

  /** The dataclass default: a room constructed without `is_available` is available. */
  lemma NewRoomIsAvailable(id: int, number: string, t: RoomType, capacity: int, price: real)
    ensures Room(id, number, t, capacity, price).isAvailable
  {
  }

  function RoomIds(rooms: seq<Room>): seq<int> {
    seq(|rooms|, k requires 0 <= k < |rooms| => rooms[k].id)
  }

  /** `to_dict`: the type as its token, every other field unchanged; `from_dict` reads it back. */
  function ToDict(r: Room): (d: Dict)
    ensures d.Keys == {"id", "number", "room_type", "capacity", "price_per_night", "is_available"}
    ensures d["room_type"] == Str(TypeToken(r.roomType))
    ensures FromDict(d) == Success(r)
  {
    map["id" := Int(r.id), "number" := Str(r.number), "room_type" := Str(TypeToken(r.roomType)),
        "capacity" := Int(r.capacity), "price_per_night" := Real(r.pricePerNight),
        "is_available" := Bool(r.isAvailable)]
  }

  /** `from_dict`: keys read in declaration order; an unknown type token is rejected. */
  function FromDict(d: Dict): (r: Result<Room, DictError>)
    ensures "room_type" in d && d["room_type"].Str? && ParseRoomType(d["room_type"].s).None?
            && "id" in d && d["id"].Int? && "number" in d && d["number"].Str?
            ==> r == Failure(UnknownToken("room_type", d["room_type"].s))
    ensures "id" !in d ==> r == Failure(MissingKey("id"))
    ensures r.Success? ==> d.Keys >= {"id", "number", "room_type", "capacity", "price_per_night", "is_available"}
    ensures r.Success? ==> d["id"] == Int(r.value.id) && d["number"] == Str(r.value.number)
                           && d["room_type"] == Str(TypeToken(r.value.roomType))
                           && d["capacity"] == Int(r.value.capacity)
                           && d["price_per_night"] == Real(r.value.pricePerNight)
                           && d["is_available"] == Bool(r.value.isAvailable)
  {
    var id :- GetInt(d, "id");
    var number :- GetStr(d, "number");
    var token :- GetStr(d, "room_type");
    var roomType :- match ParseRoomType(token)
                    case Some(t) => Success(t)
                    case None => Failure(UnknownToken("room_type", token));
    var capacity :- GetInt(d, "capacity");
    var price :- GetReal(d, "price_per_night");
    var isAvailable :- GetBool(d, "is_available");
    Success(Room(id, number, roomType, capacity, price, isAvailable))
  }
}
