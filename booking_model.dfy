/** models/booking.py: booking statuses and their lowercase tokens, the booking record with its
    default status, and its dictionary form. Check-in and check-out are calendar day numbers. */
module BookingModel {
  import opened Wrappers
  import opened Records

  /** Only `Confirmed` and `Cancelled` are ever produced; `Completed` is defined and never set. */
  datatype BookingStatus = Confirmed | Cancelled | Completed

  /** `BookingStatus.value`. */
  function StatusToken(s: BookingStatus): string {
    match s
    case Confirmed => "confirmed"
    case Cancelled => "cancelled"
    case Completed => "completed"
  }

  /** `BookingStatus(token)`: the status a token names; `None` where Python raises `ValueError`. */
  function ParseStatus(token: string): (r: Option<BookingStatus>)
    ensures r.Some? ==> StatusToken(r.value) == token
    ensures r.None? ==> forall s :: StatusToken(s) != token
  {
    if token == "confirmed" then Some(Confirmed)
    else if token == "cancelled" then Some(Cancelled)
    else if token == "completed" then Some(Completed)
    else None
  }

  /** The token mapping is a bijection between the three statuses and the three tokens. */
  lemma StatusTokens(s: BookingStatus, token: string)
    ensures ParseStatus(StatusToken(s)) == Some(s)
    ensures ParseStatus(token) == Some(s) <==> token == StatusToken(s)
  {
  }

  /** A booking; like the dataclass, one built without a status is confirmed. */
  datatype Booking = Booking(id: int, userId: int, roomId: int, checkIn: int, checkOut: int,
                             totalPrice: real, status: BookingStatus := Confirmed)

  /** The dataclass default: a booking constructed without a status is confirmed. */
  lemma NewBookingIsConfirmed(id: int, userId: int, roomId: int, checkIn: int, checkOut: int, price: real)
    ensures Booking(id, userId, roomId, checkIn, checkOut, price).status == Confirmed
  {
  }

  function BookingIds(bookings: seq<Booking>): seq<int> {
    seq(|bookings|, k requires 0 <= k < |bookings| => bookings[k].id)
  }

  /** `to_dict`: dates as ISO text, the status as its token; `from_dict` reads it back. */
  function ToDict(b: Booking): (d: Dict)
    ensures d.Keys == {"id", "user_id", "room_id", "check_in", "check_out", "total_price", "status"}
    ensures d["status"] == Str(StatusToken(b.status))
    ensures d["check_in"] == Date(b.checkIn) && d["check_out"] == Date(b.checkOut)
    ensures FromDict(d) == Success(b)
  {
    map["id" := Int(b.id), "user_id" := Int(b.userId), "room_id" := Int(b.roomId),
        "check_in" := Date(b.checkIn), "check_out" := Date(b.checkOut),
        "total_price" := Real(b.totalPrice), "status" := Str(StatusToken(b.status))]
  }

  /** `from_dict`: keys read in declaration order; a status token outside the enumeration is
      rejected. */
  function FromDict(d: Dict): (r: Result<Booking, DictError>)
    ensures "id" !in d ==> r == Failure(MissingKey("id"))
    ensures r.Success? ==> d.Keys >= {"id", "user_id", "room_id", "check_in", "check_out", "total_price", "status"}
    ensures r.Success? ==> d["id"] == Int(r.value.id) && d["user_id"] == Int(r.value.userId)
                           && d["room_id"] == Int(r.value.roomId)
                           && d["check_in"] == Date(r.value.checkIn) && d["check_out"] == Date(r.value.checkOut)
                           && d["total_price"] == Real(r.value.totalPrice)
                           && d["status"] == Str(StatusToken(r.value.status))
    ensures "status" in d && d["status"].Str? && ParseStatus(d["status"].s).None? ==> r.Failure?
  {
    var id :- GetInt(d, "id");
    var userId :- GetInt(d, "user_id");
    var roomId :- GetInt(d, "room_id");
    var checkIn :- GetDate(d, "check_in");
    var checkOut :- GetDate(d, "check_out");
    var totalPrice :- GetReal(d, "total_price");
    var token :- GetStr(d, "status");
    var status :- match ParseStatus(token)
                  case Some(s) => Success(s)
                  case None => Failure(UnknownToken("status", token));
    Success(Booking(id, userId, roomId, checkIn, checkOut, totalPrice, status))
  }
}
