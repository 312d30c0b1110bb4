/** The dictionaries that `to_dict` produces and `from_dict` reads: string keys mapped to the
    handful of value kinds the records hold. */
module Records {
  import opened Wrappers

  /** A dictionary value. `Date(day)` stands for the ISO-8601 text of calendar day `day`. */
  datatype Value = Int(i: int) | Real(r: real) | Str(s: string) | Bool(b: bool) | Date(day: int)

  type Dict = map<string, Value>

  /** Why `from_dict` raises: an absent key (`KeyError`), a value of the wrong kind, or a token
      that names no member of the enumeration (`ValueError`). */
  datatype DictError = MissingKey(key: string) | WrongKind(key: string) | UnknownToken(key: string, token: string)

  function GetInt(d: Dict, key: string): (r: Result<int, DictError>)
    ensures r.Success? <==> key in d && d[key].Int?
    ensures r.Success? ==> d[key] == Int(r.value)
  {
    if key !in d then Failure(MissingKey(key))
    else if d[key].Int? then Success(d[key].i)
    else Failure(WrongKind(key))
  }

  function GetReal(d: Dict, key: string): (r: Result<real, DictError>)
    ensures r.Success? <==> key in d && d[key].Real?
    ensures r.Success? ==> d[key] == Real(r.value)
  {
    if key !in d then Failure(MissingKey(key))
    else if d[key].Real? then Success(d[key].r)
    else Failure(WrongKind(key))
  }

  function GetStr(d: Dict, key: string): (r: Result<string, DictError>)
    ensures r.Success? <==> key in d && d[key].Str?
    ensures r.Success? ==> d[key] == Str(r.value)
  {
    if key !in d then Failure(MissingKey(key))
    else if d[key].Str? then Success(d[key].s)
    else Failure(WrongKind(key))
  }

  function GetBool(d: Dict, key: string): (r: Result<bool, DictError>)
    ensures r.Success? <==> key in d && d[key].Bool?
    ensures r.Success? ==> d[key] == Bool(r.value)
  {
    if key !in d then Failure(MissingKey(key))
    else if d[key].Bool? then Success(d[key].b)
    else Failure(WrongKind(key))
  }

  /** `datetime.fromisoformat(data[key])`, with the text already read as a day number. */
  function GetDate(d: Dict, key: string): (r: Result<int, DictError>)
    ensures r.Success? <==> key in d && d[key].Date?
    ensures r.Success? ==> d[key] == Date(r.value)
  {
    if key !in d then Failure(MissingKey(key))
    else if d[key].Date? then Success(d[key].day)
    else Failure(WrongKind(key))
  }
}
