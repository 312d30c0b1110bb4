/** models/user.py: the user record, its dictionary form, and password checking against a
    stored one-way hash. */
module UserModel {
  import opened Wrappers
  import opened Records

  /** The one-way password hash (SHA-256 in hex). Nothing is assumed of it, not even that
      different passwords hash differently. */
  type Hasher = string -> string

  datatype User = User(id: int, name: string, email: string, phone: string, passwordHash: string)

  /** `hash_password`. */
  function HashPassword(hash: Hasher, password: string): string {
    hash(password)
  }

  /** `verify_password`: the stored hash equals the hash of the offered password. */
  predicate VerifyPassword(u: User, hash: Hasher, password: string) {
    u.passwordHash == HashPassword(hash, password)
  }

  /** A user stored with the hash of `p` verifies `p`. */
  lemma VerifyStoredPassword(u: User, hash: Hasher, p: string)
    requires u.passwordHash == HashPassword(hash, p)
    ensures VerifyPassword(u, hash, p)
  {
  }

  /** Verification depends on the password only through its hash: two passwords with the same
      hash are accepted or refused together. */
  lemma VerifyOnlySeesHash(u: User, hash: Hasher, p: string, q: string)
    requires hash(p) == hash(q)
    ensures VerifyPassword(u, hash, p) <==> VerifyPassword(u, hash, q)
  {
  }

  function UserIds(users: seq<User>): seq<int> {
    seq(|users|, k requires 0 <= k < |users| => users[k].id)
  }

  /** `to_dict`: each field copied unchanged under its column name; `from_dict` reads it back. */
  function ToDict(u: User): (d: Dict)
    ensures d.Keys == {"id", "name", "email", "phone", "password_hash"}
    ensures d["id"] == Int(u.id) && d["name"] == Str(u.name) && d["email"] == Str(u.email)
    ensures d["phone"] == Str(u.phone) && d["password_hash"] == Str(u.passwordHash)
    ensures FromDict(d) == Success(u)
  {
    map["id" := Int(u.id), "name" := Str(u.name), "email" := Str(u.email),
        "phone" := Str(u.phone), "password_hash" := Str(u.passwordHash)]
  }

  /** `from_dict`: the keys are read in declaration order, the first one absent raising. */
  function FromDict(d: Dict): (r: Result<User, DictError>)
    ensures "id" !in d ==> r == Failure(MissingKey("id"))
    ensures r.Success? ==> d.Keys >= {"id", "name", "email", "phone", "password_hash"}
    ensures r.Success? ==> d["id"] == Int(r.value.id) && d["name"] == Str(r.value.name)
                           && d["email"] == Str(r.value.email) && d["phone"] == Str(r.value.phone)
                           && d["password_hash"] == Str(r.value.passwordHash)
  {
    var id :- GetInt(d, "id");
    var name :- GetStr(d, "name");
    var email :- GetStr(d, "email");
    var phone :- GetStr(d, "phone");
    var passwordHash :- GetStr(d, "password_hash");
    Success(User(id, name, email, phone, passwordHash))
  }

  /** Reading a dictionary back and writing it out again gives the same five entries. */
  lemma FromDictToDict(d: Dict)
    requires FromDict(d).Success?
    ensures d.Keys >= ToDict(FromDict(d).value).Keys
    ensures forall k :: k in ToDict(FromDict(d).value) ==> d[k] == ToDict(FromDict(d).value)[k]
  {
  }
}
