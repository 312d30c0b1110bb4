/** services/user_service.py: registration with e-mail and password checks, password
    authentication, and lookups over the users table. */
module UserDirectory {
  import opened Wrappers
  import opened UserModel
  import Helpers
  import Table

  /** The `ValueError`s `create_user` raises, in the order it checks for them. */
  datatype UserError = InvalidEmail | PasswordTooShort | EmailExists

  const MinPasswordLength := 6

  /** The UNIQUE constraint on the email column. */
  ghost predicate EmailsUnique(users: seq<User>) {
    forall i, j :: 0 <= i < j < |users| ==> users[i].email != users[j].email
  }

  class UserService {
    /** The hash `hash_password` applies. */
    const hash: Hasher
    /** The users table, in insertion order. */
    var users: seq<User>

    ghost predicate Valid()
      reads this
    {
      EmailsUnique(users) && Table.AutoIds(UserIds(users))
    }

    constructor (hash: Hasher)
      ensures this.hash == hash && users == [] && Valid()
    {
      this.hash := hash;
      users := [];
    }

    /** `create_user`: the e-mail shape, then the password length, then e-mail uniqueness; on
        success one user holding the password's hash is appended under a fresh id. */
    method CreateUser(name: string, email: string, phone: string, password: string)
      returns (r: Result<User, UserError>)
      requires Valid()
      modifies this
      ensures Valid()
      ensures !Helpers.ValidateEmail(email) ==> r == Failure(InvalidEmail)
      ensures Helpers.ValidateEmail(email) && |password| < MinPasswordLength ==> r == Failure(PasswordTooShort)
      ensures Helpers.ValidateEmail(email) && |password| >= MinPasswordLength && old(GetUserByEmail(email)).Some?
              ==> r == Failure(EmailExists)
      ensures r.Failure? ==> users == old(users)
      ensures Helpers.ValidateEmail(email) && |password| >= MinPasswordLength && old(GetUserByEmail(email)).None?
              ==> r.Success?
      ensures r.Success? ==>
                r.value == User(Helpers.NextId(UserIds(old(users))), name, email, phone, HashPassword(hash, password))
                && r.value.id !in UserIds(old(users))
                && users == old(users) + [r.value]
      ensures r.Success? ==> AuthenticateUser(email, password) == Some(r.value)
    {
      if !Helpers.ValidateEmail(email) {
        return Failure(InvalidEmail);
      }
      if |password| < MinPasswordLength {
        return Failure(PasswordTooShort);
      }
      if GetUserByEmail(email).Some? {
        return Failure(EmailExists);
      }
      var passwordHash := HashPassword(hash, password);
      var id := Helpers.NextId(UserIds(users));
      var u := User(id, name, email, phone, passwordHash);
      Table.AutoIdsAppend(UserIds(users));
      assert UserIds(users + [u]) == UserIds(users) + [id];
      ghost var before := users;
      users := users + [u];
      r := Success(u);
      assert users[|before|].email == email;
      var found := GetUserByEmail(email);
      assert found.Some? && found.value in before + [u];
      assert found.value !in before;
      assert found == Some(u);
    }

    /** `authenticate_user`: the user with this e-mail, provided its stored hash is the hash of
        `password`; otherwise nothing, whichever of the two was wrong. */
    function AuthenticateUser(email: string, password: string): (r: Option<User>)
      requires Valid()
      reads this
      ensures r.Some? <==> exists k :: 0 <= k < |users| && users[k].email == email
                                      && users[k].passwordHash == HashPassword(hash, password)
      ensures r.Some? ==> r.value in users && r.value.email == email && VerifyPassword(r.value, hash, password)
    {
      match GetUserByEmail(email)
      case Some(u) => if VerifyPassword(u, hash, password) then Some(u) else None
      case None => None
    }

    /** `get_user_by_id`: the user with this id, or nothing when the id is absent. */
    function GetUserById(id: int): (r: Option<User>)
      reads this
      ensures r.Some? <==> exists k :: 0 <= k < |users| && users[k].id == id
      ensures r.Some? ==> r.value in users && r.value.id == id
    {
      Table.FetchOne(users, (u: User) => u.id == id)
    }

    /** `get_user_by_email`: the user with this e-mail, or nothing when none is registered. */
    function GetUserByEmail(email: string): (r: Option<User>)
      reads this
      ensures r.Some? <==> exists k :: 0 <= k < |users| && users[k].email == email
      ensures r.Some? ==> r.value in users && r.value.email == email
    {
      Table.FetchOne(users, (u: User) => u.email == email)
    }

    /** `list_users`: the whole table in insertion order. */
    function ListUsers(): (r: seq<User>)
      reads this
      ensures r == users
    {
      Table.FetchAll(users, (u: User) => true)
    }
  }
}
