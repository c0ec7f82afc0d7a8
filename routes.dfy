/** The user registry behind `POST /register` and `POST /login`: a table of
    users, a registration that validates, rejects duplicates and appends, and a
    login that looks a user up by email and checks the password. */
module Routes {
  import opened Requests
  import opened Credentials

  /** A stored user row (its database id is not modelled). */
  datatype User = User(username: string, email: string, passwordHash: PasswordHash)

  /** The columns that `filter_by` is applied to. */
  datatype Column = Username | Email

  function Field(u: User, c: Column): string
  {
    match c
    case Username => u.username
    case Email => u.email
  }

  const RegisterFields: set<string> := {"username", "email", "password"}
  const LoginFields: set<string> := {"email", "password"}

  /** No two stored users share a username, and no two share an email. */
  ghost predicate Unique(users: seq<User>)
  {
    forall i, j :: 0 <= i < j < |users| ==>
      users[i].username != users[j].username && users[i].email != users[j].email
  }

  /** `i` is the position of the first user whose column `c` equals `v`. */
  ghost predicate IsFirst(users: seq<User>, c: Column, v: string, i: int)
  {
    0 <= i < |users| && Field(users[i], c) == v &&
    forall j :: 0 <= j < i ==> Field(users[j], c) != v
  }

  /** Some stored user has `v` in column `c`. */
  ghost predicate Taken(users: seq<User>, c: Column, v: string)
  {
    exists i :: 0 <= i < |users| && Field(users[i], c) == v
  }

  /** `User.query.filter_by(c=v).first()`: the position of the first matching row, if any.
      The query has no ORDER BY; insertion order is the model's choice, and it
      matters only when values repeat, which `Unique` rules out. */
  function FilterFirst(users: seq<User>, c: Column, v: string): (r: Option<nat>)
    ensures r.Some? <==> Taken(users, c, v)
    ensures r.Some? ==> IsFirst(users, c, v, r.value)
  {
    if |users| == 0 then None
    else if Field(users[0], c) == v then Some(0)
    else match FilterFirst(users[1..], c, v)
      case None => None
      case Some(k) => Some(k + 1)
  }

  /** The values of column `c` over the whole table. */
  function Values(users: seq<User>, c: Column): (r: set<string>)
    ensures forall v :: v in r <==> Taken(users, c, v)
  {
    set u | u in users :: Field(u, c)
  }

  /** The row `register` builds from a validated payload. */
  function NewUser(payload: Payload, salt: Salt): User
    requires RegisterFields <= payload.Keys
  {
    User(payload["username"], payload["email"], Hash(payload["password"], salt))
  }

  /** The response of a request and the table it leaves behind. */
  datatype Transition = Transition(response: Response, users: seq<User>)

  /** What `register` does to a table: the reference its implementation is proved against. */
  function RegisterOutcome(users: seq<User>, data: Option<Payload>, salt: Salt): (t: Transition)
    ensures t.response == MissingData <==> !Provides(data, RegisterFields)
    ensures t.response == UsernameTaken <==>
      Provides(data, RegisterFields) && Taken(users, Username, data.value["username"])
    ensures t.response == EmailTaken <==>
      Provides(data, RegisterFields) && !Taken(users, Username, data.value["username"]) &&
      Taken(users, Email, data.value["email"])
    ensures t.response == Registered <==>
      Provides(data, RegisterFields) && !Taken(users, Username, data.value["username"]) &&
      !Taken(users, Email, data.value["email"])
    ensures t.response != Registered ==> t.users == users
    ensures t.response == Registered ==> t.users == users + [NewUser(data.value, salt)]
  {
    if !Provides(data, RegisterFields) then Transition(MissingData, users)
    else if data.value["username"] in Values(users, Username) then Transition(UsernameTaken, users)
    else if data.value["email"] in Values(users, Email) then Transition(EmailTaken, users)
    else Transition(Registered, users + [NewUser(data.value, salt)])
  }

  /** `login`: validate the payload, look the user up by email and check the password.
      An unknown email and a wrong password give the same response. */
  function Login(users: seq<User>, data: Option<Payload>): (r: Response)
    ensures r == MissingData <==> !Provides(data, LoginFields)
    ensures r == InvalidCredentials <==>
      Provides(data, LoginFields) &&
      !exists i :: IsFirst(users, Email, data.value["email"], i) &&
                   Check(users[i].passwordHash, data.value["password"])
    ensures r == LoggedIn <==>
      Provides(data, LoginFields) &&
      exists i :: IsFirst(users, Email, data.value["email"], i) &&
                  Check(users[i].passwordHash, data.value["password"])
  {
    if !Provides(data, LoginFields) then MissingData
    else match FilterFirst(users, Email, data.value["email"])
      case None => InvalidCredentials
      case Some(i) =>
        if !Check(users[i].passwordHash, data.value["password"]) then InvalidCredentials
        else LoggedIn
  }

  /** The user table, updated in place by registration. */
  class UserStore {
    var users: seq<User>

    ghost predicate Valid()
      reads this
    {
      Unique(users)
    }

    constructor ()
      ensures Valid() && users == []
    {
      users := [];
    }

    /** `register`: validate the payload, reject a taken username and then a
        taken email, otherwise append the new user. */
    method Register(data: Option<Payload>, salt: Salt) returns (r: Response)
      requires Valid()
      modifies this
      ensures Valid()
      ensures Transition(r, users) == RegisterOutcome(old(users), data, salt)
    {
      if !Provides(data, RegisterFields) {
        return MissingData;
      }
      var payload := data.value;
      if FilterFirst(users, Username, payload["username"]).Some? {
        return UsernameTaken;
      }
      if FilterFirst(users, Email, payload["email"]).Some? {
        return EmailTaken;
      }
      RegisterKeepsUnique(users, data, salt);
      users := users + [NewUser(payload, salt)];
      r := Registered;
    }
  }

  /** Registration keeps usernames unique and emails unique. */
  lemma RegisterKeepsUnique(users: seq<User>, data: Option<Payload>, salt: Salt)
    requires Unique(users)
    ensures Unique(RegisterOutcome(users, data, salt).users)
  {
  }

  /** When both the username and the email are taken, the username message wins. */
  lemma UsernameCheckedFirst(users: seq<User>, data: Option<Payload>, salt: Salt)
    requires Provides(data, RegisterFields)
    requires Taken(users, Username, data.value["username"])
    requires Taken(users, Email, data.value["email"])
    ensures RegisterOutcome(users, data, salt) == Transition(UsernameTaken, users)
  {
  }

  /** Unique emails make the first match the only one, so login succeeds exactly
      when some stored user has the given email and accepts the given password. */
  lemma LoginSucceedsIff(users: seq<User>, data: Option<Payload>)
    requires Unique(users)
    requires Provides(data, LoginFields)
    ensures Login(users, data) == LoggedIn <==>
      exists i :: 0 <= i < |users| && users[i].email == data.value["email"] &&
                  Check(users[i].passwordHash, data.value["password"])
  {
  }

  /** A freshly registered user can log in with the email and password it registered with. */
  lemma LoginAfterRegister(users: seq<User>, data: Option<Payload>, salt: Salt, login: Option<Payload>)
    requires RegisterOutcome(users, data, salt).response == Registered
    requires Provides(login, LoginFields)
    requires login.value["email"] == data.value["email"]
    requires login.value["password"] == data.value["password"]
    ensures Login(RegisterOutcome(users, data, salt).users, login) == LoggedIn
  {
    var after := RegisterOutcome(users, data, salt).users;
    var e := data.value["email"];
    forall j | 0 <= j < |users| ensures Field(after[j], Email) != e {
      assert after[j] == users[j];
    }
    assert IsFirst(after, Email, e, |users|);
    CheckHash(data.value["password"], salt);
  }

  /** A freshly registered user cannot log in with any other password. */
  lemma WrongPasswordAfterRegister(users: seq<User>, data: Option<Payload>, salt: Salt, login: Option<Payload>)
    requires RegisterOutcome(users, data, salt).response == Registered
    requires Provides(login, LoginFields)
    requires login.value["email"] == data.value["email"]
    requires login.value["password"] != data.value["password"]
    ensures Login(RegisterOutcome(users, data, salt).users, login) == InvalidCredentials
  {
  }

  /** After a successful registration, registering the same username again is
      refused with the username message, and registering a new username with
      the same email is refused with the email message; neither changes the table. */
  lemma DuplicateRegistration(users: seq<User>, first: Option<Payload>, second: Option<Payload>, salt1: Salt, salt2: Salt)
    requires RegisterOutcome(users, first, salt1).response == Registered
    requires Provides(second, RegisterFields)
    ensures var after := RegisterOutcome(users, first, salt1).users;
      (second.value["username"] == first.value["username"] ==>
        RegisterOutcome(after, second, salt2) == Transition(UsernameTaken, after)) &&
      (!Taken(after, Username, second.value["username"]) && second.value["email"] == first.value["email"] ==>
        RegisterOutcome(after, second, salt2) == Transition(EmailTaken, after))
  {
    var after := RegisterOutcome(users, first, salt1).users;
    var n := |users|;
    assert Field(after[n], Username) == first.value["username"];
    assert Field(after[n], Email) == first.value["email"];
    assert after[n] in after;
  }
}
