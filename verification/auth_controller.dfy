/** The login service (backend/controllers/authController.js). Password comparison
    (bcrypt) and token signing (JWT) are libraries outside the model: `matches(password,
    hash)` and `sign(claims)` are parameters. */
module AuthController {
  import opened Common
  import opened UserController

  /** `expiresIn: '28d'`, in seconds. */
  const TokenLifetime := 28 * 24 * 60 * 60

  /** What the token carries. */
  datatype Claims = Claims(userId: Id, role: string, expiresIn: nat)

  /** The `user` part of the success reply: no password. */
  datatype LoginUser = LoginUser(id: Id, email: string, selectedLocation: Option<string>, role: string)

  datatype LoginReply = LoginReply(token: string, user: LoginUser)

  const InvalidCredentials := "Invalid email or password"

  /** `User.findOne({ email })`: the first user the filter matches. A missing email is
      undefined and its condition is dropped, so then the first stored user is found. */
  function FindLoginUser(t: seq<User>, email: Option<string>): (r: Option<nat>)
    ensures r.Some? ==> r.value < |t| && Holds(email, t[r.value].email)
    ensures r.Some? ==> forall j :: 0 <= j < r.value ==> !Holds(email, t[j].email)
    ensures r.None? <==> forall j :: 0 <= j < |t| ==> !Holds(email, t[j].email)
  {
    if email.Some? then FindByEmail(t, email.value)
    else if |t| > 0 then Some(0)
    else None
  }

  /** `login`: an unknown email and a wrong password give the same 401, and so does an
      empty store; comparing a missing password throws inside bcrypt (500). On success the supplied location, if
      truthy, replaces the stored one, and a 28-day token for the user's id and role is
      issued. */
  function Login(t: seq<User>, email: Option<string>, password: Option<string>, selectedLocation: Option<string>,
                 matches: (string, string) -> bool, sign: Claims -> string): (o: Outcome<LoginReply>)
    ensures FindLoginUser(t, email).None? ==> o.response == Err(401, InvalidCredentials)
    ensures FindLoginUser(t, email).Some? ==>
      var u := t[FindLoginUser(t, email).value];
      && (password.None? ==> o.response == Err(500, "Server error"))
      && (password.Some? && !matches(password.value, u.passwordHash) ==> o.response == Err(401, InvalidCredentials))
    ensures o.response.Err? ==> o.table == t
    // A stored email, or any stored user when the email is missing, with a matching
    // password logs in.
    ensures o.response.Ok? <==>
      && password.Some? && FindLoginUser(t, email).Some?
      && matches(password.value, t[FindLoginUser(t, email).value].passwordHash)
    ensures ValidTable(t) ==> ValidTable(o.table)
    ensures o.response.Ok? ==>
      && password.Some? && FindLoginUser(t, email).Some?
      && var i := FindLoginUser(t, email).value;
      && matches(password.value, t[i].passwordHash)
      && |o.table| == |t|
      && o.table == t[i := o.table[i]]
      && o.table[i] == t[i].(selectedLocation := if Truthy(selectedLocation) then selectedLocation else t[i].selectedLocation)
      && o.response.status == 200
      && o.response.body.token == sign(Claims(t[i].id, t[i].role, TokenLifetime))
      && o.response.body.user == LoginUser(t[i].id, t[i].email, o.table[i].selectedLocation, t[i].role)
  {
    match FindLoginUser(t, email)
    case None => Outcome(t, Err(401, InvalidCredentials))
    case Some(i) =>
      if password.None? then Outcome(t, Err(500, "Server error"))
      else if !matches(password.value, t[i].passwordHash) then Outcome(t, Err(401, InvalidCredentials))
      else
        var u := t[i].(selectedLocation := if Truthy(selectedLocation) then selectedLocation else t[i].selectedLocation);
        var token := sign(Claims(u.id, u.role, TokenLifetime));
        Outcome(t[i := u], Ok(200, LoginReply(token, LoginUser(u.id, u.email, u.selectedLocation, u.role))))
  }

  /** A caller cannot tell an unknown email from a wrong password: both answers are
      the same, and neither changes the store. */
  lemma {:induction false} UnknownEmailLooksLikeWrongPassword(
    t: seq<User>, unknown: string, known: string, password: string, selectedLocation: Option<string>,
    matches: (string, string) -> bool, sign: Claims -> string)
    requires forall i :: 0 <= i < |t| ==> t[i].email != unknown
    requires exists i :: 0 <= i < |t| && t[i].email == known && !matches(password, t[i].passwordHash)
    requires ValidTable(t)
    ensures Login(t, Some(unknown), Some(password), selectedLocation, matches, sign)
         == Login(t, Some(known), Some(password), selectedLocation, matches, sign)
  {
    var k :| 0 <= k < |t| && t[k].email == known && !matches(password, t[k].passwordHash);
    var i := FindLoginUser(t, Some(known)).value;
    assert i == k;
  }

  /** A body without an email logs in as the first stored user whenever the password
      matches theirs. */
  lemma MissingEmailLogsInFirstUser(t: seq<User>, password: string, selectedLocation: Option<string>,
                                    matches: (string, string) -> bool, sign: Claims -> string)
    requires |t| > 0 && matches(password, t[0].passwordHash)
    ensures var o := Login(t, None, Some(password), selectedLocation, matches, sign);
      o.response.Ok? && o.response.body.user.id == t[0].id && o.response.body.user.email == t[0].email
  {
  }

  /** `login` over the stored users: the found user's location is assigned and saved. */
  method LoginUserIn(store: UserStore, email: Option<string>, password: Option<string>, selectedLocation: Option<string>,
                     matches: (string, string) -> bool, sign: Claims -> string) returns (response: Response<LoginReply>)
    requires store.Valid()
    modifies store
    ensures store.Valid() && store.nextId == old(store.nextId)
    ensures store.users == Login(old(store.users), email, password, selectedLocation, matches, sign).table
    ensures response == Login(old(store.users), email, password, selectedLocation, matches, sign).response
  {
    var index: Option<nat> := if |store.users| > 0 then Some(0) else None;
    if email.Some? {
      index := store.FindOneByEmail(email.value);
    }
    if index.None? {
      return Err(401, InvalidCredentials);
    }
    var i := index.value;
    if password.None? {
      return Err(500, "Server error");
    }
    if !matches(password.value, store.users[i].passwordHash) {
      return Err(401, InvalidCredentials);
    }
    var user := store.users[i];
    if Truthy(selectedLocation) {
      user := user.(selectedLocation := selectedLocation);
    }
    store.users := store.users[i := user];
    var token := sign(Claims(user.id, user.role, TokenLifetime));
    response := Ok(200, LoginReply(token, LoginUser(user.id, user.email, user.selectedLocation, user.role)));
  }
}
