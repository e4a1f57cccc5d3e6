/** The user administration service (backend/controllers/userController.js): create,
    list, edit and delete users. A user's password is stored as the hash the model's
    pre-save hook computes, given here as the function `hash`. */
module UserController {
  import opened Common
  import opened Sequences

  /** A stored user. `createdAt` may be missing on records that never had it. */
  datatype User = User(
    id: Id,
    email: string,
    passwordHash: string,
    role: string,
    selectedLocation: Option<string>,
    createdAt: Option<int>)

  predicate ValidRole(role: string) {
    role == "admin" || role == "user"
  }

  /** The collection's invariant: ids and emails unique, every role one of the two. */
  predicate ValidTable(t: seq<User>) {
    && (forall i :: 0 <= i < |t| ==> ValidRole(t[i].role))
    && (forall i, j :: 0 <= i < j < |t| ==> t[i].id != t[j].id && t[i].email != t[j].email)
  }

  /** `role.toLowerCase() === 'admin' ? 'admin' : 'user'` */
  function NormaliseRole(role: string): (r: string)
    ensures ValidRole(r)
    ensures r == "admin" <==> ToLower(role) == "admin"
  {
    if ToLower(role) == "admin" then "admin" else "user"
  }

  /** Normalising a normalised role changes nothing. */
  lemma NormaliseRoleIdempotent(role: string)
    ensures NormaliseRole(NormaliseRole(role)) == NormaliseRole(role)
  {
    assert ToLower("admin") == "admin";
    assert ToLower("user") != "admin";
  }

  /** `User.findOne({ email })` */
  function FindByEmail(t: seq<User>, email: string): (r: Option<nat>)
    ensures r.Some? ==> r.value < |t| && t[r.value].email == email
    ensures r.Some? ==> forall j :: 0 <= j < r.value ==> t[j].email != email
    ensures r.None? <==> forall i :: 0 <= i < |t| ==> t[i].email != email
  {
    FindFirst(t, (x: User) => x.email == email)
  }

  /** `User.findById(id)` */
  function FindById(t: seq<User>, id: Id): (r: Option<nat>)
    ensures r.Some? ==> r.value < |t| && t[r.value].id == id
    ensures r.Some? ==> forall j :: 0 <= j < r.value ==> t[j].id != id
    ensures r.None? <==> forall i :: 0 <= i < |t| ==> t[i].id != id
  {
    FindFirst(t, (x: User) => x.id == id)
  }

  /** What the creation answers: no password in it. */
  datatype UserView = UserView(id: Id, email: string, role: string)

  /** One row of the user listing. */
  datatype UserListing = UserListing(id: Id, email: string, role: string, status: string, joinDate: string)

  /** The listing of one user; `isoString` is `Date.prototype.toISOString`. */
  function Listing(u: User, isoString: int -> string): (r: UserListing)
    ensures r.id == u.id && r.email == u.email && r.role == u.role
    ensures r.status == (if Truthy(u.selectedLocation) then "active" else "inactive")
    ensures u.createdAt.None? ==> r.joinDate == "Unknown"
    ensures u.createdAt.Some? ==>
      && 'T' !in r.joinDate && |r.joinDate| <= |isoString(u.createdAt.value)|
      && r.joinDate == isoString(u.createdAt.value)[..|r.joinDate|]
      && (|r.joinDate| < |isoString(u.createdAt.value)| ==> isoString(u.createdAt.value)[|r.joinDate|] == 'T')
  {
    UserListing(u.id, u.email, u.role,
      if Truthy(u.selectedLocation) then "active" else "inactive",
      if u.createdAt.Some? then SplitFirst(isoString(u.createdAt.value), 'T') else "Unknown")
  }

  /** `getAllUsers`: one listing per user, in store order. */
  function GetAllUsers(t: seq<User>, isoString: int -> string): (r: seq<UserListing>)
    ensures |r| == |t|
    ensures forall i :: 0 <= i < |t| ==> r[i] == Listing(t[i], isoString)
  {
    if t == [] then [] else [Listing(t[0], isoString)] + GetAllUsers(t[1..], isoString)
  }

  datatype Outcome<T> = Outcome(table: seq<User>, response: Response<T>)

  const UserNotFound := "User not found"

  /** `createUser`: all three fields are required, the email must be new; the stored
      user has the hashed password and the normalised role, and the answer omits the
      password. */
  function Create(t: seq<User>, newId: Id, email: Option<string>, password: Option<string>, role: Option<string>,
                  hash: string -> string, now: int): (o: Outcome<UserView>)
    ensures !Truthy(email) || !Truthy(password) || !Truthy(role) ==>
      o.response == Err(400, "Email, password, and role are required")
    ensures Truthy(email) && Truthy(password) && Truthy(role) && FindByEmail(t, email.value).Some? ==>
      o.response == Err(400, "Email already exists")
    ensures o.response.Err? ==> o.table == t
    // Three non-empty fields and a new email: the user is created.
    ensures o.response.Ok? <==>
      Truthy(email) && Truthy(password) && Truthy(role) && FindByEmail(t, email.value).None?
    ensures o.response.Ok? ==>
      && FindByEmail(t, email.value).None?
      && o.response == Ok(201, UserView(newId, email.value, NormaliseRole(role.value)))
      && o.table == t + [User(newId, email.value, hash(password.value), NormaliseRole(role.value), None, Some(now))]
  {
    if !Truthy(email) || !Truthy(password) || !Truthy(role) then
      Outcome(t, Err(400, "Email, password, and role are required"))
    else if FindByEmail(t, email.value).Some? then Outcome(t, Err(400, "Email already exists"))
    else
      var user := User(newId, email.value, hash(password.value), NormaliseRole(role.value), None, Some(now));
      Outcome(t + [user], Ok(201, UserView(newId, email.value, user.role)))
  }

  /** `editUser`: email and role are required, the user must exist; email and role are
      replaced, the password only when a non-empty one is given. An email another user
      holds violates the unique index and fails the save. */
  function Edit(t: seq<User>, id: Id, email: Option<string>, role: Option<string>, password: Option<string>,
                hash: string -> string, isoString: int -> string): (o: Outcome<UserListing>)
    ensures !Truthy(email) || !Truthy(role) ==> o.response == Err(400, "Email and role are required")
    ensures Truthy(email) && Truthy(role) && FindById(t, id).None? ==> o.response == Err(404, UserNotFound)
    ensures o.response.Err? ==> o.table == t
    // A stored user and an email no other user holds first: the edit succeeds.
    ensures o.response.Ok? <==>
      && Truthy(email) && Truthy(role) && FindById(t, id).Some?
      && (FindByEmail(t, email.value).None? || FindByEmail(t, email.value) == FindById(t, id))
    ensures o.response.Ok? ==>
      && FindById(t, id).Some?
      && |o.table| == |t|
      && var i := FindById(t, id).value;
      && var u := o.table[i];
      && o.table == t[i := u]
      && u.id == id && u.email == email.value && u.role == NormaliseRole(role.value)
      && u.passwordHash == (if Truthy(password) then hash(password.value) else t[i].passwordHash)
      && u.selectedLocation == t[i].selectedLocation && u.createdAt == t[i].createdAt
      && o.response == Ok(200, Listing(u, isoString))
    ensures ValidTable(t) && Truthy(email) && Truthy(role) && FindById(t, id).Some? ==>
      ((exists k :: 0 <= k < |t| && k != FindById(t, id).value && t[k].email == email.value) <==>
       o.response == Err(500, "Server error while updating user"))
  {
    if !Truthy(email) || !Truthy(role) then Outcome(t, Err(400, "Email and role are required"))
    else
      match FindById(t, id)
      case None => Outcome(t, Err(404, UserNotFound))
      case Some(i) =>
        match FindByEmail(t, email.value)
        case Some(j) =>
          if j != i then Outcome(t, Err(500, "Server error while updating user"))
          else EditAt(t, i, email.value, role.value, password, hash, isoString)
        case None => EditAt(t, i, email.value, role.value, password, hash, isoString)
  }

  function EditAt(t: seq<User>, i: nat, email: string, role: string, password: Option<string>,
                  hash: string -> string, isoString: int -> string): (o: Outcome<UserListing>)
    requires i < |t|
  {
    var u := t[i].(email := email, role := NormaliseRole(role),
      passwordHash := if Truthy(password) then hash(password.value) else t[i].passwordHash);
    Outcome(t[i := u], Ok(200, Listing(u, isoString)))
  }

  /** A found user whose email is free or already theirs is edited in place. */
  lemma EditFound(t: seq<User>, id: Id, email: string, role: string, password: Option<string>,
                  hash: string -> string, isoString: int -> string, i: nat)
    requires email != "" && role != "" && FindById(t, id) == Some(i)
    requires FindByEmail(t, email).None? || FindByEmail(t, email) == Some(i)
    ensures i < |t|
    ensures Edit(t, id, Some(email), Some(role), password, hash, isoString) == EditAt(t, i, email, role, password, hash, isoString)
  {
  }

  /** An edit keeps ids and emails unique and roles valid. */
  lemma EditKeepsValid(t: seq<User>, id: Id, email: Option<string>, role: Option<string>, password: Option<string>,
                       hash: string -> string, isoString: int -> string)
    requires ValidTable(t)
    ensures ValidTable(Edit(t, id, email, role, password, hash, isoString).table)
  {
    var o := Edit(t, id, email, role, password, hash, isoString);
    if o.response.Ok? {
      var i := FindById(t, id).value;
      var j := FindByEmail(t, email.value);
      assert j.Some? ==> j.value == i;
      assert forall k :: 0 <= k < |t| && k != i ==> t[k].email != email.value;
    }
  }

  /** `deleteUser`: an unknown id is 404; otherwise exactly that user is removed. */
  function Delete(t: seq<User>, id: Id): (o: Outcome<string>)
    ensures o.response.Err? <==> FindById(t, id).None?
    ensures o.response.Err? ==> o.response == Err(404, UserNotFound) && o.table == t
    ensures o.response.Ok? ==>
      && o.response == Ok(200, "User deleted successfully")
      && o.table == RemoveAt(t, FindById(t, id).value)
  {
    match FindById(t, id)
    case None => Outcome(t, Err(404, UserNotFound))
    case Some(i) => Outcome(RemoveAt(t, i), Ok(200, "User deleted successfully"))
  }

  /** With unique ids, a deletion leaves no user with the id and every other user. */
  lemma DeleteRemovesOnlyThatUser(t: seq<User>, id: Id)
    requires ValidTable(t) && FindById(t, id).Some?
    ensures var r := Delete(t, id).table;
      && ValidTable(r)
      && (forall u :: u in r ==> u.id != id)
      && (forall u :: u in t && u.id != id ==> u in r)
  {
    var i := FindById(t, id).value;
    var r := RemoveAt(t, i);
    RemoveAtMembers(t, i);
    forall a, b | 0 <= a < b < |r| ensures r[a].id != r[b].id && r[a].email != r[b].email {
      var a' := if a < i then a else a + 1;
      var b' := if b < i then b else b + 1;
      assert r[a] == t[a'] && r[b] == t[b'];
    }
    forall u | u in r ensures u.id != id {
      var k :| 0 <= k < |r| && r[k] == u;
      var k' := if k < i then k else k + 1;
      assert r[k] == t[k'];
    }
  }

  /** The User collection with the operations that change it. */
  class UserStore {
    var users: seq<User>
    var nextId: Id

    ghost predicate Valid()
      reads this
    {
      && ValidTable(users)
      && forall i :: 0 <= i < |users| ==> users[i].id < nextId
    }

    constructor ()
      ensures Valid() && users == [] && nextId == 0
    {
      users := [];
      nextId := 0;
    }

    method FindOneByEmail(email: string) returns (index: Option<nat>)
      ensures index == FindByEmail(users, email)
    {
      var i := 0;
      while i < |users|
        invariant 0 <= i <= |users|
        invariant forall j :: 0 <= j < i ==> users[j].email != email
      {
        if users[i].email == email {
          return Some(i);
        }
        i := i + 1;
      }
      return None;
    }

    method FindOneById(id: Id) returns (index: Option<nat>)
      ensures index == FindById(users, id)
    {
      var i := 0;
      while i < |users|
        invariant 0 <= i <= |users|
        invariant forall j :: 0 <= j < i ==> users[j].id != id
      {
        if users[i].id == id {
          return Some(i);
        }
        i := i + 1;
      }
      return None;
    }

    /** `createUser` */
    method CreateUser(email: Option<string>, password: Option<string>, role: Option<string>,
                      hash: string -> string, now: int) returns (response: Response<UserView>)
      requires Valid()
      modifies this
      ensures Valid()
      ensures users == Create(old(users), old(nextId), email, password, role, hash, now).table
      ensures response == Create(old(users), old(nextId), email, password, role, hash, now).response
    {
      if !Truthy(email) || !Truthy(password) || !Truthy(role) {
        return Err(400, "Email, password, and role are required");
      }
      var existing := FindOneByEmail(email.value);
      if existing.Some? {
        return Err(400, "Email already exists");
      }
      var user := User(nextId, email.value, hash(password.value), NormaliseRole(role.value), None, Some(now));
      users := users + [user];
      nextId := nextId + 1;
      response := Ok(201, UserView(user.id, user.email, user.role));
    }

    /** `editUser`: the fields are assigned one by one, then saved. */
    method EditUser(id: Id, email: Option<string>, role: Option<string>, password: Option<string>,
                    hash: string -> string, isoString: int -> string) returns (response: Response<UserListing>)
      requires Valid()
      modifies this
      ensures Valid() && nextId == old(nextId)
      ensures users == Edit(old(users), id, email, role, password, hash, isoString).table
      ensures response == Edit(old(users), id, email, role, password, hash, isoString).response
    {
      if !Truthy(email) || !Truthy(role) {
        return Err(400, "Email and role are required");
      }
      var index := FindOneById(id);
      if index.None? {
        return Err(404, UserNotFound);
      }
      var holder := FindOneByEmail(email.value);
      if holder.Some? && holder.value != index.value {
        return Err(500, "Server error while updating user");
      }
      EditKeepsValid(users, id, email, role, password, hash, isoString);
      EditFound(users, id, email.value, role.value, password, hash, isoString, index.value);
      response := SaveEdit(index.value, email.value, role.value, password, hash, isoString);
    }

    /** The edit of the found user: its fields are set one by one, then it is saved. */
    method SaveEdit(i: nat, email: string, role: string, password: Option<string>,
                    hash: string -> string, isoString: int -> string) returns (response: Response<UserListing>)
      requires i < |users|
      modifies this
      ensures nextId == old(nextId)
      ensures users == EditAt(old(users), i, email, role, password, hash, isoString).table
      ensures response == EditAt(old(users), i, email, role, password, hash, isoString).response
    {
      var user := users[i];
      user := user.(email := email);
      user := user.(role := NormaliseRole(role));
      if Truthy(password) {
        user := user.(passwordHash := hash(password.value));
      }
      users := users[i := user];
      response := Ok(200, Listing(user, isoString));
    }

    /** `deleteUser` */
    method DeleteUser(id: Id) returns (response: Response<string>)
      requires Valid()
      modifies this
      ensures Valid() && nextId == old(nextId)
      ensures users == Delete(old(users), id).table
      ensures response == Delete(old(users), id).response
    {
      var index := FindOneById(id);
      if index.None? {
        return Err(404, UserNotFound);
      }
      DeleteRemovesOnlyThatUser(users, id);
      RemoveAtMembers(users, index.value);
      users := RemoveAt(users, index.value);
      response := Ok(200, "User deleted successfully");
    }
  }
}
