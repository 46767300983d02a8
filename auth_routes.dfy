/** Registration and login of server/src/routes/auth.js. Password hashing
    (`bcrypt.hash`, `bcrypt.compare`) and token signing (`jwt.sign`) are
    library calls and enter as the functions `hash`, `compare` and `sign`;
    `adminSecret` is the configured ADMIN_SIGNUP_KEY (`None` when unset). */
module AuthRoutes {
  import opened Common
  import opened AuthMiddleware
  import U = UserModel
  import Db

  /** The user projection both routes answer with; it has no password hash. */
  datatype PublicUser = PublicUser(id: string, name: string, email: string, role: string, town: string)

  datatype Session = Session(token: string, user: PublicUser)

  /** `signToken`: the claims are the user's id, role and email, and nothing
      else (in particular, not the town). */
  function TokenClaims(u: U.User): (c: Claims)
    ensures c.id == u.id && c.role == u.role && c.email == u.email
  {
    Claims(u.id, u.role, u.email)
  }

  function Public(u: U.User): PublicUser
  {
    PublicUser(u.id, u.name, u.email, u.role, u.town)
  }

  function SessionFor(u: U.User, sign: Claims -> string): Session
  {
    Session(sign(TokenClaims(u)), Public(u))
  }

  /** `role === "admin"` on the request body. */
  predicate AsksAdmin(body: Obj)
  {
    "role" in body && body["role"] == JStr("admin")
  }

  /** The admin key check fails: no truthy key, or one that differs from the
      configured secret (every key differs from an unset secret). */
  predicate BadAdminKey(body: Obj, adminSecret: Option<string>)
  {
    !TruthyAt(body, "adminKey") || adminSecret.None? || body["adminKey"] != JStr(adminSecret.value)
  }

  /** The outcome of a registration: the answer and the user inserted, if any. */
  datatype Registration = Registration(response: Response<Session>, inserted: Option<U.User>)

  /** The `register` handler's decision chain over the current users. A
      field that should be a string but is some other JSON value answers
      500 here (mongoose's casts of numbers and booleans, and an object
      email read as a query operator, are not modelled). */
  function Register(users: seq<U.User>, body: Obj, adminSecret: Option<string>, newId: string,
                    hash: string -> string, sign: Claims -> string): (r: Registration)
    ensures !TruthyAt(body, "name") || !TruthyAt(body, "email") || !TruthyAt(body, "password") ==>
      r == Registration(Fail(400, "Missing fields"), None)
    ensures r.inserted.Some? <==> r.response.Created?
    ensures r.response.Created? ==>
      && TruthyAt(body, "name") && TruthyAt(body, "email") && TruthyAt(body, "password")
      && body["email"].JStr? && Db.FindByEmail(users, body["email"].s).None?
      && var u := r.inserted.value;
         && U.Valid(u) && u.id == newId && u.email == Lower(body["email"].s)
         && body["password"].JStr? && u.passwordHash == hash(body["password"].s)
         && (u.role == "admin" <==> AsksAdmin(body)) && (u.role != "admin" ==> u.role == "user")
         && (u.role == "admin" ==> !BadAdminKey(body, adminSecret) && TruthyAt(body, "town") && body["town"].JStr? && u.town == body["town"].s)
         && (u.role != "admin" ==> u.town == "")
         && r.response.body == SessionFor(u, sign)
    ensures (TruthyAt(body, "name") && TruthyAt(body, "email") && TruthyAt(body, "password")
             && AsksAdmin(body) && !BadAdminKey(body, adminSecret) && !TruthyAt(body, "town")) ==>
      r == Registration(Fail(400, "Town is required for admin signup"), None)
    ensures (TruthyAt(body, "name") && TruthyAt(body, "email") && TruthyAt(body, "password")
             && !(AsksAdmin(body) && (BadAdminKey(body, adminSecret) || !TruthyAt(body, "town")))
             && body["email"].JStr? && Db.FindByEmail(users, body["email"].s).Some?) ==>
      r == Registration(Fail(409, "Email already in use"), None)
    ensures r.response.Created? <==>
      && TruthyAt(body, "name") && TruthyAt(body, "email") && TruthyAt(body, "password")
      && body["name"].JStr? && body["email"].JStr? && body["password"].JStr?
      && Trim(body["name"].s) != "" && hash(body["password"].s) != ""
      && (AsksAdmin(body) ==> !BadAdminKey(body, adminSecret) && TruthyAt(body, "town") && body["town"].JStr?)
      && Db.FindByEmail(users, body["email"].s).None?
    ensures r.response == Fail(403, "Invalid admin key") <==>
      TruthyAt(body, "name") && TruthyAt(body, "email") && TruthyAt(body, "password")
      && AsksAdmin(body) && BadAdminKey(body, adminSecret)
  {
    if !TruthyAt(body, "name") || !TruthyAt(body, "email") || !TruthyAt(body, "password") then
      Registration(Fail(400, "Missing fields"), None)
    else if AsksAdmin(body) && BadAdminKey(body, adminSecret) then
      Registration(Fail(403, "Invalid admin key"), None)
    else if AsksAdmin(body) && !TruthyAt(body, "town") then
      Registration(Fail(400, "Town is required for admin signup"), None)
    else if !body["email"].JStr? then
      Registration(Fail(500, "Server error"), None)
    else if Db.FindByEmail(users, body["email"].s).Some? then
      Registration(Fail(409, "Email already in use"), None)
    else if !body["password"].JStr? || !body["name"].JStr? || (AsksAdmin(body) && !body["town"].JStr?) then
      Registration(Fail(500, "Server error"), None)
    else
      var role := if AsksAdmin(body) then "admin" else "user";
      var town := if AsksAdmin(body) then body["town"].s else "";
      var u := U.NewUser(newId, body["name"].s, body["email"].s, hash(body["password"].s), role, town);
      U.NewUserValidIff(newId, body["name"].s, body["email"].s, hash(body["password"].s), role, town);
      if !U.Valid(u) then Registration(Fail(500, "Server error"), None)
      else Registration(Created(SessionFor(u, sign)), Some(u))
  }

  /** The `login` handler: the session of the user with the (lower-cased)
      email when the password matches, and the same 401 message whether the
      email is unknown or the password does not match. An email that is not
      a JSON string answers 500 here (see `Register`). */
  function Login(users: seq<U.User>, body: Obj, compare: (string, string) -> bool, sign: Claims -> string): (r: Response<Session>)
    ensures !TruthyAt(body, "email") || !TruthyAt(body, "password") ==> r == Fail(400, "Missing fields")
    ensures r.Ok? <==>
      && TruthyAt(body, "email") && TruthyAt(body, "password") && body["email"].JStr? && body["password"].JStr?
      && var i := Db.FindByEmail(users, body["email"].s);
         i.Some? && compare(body["password"].s, users[i.value].passwordHash)
    ensures r.Ok? ==> r.body == SessionFor(users[Db.FindByEmail(users, body["email"].s).value], sign)
    ensures (TruthyAt(body, "email") && TruthyAt(body, "password") && body["email"].JStr?
             && Db.FindByEmail(users, body["email"].s).None?) ==> r == Fail(401, "Invalid credentials")
    ensures (TruthyAt(body, "email") && TruthyAt(body, "password") && body["email"].JStr? && body["password"].JStr?
             && var i := Db.FindByEmail(users, body["email"].s);
                i.Some? && !compare(body["password"].s, users[i.value].passwordHash)) ==> r == Fail(401, "Invalid credentials")
    ensures r.Fail? && r.status == 401 ==> r.message == "Invalid credentials"
  {
    if !TruthyAt(body, "email") || !TruthyAt(body, "password") then Fail(400, "Missing fields")
    else if !body["email"].JStr? then Fail(500, "Server error")
    else match Db.FindByEmail(users, body["email"].s)
      case None => Fail(401, "Invalid credentials")
      case Some(i) =>
        if !body["password"].JStr? then Fail(500, "Server error")
        else if !compare(body["password"].s, users[i].passwordHash) then Fail(401, "Invalid credentials")
        else Ok(SessionFor(users[i], sign))
  }

  /** A registration leaves the user collection valid: the new email is
      lower-cased and differs from every stored one. */
  lemma RegisterKeepsCollection(users: seq<U.User>, body: Obj, adminSecret: Option<string>, newId: string,
                                hash: string -> string, sign: Claims -> string)
    requires U.Collection(users)
    requires forall i :: 0 <= i < |users| ==> users[i].id != newId
    ensures var r := Register(users, body, adminSecret, newId, hash, sign);
      r.inserted.Some? ==> U.Collection(users + [r.inserted.value])
  {
    var r := Register(users, body, adminSecret, newId, hash, sign);
    if r.inserted.Some? {
      var u := r.inserted.value;
      U.LowerIdempotent(body["email"].s);
      U.AppendKeepsCollection(users, u);
    }
  }

  /** Someone who has just registered can log in with the same email and
      password, when `compare` accepts a password against its own hash. */
  lemma RegisterThenLogin(users: seq<U.User>, body: Obj, adminSecret: Option<string>, newId: string,
                          hash: string -> string, compare: (string, string) -> bool, sign: Claims -> string)
    requires U.Collection(users)
    requires forall p :: compare(p, hash(p))
    requires Register(users, body, adminSecret, newId, hash, sign).response.Created?
    ensures var u := Register(users, body, adminSecret, newId, hash, sign).inserted.value;
      Login(users + [u], map["email" := body["email"], "password" := body["password"]], compare, sign)
        == Ok(SessionFor(u, sign))
  {
    var r := Register(users, body, adminSecret, newId, hash, sign);
    var u := r.inserted.value;
    var e := body["email"].s;
    var p := body["password"].s;
    assert u.email == Lower(e) && u.passwordHash == hash(p);
    var us := users + [u];
    var lb := map["email" := body["email"], "password" := body["password"]];
    assert TruthyAt(lb, "email") && TruthyAt(lb, "password") && lb["email"] == JStr(e) && lb["password"] == JStr(p);
    forall i | 0 <= i < |users| ensures us[i].email != Lower(e) {
      assert us[i] == users[i];
    }
    var found := Db.FindByEmail(us, e);
    assert us[|users|] == u;
    assert found == Some(|users|);
    assert compare(p, us[|users|].passwordHash);
  }

  /** The state change of a registration. */
  method RegisterHandler(db: Db.Store, body: Obj, adminSecret: Option<string>, newId: string,
                         hash: string -> string, sign: Claims -> string) returns (r: Response<Session>)
    requires db.Valid()
    requires forall i :: 0 <= i < |db.users| ==> db.users[i].id != newId
    modifies db
    ensures db.Valid()
    ensures var reg := Register(old(db.users), body, adminSecret, newId, hash, sign);
      && r == reg.response
      && db.users == (if reg.inserted.Some? then old(db.users) + [reg.inserted.value] else old(db.users))
      && db.complaints == old(db.complaints)
  {
    var reg := Register(db.users, body, adminSecret, newId, hash, sign);
    RegisterKeepsCollection(db.users, body, adminSecret, newId, hash, sign);
    if reg.inserted.Some? {
      db.users := db.users + [reg.inserted.value];
    }
    r := reg.response;
  }
}
