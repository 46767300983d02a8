/** The request plumbing and the offline account fallbacks of
    frontend/src/utils/api.js: the headers every call carries, how a failed
    answer becomes an error, and the local user registry ("cc_users") that
    `register` and `login` fall back to when the server cannot be reached.
    `fetch` enters as the `Reply` it produced; `Date.now()` as `now`. */
module ApiAuth {
  import opened Common
  import opened Browser
  import AuthMiddleware

  const UsersKey: string := "cc_users"
  const TokenKey: string := "authToken"

  // ---------------------------------------------------------------------
  // getHeaders and apiCall

  /** `getHeaders()` for the stored token. */
  function Headers(token: Option<string>): (r: map<string, string>)
    ensures "Content-Type" in r && r["Content-Type"] == "application/json"
    ensures "Authorization" in r <==> Present(token)
    ensures "Authorization" in r ==> r["Authorization"] == "Bearer " + token.value
    ensures r.Keys <= {"Content-Type", "Authorization"}
  {
    var base := map["Content-Type" := "application/json"];
    if Present(token) then base["Authorization" := "Bearer " + token.value] else base
  }

  /** The header the client builds is one the server's guard accepts: the
      guard hands exactly the stored token to `verify`. */
  lemma HeadersReachGuard(token: string, verify: string -> Option<AuthMiddleware.Claims>)
    requires token != ""
    ensures var h := Headers(Some(token))["Authorization"];
      AuthMiddleware.Decide(Some(h), verify) ==
        match verify(token)
        case None => AuthMiddleware.Reject("Invalid token")
        case Some(c) => AuthMiddleware.Next(c)
  {
    var h := Headers(Some(token))["Authorization"];
    assert h == AuthMiddleware.BearerPrefix + token;
    assert h[..|AuthMiddleware.BearerPrefix|] == AuthMiddleware.BearerPrefix;
    assert h[|AuthMiddleware.BearerPrefix|..] == token;
  }

  /** What `fetch` and `response.json()` produced: no connection, or an
      answer with its `ok` flag and JSON body. */
  datatype Reply = NetworkDown | Answer(ok: bool, data: Obj)

  /** A thrown error: its `name` and `message`. */
  datatype Error = Error(name: string, message: string)

  datatype Outcome<+T> = Resolved(value: T) | Rejected(error: Error)

  /** `apiCall`: an unreachable server is fetch's `TypeError`; a non-ok
      answer throws with the server's message, or "API error" when it sent
      none; an ok answer resolves to its body. */
  function ApiCall(reply: Reply): (r: Outcome<Obj>)
    ensures reply.NetworkDown? ==> r == Rejected(Error("TypeError", "Failed to fetch"))
    ensures reply.Answer? && reply.ok ==> r == Resolved(reply.data)
    ensures reply.Answer? && !reply.ok ==>
      && r.Rejected? && r.error.name == "Error"
      && (TruthyAt(reply.data, "message") ==> r.error.message == JsString(reply.data["message"]))
      && (!TruthyAt(reply.data, "message") ==> r.error.message == "API error")
  {
    match reply
    case NetworkDown => Rejected(Error("TypeError", "Failed to fetch"))
    case Answer(ok, data) =>
      if ok then Resolved(data)
      else Rejected(Error("Error", if TruthyAt(data, "message") then JsString(data["message"]) else "API error"))
  }

  /** The test `register` and `login` use to decide they are offline. */
  predicate IsNetworkError(e: Error)
  {
    e.message == "Failed to fetch" || e.name == "TypeError"
  }

  // ---------------------------------------------------------------------
  // Offline register and login

  predicate HasEmail(u: Obj, email: string)
  {
    "email" in u && u["email"] == JStr(email)
  }

  /** `x || ""` (or `x || "user"`) for a string argument. */
  function OrDefault(x: string, default: string): string
  {
    if x == "" then default else x
  }

  /** The user record the offline `register` stores: lower-cased email, the
      password in clear, and the role as requested ("user" when empty). */
  function LocalUser(name: string, email: string, password: string, role: string, town: string,
                     empId: string, department: string, now: nat): (u: Obj)
    ensures u.Keys == {"id", "name", "email", "password", "role", "town", "empId", "department"}
    ensures u["id"] == JStr("local-" + NatToString(now)) && HasEmail(u, Lower(email))
    ensures u["password"] == JStr(password) && u["role"] == JStr(OrDefault(role, "user"))
  {
    map["id" := JStr("local-" + NatToString(now)), "name" := JStr(name), "email" := JStr(Lower(email)),
        "password" := JStr(password), "role" := JStr(OrDefault(role, "user")), "town" := JStr(town),
        "empId" := JStr(empId), "department" := JStr(department)]
  }

  /** The `user` part of an offline session: every stored field except the
      password. */
  function Public(u: Obj): (p: Obj)
    ensures "password" !in p
    ensures forall k :: k in p ==> k in u && p[k] == u[k]
    ensures forall k :: k in u && k in {"id", "name", "email", "role", "town", "empId", "department"} ==> k in p
  {
    map k | k in u && k in {"id", "name", "email", "role", "town", "empId", "department"} :: u[k]
  }

  /** `makeFakeToken` and the session object. */
  function LocalSession(u: Obj, email: string, now: nat): Obj
  {
    map["token" := JStr("local-" + email + "-" + NatToString(now)), "user" := JObj(Public(u))]
  }

  /** The offline registration over the stored users: refused when the
      lower-cased email is taken, otherwise the new record. */
  function OfflineRegister(users: seq<Obj>, name: string, email: string, password: string, role: string,
                           town: string, empId: string, department: string, now: nat): (r: Option<Obj>)
    ensures r.None? <==> exists u :: u in users && HasEmail(u, Lower(email))
    ensures r.Some? ==> r.value == LocalUser(name, email, password, role, town, empId, department, now)
  {
    match FirstIndex(users, (u: Obj) => HasEmail(u, Lower(email)))
    case Some(_) => None
    case None => Some(LocalUser(name, email, password, role, town, empId, department, now))
  }

  /** `register(...)`: the server's answer when there is one; on a network
      error the local registry takes over, appending exactly one user unless
      the email is already in it. Any role is accepted offline, "admin"
      included, with no key and no town. */
  method Register(s: Storage, reply: Reply, name: string, email: string, password: string, role: string,
                  town: string, empId: string, department: string, now: nat) returns (r: Outcome<Obj>)
    modifies s
    ensures ApiCall(reply).Resolved? ==> r == ApiCall(reply) && s.lists == old(s.lists)
    ensures ApiCall(reply).Rejected? && !IsNetworkError(ApiCall(reply).error) ==>
      r == ApiCall(reply) && s.lists == old(s.lists)
    ensures ApiCall(reply).Rejected? && IsNetworkError(ApiCall(reply).error) ==>
      var users := Load(old(s.Item(UsersKey)));
      match OfflineRegister(users, name, email, password, role, town, empId, department, now)
      case None => r == Rejected(Error("Error", "Email already in use (local)")) && s.lists == old(s.lists)
      case Some(u) =>
        && r == Resolved(LocalSession(u, Lower(email), now))
        && s.lists == old(s.lists)[UsersKey := Records(users + [u])]
    ensures s.texts == old(s.texts)
  {
    var server := ApiCall(reply);
    if server.Resolved? || !IsNetworkError(server.error) {
      return server;
    }
    var users := Load(s.Item(UsersKey));
    var taken := FirstIndex(users, (u: Obj) => HasEmail(u, Lower(email)));
    if taken.Some? {
      return Rejected(Error("Error", "Email already in use (local)"));
    }
    var newUser := LocalUser(name, email, password, role, town, empId, department, now);
    users := users + [newUser];
    s.lists := s.lists[UsersKey := Records(users)];
    r := Resolved(LocalSession(newUser, Lower(email), now));
  }

  /** The first stored user with the lower-cased email and the same
      password. */
  function OfflineLogin(users: seq<Obj>, email: Option<string>, password: string): (r: Option<nat>)
    ensures r.Some? ==>
      && r.value < |users|
      && HasEmail(users[r.value], Lower(if email.Some? then email.value else ""))
      && "password" in users[r.value] && users[r.value]["password"] == JStr(password)
    ensures r.None? <==> forall u :: u in users ==>
      !(HasEmail(u, Lower(if email.Some? then email.value else "")) && "password" in u && u["password"] == JStr(password))
  {
    var e := Lower(if email.Some? then email.value else "");
    FirstIndex(users, (u: Obj) => HasEmail(u, e) && "password" in u && u["password"] == JStr(password))
  }

  /** `login(email, password)`: the server's answer when there is one; on a
      network error, a session for the matching local user or "Invalid
      credentials (local)". Nothing is written. */
  function Login(users: seq<Obj>, reply: Reply, email: Option<string>, password: string, now: nat): (r: Outcome<Obj>)
    ensures ApiCall(reply).Resolved? || !IsNetworkError(ApiCall(reply).error) ==> r == ApiCall(reply)
    ensures ApiCall(reply).Rejected? && IsNetworkError(ApiCall(reply).error) ==>
      && (r.Resolved? <==> OfflineLogin(users, email, password).Some?)
      && (r.Rejected? ==> r.error.message == "Invalid credentials (local)")
      && (r.Resolved? ==>
            && "user" in r.value && r.value["user"].JObj?
            && "password" !in r.value["user"].fields
            && var i := OfflineLogin(users, email, password).value;
               forall k :: k in users[i] && k in {"id", "name", "email", "role", "town"} ==>
                 k in r.value["user"].fields && r.value["user"].fields[k] == users[i][k])
  {
    var server := ApiCall(reply);
    if server.Resolved? || !IsNetworkError(server.error) then server
    else match OfflineLogin(users, email, password)
      case None => Rejected(Error("Error", "Invalid credentials (local)"))
      case Some(i) =>
        var u := users[i];
        var view := Public(u)["empId" := if TruthyAt(u, "empId") then u["empId"] else JStr("")]
                             ["department" := if TruthyAt(u, "department") then u["department"] else JStr("")];
        Resolved(map["token" := JStr("local-" + StringAt(u, "email") + "-" + NatToString(now)), "user" := JObj(view)])
  }

  /** Offline, a user who has just registered can log in with the same email
      and password, and gets back the new account. */
  lemma OfflineRegisterThenLogin(users: seq<Obj>, name: string, email: string, password: string, role: string,
                                 town: string, empId: string, department: string, now: nat)
    requires OfflineRegister(users, name, email, password, role, town, empId, department, now).Some?
    ensures OfflineLogin(users + [LocalUser(name, email, password, role, town, empId, department, now)],
                         Some(email), password) == Some(|users|)
  {
    var u := LocalUser(name, email, password, role, town, empId, department, now);
    var us := users + [u];
    forall j | 0 <= j < |users| ensures !HasEmail(us[j], Lower(email)) {
      assert us[j] == users[j];
      assert us[j] in users;
    }
    assert us[|users|] == u;
  }

  // ---------------------------------------------------------------------
  // getUserIdByEmpId

  datatype Lookup = Refused(message: string) | Calls(empId: string)

  /** `getUserIdByEmpId`: an empty or missing employee id is refused before
      any request is made. */
  function EmpIdLookup(empId: Option<string>): (r: Lookup)
    ensures r.Refused? <==> !Present(empId)
    ensures r.Refused? ==> r.message == "empId required"
    ensures r.Calls? ==> r.empId == empId.value
  {
    if !Present(empId) then Refused("empId required") else Calls(empId.value)
  }
}
