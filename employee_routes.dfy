/** The employee routes of server/src/routes/employee.js: the admin's view of
    employees, and an employee's view of the tasks assigned to them, their
    status updates, duty flag and location. Every route sits behind the
    bearer guard and `requireRole`, which answers 403 "Forbidden" to any
    other role. */
module EmployeeRoutes {
  import opened Common
  import opened ComplaintModel
  import opened AuthMiddleware
  import U = UserModel
  import Db

  const Forbidden: string := "Forbidden"

  // ---------------------------------------------------------------------
  // GET /  (admin)

  /** The projection `_id name email empId department isOnDuty`. */
  datatype EmployeeSummary = EmployeeSummary(id: string, name: string, email: string, empId: string,
                                             department: string, isOnDuty: Option<bool>)

  function Summary(u: U.User): EmployeeSummary
  {
    EmployeeSummary(u.id, u.name, u.email, u.empId, u.department, u.isOnDuty)
  }

  predicate IsEmployee(u: U.User)
  {
    u.role == "employee"
  }

  /** `User.find({ role: "employee" })` with the projection: one summary per
      stored employee, in collection order, and nothing for other roles. */
  function Employees(us: seq<U.User>): (r: seq<EmployeeSummary>)
    ensures |r| <= |us|
    ensures forall s :: s in r <==> exists u :: u in us && u.role == "employee" && s == Summary(u)
    ensures (forall i :: 0 <= i < |us| ==> us[i].role != "employee") ==> r == []
  {
    if |us| == 0 then []
    else
      var rest := Employees(us[1..]);
      assert forall u :: u in us <==> u == us[0] || u in us[1..];
      if us[0].role == "employee" then [Summary(us[0])] + rest else rest
  }

  /** The employee list is the summary of each stored employee, one for one
      and in collection order: no employee is listed twice or left out. */
  lemma {:induction false} EmployeesInOrder(us: seq<U.User>)
    ensures var es := Filter(us, IsEmployee);
      && |Employees(us)| == |es|
      && forall i :: 0 <= i < |es| ==> Employees(us)[i] == Summary(es[i])
  {
    if |us| > 0 {
      EmployeesInOrder(us[1..]);
      var es, tail := Filter(us, IsEmployee), Filter(us[1..], IsEmployee);
      var r, rest := Employees(us), Employees(us[1..]);
      if IsEmployee(us[0]) {
        assert es == [us[0]] + tail;
        assert r == [Summary(us[0])] + rest;
        forall i | 0 <= i < |es| ensures r[i] == Summary(es[i]) {
          if i > 0 {
            assert r[i] == rest[i - 1] && es[i] == tail[i - 1];
          }
        }
      } else {
        assert es == tail && r == rest;
      }
    }
  }

  /** GET /: the employee list for an admin, 403 for anyone else. */
  function ListEmployees(us: seq<U.User>, caller: Claims): (r: Response<seq<EmployeeSummary>>)
    ensures r.Ok? <==> caller.role == "admin"
    ensures r.Fail? ==> r == Fail(403, Forbidden)
    ensures r.Ok? ==> r.body == Employees(us)
  {
    if caller.role != "admin" then Fail(403, Forbidden) else Ok(Employees(us))
  }

  // ---------------------------------------------------------------------
  // GET /by-empid/:empId  (admin)

  /** The projection `_id name empId email`. */
  datatype EmployeeRef = EmployeeRef(id: string, name: string, empId: string, email: string)

  /** The `$or` query: the employee id equals the parameter, or the email does
      (the email path's `lowercase` setter also runs on the query value). */
  predicate EmpIdMatches(u: U.User, p: string)
  {
    u.empId == p || u.email == Lower(p)
  }

  /** GET /by-empid/:empId: the first user matching either way, or 404. */
  function ByEmpId(us: seq<U.User>, caller: Claims, p: string): (r: Response<EmployeeRef>)
    ensures caller.role != "admin" ==> r == Fail(403, Forbidden)
    ensures caller.role == "admin" ==>
      (r == Fail(404, "Employee not found") <==> forall i :: 0 <= i < |us| ==> !EmpIdMatches(us[i], p))
    ensures caller.role == "admin" && (exists i :: 0 <= i < |us| && EmpIdMatches(us[i], p)) ==> r.Ok?
    ensures r.Ok? ==>
      exists i :: && 0 <= i < |us| && EmpIdMatches(us[i], p)
                  && (forall j :: 0 <= j < i ==> !EmpIdMatches(us[j], p))
                  && r.body == EmployeeRef(us[i].id, us[i].name, us[i].empId, us[i].email)
    ensures !r.Created?
  {
    if caller.role != "admin" then Fail(403, Forbidden)
    else match FirstIndex(us, (u: U.User) => EmpIdMatches(u, p))
      case None => Fail(404, "Employee not found")
      case Some(i) => Ok(EmployeeRef(us[i].id, us[i].name, us[i].empId, us[i].email))
  }

  // ---------------------------------------------------------------------
  // GET /tasks  (employee)

  predicate AssignedTo(c: Complaint, who: Id)
  {
    c.assignedTo == Some(who)
  }

  /** GET /tasks: exactly the complaints assigned to the caller, each as often
      as stored, newest first. The route reads no query parameter, so a
      status filter the client sends has no effect. */
  function Tasks(cs: seq<Complaint>, caller: Claims): (r: Response<seq<Complaint>>)
    ensures r.Ok? <==> caller.role == "employee"
    ensures r.Fail? ==> r == Fail(403, Forbidden)
    ensures r.Ok? ==> NewestFirst(r.body)
    ensures r.Ok? ==> forall c :: multiset(r.body)[c] == if AssignedTo(c, caller.id) then multiset(cs)[c] else 0
    ensures r.Ok? ==> forall c :: c in r.body <==> c in cs && AssignedTo(c, caller.id)
  {
    if caller.role != "employee" then Fail(403, Forbidden)
    else
      var r := SortNewest(Filter(cs, c => AssignedTo(c, caller.id)));
      assert forall c :: c in r <==> multiset(r)[c] > 0;
      Ok(r)
  }

  // ---------------------------------------------------------------------
  // GET /tasks/:id  (employee)

  /** `Complaint.findOne({ _id: id, assignedTo: caller })`: 500 when the id
      does not cast, otherwise the first such document, if any. */
  function FindTask(cs: seq<Complaint>, id: Id, who: Id): (r: Option<nat>)
    requires Db.IsObjectId(id)
    ensures r.Some? ==>
      && r.value < |cs| && cs[r.value].id == id && AssignedTo(cs[r.value], who)
      && forall j :: 0 <= j < r.value ==> !(cs[j].id == id && AssignedTo(cs[j], who))
    ensures r.None? <==> forall j :: 0 <= j < |cs| ==> !(cs[j].id == id && AssignedTo(cs[j], who))
  {
    FirstIndex(cs, (c: Complaint) => c.id == id && AssignedTo(c, who))
  }

  /** GET /tasks/:id: the same 404 whether the task does not exist or belongs
      to someone else, so an employee cannot tell the two apart. */
  function Task(cs: seq<Complaint>, caller: Claims, id: Id): (r: Response<Complaint>)
    ensures caller.role != "employee" ==> r == Fail(403, Forbidden)
    ensures r.Ok? ==> r.body in cs && r.body.id == id && AssignedTo(r.body, caller.id)
    ensures r == Fail(404, "Task not found") <==>
      caller.role == "employee" && Db.IsObjectId(id) && forall c :: c in cs && c.id == id ==> !AssignedTo(c, caller.id)
    ensures caller.role == "employee" && Db.IsObjectId(id) ==>
      (r.Ok? <==> exists c :: c in cs && c.id == id && AssignedTo(c, caller.id))
    ensures !r.Created?
  {
    if caller.role != "employee" then Fail(403, Forbidden)
    else if !Db.IsObjectId(id) then Fail(500, "Server error")
    else match FindTask(cs, id, caller.id)
      case None => Fail(404, "Task not found")
      case Some(i) => Ok(cs[i])
  }

  // ---------------------------------------------------------------------
  // PUT /tasks/:id/status  (employee)

  /** The value `task.status = status` stores: an absent or null status
      unsets the path; a non-string fails to cast (`None`). */
  function StatusValue(body: Obj): Option<Option<string>>
  {
    if "status" !in body then Some(None)
    else match body["status"]
      case JNull => Some(None)
      case JStr(s) => Some(Some(s))
      case _ => None
  }

  /** The value `task.remarks = notes || ""` stores (never `null`), or
      `None` when the cast fails. */
  function RemarksValue(body: Obj): Option<Option<string>>
  {
    if !TruthyAt(body, "notes") then Some(Some(""))
    else if body["notes"].JStr? then Some(Some(body["notes"].s))
    else None
  }

  /** PUT /tasks/:id/status: 404 unless the task is assigned to the caller;
      otherwise status and remarks are overwritten and `save` validates the
      result, so a status outside the schema's enum is a 500 that changes
      nothing. No path other than status, remarks and updatedAt changes. */
  function UpdateStatus(cs: seq<Complaint>, caller: Claims, id: Id, body: Obj, now: int): (r: Db.Step<Complaint>)
    ensures r.response.Fail? ==> r.complaints == cs
    ensures caller.role != "employee" ==> r.response == Fail(403, Forbidden)
    ensures r.response == Fail(404, "Task not found") <==>
      caller.role == "employee" && Db.IsObjectId(id) && FindTask(cs, id, caller.id).None?
    ensures r.response.Ok? ==>
      && caller.role == "employee" && Db.IsObjectId(id) && FindTask(cs, id, caller.id).Some?
      && var i := FindTask(cs, id, caller.id).value;
      && var t := r.response.body;
      && r.complaints == cs[i := t] && Valid(t)
      && t == cs[i].(status := t.status, remarks := t.remarks, updatedAt := t.updatedAt)
      && Some(t.status) == StatusValue(body) && Some(t.remarks) == RemarksValue(body)
    ensures !r.response.Created?
  {
    if caller.role != "employee" then Db.Step(Fail(403, Forbidden), cs)
    else if !Db.IsObjectId(id) then Db.Step(Fail(500, "Server error"), cs)
    else match FindTask(cs, id, caller.id)
      case None => Db.Step(Fail(404, "Task not found"), cs)
      case Some(i) =>
        match (StatusValue(body), RemarksValue(body))
        case (Some(st), Some(rm)) =>
          var t := cs[i].(status := st, remarks := rm);
          var saved := if t == cs[i] then t else t.(updatedAt := now);
          if Valid(saved) then Db.Step(Ok(saved), cs[i := saved])
          else Db.Step(Fail(500, "Server error"), cs)
        case _ => Db.Step(Fail(500, "Server error"), cs)
  }

  /** A status outside {Pending, In Progress, Resolved}, such as "Completed",
      "On Hold", "Unresolved" or "Assigned", never reaches the store: the
      update fails and the collection is unchanged. */
  lemma StatusOutsideEnumRejected(cs: seq<Complaint>, caller: Claims, id: Id, body: Obj, now: int, s: string)
    requires "status" in body && body["status"] == JStr(s) && s !in Statuses
    ensures UpdateStatus(cs, caller, id, body, now).response.Fail?
    ensures UpdateStatus(cs, caller, id, body, now).complaints == cs
  {
  }

  /** On a task of the caller's, a status within the enum and string (or
      absent) notes always save. */
  lemma StatusInEnumSaved(cs: seq<Complaint>, caller: Claims, id: Id, body: Obj, now: int, s: string)
    requires forall c :: c in cs ==> Valid(c)
    requires caller.role == "employee" && Db.IsObjectId(id) && FindTask(cs, id, caller.id).Some?
    requires "status" in body && body["status"] == JStr(s) && s in Statuses
    requires RemarksValue(body).Some?
    ensures UpdateStatus(cs, caller, id, body, now).response.Ok?
  {
    var i := FindTask(cs, id, caller.id).value;
    assert cs[i] in cs;
  }

  /** The store method for PUT /tasks/:id/status: fetch the caller's task,
      assign status and remarks in place, save. */
  method UpdateStatusHandler(db: Db.Store, caller: Claims, id: Id, body: Obj, now: int) returns (r: Response<Complaint>)
    requires db.Valid()
    modifies db
    ensures db.Valid()
    ensures r == UpdateStatus(old(db.complaints), caller, id, body, now).response
    ensures db.complaints == UpdateStatus(old(db.complaints), caller, id, body, now).complaints
    ensures db.users == old(db.users)
  {
    if caller.role != "employee" {
      return Fail(403, Forbidden);
    }
    if !Db.IsObjectId(id) {
      return Fail(500, "Server error");
    }
    var found := FindTask(db.complaints, id, caller.id);
    if found.None? {
      return Fail(404, "Task not found");
    }
    var i := found.value;
    var task := db.complaints[i];
    var status := StatusValue(body);
    var remarks := RemarksValue(body);
    if status.None? || remarks.None? {
      return Fail(500, "Server error");
    }
    task := task.(status := status.value);
    task := task.(remarks := remarks.value);
    if task != db.complaints[i] {
      task := task.(updatedAt := now);
    }
    if !Valid(task) {
      return Fail(500, "Server error");
    }
    db.complaints := db.complaints[i := task];
    r := Ok(task);
  }

  // ---------------------------------------------------------------------
  // PUT /duty and PUT /location  (employee)

  /** A handler's answer together with the user collection it leaves. */
  datatype UserStep<+T> = UserStep(response: Response<T>, users: seq<U.User>)

  /** The value `user.isOnDuty = isOnDuty` stores: absent or null unsets the
      path, a boolean is kept, anything else fails to cast (`None`). */
  function DutyValue(body: Obj): Option<Option<bool>>
  {
    if "isOnDuty" !in body then Some(None)
    else match body["isOnDuty"]
      case JNull => Some(None)
      case JBool(b) => Some(Some(b))
      case _ => None
  }

  /** PUT /duty: sets the caller's duty flag and answers with it. A caller
      with no user document makes the handler throw (500). */
  function SetDuty(us: seq<U.User>, caller: Claims, body: Obj): (r: UserStep<Option<bool>>)
    ensures r.response.Fail? ==> r.users == us
    ensures caller.role != "employee" ==> r.response == Fail(403, Forbidden)
    ensures caller.role == "employee" && Db.FindUser(us, caller.id).None? ==> r.response == Fail(500, "Server error")
    ensures r.response.Ok? ==>
      && Db.FindUser(us, caller.id).Some? && Some(r.response.body) == DutyValue(body)
      && var i := Db.FindUser(us, caller.id).value;
      && r.users == us[i := us[i].(isOnDuty := r.response.body)]
    ensures (caller.role == "employee" && Db.FindUser(us, caller.id).Some?
             && U.Valid(us[Db.FindUser(us, caller.id).value])) ==>
      r.response == (if DutyValue(body).Some? then Ok(DutyValue(body).value) else Fail(500, "Server error"))
    ensures !r.response.Created?
  {
    if caller.role != "employee" then UserStep(Fail(403, Forbidden), us)
    else match Db.FindUser(us, caller.id)
      case None => UserStep(Fail(500, "Server error"), us)
      case Some(i) =>
        match DutyValue(body)
        case None => UserStep(Fail(500, "Server error"), us)
        case Some(v) =>
          var u := us[i].(isOnDuty := v);
          if U.Valid(u) then UserStep(Ok(v), us[i := u]) else UserStep(Fail(500, "Server error"), us)
  }

  /** Setting the duty flag twice to the same value is the same as once,
      and for an employee with a valid user document neither call fails. */
  lemma SetDutyIdempotent(us: seq<U.User>, caller: Claims, body: Obj)
    ensures var once := SetDuty(us, caller, body);
      SetDuty(once.users, caller, body) == once
    ensures (caller.role == "employee" && Db.FindUser(us, caller.id).Some?
             && U.Valid(us[Db.FindUser(us, caller.id).value]) && DutyValue(body).Some?) ==>
      var once := SetDuty(us, caller, body);
      && once.response == Ok(DutyValue(body).value)
      && once.users[Db.FindUser(us, caller.id).value].isOnDuty == DutyValue(body).value
  {
    var once := SetDuty(us, caller, body);
    if once.response.Ok? {
      var i := Db.FindUser(us, caller.id).value;
      var us' := once.users;
      forall j | 0 <= j < i ensures us'[j].id != caller.id {
        assert us'[j] == us[j];
      }
      assert us'[i].id == caller.id;
      assert Db.FindUser(us', caller.id) == Some(i);
      assert us'[i := us'[i].(isOnDuty := once.response.body)] == us';
    }
  }

  /** Turning duty on twice: an employee with a valid user document gets
      `true` back both times, with no error, and stays on duty. */
  lemma DutyOnTwice(us: seq<U.User>, caller: Claims)
    requires caller.role == "employee" && Db.FindUser(us, caller.id).Some?
    requires U.Valid(us[Db.FindUser(us, caller.id).value])
    ensures var body := map["isOnDuty" := JBool(true)];
      var once := SetDuty(us, caller, body);
      var twice := SetDuty(once.users, caller, body);
      && once.response == Ok(Some(true)) && twice.response == Ok(Some(true))
      && twice.users == once.users
      && twice.users[Db.FindUser(us, caller.id).value].isOnDuty == Some(true)
  {
    var body := map["isOnDuty" := JBool(true)];
    assert DutyValue(body) == Some(Some(true));
    SetDutyIdempotent(us, caller, body);
  }

  /** PUT /location: overwrites the caller's `currentLocation` with the
      given coordinates and the current time, and nothing else. */
  function SetLocation(us: seq<U.User>, caller: Claims, body: Obj, now: int): (r: UserStep<string>)
    ensures r.response.Fail? ==> r.users == us
    ensures caller.role != "employee" ==> r.response == Fail(403, Forbidden)
    ensures caller.role == "employee" && Db.FindUser(us, caller.id).None? ==> r.response == Fail(500, "Server error")
    ensures r.response.Ok? ==>
      && r.response.body == "Location updated" && Db.FindUser(us, caller.id).Some?
      && var i := Db.FindUser(us, caller.id).value;
      && r.users == us[i := us[i].(currentLocation := Some(U.Location(
           if "lat" in body then Some(body["lat"]) else None,
           if "lng" in body then Some(body["lng"]) else None,
           now)))]
    ensures (caller.role == "employee" && Db.FindUser(us, caller.id).Some?
             && U.Valid(us[Db.FindUser(us, caller.id).value])) ==> r.response == Ok("Location updated")
    ensures !r.response.Created?
  {
    if caller.role != "employee" then UserStep(Fail(403, Forbidden), us)
    else match Db.FindUser(us, caller.id)
      case None => UserStep(Fail(500, "Server error"), us)
      case Some(i) =>
        var lat := if "lat" in body then Some(body["lat"]) else None;
        var lng := if "lng" in body then Some(body["lng"]) else None;
        var u := us[i].(currentLocation := Some(U.Location(lat, lng, now)));
        if U.Valid(u) then UserStep(Ok("Location updated"), us[i := u]) else UserStep(Fail(500, "Server error"), us)
  }

  /** The store methods for PUT /duty and PUT /location: fetch the caller's
      user document, assign one path in place, save. */
  method DutyHandler(db: Db.Store, caller: Claims, body: Obj) returns (r: Response<Option<bool>>)
    requires db.Valid()
    modifies db
    ensures db.Valid()
    ensures r == SetDuty(old(db.users), caller, body).response
    ensures db.users == SetDuty(old(db.users), caller, body).users
    ensures db.complaints == old(db.complaints)
  {
    if caller.role != "employee" {
      return Fail(403, Forbidden);
    }
    var found := Db.FindUser(db.users, caller.id);
    if found.None? {
      return Fail(500, "Server error");
    }
    var i := found.value;
    var user := db.users[i];
    var duty := DutyValue(body);
    if duty.None? {
      return Fail(500, "Server error");
    }
    user := user.(isOnDuty := duty.value);
    // Validation passes: the paths it checks are those of a stored user.
    assert U.Valid(user);
    db.users := db.users[i := user];
    r := Ok(user.isOnDuty);
  }

  method LocationHandler(db: Db.Store, caller: Claims, body: Obj, now: int) returns (r: Response<string>)
    requires db.Valid()
    modifies db
    ensures db.Valid()
    ensures r == SetLocation(old(db.users), caller, body, now).response
    ensures db.users == SetLocation(old(db.users), caller, body, now).users
    ensures db.complaints == old(db.complaints)
  {
    if caller.role != "employee" {
      return Fail(403, Forbidden);
    }
    var found := Db.FindUser(db.users, caller.id);
    if found.None? {
      return Fail(500, "Server error");
    }
    var i := found.value;
    var user := db.users[i];
    var lat := if "lat" in body then Some(body["lat"]) else None;
    var lng := if "lng" in body then Some(body["lng"]) else None;
    user := user.(currentLocation := Some(U.Location(lat, lng, now)));
    assert U.Valid(user);
    db.users := db.users[i := user];
    r := Ok("Location updated");
  }
}
