/** The complaint and task fallbacks of frontend/src/utils/api.js: the
    offline `createComplaint`, which allocates the next numeric id over the
    "cc_complaints" list; the offline task views `getEmployeeTasks` and
    `getEmployeeTask`; and the request body `updateTaskStatus` sends. */
module ApiComplaints {
  import opened Common
  import opened Browser
  import LocalComplaints
  import EmployeeRoutes
  import opened ApiAuth

  // ---------------------------------------------------------------------
  // Number(...) of an id

  predicate IsDigits(s: string)
  {
    |s| > 0 && forall i :: 0 <= i < |s| ==> '0' <= s[i] <= '9'
  }

  /** The value of a string of decimal digits. */
  function DigitsValue(s: string): nat
    requires forall i :: 0 <= i < |s| ==> '0' <= s[i] <= '9'
  {
    if |s| == 0 then 0 else DigitsValue(s[..|s| - 1]) * 10 + (s[|s| - 1] as int - '0' as int)
  }

  /** `Number(s)` for the integer forms: surrounding white space is ignored,
      the empty string is 0, an optional sign may precede the digits. Every
      other text is `NaN` (`None`). */
  function NumberOfText(s: string): Option<int>
  {
    var t := Trim(s);
    if t == "" then Some(0)
    else if IsDigits(t) then Some(DigitsValue(t))
    else if (t[0] == '-' || t[0] == '+') && IsDigits(t[1..]) then
      var v: int := DigitsValue(t[1..]);
      Some(if t[0] == '-' then -v else v)
    else None
  }

  /** `Number(c.id || 0)`. */
  function IdNumber(c: Obj): Option<int>
  {
    if !TruthyAt(c, "id") then Some(0)
    else match c["id"]
      case JNum(n) => Some(n)
      case JBool(_) => Some(1)
      case v => NumberOfText(JsString(v))
  }

  /** `list.reduce((m, c) => Math.max(m, Number(c.id || 0)), 0)`: `NaN`
      (`None`) as soon as one id is not a number; otherwise the largest id
      number, and 0 when there is none larger. */
  function MaxId(list: seq<Obj>): (r: Option<int>)
    ensures r.Some? <==> forall c :: c in list ==> IdNumber(c).Some?
    ensures r.Some? ==> r.value >= 0 && forall c :: c in list ==> IdNumber(c).value <= r.value
    ensures r.Some? ==> r.value == 0 || exists c :: c in list && IdNumber(c) == r
  {
    if |list| == 0 then Some(0)
    else
      var init := list[..|list| - 1];
      var last := list[|list| - 1];
      assert forall c :: c in list <==> c in init || c == last;
      match (MaxId(init), IdNumber(last))
      case (Some(m), Some(n)) => Some(if n > m then n else m)
      case _ => None
  }

  // ---------------------------------------------------------------------
  // createComplaint

  /** `o[k] = v` for a value that may be `undefined` (which
      `JSON.stringify` drops). */
  function Put(o: Obj, k: string, v: Option<Json>): (r: Obj)
    ensures k in r <==> k in o || v.Some?
    ensures v.Some? ==> r[k] == v.value
    ensures forall j :: j != k ==> (j in r <==> j in o) && (j in o ==> r[j] == o[j])
  {
    if v.Some? then o[k := v.value] else o
  }

  function Field(c: Obj, k: string): Option<Json>
  {
    if k in c then Some(c[k]) else None
  }

  /** `c.k || default`. */
  function FieldOr(c: Obj, k: string, default: Json): Json
  {
    if TruthyAt(c, k) then c[k] else default
  }

  /** The fields every offline record gets, before the optional ones. */
  function Base(id: Json, complaint: Obj, nowIso: string, dueIso: string): (r: Obj)
    ensures "id" in r && r["id"] == id
    ensures "status" in r && r["status"] == JStr("Pending") && "priority" in r && r["priority"] == JStr("Medium")
    ensures "category" in r && r["category"] == FieldOr(complaint, "category", JStr("General"))
    ensures "assignedTo" in r && r["assignedTo"] == JStr("")
    ensures "userId" in r && r["userId"] == FieldOr(complaint, "userId", JStr("local"))
    ensures "title" !in r && "locationText" !in r && "location" !in r
  {
    map[
      "id" := id,
      "description" := FieldOr(complaint, "description", JStr("")),
      "category" := FieldOr(complaint, "category", JStr("General")),
      "town" := FieldOr(complaint, "town", JStr("")),
      "date" := JStr(nowIso),
      "createdAt" := JStr(nowIso),
      "status" := JStr("Pending"),
      "priority" := JStr("Medium"),
      "dueDate" := JStr(dueIso),
      "estimatedHours" := JNum(0),
      "actualHours" := JNum(0),
      "remarks" := JStr(""),
      "proofName" := JStr(""),
      "assignedTo" := JStr(""),
      "userId" := FieldOr(complaint, "userId", JStr("local"))]
  }

  /** The record the offline `createComplaint` stores: id one above the
      largest id (`NaN`, stored as `null`, when some id is not a number),
      status "Pending", priority "Medium", category "General" unless given,
      no assignee, the creator's `userId` or "local", and the title and
      location text only when given. */
  function NewItem(list: seq<Obj>, complaint: Obj, nowIso: string, dueIso: string): (r: Obj)
    ensures "id" in r && (MaxId(list).Some? ==> r["id"] == JNum(MaxId(list).value + 1)) && (MaxId(list).None? ==> r["id"] == JNull)
    ensures "status" in r && r["status"] == JStr("Pending") && "priority" in r && r["priority"] == JStr("Medium")
    ensures "category" in r && r["category"] == (if TruthyAt(complaint, "category") then complaint["category"] else JStr("General"))
    ensures "assignedTo" in r && r["assignedTo"] == JStr("")
    ensures "userId" in r && r["userId"] == (if TruthyAt(complaint, "userId") then complaint["userId"] else JStr("local"))
    ensures ("title" in r <==> "title" in complaint) && ("title" in r ==> r["title"] == complaint["title"])
    ensures ("location" in r <==> "locationText" in complaint) && ("location" in r ==> r["location"] == complaint["locationText"])
  {
    var id := match MaxId(list) case Some(m) => JNum(m + 1) case None => JNull;
    WithText(Base(id, complaint, nowIso, dueIso), complaint)
  }

  /** The optional `title`, `locationText` and `location` fields added to a
      record; every other field is left as it was. */
  function WithText(b: Obj, complaint: Obj): (r: Obj)
    requires "title" !in b && "locationText" !in b && "location" !in b
    ensures forall j :: j != "title" && j != "locationText" && j != "location" ==>
      (j in r <==> j in b) && (j in b ==> r[j] == b[j])
    ensures ("title" in r <==> "title" in complaint) && ("title" in r ==> r["title"] == complaint["title"])
    ensures ("location" in r <==> "locationText" in complaint) && ("location" in r ==> r["location"] == complaint["locationText"])
  {
    var b1 := Put(b, "title", Field(complaint, "title"));
    var b2 := Put(b1, "locationText", Field(complaint, "locationText"));
    Put(b2, "location", Field(complaint, "locationText"))
  }

  /** When every stored id is a number, the new id is a positive number
      above all of them, so no stored record carries it. */
  lemma NewIdFresh(list: seq<Obj>, complaint: Obj, nowIso: string, dueIso: string)
    requires forall c :: c in list ==> IdNumber(c).Some?
    ensures var item := NewItem(list, complaint, nowIso, dueIso);
      && item["id"].JNum? && item["id"].n >= 1
      && (forall c :: c in list ==> IdNumber(c).value < item["id"].n)
      && (forall c :: c in list && "id" in c ==> c["id"] != item["id"])
  {
    var item := NewItem(list, complaint, nowIso, dueIso);
    var m := MaxId(list).value;
    forall c | c in list && "id" in c ensures c["id"] != item["id"] {
      assert IdNumber(c).value <= m;
    }
  }

  /** `createComplaint(complaint)`: the server's answer when there is one;
      on any error the new record is appended to the "cc_complaints" list,
      which grows by exactly one. */
  method CreateComplaint(s: Storage, reply: Reply, complaint: Obj, nowIso: string, dueIso: string)
    returns (r: Outcome<Obj>)
    modifies s
    ensures ApiCall(reply).Resolved? ==> r == ApiCall(reply) && s.lists == old(s.lists)
    ensures ApiCall(reply).Rejected? ==>
      var list := Load(old(s.Item(LocalComplaints.Key)));
      && r == Resolved(NewItem(list, complaint, nowIso, dueIso))
      && s.lists == old(s.lists)[LocalComplaints.Key := Records(list + [NewItem(list, complaint, nowIso, dueIso)])]
    ensures s.texts == old(s.texts)
  {
    var server := ApiCall(reply);
    if server.Resolved? {
      return server;
    }
    var list := Load(s.Item(LocalComplaints.Key));
    var newItem := NewItem(list, complaint, nowIso, dueIso);
    LocalComplaints.SeedComplaints(s, list + [newItem]);
    r := Resolved(newItem);
  }

  // ---------------------------------------------------------------------
  // getEmployeeTasks and getEmployeeTask

  /** The assignment test as written:
      `String(c.assignedTo) === String(empId) || ... === String(userId)`,
      where a missing stored id is `null` and stringifies to "null". */
  predicate AssignedAsWritten(c: Obj, empId: Option<string>, userId: Option<string>)
  {
    StringAt(c, "assignedTo") == StringOfItem(empId) || StringAt(c, "assignedTo") == StringOfItem(userId)
  }

  /** The status filter: none for a falsy status or "all". */
  predicate StatusFilter(c: Obj, status: Option<string>)
  {
    !Present(status) || status.value == "all" || ("status" in c && c["status"] == JStr(status.value))
  }

  /** The offline `getEmployeeTasks(status)` as written: `[]` when neither
      an employee id nor a user id is stored, otherwise the tasks passing the
      assignment test and the status filter, in list order. */
  function Tasks(list: seq<Obj>, empId: Option<string>, userId: Option<string>, status: Option<string>): (r: seq<Obj>)
    ensures !Present(empId) && !Present(userId) ==> r == []
    ensures Present(empId) || Present(userId) ==>
      forall c :: c in r <==> c in list && AssignedAsWritten(c, empId, userId) && StatusFilter(c, status)
    ensures |r| <= |list|
    ensures Present(empId) || Present(userId) ==>
      && SubsequenceOf(r, list)
      && forall c :: multiset(r)[c] ==
           if AssignedAsWritten(c, empId, userId) && StatusFilter(c, status) then multiset(list)[c] else 0
  {
    if !Present(empId) && !Present(userId) then []
    else
      var isAssigned := (c: Obj) => AssignedAsWritten(c, empId, userId);
      var tasks := Filter(list, isAssigned);
      if Present(status) && status.value != "all" then
        var hasStatus := (t: Obj) => "status" in t && t["status"] == JStr(status.value);
        FilterFilter(list, isAssigned, hasStatus, (c: Obj) => AssignedAsWritten(c, empId, userId) && StatusFilter(c, status));
        Filter(tasks, hasStatus)
      else tasks
  }

  /** As written, an employee with a stored user id but no stored employee id
      is shown a task whose `assignedTo` is `null`: both sides stringify to
      "null". */
  lemma UnassignedTaskShown()
    ensures var t: Obj := map["id" := JNum(1), "assignedTo" := JNull];
      t in Tasks([t], None, Some("u1"), None)
  {
    var t: Obj := map["id" := JNum(1), "assignedTo" := JNull];
    assert StringAt(t, "assignedTo") == "null" == StringOfItem(None);
    assert AssignedAsWritten(t, None, Some("u1"));
  }

  /** The intended assignment test: only a stored, non-empty id can match. */
  predicate AssignedToStored(c: Obj, empId: Option<string>, userId: Option<string>)
  {
    (Present(empId) && StringAt(c, "assignedTo") == empId.value)
    || (Present(userId) && StringAt(c, "assignedTo") == userId.value)
  }

  /** `getEmployeeTasks` with the intended assignment test. */
  function TasksForStoredIds(list: seq<Obj>, empId: Option<string>, userId: Option<string>, status: Option<string>)
    : (r: seq<Obj>)
    ensures forall c :: c in r <==> c in list && AssignedToStored(c, empId, userId) && StatusFilter(c, status)
    ensures |r| <= |list| && SubsequenceOf(r, list)
    ensures forall c :: multiset(r)[c] ==
                        if AssignedToStored(c, empId, userId) && StatusFilter(c, status) then multiset(list)[c] else 0
  {
    var isAssigned := (c: Obj) => AssignedToStored(c, empId, userId);
    var tasks := Filter(list, isAssigned);
    if Present(status) && status.value != "all" then
      var hasStatus := (t: Obj) => "status" in t && t["status"] == JStr(status.value);
      FilterFilter(list, isAssigned, hasStatus, (c: Obj) => AssignedToStored(c, empId, userId) && StatusFilter(c, status));
      Filter(tasks, hasStatus)
    else tasks
  }

  /** With the intended test, a task with no assignee (`null`, empty or
      missing) is never shown, unless a stored id is literally one of the
      strings those stringify to; and when both ids are stored the two
      tests agree. */
  lemma StoredIdsHideUnassigned(list: seq<Obj>, empId: Option<string>, userId: Option<string>, status: Option<string>)
    ensures forall c :: c in TasksForStoredIds(list, empId, userId, status) && StringAt(c, "assignedTo") in {"null", "", "undefined"} ==>
      (Present(empId) && empId.value in {"null", "undefined"}) || (Present(userId) && userId.value in {"null", "undefined"})
    ensures Present(empId) && Present(userId) ==>
      forall c :: c in TasksForStoredIds(list, empId, userId, status) <==> c in Tasks(list, empId, userId, status)
  {
  }

  /** The offline `getEmployeeTask(id)` as written: the first record with
      that `id` or `_id`, returned only if it passes the assignment test;
      `null` when no id is stored at all. */
  function Task(list: seq<Obj>, id: Json, empId: Option<string>, userId: Option<string>): (r: Option<Obj>)
    ensures !Present(empId) && !Present(userId) ==> r.None?
    ensures r.Some? ==> LocalComplaints.ById(list, id) == r && AssignedAsWritten(r.value, empId, userId)
    ensures r.None? && (Present(empId) || Present(userId)) ==>
      LocalComplaints.ById(list, id).None? || !AssignedAsWritten(LocalComplaints.ById(list, id).value, empId, userId)
  {
    if !Present(empId) && !Present(userId) then None
    else match LocalComplaints.ById(list, id)
      case None => None
      case Some(task) => if AssignedAsWritten(task, empId, userId) then Some(task) else None
  }

  /** `getEmployeeTask` with the intended assignment test. */
  function TaskForStoredIds(list: seq<Obj>, id: Json, empId: Option<string>, userId: Option<string>): (r: Option<Obj>)
    ensures r.Some? ==> LocalComplaints.ById(list, id) == r && AssignedToStored(r.value, empId, userId)
    ensures r.None? ==>
      LocalComplaints.ById(list, id).None? || !AssignedToStored(LocalComplaints.ById(list, id).value, empId, userId)
  {
    match LocalComplaints.ById(list, id)
    case None => None
    case Some(task) => if AssignedToStored(task, empId, userId) then Some(task) else None
  }

  // ---------------------------------------------------------------------
  // updateTaskStatus

  /** The body `updateTaskStatus` sends: status and notes (default ""), the
      location only when truthy, the hours only when neither `null` nor
      `undefined`. */
  function StatusBody(status: string, notes: Option<string>, location: Option<Json>, actualHours: Option<Json>)
    : (b: Obj)
    ensures "status" in b && b["status"] == JStr(status)
    ensures "notes" in b && b["notes"] == JStr(if notes.Some? then notes.value else "")
    ensures "location" in b <==> location.Some? && Truthy(location.value)
    ensures "actualHours" in b <==> actualHours.Some? && !actualHours.value.JNull?
    ensures b.Keys <= {"status", "notes", "location", "actualHours"}
  {
    var b := map["status" := JStr(status), "notes" := JStr(if notes.Some? then notes.value else "")];
    var b := if location.Some? && Truthy(location.value) then b["location" := location.value] else b;
    if actualHours.Some? && !actualHours.value.JNull? then b["actualHours" := actualHours.value] else b
  }

  /** What the server's status route makes of that body: the status as sent,
      and the notes as remarks (empty notes leave remarks ""). */
  lemma StatusBodyOnServer(status: string, notes: Option<string>, location: Option<Json>, actualHours: Option<Json>)
    ensures var b := StatusBody(status, notes, location, actualHours);
      && EmployeeRoutes.StatusValue(b) == Some(Some(status))
      && EmployeeRoutes.RemarksValue(b) == Some(Some(if notes.Some? then notes.value else ""))
  {
  }
}
