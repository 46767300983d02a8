/** The employee's task page, frontend/src/pages/employee/AssignedTask.jsx:
    which status changes it offers for the task's current status, and what
    `handleStatusUpdate` does to the page state around the
    `updateTaskStatus` request. */
module TaskView {
  import opened Common
  import opened ApiAuth
  import ApiComplaints
  import ComplaintModel
  import EmployeeRoutes
  import AuthMiddleware

  /** The task's `status` (`undefined` and `null` behave alike here). */
  function StatusOf(task: Obj): Json
  {
    if "status" in task then task["status"] else JNull
  }

  /** The update controls are hidden once the task is Completed or
      Unresolved. */
  predicate ControlsShown(status: Json)
  {
    status != JStr("Completed") && status != JStr("Unresolved")
  }

  /** The buttons shown, as the status each one requests. */
  function Offered(status: Json): (r: seq<string>)
    ensures status == JStr("Assigned") ==> r == ["In Progress"]
    ensures status == JStr("In Progress") ==> r == ["On Hold", "Completed", "Unresolved"]
    ensures status == JStr("On Hold") ==> r == ["In Progress"]
    ensures r != [] <==> status in {JStr("Assigned"), JStr("In Progress"), JStr("On Hold")}
    ensures !ControlsShown(status) ==> r == []
  {
    if !ControlsShown(status) then []
    else if status == JStr("Assigned") then ["In Progress"]
    else if status == JStr("In Progress") then ["On Hold", "Completed", "Unresolved"]
    else if status == JStr("On Hold") then ["In Progress"]
    else []
  }

  /** The offered moves form the cycle Assigned -> In Progress <-> On Hold,
      with Completed and Unresolved reachable only from In Progress. */
  lemma OfferedMoves(status: Json, target: string)
    requires target in Offered(status)
    ensures target == "In Progress" <==> status == JStr("Assigned") || status == JStr("On Hold")
    ensures target in {"Completed", "Unresolved", "On Hold"} <==> status == JStr("In Progress")
  {
  }

  /** The statuses that need notes. */
  predicate NeedsNotes(status: string)
  {
    status == "Completed" || status == "Unresolved"
  }

  /** Notes that are empty or all white space, for a status that needs
      notes: the request is refused before it is sent. */
  predicate NotesMissing(newStatus: string, notes: string)
  {
    NeedsNotes(newStatus) && Blank(notes)
  }

  /** The page's test `!statusNotes.trim() && (...)` is exactly
      `NotesMissing`. */
  lemma NotesMissingIsTrimTest(newStatus: string, notes: string)
    ensures NotesMissing(newStatus, notes) <==> NeedsNotes(newStatus) && Trim(notes) == ""
  {
    TrimEmptyIffBlank(notes);
  }

  /** `actualHours ? parseFloat(actualHours) : null`. */
  function Hours(actualHours: Json, parseFloat: Json -> Json): (r: Json)
    ensures Truthy(actualHours) ==> r == parseFloat(actualHours)
    ensures !Truthy(actualHours) ==> r == JNull
  {
    if Truthy(actualHours) then parseFloat(actualHours) else JNull
  }

  /** The request `handleStatusUpdate(newStatus)` sends. */
  function Request(newStatus: string, notes: string, location: Json, actualHours: Json, parseFloat: Json -> Json): (b: Obj)
    ensures "status" in b && b["status"] == JStr(newStatus) && "notes" in b && b["notes"] == JStr(notes)
    ensures "actualHours" in b <==> Truthy(actualHours) && !parseFloat(actualHours).JNull?
    ensures "actualHours" in b ==> b["actualHours"] == parseFloat(actualHours)
  {
    ApiComplaints.StatusBody(newStatus, Some(notes), Some(location), Some(Hours(actualHours, parseFloat)))
  }

  /** The page state `handleStatusUpdate` reads and writes. */
  class TaskPage {
    var task: Obj
    var statusNotes: string
    var actualHours: Json
    var currentLocation: Json
    var updating: bool
    /** The bodies of the status requests sent so far. */
    var sent: seq<Obj>
    /** Whether the page has navigated back to the dashboard. */
    var left: bool

    /** The page once the task has been loaded. */
    constructor (task: Obj)
      ensures this.task == task && statusNotes == "" && currentLocation == JNull && !updating
      ensures sent == [] && !left
      ensures actualHours == (if TruthyAt(task, "actualHours") then task["actualHours"] else JStr(""))
    {
      this.task := task;
      statusNotes := "";
      actualHours := if TruthyAt(task, "actualHours") then task["actualHours"] else JStr("");
      currentLocation := JNull;
      updating := false;
      sent := [];
      left := false;
    }

    /** `handleStatusUpdate(newStatus)`: Completed and Unresolved with blank
        notes are refused before any request; otherwise one request is sent,
        and on success the page shows the server's task and clears the
        notes (leaving the page after Completed or Unresolved); on failure
        the task and notes are kept. */
    method HandleStatusUpdate(newStatus: string, reply: Reply, parseFloat: Json -> Json)
      modifies this
      ensures NotesMissing(newStatus, old(statusNotes)) ==>
        && sent == old(sent) && task == old(task) && statusNotes == old(statusNotes)
        && updating == old(updating) && left == old(left)
      ensures !NotesMissing(newStatus, old(statusNotes)) ==>
        && sent == old(sent) + [Request(newStatus, old(statusNotes), old(currentLocation), old(actualHours), parseFloat)]
        && !updating
        && (ApiCall(reply).Resolved? ==>
              task == ApiCall(reply).value && statusNotes == "" && left == (NeedsNotes(newStatus) || old(left)))
        && (ApiCall(reply).Rejected? ==> task == old(task) && statusNotes == old(statusNotes) && left == old(left))
      ensures actualHours == old(actualHours) && currentLocation == old(currentLocation)
    {
      if !NotesMissing(newStatus, statusNotes) {
        updating := true;
        var body := Request(newStatus, statusNotes, currentLocation, actualHours, parseFloat);
        sent := sent + [body];
        var updatedTask := ApiCall(reply);
        if updatedTask.Resolved? {
          task := updatedTask.value;
          statusNotes := "";
          left := left || NeedsNotes(newStatus);
        }
        updating := false;
      }
    }
  }

  /** Of all the statuses the page offers, only In Progress is one the
      server's complaint model accepts. */
  lemma OnlyInProgressAccepted(status: Json, target: string)
    requires target in Offered(status)
    ensures target in ComplaintModel.Statuses <==> target == "In Progress"
  {
  }

  /** A task as the server stores it never reads "Assigned" or "On Hold",
      so the page offers it nothing the server accepts: every button leads
      to a failed request that changes no complaint. */
  lemma ServerTaskCannotMove(cs: seq<ComplaintModel.Complaint>, i: nat, caller: AuthMiddleware.Claims, id: string,
                             notes: string, location: Json, actualHours: Json, parseFloat: Json -> Json,
                             target: string, now: int)
    requires i < |cs| && ComplaintModel.Valid(cs[i])
    requires target in Offered(if cs[i].status.Some? then JStr(cs[i].status.value) else JNull)
    ensures var body := Request(target, notes, location, actualHours, parseFloat);
      && EmployeeRoutes.UpdateStatus(cs, caller, id, body, now).response.Fail?
      && EmployeeRoutes.UpdateStatus(cs, caller, id, body, now).complaints == cs
  {
    var body := Request(target, notes, location, actualHours, parseFloat);
    assert target !in ComplaintModel.Statuses;
    EmployeeRoutes.StatusOutsideEnumRejected(cs, caller, id, body, now, target);
  }
}
