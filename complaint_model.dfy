/** The complaint (task) document of server/src/models/Complaint.js: its
    paths, their defaults, and what mongoose's validation checks when a
    document is saved. */
module ComplaintModel {
  import opened Common

  /** A document id (an ObjectId in its 24-hex-digit string form). */
  type Id = string

  const Statuses: set<string> := {"Pending", "In Progress", "Resolved"}
  const Priorities: set<string> := {"Low", "Medium", "High", "Critical"}

  const DefaultStatus := "Pending"
  const DefaultPriority := "Medium"
  const DefaultCategory := "General"

  /** `targetLocation`: an address and optional coordinates. */
  datatype Target = Target(address: string, coords: Option<seq<int>>)

  /** A complaint document. `coords` and `targetLocation.coords` are absent
      (`None`) or a list of numbers; `status` is `None` once a handler has
      assigned `undefined` or `null` to it, and `category`, `remarks` and
      `proofName`, which are not required, are `None` once `null` has been
      stored in them; `assignedTo` is `null` (`None`) until an employee is
      assigned. `createdAt`/`updatedAt` are the timestamps the
      schema's `timestamps` option maintains. */
  datatype Complaint = Complaint(
    id: Id,
    title: string,
    description: string,
    locationText: string,
    town: string,
    coords: Option<seq<int>>,
    category: Option<string>,
    status: Option<string>,
    remarks: Option<string>,
    proofName: Option<string>,
    createdBy: Id,
    assignedTo: Option<Id>,
    priority: string,
    dueDate: Option<int>,
    estimatedHours: int,
    actualHours: int,
    targetLocation: Target,
    upvotes: int,
    upvotedBy: seq<Id>,
    createdAt: int,
    updatedAt: int)

  /** The `coords` validator: absent, or exactly `[lat, lng]`. */
  predicate CoordsOk(c: Option<seq<int>>)
  {
    c.None? || |c.value| == 2
  }

  /** What `save` validates: the four required strings are non-empty (a
      required String path rejects ""), both coordinate paths pass their
      validator, and `status` and `priority` are within their enums when set. */
  predicate Valid(c: Complaint)
  {
    && c.title != "" && c.description != "" && c.locationText != "" && c.town != ""
    && CoordsOk(c.coords) && CoordsOk(c.targetLocation.coords)
    && (c.status.Some? ==> c.status.value in Statuses)
    && c.priority in Priorities
  }

  /** The upvote bookkeeping the upvote route maintains: one count per
      distinct voter. */
  predicate UpvotesConsistent(c: Complaint)
  {
    c.upvotes == |c.upvotedBy| && NoDuplicates(c.upvotedBy)
  }

  /** The document `Complaint.create` builds from the creator's fields; every
      other path takes its schema default, and `title` is trimmed. `category`
      is `None` when the creator gave none (the default applies) and
      `Some(v)` for the value given, `null` included. */
  function NewComplaint(id: Id, title: string, description: string, locationText: string, town: string,
                        coords: Option<seq<int>>, category: Option<Option<string>>, createdBy: Id, now: int): Complaint
  {
    Complaint(id, Trim(title), description, locationText, town, coords,
              match category case Some(c) => c case None => Some(DefaultCategory),
              Some(DefaultStatus), Some(""), Some(""), createdBy, None, DefaultPriority, None, 0, 0,
              Target("", None), 0, [], now, now)
  }

  /** A new document passes validation exactly when its trimmed title and the
      other three required strings are non-empty and its coords are absent or
      a pair; the defaults themselves always validate, and a new document
      starts with no votes, unassigned and Pending. */
  lemma NewComplaintValidIff(id: Id, title: string, description: string, locationText: string, town: string,
                             coords: Option<seq<int>>, category: Option<Option<string>>, createdBy: Id, now: int)
    ensures var c := NewComplaint(id, title, description, locationText, town, coords, category, createdBy, now);
      && (Valid(c) <==> Trim(title) != "" && description != "" && locationText != "" && town != "" && CoordsOk(coords))
      && UpvotesConsistent(c)
      && c.status == Some("Pending") && c.priority == "Medium" && c.assignedTo.None?
      && c.remarks == Some("") && c.proofName == Some("") && c.estimatedHours == 0 && c.actualHours == 0
      && (category.None? ==> c.category == Some("General"))
      && (category.Some? ==> c.category == category.value)
  {
  }

  /** Ids in a collection are distinct. */
  predicate DistinctIds(cs: seq<Complaint>)
  {
    forall i, j :: 0 <= i < j < |cs| ==> cs[i].id != cs[j].id
  }

  /** `sort({ createdAt: -1 })`: newest first. */
  predicate NewestFirst(cs: seq<Complaint>)
  {
    forall i, j :: 0 <= i < j < |cs| ==> cs[i].createdAt >= cs[j].createdAt
  }

  /** Inserts `c` into a newest-first list. */
  function InsertNewest(c: Complaint, cs: seq<Complaint>): (r: seq<Complaint>)
    requires NewestFirst(cs)
    ensures NewestFirst(r)
    ensures multiset(r) == multiset(cs) + multiset{c}
    ensures |r| == |cs| + 1 && (r[0] == c || (|cs| > 0 && r[0] == cs[0]))
  {
    if |cs| == 0 || cs[0].createdAt <= c.createdAt then [c] + cs
    else
      var rest := InsertNewest(c, cs[1..]);
      assert cs == [cs[0]] + cs[1..];
      assert cs[0].createdAt >= rest[0].createdAt;
      [cs[0]] + rest
  }

  /** The result of `sort({ createdAt: -1 })`: the same documents, newest first. */
  function SortNewest(cs: seq<Complaint>): (r: seq<Complaint>)
    ensures NewestFirst(r)
    ensures multiset(r) == multiset(cs)
  {
    if |cs| == 0 then []
    else
      assert cs == [cs[0]] + cs[1..];
      InsertNewest(cs[0], SortNewest(cs[1..]))
  }
}
