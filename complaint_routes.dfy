/** The complaint routes of server/src/routes/complaints.js: `pick`, list,
    read one, create, patch with its ownership check and field masks,
    upvote and delete. Each handler is a function from the collection, the
    caller's token claims and the request to a `Step` (the answer and the
    collection afterwards); the handlers that update a fetched document in
    place are also methods on the store, proved to take that step. */
module ComplaintRoutes {
  import opened Common
  import opened ComplaintModel
  import opened AuthMiddleware
  import opened DocumentFields
  import Db

  const CreateFields: seq<string> := ["title", "description", "locationText", "town", "coords", "category"]
  const UserFields: seq<string> := ["title", "description", "locationText", "coords", "category"]
  const AdminFields: seq<string> := ["status", "remarks", "proofName"]

  // ---------------------------------------------------------------------
  // pick

  /** `pick(source, fields)`: the listed keys that are defined in `source`,
      with their values unchanged. */
  function Pick(source: Obj, fields: seq<string>): (r: Obj)
    ensures forall f :: f in r <==> f in fields && f in source
    ensures forall f :: f in r ==> r[f] == source[f]
    decreases |fields|
  {
    if |fields| == 0 then map[]
    else
      var acc := Pick(source, fields[..|fields| - 1]);
      var f := fields[|fields| - 1];
      assert forall g :: g in fields <==> g in fields[..|fields| - 1] || g == f;
      if f in source then acc[f := source[f]] else acc
  }

  /** Spreading two picks is picking the concatenated field lists. */
  lemma PickSpread(source: Obj, a: seq<string>, b: seq<string>)
    ensures Pick(source, a) + Pick(source, b) == Pick(source, a + b)
  {
    var l, r := Pick(source, a) + Pick(source, b), Pick(source, a + b);
    assert forall f :: f in l <==> f in r;
    assert l.Keys == r.Keys;
  }

  // ---------------------------------------------------------------------
  // GET /

  /** The query object `Complaint.find` receives: `{}` or `{ town }`, where a
      town of `None` is `{ town: undefined }`. */
  datatype Query = All | TownIs(town: Option<string>)

  /** Whether a document matches a query; an `undefined` filter value is
      dropped from the query, so it matches every document. */
  predicate Matches(q: Query, c: Complaint)
  {
    match q
    case All => true
    case TownIs(None) => true
    case TownIs(Some(t)) => c.town == t
  }

  /** The query the list route builds: `{ town: req.user.town }` for an admin.
      `req.user` is the token payload, which carries no town. */
  function ListQuery(caller: Claims): Query
  {
    if caller.role == "admin" then TownIs(None) else All
  }

  /** `Complaint.find(q).sort({ createdAt: -1 })`: exactly the matching
      documents, each as often as stored, newest first. */
  function FindSorted(cs: seq<Complaint>, q: Query): (r: seq<Complaint>)
    ensures NewestFirst(r)
    ensures forall c :: multiset(r)[c] == if Matches(q, c) then multiset(cs)[c] else 0
  {
    SortNewest(Filter(cs, c => Matches(q, c)))
  }

  /** GET /: the list as the route computes it. */
  function List(cs: seq<Complaint>, caller: Claims): seq<Complaint>
  {
    FindSorted(cs, ListQuery(caller))
  }

  /** As written, an admin's list does not depend on the admin's town: every
      caller, admin or not, receives the whole collection newest first. */
  lemma ListIgnoresTown(cs: seq<Complaint>, caller: Claims)
    ensures NewestFirst(List(cs, caller))
    ensures multiset(List(cs, caller)) == multiset(cs)
  {
    var r := List(cs, caller);
    assert forall c :: multiset(r)[c] == multiset(cs)[c];
  }

  /** An admin of town "North" is shown a complaint filed in town "South". */
  lemma AdminSeesOtherTown(c: Complaint)
    requires c.town == "South"
    ensures c in List([c], Claims("admin-id", "admin", "admin@example.org"))
  {
    var r := List([c], Claims("admin-id", "admin", "admin@example.org"));
    assert multiset(r)[c] == 1;
  }

  /** The scoping the route intends: an admin's own town (as stored on the
      admin's user record) against every other caller's unfiltered list. */
  function ScopedQuery(caller: Claims, adminTown: string): Query
  {
    if caller.role == "admin" then TownIs(Some(adminTown)) else All
  }

  /** GET / with the admin's town taken from the admin's user record: an
      admin gets exactly the complaints of that town and everyone else gets
      all complaints, each as often as stored, newest first. */
  function ListScoped(cs: seq<Complaint>, caller: Claims, adminTown: string): (r: seq<Complaint>)
    ensures NewestFirst(r)
    ensures caller.role == "admin" ==> forall c :: c in r <==> c in cs && c.town == adminTown
    ensures caller.role == "admin" ==> forall c :: multiset(r)[c] == if c.town == adminTown then multiset(cs)[c] else 0
    ensures caller.role != "admin" ==> multiset(r) == multiset(cs)
  {
    var r := FindSorted(cs, ScopedQuery(caller, adminTown));
    assert forall c :: c in r <==> multiset(r)[c] > 0;
    assert caller.role != "admin" ==> forall c :: multiset(r)[c] == multiset(cs)[c];
    r
  }

  // ---------------------------------------------------------------------
  // GET /:id

  /** GET /:id answers any authenticated caller, with no ownership check:
      the stored complaint with that id, 404 when there is none, 500 when the
      id is not an ObjectId. */
  function GetOne(cs: seq<Complaint>, id: Id): (r: Response<Complaint>)
    ensures r.Ok? ==> r.body in cs && r.body.id == id
    ensures Db.IsObjectId(id) && Db.Taken(cs, id) ==> r == Ok(cs[Db.FindById(cs, id).index])
    ensures r == Fail(404, "Not found") <==> Db.IsObjectId(id) && !Db.Taken(cs, id)
    ensures r.Fail? ==> r.status in {404, 500}
  {
    match Db.FindById(cs, id)
    case BadId => Fail(500, "Server error")
    case Missing => Fail(404, "Not found")
    case Found(i) => Ok(cs[i])
  }

  // ---------------------------------------------------------------------
  // POST /

  /** POST /: 400 when a required field is missing or falsy, otherwise the
      new document built from the picked fields with `createdBy` set to the
      caller; everything else in the body is ignored. */
  function Create(cs: seq<Complaint>, caller: Claims, body: Obj, newId: Id, now: int): (r: Db.Step<Complaint>)
    ensures r.response == Fail(400, "Missing fields") <==>
      !TruthyAt(body, "title") || !TruthyAt(body, "description") || !TruthyAt(body, "locationText") || !TruthyAt(body, "town")
    ensures r.response.Fail? ==> r.complaints == cs
    ensures r.response.Created? ==>
      var c := r.response.body;
      && r.complaints == cs + [c]
      && Valid(c) && UpvotesConsistent(c)
      && c.id == newId && c.createdBy == caller.id && c.createdAt == now
      && body["title"].JStr? && body["description"].JStr? && body["locationText"].JStr? && body["town"].JStr?
      && c.title == Trim(body["title"].s) && c.description == body["description"].s
      && c.locationText == body["locationText"].s && c.town == body["town"].s
      && ("category" !in body ==> c.category == Some("General"))
      && ("category" in body ==> (body["category"] == JNull && c.category.None?)
                                 || (body["category"].JStr? && c.category == Some(body["category"].s)))
      && c.status == Some("Pending") && c.assignedTo.None? && c.upvotes == 0 && c.upvotedBy == []
      && c.remarks == Some("") && c.proofName == Some("")
    ensures r.response.Created? <==> CreateAccepts(body)
    ensures r.response.Ok? ==> false
  {
    var data := Pick(body, CreateFields);
    InsertAccepts(cs, caller, body, newId, now);
    InsertBuilds(cs, caller, body, newId, now);
    if !TruthyAt(data, "title") || !TruthyAt(data, "description") || !TruthyAt(data, "locationText") || !TruthyAt(data, "town") then
      Db.Step(Fail(400, "Missing fields"), cs)
    else Insert(cs, caller, data, newId, now)
  }

  /** The bodies `Complaint.create` accepts: the four required fields are
      non-empty strings and the title is not blank, `coords` is absent,
      `null` or a pair of numbers, and `category` is absent, `null` or a
      string. */
  predicate CreateAccepts(data: Obj)
  {
    && TruthyAt(data, "title") && TruthyAt(data, "description") && TruthyAt(data, "locationText") && TruthyAt(data, "town")
    && data["title"].JStr? && data["description"].JStr? && data["locationText"].JStr? && data["town"].JStr?
    && Trim(data["title"].s) != ""
    && ("coords" in data ==> CoordsAccepted(data["coords"]))
    && ("category" in data ==> data["category"] == JNull || data["category"].JStr?)
  }

  /** `Complaint.create({ ...data, createdBy })`: a value that does not cast
      or a document that fails validation throws (500). */
  function Insert(cs: seq<Complaint>, caller: Claims, data: Obj, newId: Id, now: int): (r: Db.Step<Complaint>)
    ensures r.response.Created? <==> CreateAccepts(data)
  {
    if !TruthyAt(data, "title") || !TruthyAt(data, "description") || !TruthyAt(data, "locationText") || !TruthyAt(data, "town") then
      Db.Step(Fail(500, "Server error"), cs)
    else if !data["title"].JStr? || !data["description"].JStr? || !data["locationText"].JStr? || !data["town"].JStr? then
      Db.Step(Fail(500, "Server error"), cs)
    else
      var coords := if "coords" in data then Cast("coords", data["coords"]) else Some(Point(None));
      var category := if "category" in data then Cast("category", data["category"]) else Some(MaybeText(None));
      if coords.None? || category.None? then Db.Step(Fail(500, "Server error"), cs)
      else
        var given := if "category" in data then Some(category.value.t) else None;
        var c := NewComplaint(newId, data["title"].s, data["description"].s, data["locationText"].s, data["town"].s,
                              coords.value.c, given, caller.id, now);
        NewComplaintValidIff(newId, data["title"].s, data["description"].s, data["locationText"].s, data["town"].s,
                             coords.value.c, given, caller.id, now);
        if !Valid(c) then Db.Step(Fail(500, "Server error"), cs)
        else Db.Step(Created(c), cs + [c])
  }

  /** `Complaint.create` on the picked fields accepts exactly the bodies
      `CreateAccepts` describes. */
  lemma InsertAccepts(cs: seq<Complaint>, caller: Claims, body: Obj, newId: Id, now: int)
    ensures Insert(cs, caller, Pick(body, CreateFields), newId, now).response.Created? <==> CreateAccepts(body)
  {
    PickAccepts(body);
  }

  /** What `Complaint.create` on the picked fields stores, in terms of the
      request body. */
  lemma InsertBuilds(cs: seq<Complaint>, caller: Claims, body: Obj, newId: Id, now: int)
    ensures var r := Insert(cs, caller, Pick(body, CreateFields), newId, now);
      && (r.response.Fail? ==> r.complaints == cs)
      && !r.response.Ok?
      && (r.response.Created? ==>
        var c := r.response.body;
        && r.complaints == cs + [c]
        && Valid(c) && UpvotesConsistent(c)
        && c.id == newId && c.createdBy == caller.id && c.createdAt == now
        && body["title"].JStr? && body["description"].JStr? && body["locationText"].JStr? && body["town"].JStr?
        && c.title == Trim(body["title"].s) && c.description == body["description"].s
        && c.locationText == body["locationText"].s && c.town == body["town"].s
        && ("category" !in body ==> c.category == Some("General"))
        && ("category" in body ==> (body["category"] == JNull && c.category.None?)
                                   || (body["category"].JStr? && c.category == Some(body["category"].s)))
        && c.status == Some("Pending") && c.assignedTo.None? && c.upvotes == 0 && c.upvotedBy == []
        && c.remarks == Some("") && c.proofName == Some(""))
  {
    var data := Pick(body, CreateFields);
    assert forall k :: k in CreateFields ==> (k in data <==> k in body) && (k in data ==> data[k] == body[k]);
  }

  /** Only the picked fields decide whether a body is accepted. */
  lemma PickAccepts(body: Obj)
    ensures CreateAccepts(Pick(body, CreateFields)) <==> CreateAccepts(body)
  {
    var data := Pick(body, CreateFields);
    assert forall k :: k in CreateFields ==> (k in data <==> k in body);
  }

  /** A created complaint can be read back by its id, with the caller as its
      creator and status Pending. */
  lemma CreateThenGet(cs: seq<Complaint>, caller: Claims, body: Obj, newId: Id, now: int)
    requires Db.IsObjectId(newId) && !Db.Taken(cs, newId)
    requires Create(cs, caller, body, newId, now).response.Created?
    ensures var r := Create(cs, caller, body, newId, now);
      GetOne(r.complaints, newId) == Ok(r.response.body)
  {
    var r := Create(cs, caller, body, newId, now);
    var c := r.response.body;
    assert r.complaints == cs + [c] && c.id == newId;
    Db.FindAppended(cs, c);
  }

  /** A `null` category is stored as `null`: a body that creates a complaint
      without a category creates the same complaint with one that is `null`. */
  lemma NullCategoryCreates(cs: seq<Complaint>, caller: Claims, body: Obj, newId: Id, now: int)
    requires Create(cs, caller, body - {"category"}, newId, now).response.Created?
    ensures var r := Create(cs, caller, body["category" := JNull], newId, now);
      && r.response.Created?
      && r.response.body == Create(cs, caller, body - {"category"}, newId, now).response.body.(category := None)
  {
    var b0, b1 := body - {"category"}, body["category" := JNull];
    var d0, d1 := Pick(b0, CreateFields), Pick(b1, CreateFields);
    PickNullCategory(body);
    CreateInserts(cs, caller, b0, newId, now);
    assert d1["title"] == d0["title"] && d1["description"] == d0["description"];
    assert d1["locationText"] == d0["locationText"] && d1["town"] == d0["town"];
    CreateInserts(cs, caller, b1, newId, now);
    InsertNullCategory(cs, caller, d0, newId, now);
  }

  /** A body with every required field truthy goes on to `Complaint.create`. */
  lemma CreateInserts(cs: seq<Complaint>, caller: Claims, body: Obj, newId: Id, now: int)
    requires var d := Pick(body, CreateFields);
      TruthyAt(d, "title") && TruthyAt(d, "description") && TruthyAt(d, "locationText") && TruthyAt(d, "town")
    ensures Create(cs, caller, body, newId, now) == Insert(cs, caller, Pick(body, CreateFields), newId, now)
  {
  }

  lemma InsertNullCategory(cs: seq<Complaint>, caller: Claims, data: Obj, newId: Id, now: int)
    requires "category" !in data && Insert(cs, caller, data, newId, now).response.Created?
    ensures var r := Insert(cs, caller, data["category" := JNull], newId, now);
      r.response == Created(Insert(cs, caller, data, newId, now).response.body.(category := None))
  {
    var d1 := data["category" := JNull];
    assert d1["title"] == data["title"] && d1["description"] == data["description"];
    assert d1["locationText"] == data["locationText"] && d1["town"] == data["town"];
    assert "coords" in d1 <==> "coords" in data;
    assert "coords" in d1 ==> d1["coords"] == data["coords"];
  }
  lemma PickNullCategory(body: Obj)
    ensures Pick(body["category" := JNull], CreateFields) == Pick(body - {"category"}, CreateFields)["category" := JNull]
  {
    var d0, d1 := Pick(body - {"category"}, CreateFields), Pick(body["category" := JNull], CreateFields);
    assert "category" in CreateFields;
    assert d1.Keys == d0.Keys + {"category"};
  }

  // ---------------------------------------------------------------------
  // PATCH /:id

  /** Who may patch a document: an admin (with the wider mask, even when also
      the creator), the creator, or nobody else. */
  datatype Access = Denied | AsOwner | AsAdmin

  function PatchAccess(doc: Complaint, caller: Claims): Access
  {
    if caller.role == "admin" then AsAdmin
    else if doc.createdBy == caller.id then AsOwner
    else Denied
  }

  /** The write mask: the creator's fields, plus status, remarks and
      proofName for an admin. */
  function Mask(a: Access): seq<string>
  {
    if a == AsAdmin then UserFields + AdminFields else UserFields
  }

  /** `updates`: the body restricted to the mask. */
  function Updates(body: Obj, a: Access): (r: Obj)
    ensures r == Pick(body, Mask(a))
  {
    if a == AsAdmin then
      PickSpread(body, UserFields, AdminFields);
      Pick(body, UserFields) + Pick(body, AdminFields)
    else Pick(body, UserFields)
  }

  /** `save` after the assignment: a failed cast or a failed validation
      throws; otherwise `updatedAt` moves to `now` when a path changed. */
  function Save(before: Complaint, after: Option<Complaint>, now: int): Option<Complaint>
  {
    match after
    case None => None
    case Some(d) =>
      var saved := if d == before then d else d.(updatedAt := now);
      if Valid(saved) then Some(saved) else None
  }

  /** `c` is `before` with each masked path present in `body` set to the cast
      of its value, and every other path (patchable or not) as it was. */
  ghost predicate Patched(before: Complaint, c: Complaint, mask: seq<string>, body: Obj)
  {
    && Fixed(before, c)
    && forall g :: Get(c, g) == if g in mask && g in body then Cast(g, body[g]) else Get(before, g)
  }

  /** A successful save keeps the assigned document, up to `updatedAt`. */
  lemma SaveKeeps(before: Complaint, d: Complaint, now: int)
    requires Save(before, Some(d), now).Some?
    ensures var c := Save(before, Some(d), now).value;
      Valid(c) && Fixed(d, c) && forall g :: Get(c, g) == Get(d, g)
  {
    var c := Save(before, Some(d), now).value;
    assert c == d || c == d.(updatedAt := now);
  }

  /** What a successful save of the masked assignment leaves. */
  lemma SavedIsPatched(before: Complaint, body: Obj, a: Access, now: int)
    requires Save(before, Assign(before, Updates(body, a), Mask(a)), now).Some?
    ensures var c := Save(before, Assign(before, Updates(body, a), Mask(a)), now).value;
      Valid(c) && Patched(before, c, Mask(a), body)
  {
    var mask := Mask(a);
    var u := Updates(body, a);
    var d := Assign(before, u, mask).value;
    SaveKeeps(before, d, now);
    var c := Save(before, Some(d), now).value;
    FixedTransitive(before, d, c);
    forall g ensures Get(c, g) == if g in mask && g in body then Cast(g, body[g]) else Get(before, g) {
      assert Get(c, g) == Get(d, g);
      assert g in u <==> g in mask && g in body;
      if g in u {
        assert u[g] == body[g];
      }
    }
  }

  /** When the source's patch saves: the caller may patch, every masked
      value in the body casts, and the document it writes validates. */
  ghost predicate PatchAccepts(d: Complaint, caller: Claims, body: Obj)
  {
    var a := PatchAccess(d, caller);
    && a != Denied
    && (forall g :: g in Mask(a) && g in body ==> Cast(g, body[g]).Some?)
    && (forall c :: Patched(d, c, Mask(a), body) ==> Valid(c))
  }

  /** Two documents patched from the same one by the same body differ at
      most in `updatedAt`. */
  lemma PatchedUpToTime(before: Complaint, c1: Complaint, c2: Complaint, mask: seq<string>, body: Obj)
    requires Patched(before, c1, mask, body) && Patched(before, c2, mask, body)
    ensures c2 == c1.(updatedAt := c2.updatedAt)
  {
    assert Get(c1, "title") == Get(c2, "title") && Get(c1, "description") == Get(c2, "description");
    assert Get(c1, "locationText") == Get(c2, "locationText") && Get(c1, "coords") == Get(c2, "coords");
    assert Get(c1, "category") == Get(c2, "category") && Get(c1, "status") == Get(c2, "status");
    assert Get(c1, "remarks") == Get(c2, "remarks") && Get(c1, "proofName") == Get(c2, "proofName");
  }

  /** The masked assignment fails exactly when some masked value in the
      body does not cast. */
  lemma AssignCasts(d: Complaint, body: Obj, a: Access)
    ensures Assign(d, Updates(body, a), Mask(a)).Some? <==>
      forall g :: g in Mask(a) && g in body ==> Cast(g, body[g]).Some?
  {
    var m, u := Mask(a), Updates(body, a);
    assert forall g :: g in u <==> g in m && g in body;
    if Assign(d, u, m).None? {
      var g :| g in m && g in u && Cast(g, u[g]).None?;
      assert g in body && Cast(g, body[g]).None?;
    }
  }

  /** The masked assignment is a patched document. */
  lemma AssignedIsPatched(d: Complaint, body: Obj, a: Access)
    requires Assign(d, Updates(body, a), Mask(a)).Some?
    ensures Patched(d, Assign(d, Updates(body, a), Mask(a)).value, Mask(a), body)
  {
    var m, u := Mask(a), Updates(body, a);
    assert forall g :: g in u <==> g in m && g in body;
    var e := Assign(d, u, m).value;
    forall g ensures Get(e, g) == if g in m && g in body then Cast(g, body[g]) else Get(d, g) {
      if g in u {
        assert u[g] == body[g];
      }
    }
  }

  /** `updatedAt` is not a patchable path. */
  lemma PatchedAnyTime(before: Complaint, c: Complaint, mask: seq<string>, body: Obj, t: int)
    requires Patched(before, c, mask, body)
    ensures Patched(before, c.(updatedAt := t), mask, body)
  {
    forall g ensures Get(c.(updatedAt := t), g) == Get(c, g) {
    }
  }

  /** The masked assignment saves exactly when the patch is acceptable. */
  lemma SaveIffAccepts(d: Complaint, caller: Claims, body: Obj, now: int)
    requires PatchAccess(d, caller) != Denied
    ensures var a := PatchAccess(d, caller);
      Save(d, Assign(d, Updates(body, a), Mask(a)), now).Some? <==> PatchAccepts(d, caller, body)
  {
    var a := PatchAccess(d, caller);
    var m := Mask(a);
    AssignCasts(d, body, a);
    if Assign(d, Updates(body, a), m).Some? {
      var e := Assign(d, Updates(body, a), m).value;
      AssignedIsPatched(d, body, a);
      PatchedAnyTime(d, e, m, body, now);
      var saved := if e == d then e else e.(updatedAt := now);
      assert Patched(d, saved, m, body);
      if Valid(saved) {
        forall c | Patched(d, c, m, body) ensures Valid(c) {
          PatchedUpToTime(d, saved, c, m, body);
        }
      }
    }
  }

  /** PATCH /:id. 404 for an unknown id and 403 for a caller who is neither
      the creator nor an admin, both with the collection unchanged. A
      successful patch replaces the stored document by a valid one in which
      each masked path present in the body is written and nothing else
      changes. */
  function Patch(cs: seq<Complaint>, caller: Claims, id: Id, body: Obj, now: int): (r: Db.Step<Complaint>)
    ensures r.response.Fail? ==> r.complaints == cs
    ensures r.response == Fail(404, "Not found") <==> Db.IsObjectId(id) && !Db.Taken(cs, id)
    ensures r.response == Fail(403, "Forbidden") <==>
      Db.FindById(cs, id).Found? && PatchAccess(cs[Db.FindById(cs, id).index], caller) == Denied
    ensures r.response.Ok? ==>
      && Db.FindById(cs, id).Found?
      && var i := Db.FindById(cs, id).index;
      && PatchAccess(cs[i], caller) != Denied
      && r.complaints == cs[i := r.response.body]
      && Valid(r.response.body)
      && Patched(cs[i], r.response.body, Mask(PatchAccess(cs[i], caller)), body)
    ensures r.response.Ok? <==>
      Db.FindById(cs, id).Found? && PatchAccepts(cs[Db.FindById(cs, id).index], caller, body)
    ensures !r.response.Created?
  {
    match Db.FindById(cs, id)
    case BadId => Db.Step(Fail(500, "Server error"), cs)
    case Missing => Db.Step(Fail(404, "Not found"), cs)
    case Found(i) =>
      var a := PatchAccess(cs[i], caller);
      if a == Denied then Db.Step(Fail(403, "Forbidden"), cs)
      else
        SaveIffAccepts(cs[i], caller, body, now);
        match Save(cs[i], Assign(cs[i], Updates(body, a), Mask(a)), now)
        case None => Db.Step(Fail(500, "Server error"), cs)
        case Some(c) =>
          SavedIsPatched(cs[i], body, a, now);
          Db.Step(Ok(c), cs[i := c])
  }

  /** An admin resolving a valid stored complaint: the patch saves and the
      status becomes "Resolved". */
  lemma AdminResolveSaved(cs: seq<Complaint>, caller: Claims, id: Id, now: int)
    requires Db.FindById(cs, id).Found? && Valid(cs[Db.FindById(cs, id).index])
    requires caller.role == "admin"
    ensures var r := Patch(cs, caller, id, map["status" := JStr("Resolved")], now);
      r.response.Ok? && r.response.body.status == Some("Resolved")
  {
    var d := cs[Db.FindById(cs, id).index];
    var body := map["status" := JStr("Resolved")];
    var m := Mask(AsAdmin);
    assert "status" in m;
    forall c | Patched(d, c, m, body) ensures Valid(c) {
      assert Get(c, "status") == Some(MaybeText(Some("Resolved")));
      assert Get(c, "title") == Get(d, "title") && Get(c, "description") == Get(d, "description");
      assert Get(c, "locationText") == Get(d, "locationText") && Get(c, "coords") == Get(d, "coords");
    }
    assert PatchAccepts(d, caller, body);
    var r := Patch(cs, caller, id, body, now);
    assert Get(r.response.body, "status") == Some(MaybeText(Some("Resolved")));
  }

  /** An admin's `null` remarks or proof name is stored as `null`: the
      patch succeeds on any valid stored complaint and writes only that path. */
  lemma AdminNullTextSaved(cs: seq<Complaint>, caller: Claims, id: Id, f: string, now: int)
    requires Db.FindById(cs, id).Found? && Valid(cs[Db.FindById(cs, id).index])
    requires caller.role == "admin" && f in {"remarks", "proofName"}
    ensures var r := Patch(cs, caller, id, map[f := JNull], now);
      && r.response.Ok?
      && Get(r.response.body, f) == Some(MaybeText(None))
      && forall g :: g != f ==> Get(r.response.body, g) == Get(cs[Db.FindById(cs, id).index], g)
  {
    var i := Db.FindById(cs, id).index;
    var body := map[f := JNull];
    NullTextAssigned(cs[i], f, now);
    var c := Save(cs[i], Assign(cs[i], Updates(body, AsAdmin), Mask(AsAdmin)), now).value;
    SavedIsPatched(cs[i], body, AsAdmin, now);
    assert f in Mask(AsAdmin);
    assert Patch(cs, caller, id, body, now).response == Ok(c);
  }

  /** The admin's masked assignment of `null` to remarks or proofName saves
      a valid document. */
  lemma NullTextAssigned(before: Complaint, f: string, now: int)
    requires Valid(before) && f in {"remarks", "proofName"}
    ensures Save(before, Assign(before, Updates(map[f := JNull], AsAdmin), Mask(AsAdmin)), now).Some?
  {
    NullTextUpdates(f);
    NullTextAssign(before, f);
    var e := Assign(before, map[f := JNull], Mask(AsAdmin)).value;
    KeptPathsValid(before, e, now);
    assert Save(before, Some(e), now).Some?;
  }

  /** Assigning `null` to remarks or proofName casts, and keeps the paths
      validation looks at. */
  lemma NullTextAssign(before: Complaint, f: string)
    requires f in {"remarks", "proofName"}
    ensures var e := Assign(before, map[f := JNull], Mask(AsAdmin));
      && e.Some? && Fixed(before, e.value)
      && Get(e.value, "title") == Get(before, "title") && Get(e.value, "description") == Get(before, "description")
      && Get(e.value, "locationText") == Get(before, "locationText") && Get(e.value, "status") == Get(before, "status")
      && Get(e.value, "coords") == Get(before, "coords")
  {
    var u := map[f := JNull];
    assert Cast(f, JNull).Some?;
    forall g | g in Mask(AsAdmin) && g in u ensures Cast(g, u[g]).Some? {
      assert g == f;
    }
    assert "title" !in u && "description" !in u && "locationText" !in u && "status" !in u && "coords" !in u;
  }

  /** A document that keeps a valid one's fixed paths and its validated
      paths is valid, whatever its `updatedAt`. */
  lemma KeptPathsValid(before: Complaint, e: Complaint, now: int)
    requires Valid(before) && Fixed(before, e)
    requires Get(e, "title") == Get(before, "title") && Get(e, "description") == Get(before, "description")
    requires Get(e, "locationText") == Get(before, "locationText") && Get(e, "status") == Get(before, "status")
    requires Get(e, "coords") == Get(before, "coords")
    ensures Valid(e) && Valid(e.(updatedAt := now))
  {
  }

  lemma NullTextUpdates(f: string)
    requires f in {"remarks", "proofName"}
    ensures Updates(map[f := JNull], AsAdmin) == map[f := JNull]
  {
    var body := map[f := JNull];
    var m := Mask(AsAdmin);
    assert f in m by {
      assert m == UserFields + AdminFields;
      assert AdminFields[1] == "remarks" && AdminFields[2] == "proofName";
    }
    PickAll(body, m);
  }

  /** Picking every key an object has gives the object back. */
  lemma PickAll(source: Obj, fields: seq<string>)
    requires forall f :: f in source ==> f in fields
    ensures Pick(source, fields) == source
  {
    assert Pick(source, fields).Keys == source.Keys;
  }

  /** A creator's patch leaves the admin-only paths (status, remarks,
      proofName) as they were, and no patch moves a complaint to another
      creator, town, assignee or upvote count. */
  lemma PatchKeepsProtectedFields(cs: seq<Complaint>, caller: Claims, id: Id, body: Obj, now: int)
    requires Patch(cs, caller, id, body, now).response.Ok?
    ensures var c := Patch(cs, caller, id, body, now).response.body;
      var d := cs[Db.FindById(cs, id).index];
      && c.id == id && c.createdBy == d.createdBy && c.town == d.town && c.assignedTo == d.assignedTo
      && c.upvotes == d.upvotes && c.upvotedBy == d.upvotedBy && c.createdAt == d.createdAt
      && (caller.role != "admin" ==> c.status == d.status && c.remarks == d.remarks && c.proofName == d.proofName)
  {
    var c := Patch(cs, caller, id, body, now).response.body;
    var d := cs[Db.FindById(cs, id).index];
    if caller.role != "admin" {
      assert Mask(PatchAccess(d, caller)) == UserFields;
      assert "status" !in UserFields && "remarks" !in UserFields && "proofName" !in UserFields;
      assert Get(c, "status") == Get(d, "status");
      assert Get(c, "remarks") == Get(d, "remarks");
      assert Get(c, "proofName") == Get(d, "proofName");
    }
  }

  /** The store method for PATCH /:id: fetch, check, assign the masked
      updates one key at a time, save. */
  method PatchHandler(db: Db.Store, caller: Claims, id: Id, body: Obj, now: int) returns (r: Response<Complaint>)
    requires db.Valid()
    modifies db
    ensures db.Valid()
    ensures r == Patch(old(db.complaints), caller, id, body, now).response
    ensures db.complaints == Patch(old(db.complaints), caller, id, body, now).complaints
    ensures db.users == old(db.users)
  {
    var lookup := Db.FindById(db.complaints, id);
    if lookup.BadId? {
      r := Fail(500, "Server error");
    } else if lookup.Missing? {
      r := Fail(404, "Not found");
    } else {
      var i := lookup.index;
      var complaint := db.complaints[i];
      var a := PatchAccess(complaint, caller);
      if a == Denied {
        r := Fail(403, "Forbidden");
      } else {
        var keys := Mask(a);
        var updates := Updates(body, a);
        var doc := AssignKeys(complaint, updates, keys);
        var saved := Save(complaint, doc, now);
        if saved.None? {
          r := Fail(500, "Server error");
        } else {
          SavedIsPatched(complaint, body, a, now);
          Db.ReplaceKeeps(db.complaints, i, saved.value);
          db.complaints := db.complaints[i := saved.value];
          r := Ok(saved.value);
        }
      }
    }
  }

  /** `Object.assign(doc, updates)` as the loop over `keys` it performs. */
  method AssignKeys(complaint: Complaint, updates: Obj, keys: seq<string>) returns (doc: Option<Complaint>)
    ensures doc == Assign(complaint, updates, keys)
  {
    doc := Some(complaint);
    for k := 0 to |keys|
      invariant doc == Assign(complaint, updates, keys[..k])
    {
      assert keys[..k + 1][..k] == keys[..k];
      if doc.Some? && keys[k] in updates {
        doc := SetField(doc.value, keys[k], updates[keys[k]]);
      }
    }
    assert keys[..|keys|] == keys;
  }

  // ---------------------------------------------------------------------
  // PUT /:id/upvote

  /** The document after one upvote by `voter`. */
  function Voted(d: Complaint, voter: Id, now: int): Complaint
  {
    d.(upvotes := d.upvotes + 1, upvotedBy := d.upvotedBy + [voter], updatedAt := now)
  }

  /** PUT /:id/upvote: 400 "Already upvoted" when the caller is in
      `upvotedBy`; otherwise the count goes up by one, the caller is appended,
      and the answer is the new count. */
  function Upvote(cs: seq<Complaint>, caller: Claims, id: Id, now: int): (r: Db.Step<int>)
    ensures r.response.Fail? ==> r.complaints == cs
    ensures r.response == Fail(404, "Not found") <==> Db.IsObjectId(id) && !Db.Taken(cs, id)
    ensures r.response == Fail(400, "Already upvoted") <==>
      Db.FindById(cs, id).Found? && caller.id in cs[Db.FindById(cs, id).index].upvotedBy
    ensures r.response.Ok? ==>
      && Db.FindById(cs, id).Found?
      && var i := Db.FindById(cs, id).index;
      && caller.id !in cs[i].upvotedBy
      && r.complaints == cs[i := Voted(cs[i], caller.id, now)]
      && r.response.body == cs[i].upvotes + 1
    ensures (Db.FindById(cs, id).Found? && Valid(cs[Db.FindById(cs, id).index])
             && caller.id !in cs[Db.FindById(cs, id).index].upvotedBy) ==>
      r.response == Ok(cs[Db.FindById(cs, id).index].upvotes + 1)
    ensures !r.response.Created?
  {
    match Db.FindById(cs, id)
    case BadId => Db.Step(Fail(500, "Server error"), cs)
    case Missing => Db.Step(Fail(404, "Not found"), cs)
    case Found(i) =>
      var doc := cs[i];
      if caller.id in doc.upvotedBy then Db.Step(Fail(400, "Already upvoted"), cs)
      else
        var voted := Voted(doc, caller.id, now);
        if !Valid(voted) then Db.Step(Fail(500, "Server error"), cs)
        else Db.Step(Ok(voted.upvotes), cs[i := voted])
  }

  /** An upvote keeps `upvotes == |upvotedBy|` with no repeated voter. */
  lemma UpvoteKeepsConsistent(cs: seq<Complaint>, caller: Claims, id: Id, now: int)
    requires forall i :: 0 <= i < |cs| ==> UpvotesConsistent(cs[i])
    ensures var r := Upvote(cs, caller, id, now);
      forall i :: 0 <= i < |r.complaints| ==> UpvotesConsistent(r.complaints[i])
  {
    var r := Upvote(cs, caller, id, now);
    if r.response.Ok? {
      var i := Db.FindById(cs, id).index;
      var v := cs[i].upvotedBy + [caller.id];
      forall a, b | 0 <= a < b < |v| ensures v[a] != v[b] {
        if b == |v| - 1 {
          assert v[a] in cs[i].upvotedBy;
        }
      }
      assert UpvotesConsistent(r.complaints[i]);
    }
  }

  /** A second upvote by the same caller is refused and changes nothing. */
  lemma UpvoteTwice(cs: seq<Complaint>, caller: Claims, id: Id, now: int, later: int)
    requires DistinctIds(cs)
    requires Upvote(cs, caller, id, now).response.Ok?
    ensures var first := Upvote(cs, caller, id, now);
      Upvote(first.complaints, caller, id, later) == Db.Step(Fail(400, "Already upvoted"), first.complaints)
  {
    var first := Upvote(cs, caller, id, now);
    var i := Db.FindById(cs, id).index;
    var cs' := first.complaints;
    forall j | 0 <= j < i ensures cs'[j].id != id {
      assert cs'[j] == cs[j];
    }
    assert cs'[i].id == id;
    assert Db.FindById(cs', id) == Db.Found(i);
    assert caller.id in cs'[i].upvotedBy;
  }

  /** The store method for PUT /:id/upvote: increments the count and pushes
      the voter onto the fetched document, then saves it. */
  method UpvoteHandler(db: Db.Store, caller: Claims, id: Id, now: int) returns (r: Response<int>)
    requires db.Valid()
    modifies db
    ensures db.Valid()
    ensures r == Upvote(old(db.complaints), caller, id, now).response
    ensures db.complaints == Upvote(old(db.complaints), caller, id, now).complaints
    ensures db.users == old(db.users)
  {
    var lookup := Db.FindById(db.complaints, id);
    if lookup.BadId? {
      return Fail(500, "Server error");
    }
    if lookup.Missing? {
      return Fail(404, "Not found");
    }
    var i := lookup.index;
    var complaint := db.complaints[i];
    if caller.id in complaint.upvotedBy {
      return Fail(400, "Already upvoted");
    }
    complaint := complaint.(upvotes := complaint.upvotes + 1);
    complaint := complaint.(upvotedBy := complaint.upvotedBy + [caller.id]);
    complaint := complaint.(updatedAt := now);
    // Validation passes: the paths it checks are those of a stored document.
    assert complaint == Voted(db.complaints[i], caller.id, now) && Valid(complaint);
    db.complaints := db.complaints[i := complaint];
    r := Ok(complaint.upvotes);
  }

  // ---------------------------------------------------------------------
  // DELETE /:id

  /** DELETE /:id, behind `requireRole("admin")` (403 for any other role):
      removes the one document with that id and keeps the others in order. */
  function Delete(cs: seq<Complaint>, caller: Claims, id: Id): (r: Db.Step<string>)
    ensures r.response.Fail? ==> r.complaints == cs
    ensures caller.role != "admin" ==> r.response == Fail(403, "Forbidden")
    ensures r.response.Ok? ==>
      caller.role == "admin" &&
      exists i :: 0 <= i < |cs| && cs[i].id == id && r.complaints == cs[..i] + cs[i + 1..]
    ensures caller.role == "admin" && Db.IsObjectId(id) ==> (r.response.Ok? <==> Db.Taken(cs, id))
  {
    if caller.role != "admin" then Db.Step(Fail(403, "Forbidden"), cs)
    else match Db.FindById(cs, id)
      case BadId => Db.Step(Fail(500, "Server error"), cs)
      case Missing => Db.Step(Fail(404, "Not found"), cs)
      case Found(i) => Db.Step(Ok("Deleted"), cs[..i] + cs[i + 1..])
  }

  /** After a delete in a collection of distinct ids, the id is gone and every
      other complaint is still there. */
  lemma DeleteRemovesOnlyTarget(cs: seq<Complaint>, caller: Claims, id: Id)
    requires DistinctIds(cs)
    requires Delete(cs, caller, id).response.Ok?
    ensures var after := Delete(cs, caller, id).complaints;
      && !Db.Taken(after, id) && |after| == |cs| - 1
      && forall c :: c in cs && c.id != id ==> c in after
  {
    var after := Delete(cs, caller, id).complaints;
    var i :| 0 <= i < |cs| && cs[i].id == id && after == cs[..i] + cs[i + 1..];
    RemoveAtOnlyTarget(cs, i);
  }

  /** Removing position `i` from a collection with unique ids removes that
      id and nothing else. */
  lemma RemoveAtOnlyTarget(cs: seq<Complaint>, i: nat)
    requires DistinctIds(cs) && i < |cs|
    ensures var after := cs[..i] + cs[i + 1..];
      && !Db.Taken(after, cs[i].id) && |after| == |cs| - 1
      && forall c :: c in cs && c.id != cs[i].id ==> c in after
  {
    var after := cs[..i] + cs[i + 1..];
    var id := cs[i].id;
    forall j | 0 <= j < |after| ensures after[j].id != id {
      if j < i {
        assert after[j] == cs[j];
      } else {
        assert after[j] == cs[j + 1];
      }
    }
    forall c | c in cs && c.id != id ensures c in after {
      var k :| 0 <= k < |cs| && cs[k] == c;
      if k < i {
        assert after[k] == c;
      } else {
        assert k > i;
        assert after[k - 1] == c;
      }
    }
  }


  /** A patch keeps the stored ids unique and well-formed and every stored
      complaint valid. */
  lemma PatchKeepsStore(cs: seq<Complaint>, caller: Claims, id: Id, body: Obj, now: int)
    requires DistinctIds(cs) && forall i :: 0 <= i < |cs| ==> Valid(cs[i]) && Db.IsObjectId(cs[i].id)
    ensures var p := Patch(cs, caller, id, body, now).complaints;
      DistinctIds(p) && forall i :: 0 <= i < |p| ==> Valid(p[i]) && Db.IsObjectId(p[i].id)
  {
    var p := Patch(cs, caller, id, body, now);
    if p.response.Ok? {
      var i := Db.FindById(cs, id).index;
      Db.ReplaceKeeps(cs, i, p.response.body);
    }
  }

  /** An upvote keeps the stored ids unique and well-formed and every stored
      complaint valid. */
  lemma UpvoteKeepsStore(cs: seq<Complaint>, caller: Claims, id: Id, now: int)
    requires DistinctIds(cs) && forall i :: 0 <= i < |cs| ==> Valid(cs[i]) && Db.IsObjectId(cs[i].id)
    ensures var u := Upvote(cs, caller, id, now).complaints;
      DistinctIds(u) && forall i :: 0 <= i < |u| ==> Valid(u[i]) && Db.IsObjectId(u[i].id)
  {
    var u := Upvote(cs, caller, id, now);
    if u.response.Ok? {
      var i := Db.FindById(cs, id).index;
      assert u.complaints[i].id == cs[i].id;
    }
  }

  /** The store method for POST /: `Complaint.create` inserts the new
      document under a fresh ObjectId, and the store stays valid. */
  method CreateHandler(db: Db.Store, caller: Claims, body: Obj, newId: Id, now: int) returns (r: Response<Complaint>)
    requires db.Valid()
    requires Db.IsObjectId(newId) && !Db.Taken(db.complaints, newId)
    modifies db
    ensures db.Valid()
    ensures r == Create(old(db.complaints), caller, body, newId, now).response
    ensures db.complaints == Create(old(db.complaints), caller, body, newId, now).complaints
    ensures db.users == old(db.users)
  {
    var step := Create(db.complaints, caller, body, newId, now);
    if step.response.Created? {
      Db.AppendKeeps(db.complaints, step.response.body);
      db.complaints := db.complaints + [step.response.body];
    }
    r := step.response;
  }

  /** The store method for DELETE /:id: `findByIdAndDelete` removes the one
      document with the id, and the store stays valid. */
  method DeleteHandler(db: Db.Store, caller: Claims, id: Id) returns (r: Response<string>)
    requires db.Valid()
    modifies db
    ensures db.Valid()
    ensures r == Delete(old(db.complaints), caller, id).response
    ensures db.complaints == Delete(old(db.complaints), caller, id).complaints
    ensures db.users == old(db.users)
  {
    if caller.role != "admin" {
      r := Fail(403, "Forbidden");
    } else {
      var lookup := Db.FindById(db.complaints, id);
      if lookup.BadId? {
        r := Fail(500, "Server error");
      } else if lookup.Missing? {
        r := Fail(404, "Not found");
      } else {
        var i := lookup.index;
        Db.RemoveKeeps(db.complaints, i);
        db.complaints := db.complaints[..i] + db.complaints[i + 1..];
        r := Ok("Deleted");
      }
    }
  }
}
