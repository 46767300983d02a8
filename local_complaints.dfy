/** The complaint list frontend/src/utils/complaints.js keeps under the
    storage key "cc_complaints": lookups by id, the per-user view, and the
    in-place updates that rewrite the whole list. Records are compared by
    `String(...)` of their `id`, `_id` and `userId` values. */
module LocalComplaints {
  import opened Common
  import opened Browser

  const Key: string := "cc_complaints"

  /** `String(c.id) === String(id) || String(c._id) === String(id)`. */
  predicate Matches(c: Obj, id: Json)
  {
    StringAt(c, "id") == JsString(id) || StringAt(c, "_id") == JsString(id)
  }

  /** `getComplaintById`: the first record matching by `id` or `_id`, or
      `null`. */
  function ById(list: seq<Obj>, id: Json): (r: Option<Obj>)
    ensures r.Some? ==>
      exists i :: && 0 <= i < |list| && list[i] == r.value && Matches(list[i], id)
                  && forall j :: 0 <= j < i ==> !Matches(list[j], id)
    ensures r.None? <==> forall c :: c in list ==> !Matches(c, id)
  {
    match FirstIndex(list, (c: Obj) => Matches(c, id))
    case None => None
    case Some(i) => Some(list[i])
  }

  /** `getMyComplaints`: a missing or falsy user id gives the whole list;
      otherwise exactly the records whose `userId` string-equals it, each as
      often as stored and in stored order. */
  function Mine(list: seq<Obj>, userId: Option<Json>): (r: seq<Obj>)
    ensures userId.None? || !Truthy(userId.value) ==> r == list
    ensures userId.Some? && Truthy(userId.value) ==>
      && |r| <= |list| && SubsequenceOf(r, list)
      && forall c :: multiset(r)[c] == if StringAt(c, "userId") == JsString(userId.value) then multiset(list)[c] else 0
  {
    if userId.None? || !Truthy(userId.value) then list
    else Filter(list, (c: Obj) => StringAt(c, "userId") == JsString(userId.value))
  }

  /** An assignment without a (truthy) status: `updateComplaint` then sets
      the status to "Assigned". */
  predicate AssignsOnly(updates: Obj)
  {
    TruthyAt(updates, "assignedTo") && !TruthyAt(updates, "status")
  }

  /** The outcome of an in-place edit: nothing matched, or the index edited,
      the new record and the whole list written back. */
  datatype Edit = NotFound | Edited(index: nat, record: Obj, list: seq<Obj>)

  /** The list `updateComplaint(id, updates)` writes back. The first record
      matching by `id` or `_id` becomes `{ ...old, ...updates }`, with the
      status forced to "Assigned" when the updates assign without a status;
      every other record, and the length, stay as they were. */
  function UpdateList(list: seq<Obj>, id: Json, updates: Obj): (r: Edit)
    ensures r.NotFound? <==> forall c :: c in list ==> !Matches(c, id)
    ensures r.Edited? ==>
      && r.index < |list| && Matches(list[r.index], id)
      && (forall j :: 0 <= j < r.index ==> !Matches(list[j], id))
      && |r.list| == |list| && r.list[r.index] == r.record
      && (forall j :: 0 <= j < |list| && j != r.index ==> r.list[j] == list[j])
      && (forall k :: k in r.record <==> k in list[r.index] || k in updates || (k == "status" && AssignsOnly(updates)))
      && (AssignsOnly(updates) ==> r.record["status"] == JStr("Assigned"))
      && (forall k :: k in updates && !(k == "status" && AssignsOnly(updates)) ==> r.record[k] == updates[k])
      && (forall k :: k in list[r.index] && k !in updates && !(k == "status" && AssignsOnly(updates)) ==>
            r.record[k] == list[r.index][k])
  {
    match FirstIndex(list, (c: Obj) => Matches(c, id))
    case None => NotFound
    case Some(i) =>
      var record := Merged(list[i], updates);
      Edited(i, record, list[i := record])
  }

  /** `{ ...c, ...updates }`, with the status forced to "Assigned" when the
      updates carry only `assignedTo`. */
  function Merged(c: Obj, updates: Obj): (r: Obj)
    ensures forall k :: k in r <==> k in c || k in updates || (k == "status" && AssignsOnly(updates))
    ensures AssignsOnly(updates) ==> r["status"] == JStr("Assigned")
    ensures forall k :: k in updates && !(k == "status" && AssignsOnly(updates)) ==> r[k] == updates[k]
    ensures forall k :: k in c && k !in updates && !(k == "status" && AssignsOnly(updates)) ==> r[k] == c[k]
  {
    var u := if AssignsOnly(updates) then updates["status" := JStr("Assigned")] else updates;
    c + u
  }

  /** After an update that does not touch `id` or `_id`, looking the id up
      again finds the updated record. */
  lemma UpdateThenById(list: seq<Obj>, id: Json, updates: Obj)
    requires "id" !in updates && "_id" !in updates
    requires UpdateList(list, id, updates).Edited?
    ensures var e := UpdateList(list, id, updates);
      ById(e.list, id) == Some(e.record)
  {
    var e := UpdateList(list, id, updates);
    var i := e.index;
    assert StringAt(e.record, "id") == StringAt(list[i], "id");
    assert StringAt(e.record, "_id") == StringAt(list[i], "_id");
    assert Matches(e.list[i], id);
    forall j | 0 <= j < i ensures !Matches(e.list[j], id) {
      assert e.list[j] == list[j];
    }
    assert FirstIndex(e.list, (c: Obj) => Matches(c, id)) == Some(i);
  }

  /** `updateComplaint`: loads the list, overwrites the matched entry in
      place and writes the list back; an unknown id answers `null` and
      writes nothing. */
  method UpdateComplaint(s: Storage, id: Json, updates: Obj) returns (r: Option<Obj>)
    modifies s
    ensures var e := UpdateList(Load(old(s.Item(Key))), id, updates);
      && (e.NotFound? ==> r.None? && s.lists == old(s.lists))
      && (e.Edited? ==> r == Some(e.record) && s.lists == old(s.lists)[Key := Records(e.list)])
    ensures s.texts == old(s.texts)
  {
    var list := Load(s.Item(Key));
    var idx := FirstIndex(list, (c: Obj) => Matches(c, id));
    if idx.None? {
      return None;
    }
    var u := updates;
    if TruthyAt(u, "assignedTo") && !TruthyAt(u, "status") {
      u := u["status" := JStr("Assigned")];
    }
    var updated := list[idx.value] + u;
    list := list[idx.value := updated];
    s.lists := s.lists[Key := Records(list)];
    r := Some(updated);
  }

  /** The list `updateComplaintStatus(id, status)` writes back: it matches by
      `id` only (never `_id`), and the matched record gets the new status
      and timestamp with every other key unchanged. */
  function SetStatus(list: seq<Obj>, id: Json, status: Json, nowIso: string): (r: Edit)
    ensures r.NotFound? <==> forall c :: c in list ==> StringAt(c, "id") != JsString(id)
    ensures r.Edited? ==>
      && r.index < |list| && StringAt(list[r.index], "id") == JsString(id)
      && (forall j :: 0 <= j < r.index ==> StringAt(list[j], "id") != JsString(id))
      && |r.list| == |list| && r.list[r.index] == r.record
      && (forall j :: 0 <= j < |list| && j != r.index ==> r.list[j] == list[j])
      && r.record.Keys == list[r.index].Keys + {"status", "updatedAt"}
      && r.record["status"] == status && r.record["updatedAt"] == JStr(nowIso)
      && (forall k :: k in list[r.index] && k != "status" && k != "updatedAt" ==> r.record[k] == list[r.index][k])
  {
    match FirstIndex(list, (c: Obj) => StringAt(c, "id") == JsString(id))
    case None => NotFound
    case Some(i) =>
      var record := list[i]["status" := status]["updatedAt" := JStr(nowIso)];
      Edited(i, record, list[i := record])
  }

  /** A record known only by its `_id` is found by `getComplaintById` but not
      by `updateComplaintStatus`. */
  lemma StatusUpdateIgnoresMongoId()
    ensures var list := [map["_id" := JStr("abc")]];
      && ById(list, JStr("abc")) == Some(list[0])
      && SetStatus(list, JStr("abc"), JStr("Resolved"), "now") == NotFound
  {
    var list: seq<Obj> := [map["_id" := JStr("abc")]];
    assert StringAt(list[0], "id") == "undefined";
    assert "undefined" != "abc";
    assert Matches(list[0], JStr("abc"));
  }

  /** `updateComplaintStatus`. */
  method UpdateComplaintStatus(s: Storage, id: Json, status: Json, nowIso: string) returns (r: Option<Obj>)
    modifies s
    ensures var e := SetStatus(Load(old(s.Item(Key))), id, status, nowIso);
      && (e.NotFound? ==> r.None? && s.lists == old(s.lists))
      && (e.Edited? ==> r == Some(e.record) && s.lists == old(s.lists)[Key := Records(e.list)])
    ensures s.texts == old(s.texts)
  {
    var list := Load(s.Item(Key));
    var idx := FirstIndex(list, (c: Obj) => StringAt(c, "id") == JsString(id));
    if idx.None? {
      return None;
    }
    var updated := list[idx.value]["status" := status]["updatedAt" := JStr(nowIso)];
    list := list[idx.value := updated];
    s.lists := s.lists[Key := Records(list)];
    r := Some(updated);
  }

  /** `seedComplaints`: the stored list becomes exactly `items`, which
      `getComplaints` then returns; no other key changes. */
  method SeedComplaints(s: Storage, items: seq<Obj>)
    modifies s
    ensures s.lists == old(s.lists)[Key := Records(items)]
    ensures s.texts == old(s.texts)
    ensures Load(s.Item(Key)) == items
  {
    s.lists := s.lists[Key := Records(items)];
  }
}
