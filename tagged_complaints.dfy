/** The second complaint list, frontend/src/utils/complaints.jsx, kept under
    the storage key "complaints": records are tagged with the stored
    `userId` when saved, and an update keeps each record's own `id`. Unlike
    the "cc_complaints" list, a stored text that does not parse makes these
    functions throw (`None`). */
module TaggedComplaints {
  import opened Common
  import opened Browser

  const Key: string := "complaints"
  const UserIdKey: string := "userId"

  /** `getComplaints`: `JSON.parse(getItem(key)) || []`. No item gives `[]`;
      unparsable text throws. */
  function All(item: Option<Stored>): (r: Option<seq<Obj>>)
    ensures item.None? ==> r == Some([])
    ensures item == Some(Malformed) ==> r.None?
    ensures item.Some? && item.value.Records? ==> r == Some(item.value.recs)
  {
    match item
    case None => Some([])
    case Some(Malformed) => None
    case Some(Records(recs)) => Some(recs)
  }

  predicate OwnedBy(c: Obj, userId: string)
  {
    "userId" in c && c["userId"] == JStr(userId)
  }

  /** `getMyComplaints`: `[]` when no user id is stored (without reading the
      list); otherwise exactly the records whose `userId` is that string,
      each as often as stored and in stored order. */
  function Mine(item: Option<Stored>, userId: Option<string>): (r: Option<seq<Obj>>)
    ensures !Present(userId) ==> r == Some([])
    ensures Present(userId) ==> (r.None? <==> item == Some(Malformed))
    ensures Present(userId) && r.Some? ==>
      && (forall c :: c in r.value <==> c in All(item).value && OwnedBy(c, userId.value))
      && SubsequenceOf(r.value, All(item).value)
      && forall c :: multiset(r.value)[c] == if OwnedBy(c, userId.value) then multiset(All(item).value)[c] else 0
  {
    if !Present(userId) then Some([])
    else match All(item)
      case None => None
      case Some(list) => Some(Filter(list, (c: Obj) => OwnedBy(c, userId.value)))
  }

  /** `getComplaintById`: the first record whose `id` string-equals `id`
      (`_id` is not consulted), or `undefined`. */
  function ById(list: seq<Obj>, id: Json): (r: Option<Obj>)
    ensures r.Some? ==>
      exists i :: && 0 <= i < |list| && list[i] == r.value && StringAt(list[i], "id") == JsString(id)
                  && forall j :: 0 <= j < i ==> StringAt(list[j], "id") != JsString(id)
    ensures r.None? <==> forall c :: c in list ==> StringAt(c, "id") != JsString(id)
  {
    match FirstIndex(list, (c: Obj) => StringAt(c, "id") == JsString(id))
    case None => None
    case Some(i) => Some(list[i])
  }

  /** `{ ...complaint, userId }` with the stored user id (`null` when none). */
  function Tag(complaint: Obj, userId: Option<string>): (r: Obj)
    ensures r.Keys == complaint.Keys + {"userId"}
    ensures r["userId"] == if userId.Some? then JStr(userId.value) else JNull
    ensures forall k :: k in complaint && k != "userId" ==> r[k] == complaint[k]
  {
    complaint["userId" := if userId.Some? then JStr(userId.value) else JNull]
  }

  /** `saveComplaint`: appends exactly one record, the complaint tagged with
      the stored user id; the records already stored are kept as they are,
      and `getComplaints` then returns them followed by the new one.
      Unparsable stored text makes it throw before anything is written. */
  method SaveComplaint(s: Storage, complaint: Obj) returns (thrown: bool)
    modifies s
    ensures thrown <==> old(s.Item(Key)) == Some(Malformed)
    ensures thrown ==> s.lists == old(s.lists)
    ensures !thrown ==>
      s.lists == old(s.lists)[Key := Records(All(old(s.Item(Key))).value + [Tag(complaint, old(s.Text(UserIdKey)))])]
    ensures !thrown ==>
      All(s.Item(Key)) == Some(All(old(s.Item(Key))).value + [Tag(complaint, old(s.Text(UserIdKey)))])
    ensures s.texts == old(s.texts)
  {
    var userId := s.Text(UserIdKey);
    var record := Tag(complaint, userId);
    var complaints := All(s.Item(Key));
    if complaints.None? {
      return true;
    }
    var list := complaints.value;
    list := list + [record];
    s.lists := s.lists[Key := Records(list)];
    thrown := false;
  }

  /** `{ ...c, ...updates, id: c.id }`: the merge, except that the record keeps
      its own `id` (and stays without one if it had none). */
  function Merge(c: Obj, updates: Obj): (r: Obj)
    ensures ("id" in r <==> "id" in c) && ("id" in c ==> r["id"] == c["id"])
    ensures forall k :: k != "id" ==> (k in r <==> k in c || k in updates)
    ensures forall k :: k != "id" && k in updates ==> r[k] == updates[k]
    ensures forall k :: k != "id" && k in c && k !in updates ==> r[k] == c[k]
  {
    var m := c + updates;
    if "id" in c then m["id" := c["id"]] else m - {"id"}
  }

  /** The list `updateComplaint(id, updates)` writes: every record whose `id`
      string-equals `id` is merged, the others are kept, and no record's id
      changes. */
  function UpdateAll(list: seq<Obj>, id: Json, updates: Obj): (r: seq<Obj>)
    ensures |r| == |list|
    ensures forall i :: 0 <= i < |list| && StringAt(list[i], "id") != JsString(id) ==> r[i] == list[i]
    ensures forall i :: 0 <= i < |list| && StringAt(list[i], "id") == JsString(id) ==> r[i] == Merge(list[i], updates)
    ensures forall i :: 0 <= i < |list| ==> StringAt(r[i], "id") == StringAt(list[i], "id")
  {
    seq(|list|, i requires 0 <= i < |list| =>
      if StringAt(list[i], "id") == JsString(id) then Merge(list[i], updates) else list[i])
  }

  /** `updateComplaint`: rewrites the whole list (an absent one becomes `[]`)
      and answers it, which is what `getComplaints` then reads; unparsable
      stored text makes it throw (`None`) with nothing written. */
  method UpdateComplaint(s: Storage, id: Json, updates: Obj) returns (r: Option<seq<Obj>>)
    modifies s
    ensures old(s.Item(Key)) == Some(Malformed) ==> r.None? && s.lists == old(s.lists)
    ensures old(s.Item(Key)) != Some(Malformed) ==>
      && r == Some(UpdateAll(All(old(s.Item(Key))).value, id, updates))
      && s.lists == old(s.lists)[Key := Records(r.value)]
      && All(s.Item(Key)) == r
    ensures s.texts == old(s.texts)
  {
    var complaints := All(s.Item(Key));
    if complaints.None? {
      return None;
    }
    var list := UpdateAll(complaints.value, id, updates);
    s.lists := s.lists[Key := Records(list)];
    r := Some(list);
  }

  /** `updateComplaintStatus(id, status)` is `updateComplaint(id, { status })`:
      each matching record changes its status and nothing else. */
  lemma StatusUpdateOnlyStatus(list: seq<Obj>, id: Json, status: Json)
    ensures var r := UpdateAll(list, id, map["status" := status]);
      forall i :: 0 <= i < |list| ==>
        r[i] == if StringAt(list[i], "id") == JsString(id) then list[i]["status" := status] else list[i]
  {
    var r := UpdateAll(list, id, map["status" := status]);
    forall i | 0 <= i < |list| && StringAt(list[i], "id") == JsString(id)
      ensures r[i] == list[i]["status" := status]
    {
      var m := Merge(list[i], map["status" := status]);
      assert m.Keys == list[i]["status" := status].Keys;
    }
  }

  method UpdateComplaintStatus(s: Storage, id: Json, status: Json) returns (thrown: bool)
    modifies s
    ensures thrown <==> old(s.Item(Key)) == Some(Malformed)
    ensures thrown ==> s.lists == old(s.lists)
    ensures !thrown ==>
      s.lists == old(s.lists)[Key := Records(UpdateAll(All(old(s.Item(Key))).value, id, map["status" := status]))]
    ensures s.texts == old(s.texts)
  {
    var r := UpdateComplaint(s, id, map["status" := status]);
    thrown := r.None?;
  }
}
