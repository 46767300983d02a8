/** Assigning request values to the paths of a complaint document, as
    `Object.assign(complaint, updates)` does through mongoose's setters and
    casts: `title` is trimmed, a String path takes a JSON string, and one
    that is not required (`category`, `status`, `remarks`, `proofName`) also
    takes `null`; `coords` takes `null` or an array of numbers. Any other
    value fails to cast and the following `save` throws. (`null` on a
    required path fails validation, so it answers as a failed cast does.) */
module DocumentFields {
  import opened Common
  import opened ComplaintModel

  /** The paths a patch may ever touch. */
  const Patchable: set<string> :=
    {"title", "description", "locationText", "coords", "category", "status", "remarks", "proofName"}

  /** The String paths that are not required, so that `null` can be stored. */
  const NullableText: set<string> := {"category", "status", "remarks", "proofName"}

  /** The value a patchable path holds: a required string, coordinates, or
      a string that may be `null` (`None`). */
  datatype FieldValue = Text(s: string) | Point(c: Option<seq<int>>) | MaybeText(t: Option<string>)

  /** Reads a patchable path (`None` for every other name). */
  function Get(d: Complaint, f: string): Option<FieldValue>
  {
    if f == "title" then Some(Text(d.title))
    else if f == "description" then Some(Text(d.description))
    else if f == "locationText" then Some(Text(d.locationText))
    else if f == "coords" then Some(Point(d.coords))
    else if f == "category" then Some(MaybeText(d.category))
    else if f == "status" then Some(MaybeText(d.status))
    else if f == "remarks" then Some(MaybeText(d.remarks))
    else if f == "proofName" then Some(MaybeText(d.proofName))
    else None
  }

  /** A value of the right shape for path `f`. */
  predicate Fits(f: string, v: FieldValue)
  {
    f in Patchable && (v.Point? <==> f == "coords") && (v.MaybeText? <==> f in NullableText)
  }

  /** The `[Number]` cast of an array: every item must be a JSON number. */
  function Numbers(items: seq<Json>): (r: Option<seq<int>>)
    ensures r.Some? ==> |r.value| == |items|
    ensures r.Some? <==> forall i :: 0 <= i < |items| ==> items[i].JNum?
  {
    if |items| == 0 then Some([])
    else match (items[0], Numbers(items[1..]))
      case (JNum(n), Some(rest)) => Some([n] + rest)
      case _ => None
  }

  /** A `coords` value that casts and passes the `[lat, lng]` validator:
      `null`, or an array of exactly two numbers. */
  predicate CoordsAccepted(v: Json)
  {
    v == JNull || (v.JArr? && |v.items| == 2 && forall i :: 0 <= i < 2 ==> v.items[i].JNum?)
  }

  /** The value path `f` takes when assigned the JSON value `v`, or `None`
      when the cast fails. */
  function Cast(f: string, v: Json): (r: Option<FieldValue>)
    ensures r.Some? ==> Fits(f, r.value)
  {
    if f == "coords" then
      match v
      case JNull => Some(Point(None))
      case JArr(items) => (match Numbers(items) case Some(ns) => Some(Point(Some(ns))) case None => None)
      case _ => None
    else if f in NullableText then
      match v
      case JNull => Some(MaybeText(None))
      case JStr(s) => Some(MaybeText(Some(s)))
      case _ => None
    else if f == "title" then
      if v.JStr? then Some(Text(Trim(v.s))) else None
    else if f in Patchable then
      if v.JStr? then Some(Text(v.s)) else None
    else None
  }

  /** Writes a value into path `f`. */
  function Put(d: Complaint, f: string, v: FieldValue): Complaint
    requires Fits(f, v)
  {
    if f == "title" then d.(title := v.s)
    else if f == "description" then d.(description := v.s)
    else if f == "locationText" then d.(locationText := v.s)
    else if f == "coords" then d.(coords := v.c)
    else if f == "category" then d.(category := v.t)
    else if f == "status" then d.(status := v.t)
    else if f == "remarks" then d.(remarks := v.t)
    else d.(proofName := v.t)
  }

  /** `e` agrees with `d` on every path outside `Patchable` except the
      `updatedAt` timestamp: id, town, createdBy, assignedTo, priority, the
      task fields, the upvote fields and createdAt. */
  predicate Fixed(d: Complaint, e: Complaint)
  {
    d.(title := e.title, description := e.description, locationText := e.locationText, coords := e.coords,
       category := e.category, status := e.status, remarks := e.remarks, proofName := e.proofName,
       updatedAt := e.updatedAt) == e
  }

  /** One assignment `doc[f] = v`. */
  function SetField(d: Complaint, f: string, v: Json): Option<Complaint>
  {
    match Cast(f, v)
    case None => None
    case Some(fv) => Some(Put(d, f, fv))
  }

  /** Writing path `f` changes that path and nothing else. */
  lemma PutEffect(d: Complaint, f: string, v: FieldValue)
    requires Fits(f, v)
    ensures Fixed(d, Put(d, f, v))
    ensures forall g :: Get(Put(d, f, v), g) == if g == f then Some(v) else Get(d, g)
  {
    var e := Put(d, f, v);
    forall g ensures Get(e, g) == if g == f then Some(v) else Get(d, g) {
      if g == f {
        assert Get(e, g) == Some(v);
      } else if g in Patchable {
        assert Get(e, g) == Get(d, g);
      }
    }
  }

  /** One assignment changes exactly the path it names. */
  lemma SetFieldEffect(d: Complaint, f: string, v: Json)
    ensures SetField(d, f, v).None? <==> Cast(f, v).None?
    ensures SetField(d, f, v).Some? ==>
      && Fixed(d, SetField(d, f, v).value)
      && forall g :: Get(SetField(d, f, v).value, g) == if g == f then Cast(f, v) else Get(d, g)
  {
    if Cast(f, v).Some? {
      PutEffect(d, f, Cast(f, v).value);
    }
  }

  lemma FixedTransitive(a: Complaint, b: Complaint, c: Complaint)
    requires Fixed(a, b) && Fixed(b, c)
    ensures Fixed(a, c)
  {
  }

  /** `Object.assign(doc, updates)`, visiting the keys in the order given.
      Afterwards every patchable path named in both `keys` and `updates`
      holds the cast of its new value, every other path is as before, and
      the whole assignment fails exactly when one of those casts fails. */
  function Assign(doc: Complaint, updates: Obj, keys: seq<string>): (r: Option<Complaint>)
    ensures r.Some? ==> Fixed(doc, r.value)
    ensures r.Some? ==> forall g :: Get(r.value, g) == if g in keys && g in updates then Cast(g, updates[g]) else Get(doc, g)
    ensures r.None? <==> exists g :: g in keys && g in updates && Cast(g, updates[g]).None?
    decreases |keys|
  {
    if |keys| == 0 then Some(doc)
    else
      var init := keys[..|keys| - 1];
      var k := keys[|keys| - 1];
      assert forall g :: g in keys <==> g in init || g == k;
      match Assign(doc, updates, init)
      case None => None
      case Some(d) =>
        if k in updates then
          SetFieldEffect(d, k, updates[k]);
          var r := SetField(d, k, updates[k]);
          if r.Some? then FixedTransitive(doc, d, r.value); r else r
        else Some(d)
  }
}
