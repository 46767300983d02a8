/** The browser's `localStorage` as the client modules use it. Keys holding a
    JSON list of records and keys holding a plain string are kept apart;
    no key is used both ways. */
module Browser {
  import opened Common

  /** What a list key holds: the records `JSON.parse` yields, or text it
      rejects. */
  datatype Stored = Records(recs: seq<Obj>) | Malformed

  class Storage {
    /** The list keys present, and what each holds. */
    var lists: map<string, Stored>
    /** The string keys present (`authToken`, `role`, `userId`, `empId`). */
    var texts: map<string, string>

    constructor ()
      ensures lists == map[] && texts == map[]
    {
      lists := map[];
      texts := map[];
    }

    /** `localStorage.getItem(key)` for a list key. */
    function Item(key: string): Option<Stored>
      reads this
    {
      if key in lists then Some(lists[key]) else None
    }

    /** `localStorage.getItem(key)` for a string key (`null` is `None`). */
    function Text(key: string): Option<string>
      reads this
    {
      if key in texts then Some(texts[key]) else None
    }
  }

  /** The guarded load both `loadComplaints` and `loadUsers` perform: no item
      (or an empty one) and text that does not parse both give `[]`. */
  function Load(item: Option<Stored>): (r: seq<Obj>)
    ensures item.Some? && item.value.Records? ==> r == item.value.recs
    ensures item.None? || item == Some(Malformed) ==> r == []
  {
    match item
    case Some(Records(recs)) => recs
    case _ => []
  }

  /** A string item is truthy: present and not empty. */
  predicate Present(t: Option<string>)
  {
    t.Some? && t.value != ""
  }
}
