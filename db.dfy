/** The document store the route handlers read and write: the complaint and
    user collections in insertion order, and the `findById` lookup. */
module Db {
  import opened Common
  import C = ComplaintModel
  import U = UserModel

  predicate IsHexDigit(c: char)
  {
    '0' <= c <= '9' || 'a' <= c <= 'f' || 'A' <= c <= 'F'
  }

  /** A string that casts to an ObjectId: 24 hexadecimal digits. */
  predicate IsObjectId(s: string)
  {
    |s| == 24 && forall i :: 0 <= i < |s| ==> IsHexDigit(s[i])
  }

  class Store {
    var complaints: seq<C.Complaint>
    var users: seq<U.User>

    /** Every stored document passed validation when it was saved, ids are
        ObjectIds and distinct, and the user collection keeps its unique,
        lower-cased emails. */
    ghost predicate Valid()
      reads this
    {
      && C.DistinctIds(complaints)
      && (forall i :: 0 <= i < |complaints| ==> C.Valid(complaints[i]) && IsObjectId(complaints[i].id))
      && U.Collection(users)
    }

    constructor ()
      ensures Valid() && complaints == [] && users == []
    {
      complaints := [];
      users := [];
    }
  }

  /** A handler's answer together with the complaint collection it leaves. */
  datatype Step<+T> = Step(response: Response<T>, complaints: seq<C.Complaint>)

  /** Whether an id is already taken in the complaint collection. */
  predicate Taken(cs: seq<C.Complaint>, id: C.Id)
  {
    exists i :: 0 <= i < |cs| && cs[i].id == id
  }

  /** How `findById` (or `findOne({ _id })`) resolves an id: an id that does
      not cast to an ObjectId throws, which the handlers turn into a 500. */
  datatype Lookup = BadId | Missing | Found(index: nat)

  function FindById(cs: seq<C.Complaint>, id: C.Id): (r: Lookup)
    ensures r.BadId? <==> !IsObjectId(id)
    ensures r.Found? ==> r.index < |cs| && cs[r.index].id == id
    ensures r.Missing? ==> !Taken(cs, id)
    ensures IsObjectId(id) && Taken(cs, id) ==> r.Found?
  {
    if !IsObjectId(id) then BadId
    else match FirstIndex(cs, (c: C.Complaint) => c.id == id)
      case None => Missing
      case Some(i) => Found(i)
  }

  /** A document appended under a fresh id is found at the end. */
  lemma FindAppended(cs: seq<C.Complaint>, c: C.Complaint)
    requires IsObjectId(c.id) && !Taken(cs, c.id)
    ensures FindById(cs + [c], c.id) == Found(|cs|)
  {
    var cs' := cs + [c];
    forall j | 0 <= j < |cs| ensures cs'[j].id != c.id {
      assert cs'[j] == cs[j];
    }
    assert cs'[|cs|] == c;
  }

  /** Saving a valid document back in place under its own id keeps the
      stored collection's invariant. */
  lemma ReplaceKeeps(cs: seq<C.Complaint>, i: nat, c: C.Complaint)
    requires C.DistinctIds(cs) && forall j :: 0 <= j < |cs| ==> C.Valid(cs[j]) && IsObjectId(cs[j].id)
    requires i < |cs| && c.id == cs[i].id && C.Valid(c)
    ensures var cs' := cs[i := c];
      C.DistinctIds(cs') && forall j :: 0 <= j < |cs'| ==> C.Valid(cs'[j]) && IsObjectId(cs'[j].id)
  {
    var cs' := cs[i := c];
    forall j | 0 <= j < |cs'| ensures cs'[j].id == cs[j].id {
    }
  }

  /** Inserting a valid document under a fresh ObjectId keeps the stored
      collection's invariant. */
  lemma AppendKeeps(cs: seq<C.Complaint>, c: C.Complaint)
    requires C.DistinctIds(cs) && forall j :: 0 <= j < |cs| ==> C.Valid(cs[j]) && IsObjectId(cs[j].id)
    requires C.Valid(c) && IsObjectId(c.id) && !Taken(cs, c.id)
    ensures var cs' := cs + [c];
      C.DistinctIds(cs') && forall j :: 0 <= j < |cs'| ==> C.Valid(cs'[j]) && IsObjectId(cs'[j].id)
  {
    var cs' := cs + [c];
    forall j | 0 <= j < |cs| ensures cs'[j] == cs[j] && cs[j].id != c.id {
    }
    assert cs'[|cs|] == c;
  }

  /** Removing one document keeps the stored collection's invariant. */
  lemma RemoveKeeps(cs: seq<C.Complaint>, i: nat)
    requires C.DistinctIds(cs) && forall j :: 0 <= j < |cs| ==> C.Valid(cs[j]) && IsObjectId(cs[j].id)
    requires i < |cs|
    ensures var cs' := cs[..i] + cs[i + 1..];
      C.DistinctIds(cs') && forall j :: 0 <= j < |cs'| ==> C.Valid(cs'[j]) && IsObjectId(cs'[j].id)
  {
    var cs' := cs[..i] + cs[i + 1..];
    forall j | 0 <= j < |cs'| ensures cs'[j] == cs[if j < i then j else j + 1] {
    }
  }

  /** `User.findById`: the position of the user with this id. */
  function FindUser(us: seq<U.User>, id: U.Id): (r: Option<nat>)
    ensures r.Some? ==> r.value < |us| && us[r.value].id == id && forall j :: 0 <= j < r.value ==> us[j].id != id
    ensures r.None? ==> forall i :: 0 <= i < |us| ==> us[i].id != id
  {
    FirstIndex(us, (u: U.User) => u.id == id)
  }

  /** `User.findOne({ email })`: the schema's `lowercase` setter also applies
      to the query value. */
  function FindByEmail(us: seq<U.User>, email: string): (r: Option<nat>)
    ensures r.Some? ==> r.value < |us| && us[r.value].email == Lower(email)
    ensures r.None? ==> forall i :: 0 <= i < |us| ==> us[i].email != Lower(email)
  {
    FirstIndex(us, (u: U.User) => u.email == Lower(email))
  }
}
