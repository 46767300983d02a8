/** The user document of server/src/models/User.js: role enum, defaults, the
    `trim` and `lowercase` setters, and the unique email index as an
    invariant of the user collection. */
module UserModel {
  import opened Common

  type Id = string

  const Roles: set<string> := {"user", "admin", "employee"}
  const DefaultRole := "user"

  /** `currentLocation`; latitude and longitude are kept as the JSON values
      the request carried (absent values stay `None`). */
  datatype Location = Location(lat: Option<Json>, lng: Option<Json>, updatedAt: int)

  /** A user document. `isOnDuty` is `None` once a handler has assigned
      `undefined` to it. */
  datatype User = User(
    id: Id,
    name: string,
    email: string,
    passwordHash: string,
    role: string,
    town: string,
    empId: string,
    department: string,
    isOnDuty: Option<bool>,
    currentLocation: Option<Location>)

  /** What `save` validates: the required strings are non-empty and the role
      is within its enum. */
  predicate Valid(u: User)
  {
    u.name != "" && u.email != "" && u.passwordHash != "" && u.role in Roles
  }

  /** The document `User.create` builds: `name` is trimmed, `email` is
      lower-cased, and the employee paths take their defaults. */
  function NewUser(id: Id, name: string, email: string, passwordHash: string, role: string, town: string): User
  {
    User(id, Trim(name), Lower(email), passwordHash, role, town, "", "", Some(false), None)
  }

  /** A new user validates exactly when its trimmed name, email and hash are
      non-empty and its role is one of the three; its email is stored
      lower-cased, and it starts off duty with empty employee fields. */
  lemma NewUserValidIff(id: Id, name: string, email: string, passwordHash: string, role: string, town: string)
    ensures var u := NewUser(id, name, email, passwordHash, role, town);
      && (Valid(u) <==> Trim(name) != "" && email != "" && passwordHash != "" && role in Roles)
      && u.email == Lower(u.email)
      && u.isOnDuty == Some(false) && u.empId == "" && u.department == "" && u.currentLocation.None?
  {
    LowerIdempotent(email);
  }

  lemma LowerIdempotent(s: string)
    ensures Lower(Lower(s)) == Lower(s)
  {
  }

  /** The collection invariant: valid documents, distinct ids, unique
      lower-cased emails (the `unique` index together with the setter). */
  predicate Collection(us: seq<User>)
  {
    && (forall i :: 0 <= i < |us| ==> Valid(us[i]) && us[i].email == Lower(us[i].email))
    && (forall i, j :: 0 <= i < j < |us| ==> us[i].id != us[j].id && us[i].email != us[j].email)
  }

  /** Appending a valid user whose id and lower-cased email are both new
      keeps the collection's invariant. */
  lemma AppendKeepsCollection(us: seq<User>, u: User)
    requires Collection(us) && Valid(u) && u.email == Lower(u.email)
    requires forall i :: 0 <= i < |us| ==> us[i].id != u.id && us[i].email != u.email
    ensures Collection(us + [u])
  {
    var us' := us + [u];
    forall i, j | 0 <= i < j < |us'| ensures us'[i].id != us'[j].id && us'[i].email != us'[j].email {
      assert us'[i] == us[i];
      if j < |us| {
        assert us'[j] == us[j];
      }
    }
  }
}
