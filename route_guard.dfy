/** The client's route guard, frontend/src/Components/ProtectedRoute.jsx,
    over the token helpers of frontend/src/utils/api.js: a page is rendered
    only with a stored token, and a page that names a role only for that
    stored role. */
module RouteGuard {
  import opened Common
  import opened Browser
  import ApiAuth

  const RoleKey: string := "role"

  /** Where `ProtectedRoute` sends the browser. */
  datatype View = RedirectLogin | RedirectHome | Render

  /** `localStorage.getItem("role") || "user"`. */
  function RoleOf(stored: Option<string>): (r: string)
    ensures Present(stored) ==> r == stored.value
    ensures !Present(stored) ==> r == "user"
  {
    if Present(stored) then stored.value else "user"
  }

  /** `ProtectedRoute({ requiredRole })` for the stored token and role. */
  function Guard(token: Option<string>, storedRole: Option<string>, requiredRole: Option<string>): (v: View)
    ensures v == RedirectLogin <==> !Present(token)
    ensures v == RedirectHome <==> Present(token) && Present(requiredRole) && RoleOf(storedRole) != requiredRole.value
    ensures v == Render <==> Present(token) && (!Present(requiredRole) || RoleOf(storedRole) == requiredRole.value)
  {
    if !Present(token) then RedirectLogin
    else if Present(requiredRole) && RoleOf(storedRole) != requiredRole.value then RedirectHome
    else Render
  }

  /** A page that asks for the "user" role admits a browser with no stored
      role, exactly as one with "user" stored. */
  lemma MissingRoleIsUser(token: Option<string>, requiredRole: Option<string>)
    ensures Guard(token, None, requiredRole) == Guard(token, Some("user"), requiredRole)
    ensures Guard(token, Some(""), requiredRole) == Guard(token, Some("user"), requiredRole)
  {
  }

  /** A page without a required role renders for every stored token,
      whatever role is stored. */
  lemma AnyTokenSuffices(token: string, storedRole: Option<string>)
    requires token != ""
    ensures Guard(Some(token), storedRole, None) == Render
  {
  }

  /** A role-restricted page renders for at most one stored role. */
  lemma OneRolePerPage(token: Option<string>, r1: Option<string>, r2: Option<string>, requiredRole: string)
    requires requiredRole != ""
    requires Guard(token, r1, Some(requiredRole)) == Render && Guard(token, r2, Some(requiredRole)) == Render
    ensures RoleOf(r1) == RoleOf(r2) == requiredRole
  {
  }

  /** `setToken(token)`: only the token key changes; a non-empty token then
      opens every page that names no role. */
  method SetToken(s: Storage, token: string)
    modifies s
    ensures s.texts == old(s.texts)[ApiAuth.TokenKey := token]
    ensures s.lists == old(s.lists)
    ensures token != "" ==> Guard(s.Text(ApiAuth.TokenKey), s.Text(RoleKey), None) == Render
  {
    s.texts := s.texts[ApiAuth.TokenKey := token];
  }

  /** `clearToken()`: only the token key changes, and every protected page
      then redirects to the login. */
  method ClearToken(s: Storage)
    modifies s
    ensures s.texts == old(s.texts) - {ApiAuth.TokenKey}
    ensures s.lists == old(s.lists)
    ensures forall required :: Guard(s.Text(ApiAuth.TokenKey), s.Text(RoleKey), required) == RedirectLogin
  {
    s.texts := s.texts - {ApiAuth.TokenKey};
  }
}
