/** The bearer-token guard of server/src/middleware/auth.js. Token
    verification is a library call and enters as the function `verify`. */
module AuthMiddleware {
  import opened Common

  /** The claims a token carries, exactly as `signToken` puts them in. */
  datatype Claims = Claims(id: string, role: string, email: string)

  const BearerPrefix := "Bearer "

  /** What the guard does with a request: answer 401 itself, or attach the
      verified payload as `req.user` and pass the request on. */
  datatype Outcome = Reject(message: string) | Next(user: Claims)

  /** The guard's decision for an `Authorization` header (`None` when the
      request has none). A missing, empty or non-Bearer header is "Missing
      token"; otherwise the token handed to `verify` is the header without
      its leading "Bearer ", and a failed verification is "Invalid token". */
  function Decide(header: Option<string>, verify: string -> Option<Claims>): (r: Outcome)
    ensures header.None? || !StartsWith(header.value, BearerPrefix) ==> r == Reject("Missing token")
    ensures header.Some? && StartsWith(header.value, BearerPrefix) ==>
      r == match verify(header.value[|BearerPrefix|..])
           case None => Reject("Invalid token")
           case Some(c) => Next(c)
  {
    if header.None? || header.value == "" || !StartsWith(header.value, BearerPrefix) then
      Reject("Missing token")
    else
      ReplaceLeadingPrefix(header.value, BearerPrefix);
      var token := ReplaceFirst(header.value, BearerPrefix, "");
      match verify(token)
      case None => Reject("Invalid token")
      case Some(payload) => Next(payload)
  }

  /** The parts of an Express request and response the guard touches. */
  class Exchange {
    var user: Option<Claims>
    var nextCalls: nat
    var sent: Option<(nat, string)>

    constructor ()
      ensures user.None? && nextCalls == 0 && sent.None?
    {
      user, nextCalls, sent := None, 0, None;
    }

    /** `auth(req, res, next)`: on success `req.user` is the verified payload
        and `next` is called once; on failure a 401 is sent, `req.user` is
        left as it was and `next` is not called. */
    method Auth(header: Option<string>, verify: string -> Option<Claims>)
      modifies this
      ensures Decide(header, verify).Reject? ==>
        user == old(user) && nextCalls == old(nextCalls) && sent == Some((401, Decide(header, verify).message))
      ensures Decide(header, verify).Next? ==>
        user == Some(Decide(header, verify).user) && nextCalls == old(nextCalls) + 1 && sent == old(sent)
    {
      match Decide(header, verify)
      case Reject(message) =>
        sent := Some((401, message));
      case Next(payload) =>
        user := Some(payload);
        nextCalls := nextCalls + 1;
    }
  }
}
