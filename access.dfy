/** What stands in front of a route: the bearer-token check, then possibly a role guard. */
module Access {
  import opened Documents
  import opened Roles

  /** The outcome of `verifyFirebaseToken`: no (or an empty) `Authorization` header, a token
      the identity provider rejected, or a verified token carrying the caller's email. */
  datatype Credential = NoHeader | Rejected | Verified(email: string)

  /** The HTTP status a route answers with. */
  datatype Status = Ok | E400 | E401 | E403 | E404 | E500

  /** The middleware chain a route puts before its handler. */
  datatype Guard = SignedIn | AdminOnly | ModeratorOnly | AdminOrModerator

  /** Whether the role middleware lets the caller whose user record is `caller` through. */
  predicate Admits(g: Guard, caller: Option<Fields>) {
    match g
    case SignedIn => true
    case AdminOnly => VerifyAdmin(caller)
    case ModeratorOnly => VerifyModerator(caller)
    case AdminOrModerator => VerifyAdminOrModerator(caller)
  }

  /** The status the middleware chain produces: 401 without a header, 403 for a rejected
      token, 403 when the role guard refuses, and `Ok` when the handler runs. `caller` is the
      user record found for the token's email. */
  function Gate(cred: Credential, g: Guard, caller: Option<Fields>): Status {
    match cred
    case NoHeader => E401
    case Rejected => E403
    case Verified(_) => if Admits(g, caller) then Ok else E403
  }

  /** A missing header is the only 401 and a rejected token is refused on every route; a
      guarded route runs its handler exactly when the token verified and the caller's stored
      role spells the guard's word in any case. */
  lemma GateByRole(cred: Credential, g: Guard, caller: Option<Fields>)
    ensures Gate(cred, g, caller) == E401 <==> cred.NoHeader?
    ensures cred.Rejected? ==> Gate(cred, g, caller) == E403
    ensures Gate(cred, g, caller) == Ok ==> cred.Verified?
    ensures Gate(cred, g, caller) in {Ok, E401, E403}
    ensures g == SignedIn ==> (Gate(cred, g, caller) == Ok <==> cred.Verified?)
    ensures g == AdminOnly ==>
      (Gate(cred, g, caller) == Ok <==>
        cred.Verified? && caller.Some? && HasRoleText(caller.value) &&
        SpellsIgnoringCase(caller.value["role"].s, "admin"))
    ensures g == ModeratorOnly ==>
      (Gate(cred, g, caller) == Ok <==>
        cred.Verified? && caller.Some? && HasRoleText(caller.value) &&
        SpellsIgnoringCase(caller.value["role"].s, "moderator"))
    ensures g == AdminOrModerator ==>
      (Gate(cred, g, caller) == Ok <==>
        cred.Verified? && caller.Some? && HasRoleText(caller.value) &&
        (SpellsIgnoringCase(caller.value["role"].s, "admin") ||
         SpellsIgnoringCase(caller.value["role"].s, "moderator")))
    ensures cred.Verified? && caller.None? ==> (Gate(cred, g, caller) == Ok <==> g == SignedIn)
  {
    GuardsByRoleSpelling(caller);
  }

  /** The self-only listings (`/applications/user/:email`, `/reviews/user/:email`): the
      token's email must be the path's email. */
  function SelfOnly(cred: Credential, email: string): Status {
    match cred
    case NoHeader => E401
    case Rejected => E403
    case Verified(e) => if e == email then Ok else E403
  }

  /** A self-only listing answers exactly for the token of the path's email; a missing header
      is 401 and every other caller, a rejected token included, gets 403. */
  lemma SelfOnlyExactlyOwner(cred: Credential, email: string)
    ensures SelfOnly(cred, email) == Ok <==> cred == Verified(email)
    ensures SelfOnly(cred, email) == E401 <==> cred.NoHeader?
    ensures SelfOnly(cred, email) == E403 <==> !cred.NoHeader? && cred != Verified(email)
  {
  }
}
