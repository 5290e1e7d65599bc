/** Roles and the three role guards. A role is compared after lowercasing, and a caller with
    no user record simply fails every guard. */
module Roles {
  import opened Documents

  /** ASCII `toLowerCase` on one character. */
  function LowerChar(c: char): char {
    if 'A' <= c <= 'Z' then (c as int + 32) as char else c
  }

  /** The upper-case letter of a lower-case one. */
  function UpperChar(c: char): char
    requires 'a' <= c <= 'z'
  {
    (c as int - 32) as char
  }

  /** ASCII `toLowerCase` on a string. */
  function Lower(s: string): string {
    seq(|s|, i requires 0 <= i < |s| => LowerChar(s[i]))
  }

  predicate IsLowerWord(t: string) {
    forall i :: 0 <= i < |t| ==> 'a' <= t[i] <= 'z'
  }

  /** `s` spells `t` with any of its letters in upper case. */
  predicate SpellsIgnoringCase(s: string, t: string)
    requires IsLowerWord(t)
  {
    |s| == |t| && forall i :: 0 <= i < |s| ==> s[i] == t[i] || s[i] == UpperChar(t[i])
  }

  /** Lowercasing gives a lower-case word exactly when the input spells that word in any
      mixture of cases. */
  lemma LowerIsCaseInsensitive(s: string, t: string)
    requires IsLowerWord(t)
    ensures Lower(s) == t <==> SpellsIgnoringCase(s, t)
  {
    if Lower(s) == t {
      forall i | 0 <= i < |s|
        ensures s[i] == t[i] || s[i] == UpperChar(t[i])
      {
        assert LowerChar(s[i]) == t[i];
      }
    }
    if SpellsIgnoringCase(s, t) {
      forall i | 0 <= i < |s|
        ensures Lower(s)[i] == t[i]
      {
      }
    }
  }

  /** Lowercasing twice is lowercasing once. */
  lemma LowerIdempotent(s: string)
    ensures Lower(Lower(s)) == Lower(s)
  {
    forall i | 0 <= i < |s|
      ensures Lower(Lower(s))[i] == Lower(s)[i]
    {
    }
  }

  /** `user?.role?.toLowerCase()`: the lowercased role of a user record, or nothing when
      there is no record or its role is absent or null. A role that is not text would make
      the source throw; stored roles are always text (see `Server.Store.Valid`). */
  function RoleOf(user: Option<Fields>): Option<string> {
    match user
    case None => None
    case Some(u) =>
      if "role" in u && u["role"].Str? then Some(Lower(u["role"].s)) else None
  }

  /** `verifyAdmin`: passes only for a user record whose lowercased role is "admin". */
  predicate VerifyAdmin(user: Option<Fields>) {
    user.Some? && RoleOf(user) == Some("admin")
  }

  /** `verifyModerator`: passes only for a user record whose lowercased role is "moderator". */
  predicate VerifyModerator(user: Option<Fields>) {
    user.Some? && RoleOf(user) == Some("moderator")
  }

  /** `verifyAdminOrModerator`: passes only for a user record whose lowercased role is
      "admin" or "moderator". */
  predicate VerifyAdminOrModerator(user: Option<Fields>) {
    var role := RoleOf(user);
    user.Some? && (role == Some("admin") || role == Some("moderator"))
  }

  /** The text of a user's stored role, when it has one. */
  predicate HasRoleText(u: Fields) {
    "role" in u && u["role"].Str?
  }

  /** Each guard passes exactly for a stored user whose role spells its word in any case;
      no user record passes none of them; the staff guard is the union of the other two. */
  lemma GuardsByRoleSpelling(user: Option<Fields>)
    ensures VerifyAdmin(user) <==>
      user.Some? && HasRoleText(user.value) && SpellsIgnoringCase(user.value["role"].s, "admin")
    ensures VerifyModerator(user) <==>
      user.Some? && HasRoleText(user.value) && SpellsIgnoringCase(user.value["role"].s, "moderator")
    ensures VerifyAdminOrModerator(user) <==> VerifyAdmin(user) || VerifyModerator(user)
    ensures !(VerifyAdmin(user) && VerifyModerator(user))
    ensures user.None? ==> !VerifyAdmin(user) && !VerifyModerator(user) && !VerifyAdminOrModerator(user)
  {
    if user.Some? && HasRoleText(user.value) {
      LowerIsCaseInsensitive(user.value["role"].s, "admin");
      LowerIsCaseInsensitive(user.value["role"].s, "moderator");
    }
  }

  /** The reply of `GET /users/role`: "student" when the `email` query is missing or empty,
      or when the requester has no record or no non-empty role; otherwise the requester's
      lowercased role. */
  function RoleReply(email: Option<string>, requester: Option<Fields>): (role: string)
    ensures role != ""
    ensures Lower(role) == role
    ensures email.None? || email == Some("") || requester.None? ==> role == "student"
    ensures role == "student" || (requester.Some? && RoleOf(requester) == Some(role))
    ensures email.Some? && email.value != "" && RoleOf(requester).Some? && RoleOf(requester).value != "" ==>
      role == RoleOf(requester).value
    ensures RoleOf(requester).None? || RoleOf(requester) == Some("") ==> role == "student"
  {
    if email.None? || email.value == "" then "student"
    else
      match RoleOf(requester)
      case Some(r) =>
        if r == "" then "student"
        else
          LowerIdempotent(requester.value["role"].s);
          r
      case None => "student"
  }
}
