/** The application and review rules of the routes, as functions of the documents they look
    up: what a new document looks like, and in which order the ownership and status checks
    answer. */
module Lifecycle {
  import opened Documents
  import opened Roles
  import opened Access

  /** `POST /users`: the body with its role forced to "student". */
  function Registered(body: Fields): (u: Fields)
    ensures FieldOf(u, "role") == Str("student")
    ensures FieldOf(u, "email") == FieldOf(body, "email")
    ensures u.Keys == body.Keys + {"role"}
    ensures forall k :: k in body && k != "role" ==> u[k] == body[k]
  {
    body["role" := Str("student")]
  }

  /** `POST /applications`: the body with its status forced to "pending" and its date to
      the time of the request; every other field is the client's. */
  function NewApplication(body: Fields, now: nat): (a: Fields)
    ensures FieldOf(a, "applicationStatus") == Str("pending")
    ensures FieldOf(a, "applicationDate") == Date(now)
    ensures a.Keys == body.Keys + {"applicationStatus", "applicationDate"}
    ensures forall k :: k in body && k != "applicationStatus" && k != "applicationDate" ==> a[k] == body[k]
  {
    body["applicationStatus" := Str("pending")]["applicationDate" := Date(now)]
  }

  /** `POST /reviews`: the body with its owner set to the caller and its date to the time of
      the request, whatever the client sent for either. */
  function NewReview(body: Fields, email: string, now: nat): (r: Fields)
    ensures FieldOf(r, "userEmail") == Str(email)
    ensures FieldOf(r, "reviewDate") == Date(now)
    ensures r.Keys == body.Keys + {"userEmail", "reviewDate"}
    ensures forall k :: k in body && k != "userEmail" && k != "reviewDate" ==> r[k] == body[k]
  {
    body["userEmail" := Str(email)]["reviewDate" := Date(now)]
  }

  /** The `$set` of `PATCH /reviews/:id`: the rating and the comment of the request body, an
      absent one becoming null. */
  function ReviewPatch(ratingPoint: Value, reviewComment: Value): Fields {
    map["ratingPoint" := ratingPoint, "reviewComment" := reviewComment]
  }

  /** A staff decision sent to `PATCH /applications/:id`: the new status and nothing else. */
  function StatusPatch(status: string): Fields {
    map["applicationStatus" := Str(status)]
  }

  /** A decision keeps the application's owner and leaves it pending exactly when the new
      status is "pending". */
  lemma DecisionKeepsOwner(app: Fields, status: string, email: string)
    ensures OwnedBy(Merge(app, StatusPatch(status)), email) <==> OwnedBy(app, email)
    ensures IsPending(Merge(app, StatusPatch(status))) <==> status == "pending"
  {
  }

  /** A review update writes the rating and the comment and leaves every other field as it
      was, the owner and the date included. */
  lemma ReviewUpdateTouchesOnlyRatingAndComment(review: Fields, ratingPoint: Value, reviewComment: Value)
    ensures FieldOf(Merge(review, ReviewPatch(ratingPoint, reviewComment)), "ratingPoint") == ratingPoint
    ensures FieldOf(Merge(review, ReviewPatch(ratingPoint, reviewComment)), "reviewComment") == reviewComment
    ensures forall k :: k != "ratingPoint" && k != "reviewComment" ==>
      FieldOf(Merge(review, ReviewPatch(ratingPoint, reviewComment)), k) == FieldOf(review, k)
  {
  }

  predicate OwnedBy(doc: Fields, email: string) {
    FieldOf(doc, "userEmail") == Str(email)
  }

  predicate IsPending(app: Fields) {
    FieldOf(app, "applicationStatus") == Str("pending")
  }

  /** `PATCH /applications/update/:id` up to the write: token, then not found, then not the
      owner, then not pending. */
  function OwnerEditCheck(cred: Credential, app: Option<Fields>): Status {
    match cred
    case NoHeader => E401
    case Rejected => E403
    case Verified(email) =>
      if app.None? then E404
      else if !OwnedBy(app.value, email) then E403
      else if !IsPending(app.value) then E400
      else Ok
  }

  /** `DELETE /applications/:id` up to the write: token, then not found, then not the owner. */
  function OwnerDeleteCheck(cred: Credential, app: Option<Fields>): Status {
    match cred
    case NoHeader => E401
    case Rejected => E403
    case Verified(email) =>
      if app.None? then E404
      else if !OwnedBy(app.value, email) then E403
      else Ok
  }

  /** An owner edit goes through exactly for the owner of a pending application; a missing
      application is 404 before anything else is looked at, another caller is 403 whatever the
      status, and only the owner learns that a decided application is locked (400). */
  lemma OwnerEditPrecedence(email: string, app: Option<Fields>)
    ensures OwnerEditCheck(Verified(email), app) == Ok <==>
      app.Some? && OwnedBy(app.value, email) && IsPending(app.value)
    ensures app.None? ==> OwnerEditCheck(Verified(email), app) == E404
    ensures app.Some? && !OwnedBy(app.value, email) ==> OwnerEditCheck(Verified(email), app) == E403
    ensures app.Some? && OwnedBy(app.value, email) && !IsPending(app.value) ==>
      OwnerEditCheck(Verified(email), app) == E400
  {
  }

  /** Deleting asks everything editing asks except the status: where an edit is refused only
      for not being pending, the delete goes through. */
  lemma DeleteIgnoresStatus(cred: Credential, app: Option<Fields>)
    ensures OwnerDeleteCheck(cred, app) ==
      if OwnerEditCheck(cred, app) == E400 then Ok else OwnerEditCheck(cred, app)
    ensures cred.Verified? && app.Some? ==>
      (OwnerDeleteCheck(cred, app) == Ok <==> OwnedBy(app.value, cred.email))
  {
  }

  /** `PATCH` and `DELETE /reviews/:id` up to the write: token, then not found, then neither
      the owner nor staff. `caller` is the user record found for the token's email. */
  function ReviewChangeCheck(cred: Credential, review: Option<Fields>, caller: Option<Fields>): Status {
    match cred
    case NoHeader => E401
    case Rejected => E403
    case Verified(email) =>
      if review.None? then E404
      else
        var role := RoleOf(caller);
        if !OwnedBy(review.value, email) && role != Some("admin") && role != Some("moderator") then E403
        else Ok
  }

  /** A review may be changed by its owner or by staff, and by nobody else. */
  lemma ReviewChangeIsOwnerOrStaff(email: string, review: Fields, caller: Option<Fields>)
    ensures ReviewChangeCheck(Verified(email), Some(review), caller) == Ok <==>
      OwnedBy(review, email) || VerifyAdminOrModerator(caller)
    ensures !OwnedBy(review, email) && !VerifyAdminOrModerator(caller) ==>
      ReviewChangeCheck(Verified(email), Some(review), caller) == E403
    ensures ReviewChangeCheck(Verified(email), None, caller) == E404
  {
  }

  /** The owner routes run behind the token check: without a verified token the edit, the
      delete and the review change answer exactly as the signed-in gate does (401 without a
      header, 403 for a rejected token), whatever is stored, and none of them goes through. */
  lemma TokenCheckedFirst(cred: Credential, app: Option<Fields>, review: Option<Fields>, caller: Option<Fields>)
    ensures !cred.Verified? ==> OwnerEditCheck(cred, app) == Gate(cred, SignedIn, None)
    ensures !cred.Verified? ==> OwnerDeleteCheck(cred, app) == Gate(cred, SignedIn, None)
    ensures !cred.Verified? ==> ReviewChangeCheck(cred, review, caller) == Gate(cred, SignedIn, None)
    ensures cred.NoHeader? ==>
      OwnerEditCheck(cred, app) == E401 && OwnerDeleteCheck(cred, app) == E401 &&
      ReviewChangeCheck(cred, review, caller) == E401
    ensures cred.Rejected? ==>
      OwnerEditCheck(cred, app) == E403 && OwnerDeleteCheck(cred, app) == E403 &&
      ReviewChangeCheck(cred, review, caller) == E403
    ensures OwnerEditCheck(cred, app) == Ok ==> cred.Verified?
    ensures OwnerDeleteCheck(cred, app) == Ok ==> cred.Verified?
    ensures ReviewChangeCheck(cred, review, caller) == Ok ==> cred.Verified?
  {
  }
}
