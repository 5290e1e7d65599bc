/** Sequences of requests against one store, and what the route contracts alone say about
    their answers. */
module Scenarios {
  import opened Documents
  import opened Roles
  import opened Access
  import opened Lifecycle
  import opened Payment
  import opened Server

  /** An applicant creates an application and edits it while it is pending: both succeed
      and the stored application is the created one with the edit applied. */
  method SubmitAndEdit(s: Store, applicant: string, body: Fields, patch: Fields, now: nat)
    returns (created: Status, edited: Status, app: Id)
    requires s.Valid()
    requires OwnedBy(body, applicant)
    modifies s
    ensures s.Valid()
    ensures created == Ok && edited == Ok
    ensures app !in old(s.applications)
    ensures s.applications == old(s.applications)[app := Merge(NewApplication(body, now), patch)]
    ensures s.users == old(s.users)
  {
    var id;
    created, id := s.CreateApplication(Verified(applicant), body, now);
    app := id.value;
    ghost var submitted := NewApplication(body, now);
    assert OwnedBy(submitted, applicant) && IsPending(submitted);
    edited := s.OwnerUpdateApplication(Verified(applicant), app, patch);
  }

  /** After the edit, staff decide the application; the applicant's next edit is refused with
      400 and changes nothing: the stored application is the created one with the first edit
      and the decision applied, and `later` is not. */
  method EditLockedAfterDecision(s: Store, applicant: string, staff: string, body: Fields,
                                 patch: Fields, later: Fields, decision: string, now: nat)
    returns (created: Status, edited: Status, decided: Status, locked: Status, app: Id)
    requires s.Valid()
    requires VerifyAdminOrModerator(s.CallerRecord(Verified(staff)))
    requires OwnedBy(body, applicant)
    requires "userEmail" !in patch && "applicationStatus" !in patch
    requires decision != "pending"
    modifies s
    ensures created == Ok && edited == Ok && decided == Ok && locked == E400
    ensures app !in old(s.applications)
    ensures s.applications == old(s.applications)[app :=
      Merge(Merge(NewApplication(body, now), patch), StatusPatch(decision))]
  {
    ghost var initial: map<Id, Fields> := s.applications;
    ghost var staffRecord := s.CallerRecord(Verified(staff));
    assert Gate(Verified(staff), AdminOrModerator, staffRecord) == Ok;
    created, edited, app := SubmitAndEdit(s, applicant, body, patch, now);
    ghost var edit := Merge(NewApplication(body, now), patch);
    assert OwnedBy(edit, applicant);
    ghost var beforeDecision := s.applications;
    assert beforeDecision == initial[app := edit];
    assert s.CallerRecord(Verified(staff)) == staffRecord;
    decided := s.StaffUpdateApplication(Verified(staff), app, StatusPatch(decision));
    ghost var final := Merge(edit, StatusPatch(decision));
    assert s.applications == beforeDecision[app := final];
    OverwriteTwice(initial, app, edit, final);
    DecisionKeepsOwner(edit, decision, applicant);
    locked := s.OwnerUpdateApplication(Verified(applicant), app, later);
  }

  /** The owner deletes an application in whatever status; editing or deleting it again
      finds nothing. */
  method DeleteThenGone(s: Store, owner: string, id: Id, patch: Fields)
    returns (deleted: Status, editAfter: Status, deleteAfter: Status)
    requires s.Valid()
    requires id in s.applications && OwnedBy(s.applications[id], owner)
    modifies s
    ensures deleted == Ok && editAfter == E404 && deleteAfter == E404
    ensures id !in s.applications
  {
    deleted := s.DeleteApplication(Verified(owner), id);
    editAfter := s.OwnerUpdateApplication(Verified(owner), id, patch);
    deleteAfter := s.DeleteApplication(Verified(owner), id);
  }

  /** Confirming the same paid session twice stores one application: the second call
      answers `Ok` and inserts nothing. */
  method FinalizeTwice(s: Store, caller: string, sessionId: string, session: Session, now: nat, later: nat)
    returns (first: Status, second: Status, firstCreated: Option<Id>, secondCreated: Option<Id>)
    requires s.Valid()
    requires sessionId != "" && session.paymentStatus == "paid"
    requires !AnyMatch(s.applications, "transactionId", session.paymentIntent)
    modifies s
    ensures first == Ok && second == Ok
    ensures firstCreated.Some? && secondCreated.None?
    ensures Holders(s.applications, "transactionId", session.paymentIntent) == {firstCreated.value}
    ensures s.applications[firstCreated.value] == PaymentRecord(session, now)
  {
    first, firstCreated := s.FinalizePayment(Verified(caller), Some(sessionId), Some(session), now);
    second, secondCreated := s.FinalizePayment(Verified(caller), Some(sessionId), Some(session), later);
  }

  /** A paid session whose metadata declares the fee "50": the stored application carries the declared
      fee text "50", the payment intent as transaction id, payment status "paid" and application
      status "pending". */
  method FinalizeExample(s: Store, caller: string, now: nat)
    returns (status: Status, created: Option<Id>)
    requires s.Valid()
    requires !AnyMatch(s.applications, "transactionId", Str("pi_1"))
    modifies s
    ensures status == Ok && created.Some? && created.value in s.applications
    ensures FieldOf(s.applications[created.value], "applicationFees") == Money(ParsedFee("50"))
    ensures FieldOf(s.applications[created.value], "userEmail") == Str("a@x.com")
    ensures FieldOf(s.applications[created.value], "scholarshipId") == Str("sch1")
    ensures FieldOf(s.applications[created.value], "paymentStatus") == Str("paid")
    ensures FieldOf(s.applications[created.value], "applicationStatus") == Str("pending")
    ensures FieldOf(s.applications[created.value], "transactionId") == Str("pi_1")
  {
    var session := Session("paid", Str("pi_1"),
      map["scholarshipId" := "sch1", "userEmail" := "a@x.com", "applicationFees" := "50"], 5000);
    status, created := s.FinalizePayment(Verified(caller), Some("cs_1"), Some(session), now);
  }

  /** A moderator may not delete a scholarship: that route is for admins only. */
  method ModeratorCannotDeleteScholarship(s: Store, moderator: string, id: Id)
    returns (status: Status)
    requires s.Valid()
    requires VerifyModerator(s.CallerRecord(Verified(moderator)))
    modifies s
    ensures status == E403
    ensures s.scholarships == old(s.scholarships)
    ensures s.users == old(s.users) && s.applications == old(s.applications)
    ensures s.reviews == old(s.reviews) && s.nextId == old(s.nextId)
  {
    GuardsByRoleSpelling(s.CallerRecord(Verified(moderator)));
    status := s.DeleteScholarship(Verified(moderator), id);
  }

  /** An admin sets a user's role written in capitals; the role route then reports it in
      lower case and the moderator guard lets that user through. */
  method PromoteThenLookup(s: Store, admin: string, id: Id, email: string)
    returns (status: Status, role: string)
    requires s.Valid()
    requires VerifyAdmin(s.CallerRecord(Verified(admin)))
    requires id in s.users && FieldOf(s.users[id], "email") == Str(email) && email != ""
    modifies s
    ensures s.Valid()
    ensures status == Ok && role == "moderator"
    ensures VerifyModerator(s.CallerRecord(Verified(email)))
  {
    status := s.SetRole(Verified(admin), id, "MODERATOR");
    assert Lower("MODERATOR") == "moderator";
    assert s.users[id]["role"] == Str("moderator");
    role := s.RoleLookup(Some(email));
  }

  /** Registering the same email twice stores one user, with role "student". */
  method RegisterTwice(s: Store, body: Fields, again: Fields)
    returns (first: Option<Id>, second: Option<Id>)
    requires s.Valid()
    requires !AnyMatch(s.users, "email", FieldOf(body, "email"))
    requires FieldOf(again, "email") == FieldOf(body, "email")
    modifies s
    ensures first.Some? && second.None? && first.value in s.users
    ensures FieldOf(s.users[first.value], "role") == Str("student")
  {
    var status;
    status, first := s.Register(body);
    assert FieldOf(s.users[first.value], "email") == FieldOf(again, "email");
    status, second := s.Register(again);
  }
}
