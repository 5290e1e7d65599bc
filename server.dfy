/** The route handlers of the server over its four collections. Each handler runs its checks
    in the source's order, returns at the first that fails, and then does one insert, `$set`
    update or delete. */
module Server {
  import opened Documents
  import opened Roles
  import opened Access
  import opened Listing
  import opened Lifecycle
  import opened Payment

  /** Every stored role is text: registration writes "student" and the role route writes a
      lowercased text, so `toLowerCase` never meets another kind of value. */
  ghost predicate RolesAreText(users: map<Id, Fields>) {
    forall id :: id in users ==> HasRoleText(users[id])
  }

  /** Every stored review carries the date it was posted. */
  ghost predicate AllDated(reviews: map<Id, Fields>) {
    forall id :: id in reviews ==> FieldOf(reviews[id], "reviewDate").Date?
  }

  class Store {
    var users: map<Id, Fields>
    var scholarships: map<Id, Fields>
    var applications: map<Id, Fields>
    var reviews: map<Id, Fields>
    /** The id the next insert receives. */
    var nextId: Id

    ghost predicate Valid()
      reads this
    {
      && IdsBelow(users, nextId)
      && IdsBelow(scholarships, nextId)
      && IdsBelow(applications, nextId)
      && IdsBelow(reviews, nextId)
      && UniqueBy(users, "email")
      && RolesAreText(users)
      && AllDated(reviews)
    }

    constructor ()
      ensures Valid()
      ensures users == map[] && scholarships == map[] && applications == map[] && reviews == map[]
    {
      users, scholarships, applications, reviews := map[], map[], map[], map[];
      nextId := 0;
    }

    /** The user record `findOne({ email: req.decoded.email })` finds for a verified token. */
    function CallerRecord(cred: Credential): Option<Fields>
      reads this`users
      requires UniqueBy(users, "email")
    {
      if cred.Verified? then FindUnique(users, "email", Str(cred.email)) else None
    }

    // ---------------------------------------------------------------- users

    /** `GET /users` (admin only). */
    method ListUsers(cred: Credential) returns (status: Status, result: seq<Doc>)
      requires Valid()
      ensures status == Gate(cred, AdminOnly, CallerRecord(cred))
      ensures status == Ok ==> forall d :: d in result <==> d.id in users && users[d.id] == d.fields
      ensures forall i, j :: 0 <= i < j < |result| ==> result[i].id < result[j].id
      ensures status != Ok ==> result == []
    {
      status := Gate(cred, AdminOnly, CallerRecord(cred));
      result := [];
      if status == Ok {
        result := Docs(users, nextId);
      }
    }

    /** `POST /users`: stores the body with role "student" unless a user with the same email
        exists, in which case nothing is stored. */
    method Register(body: Fields) returns (status: Status, created: Option<Id>)
      requires Valid()
      modifies this
      ensures Valid()
      ensures status == Ok
      ensures created.Some? <==> !AnyMatch(old(users), "email", FieldOf(body, "email"))
      ensures created.Some? ==>
        created.value == old(nextId) && created.value !in old(users) &&
        users == old(users)[created.value := Registered(body)] && nextId == old(nextId) + 1
      ensures created.None? ==> users == old(users) && nextId == old(nextId)
      ensures unchanged(this`scholarships, this`applications, this`reviews)
    {
      status := Ok;
      var user := Registered(body);
      if AnyMatch(users, "email", FieldOf(body, "email")) {
        created := None;
        return;
      }
      users := users[nextId := user];
      created := Some(nextId);
      nextId := nextId + 1;
    }

    /** `GET /users/role?email=`: the lowercased role of the user with that email, "student"
        when there is none. */
    method RoleLookup(email: Option<string>) returns (role: string)
      requires Valid()
      ensures role != "" && Lower(role) == role
      ensures email.None? || email == Some("") || !AnyMatch(users, "email", Str(email.value)) ==>
        role == "student"
      ensures forall id ::
        (email.Some? && email.value != "" && id in users && FieldOf(users[id], "email") == Str(email.value)) ==>
          role == (if Lower(users[id]["role"].s) == "" then "student" else Lower(users[id]["role"].s))
    {
      if email.None? || email.value == "" {
        return "student";
      }
      var requester := FindUnique(users, "email", Str(email.value));
      role := RoleReply(email, requester);
    }

    /** `PATCH /users/role/:id` (admin only): sets the user's role to the lowercased text. */
    method SetRole(cred: Credential, id: Id, role: string) returns (status: Status)
      requires Valid()
      modifies this
      ensures Valid()
      ensures status == old(Gate(cred, AdminOnly, CallerRecord(cred)))
      ensures users == if status == Ok && id in old(users)
                       then old(users)[id := old(users)[id]["role" := Str(Lower(role))]]
                       else old(users)
      ensures unchanged(this`scholarships, this`applications, this`reviews, this`nextId)
    {
      status := Gate(cred, AdminOnly, CallerRecord(cred));
      if status == Ok && id in users {
        var u := users[id];
        users := users[id := u["role" := Str(Lower(role))]];
        assert forall j :: j in users ==> FieldOf(users[j], "email") == FieldOf(old(users)[j], "email");
      }
    }

    /** `DELETE /users/:id` (admin only). */
    method DeleteUser(cred: Credential, id: Id) returns (status: Status)
      requires Valid()
      modifies this
      ensures Valid()
      ensures status == old(Gate(cred, AdminOnly, CallerRecord(cred)))
      ensures users == if status == Ok then old(users) - {id} else old(users)
      ensures unchanged(this`scholarships, this`applications, this`reviews, this`nextId)
    {
      status := Gate(cred, AdminOnly, CallerRecord(cred));
      if status == Ok {
        users := users - {id};
      }
    }

    // --------------------------------------------------------- scholarships

    /** `POST /scholarships` (admin only): stores the body as sent. */
    method CreateScholarship(cred: Credential, body: Fields) returns (status: Status, created: Option<Id>)
      requires Valid()
      modifies this
      ensures Valid()
      ensures status == old(Gate(cred, AdminOnly, CallerRecord(cred)))
      ensures created.Some? <==> status == Ok
      ensures created.Some? ==>
        created.value == old(nextId) && created.value !in old(scholarships) &&
        scholarships == old(scholarships)[created.value := body] && nextId == old(nextId) + 1
      ensures created.None? ==> scholarships == old(scholarships) && nextId == old(nextId)
      ensures unchanged(this`users, this`applications, this`reviews)
    {
      status := Gate(cred, AdminOnly, CallerRecord(cred));
      created := None;
      if status == Ok {
        scholarships := scholarships[nextId := body];
        created := Some(nextId);
        nextId := nextId + 1;
      }
    }

    /** `PATCH /scholarships/:id` (admin only): `$set` of the body. */
    method UpdateScholarship(cred: Credential, id: Id, patch: Fields) returns (status: Status)
      requires Valid()
      modifies this
      ensures Valid()
      ensures status == old(Gate(cred, AdminOnly, CallerRecord(cred)))
      ensures scholarships == if status == Ok && id in old(scholarships)
                              then old(scholarships)[id := Merge(old(scholarships)[id], patch)]
                              else old(scholarships)
      ensures unchanged(this`users, this`applications, this`reviews, this`nextId)
    {
      status := Gate(cred, AdminOnly, CallerRecord(cred));
      if status == Ok && id in scholarships {
        scholarships := scholarships[id := Merge(scholarships[id], patch)];
      }
    }

    /** `DELETE /scholarships/:id` (admin only). */
    method DeleteScholarship(cred: Credential, id: Id) returns (status: Status)
      requires Valid()
      modifies this
      ensures Valid()
      ensures status == old(Gate(cred, AdminOnly, CallerRecord(cred)))
      ensures scholarships == if status == Ok then old(scholarships) - {id} else old(scholarships)
      ensures unchanged(this`users, this`applications, this`reviews, this`nextId)
    {
      status := Gate(cred, AdminOnly, CallerRecord(cred));
      if status == Ok {
        scholarships := scholarships - {id};
      }
    }

    // --------------------------------------------------------- applications

    /** `POST /applications`: stores the body stamped "pending" and dated `now`. */
    method CreateApplication(cred: Credential, body: Fields, now: nat) returns (status: Status, created: Option<Id>)
      requires Valid()
      modifies this
      ensures Valid()
      ensures status == Gate(cred, SignedIn, None)
      ensures created.Some? <==> status == Ok
      ensures created.Some? ==>
        created.value == old(nextId) && created.value !in old(applications) &&
        applications == old(applications)[created.value := NewApplication(body, now)] &&
        nextId == old(nextId) + 1
      ensures created.None? ==> applications == old(applications) && nextId == old(nextId)
      ensures unchanged(this`users, this`scholarships, this`reviews)
    {
      created := None;
      if cred.NoHeader? {
        return E401, None;
      }
      if cred.Rejected? {
        return E403, None;
      }
      applications := applications[nextId := NewApplication(body, now)];
      created := Some(nextId);
      nextId := nextId + 1;
      status := Ok;
    }

    /** `GET /applications` (admin or moderator): every application. */
    method ListApplications(cred: Credential) returns (status: Status, result: seq<Doc>)
      requires Valid()
      ensures status == Gate(cred, AdminOrModerator, CallerRecord(cred))
      ensures status == Ok ==>
        forall d :: d in result <==> d.id in applications && applications[d.id] == d.fields
      ensures forall i, j :: 0 <= i < j < |result| ==> result[i].id < result[j].id
      ensures status != Ok ==> result == []
    {
      status := Gate(cred, AdminOrModerator, CallerRecord(cred));
      result := [];
      if status == Ok {
        result := Docs(applications, nextId);
      }
    }

    /** `GET /applications/user/:email`: the caller's own applications, each once. */
    method ListMyApplications(cred: Credential, email: string) returns (status: Status, result: seq<Doc>)
      requires Valid()
      ensures status == SelfOnly(cred, email)
      ensures status == Ok <==> cred == Verified(email)
      ensures status == Ok ==>
        forall d :: d in result <==>
          d.id in applications && applications[d.id] == d.fields && OwnedBy(d.fields, email)
      ensures forall i, j :: 0 <= i < j < |result| ==> result[i].id < result[j].id
      ensures status != Ok ==> result == []
    {
      status := SelfOnly(cred, email);
      result := [];
      if status == Ok {
        result := Select(Docs(applications, nextId), "userEmail", Str(email));
        SelectKeepsOrder(Docs(applications, nextId), "userEmail", Str(email));
      }
    }

    /** `PATCH /applications/:id` (admin or moderator): `$set` of an arbitrary patch, the
        status included, with no check of the application's state. */
    method StaffUpdateApplication(cred: Credential, id: Id, patch: Fields) returns (status: Status)
      requires Valid()
      modifies this
      ensures Valid()
      ensures status == old(Gate(cred, AdminOrModerator, CallerRecord(cred)))
      ensures applications == if status == Ok && id in old(applications)
                              then old(applications)[id := Merge(old(applications)[id], patch)]
                              else old(applications)
      ensures unchanged(this`users, this`scholarships, this`reviews, this`nextId)
    {
      status := Gate(cred, AdminOrModerator, CallerRecord(cred));
      if status == Ok && id in applications {
        applications := applications[id := Merge(applications[id], patch)];
      }
    }

    /** `PATCH /applications/update/:id`: the owner's `$set` of an arbitrary patch, allowed
        only while the application is pending. */
    method OwnerUpdateApplication(cred: Credential, id: Id, patch: Fields) returns (status: Status)
      requires Valid()
      modifies this
      ensures Valid()
      ensures status == OwnerEditCheck(cred, Lookup(old(applications), id))
      ensures applications == if status == Ok
                              then old(applications)[id := Merge(old(applications)[id], patch)]
                              else old(applications)
      ensures unchanged(this`users, this`scholarships, this`reviews, this`nextId)
    {
      if cred.NoHeader? {
        return E401;
      }
      if cred.Rejected? {
        return E403;
      }
      if id !in applications {
        return E404;
      }
      var application := applications[id];
      if !OwnedBy(application, cred.email) {
        return E403;
      }
      if !IsPending(application) {
        return E400;
      }
      applications := applications[id := Merge(application, patch)];
      status := Ok;
    }

    /** `DELETE /applications/:id`: the owner removes the application, whatever its status. */
    method DeleteApplication(cred: Credential, id: Id) returns (status: Status)
      requires Valid()
      modifies this
      ensures Valid()
      ensures status == OwnerDeleteCheck(cred, Lookup(old(applications), id))
      ensures applications == if status == Ok then old(applications) - {id} else old(applications)
      ensures status == Ok ==> id !in applications
      ensures unchanged(this`users, this`scholarships, this`reviews, this`nextId)
    {
      if cred.NoHeader? {
        return E401;
      }
      if cred.Rejected? {
        return E403;
      }
      if id !in applications {
        return E404;
      }
      if !OwnedBy(applications[id], cred.email) {
        return E403;
      }
      applications := applications - {id};
      status := Ok;
    }

    // -------------------------------------------------------------- reviews

    /** `GET /reviews/public`: the six newest reviews, without their owners' emails. */
    method PublicReviews() returns (result: seq<Doc>)
      requires Valid()
      ensures result == PublicRecent(Docs(reviews, nextId))
      ensures |result| == if |reviews| < 6 then |reviews| else 6
      ensures NewestFirst(result)
      ensures forall i :: 0 <= i < |result| ==>
        "userEmail" !in result[i].fields && result[i].fields.Keys <= PublicFields &&
        result[i].id in reviews && result[i] == Project(Doc(result[i].id, reviews[result[i].id]))
      ensures forall i, j :: 0 <= i < j < |result| ==> result[i].id != result[j].id
      ensures forall id, i :: id in reviews && id !in IdsOf(result) && 0 <= i < |result| ==>
        DateKey(Doc(id, reviews[id])) <= DateKey(result[i])
    {
      result := PublicRecent(Docs(reviews, nextId));
      PublicRecentOfCollection(reviews, nextId);
      PublicRecentHasDistinctIds(Docs(reviews, nextId));
      PublicRecentOfCollectionIsNewest(reviews, nextId);
    }

    /** `POST /reviews`: stores the body owned by the caller and dated `now`. */
    method CreateReview(cred: Credential, body: Fields, now: nat) returns (status: Status, created: Option<Id>)
      requires Valid()
      modifies this
      ensures Valid()
      ensures status == Gate(cred, SignedIn, None)
      ensures created.Some? <==> status == Ok
      ensures created.Some? ==>
        created.value == old(nextId) && created.value !in old(reviews) &&
        reviews == old(reviews)[created.value := NewReview(body, cred.email, now)] &&
        nextId == old(nextId) + 1
      ensures created.None? ==> reviews == old(reviews) && nextId == old(nextId)
      ensures unchanged(this`users, this`scholarships, this`applications)
    {
      created := None;
      if cred.NoHeader? {
        return E401, None;
      }
      if cred.Rejected? {
        return E403, None;
      }
      reviews := reviews[nextId := NewReview(body, cred.email, now)];
      created := Some(nextId);
      nextId := nextId + 1;
      status := Ok;
    }

    /** `GET /reviews` (admin or moderator): every review, newest first. */
    method ListReviews(cred: Credential) returns (status: Status, result: seq<Doc>)
      requires Valid()
      ensures status == Gate(cred, AdminOrModerator, CallerRecord(cred))
      ensures status == Ok ==>
        NewestFirst(result) && multiset(result) == multiset(Docs(reviews, nextId))
      ensures status != Ok ==> result == []
    {
      status := Gate(cred, AdminOrModerator, CallerRecord(cred));
      result := [];
      if status == Ok {
        result := SortNewestFirst(Docs(reviews, nextId));
      }
    }

    /** `GET /reviews/:scholarshipId`: the reviews of one scholarship, for anyone. */
    method ScholarshipReviews(scholarshipId: string) returns (result: seq<Doc>)
      requires Valid()
      ensures forall d :: d in result <==>
        d.id in reviews && reviews[d.id] == d.fields && FieldOf(d.fields, "scholarshipId") == Str(scholarshipId)
      ensures forall i, j :: 0 <= i < j < |result| ==> result[i].id < result[j].id
    {
      result := Select(Docs(reviews, nextId), "scholarshipId", Str(scholarshipId));
      SelectKeepsOrder(Docs(reviews, nextId), "scholarshipId", Str(scholarshipId));
    }

    /** `GET /reviews/user/:email`: the caller's own reviews, newest first. */
    method MyReviews(cred: Credential, email: string) returns (status: Status, result: seq<Doc>)
      requires Valid()
      ensures status == SelfOnly(cred, email)
      ensures status == Ok <==> cred == Verified(email)
      ensures status == Ok ==> NewestFirst(result)
      ensures status == Ok ==>
        multiset(result) == multiset(Select(Docs(reviews, nextId), "userEmail", Str(email)))
      ensures status == Ok ==>
        forall d :: d in result <==> d.id in reviews && reviews[d.id] == d.fields && OwnedBy(d.fields, email)
      ensures forall i, j :: 0 <= i < j < |result| ==> result[i].id != result[j].id
      ensures status != Ok ==> result == []
    {
      status := SelfOnly(cred, email);
      result := [];
      if status == Ok {
        result := SortNewestFirst(Select(Docs(reviews, nextId), "userEmail", Str(email)));
        SortedSelectionMembers(reviews, nextId, "userEmail", Str(email));
        SortedSelectionOnceEach(reviews, nextId, "userEmail", Str(email), result);
      }
    }

    /** `PATCH /reviews/:id`: the owner or staff set the rating and the comment. */
    method UpdateReview(cred: Credential, id: Id, ratingPoint: Value, reviewComment: Value) returns (status: Status)
      requires Valid()
      modifies this
      ensures Valid()
      ensures status == old(ReviewChangeCheck(cred, Lookup(reviews, id), CallerRecord(cred)))
      ensures reviews == if status == Ok
                         then old(reviews)[id := Merge(old(reviews)[id], ReviewPatch(ratingPoint, reviewComment))]
                         else old(reviews)
      ensures unchanged(this`users, this`scholarships, this`applications, this`nextId)
    {
      if cred.NoHeader? {
        return E401;
      }
      if cred.Rejected? {
        return E403;
      }
      if id !in reviews {
        return E404;
      }
      var review := reviews[id];
      var role := RoleOf(CallerRecord(cred));
      if !OwnedBy(review, cred.email) && role != Some("admin") && role != Some("moderator") {
        return E403;
      }
      reviews := reviews[id := Merge(review, ReviewPatch(ratingPoint, reviewComment))];
      ReviewUpdateTouchesOnlyRatingAndComment(review, ratingPoint, reviewComment);
      status := Ok;
    }

    /** `DELETE /reviews/:id`: the owner or staff remove the review. */
    method DeleteReview(cred: Credential, id: Id) returns (status: Status)
      requires Valid()
      modifies this
      ensures Valid()
      ensures status == old(ReviewChangeCheck(cred, Lookup(reviews, id), CallerRecord(cred)))
      ensures reviews == if status == Ok then old(reviews) - {id} else old(reviews)
      ensures unchanged(this`users, this`scholarships, this`applications, this`nextId)
    {
      if cred.NoHeader? {
        return E401;
      }
      if cred.Rejected? {
        return E403;
      }
      if id !in reviews {
        return E404;
      }
      var role := RoleOf(CallerRecord(cred));
      if !OwnedBy(reviews[id], cred.email) && role != Some("admin") && role != Some("moderator") {
        return E403;
      }
      reviews := reviews - {id};
      status := Ok;
    }

    // -------------------------------------------------------------- payment

    /** `PATCH /payment-success?session_id=`: records the paid session as an application,
        unless an application already carries its payment intent as transaction id.
        `retrieved` is what the processor returns for `sessionId` (`None` when it throws). */
    method FinalizePayment(cred: Credential, sessionId: Option<string>, retrieved: Option<Session>, now: nat)
      returns (status: Status, created: Option<Id>)
      requires Valid()
      modifies this
      ensures Valid()
      ensures status == FinalizeCheck(cred, sessionId, retrieved)
      ensures created.Some? <==>
        status == Ok && !AnyMatch(old(applications), "transactionId", retrieved.value.paymentIntent)
      ensures created.Some? ==>
        created.value == old(nextId) && created.value !in old(applications) &&
        applications == old(applications)[created.value := PaymentRecord(retrieved.value, now)] &&
        nextId == old(nextId) + 1
      ensures created.None? ==> applications == old(applications) && nextId == old(nextId)
      ensures status == Ok ==> AnyMatch(applications, "transactionId", retrieved.value.paymentIntent)
      ensures created.Some? ==>
        Holders(applications, "transactionId", retrieved.value.paymentIntent) == {created.value}
      ensures UniqueWhenSet(old(applications), "transactionId") ==> UniqueWhenSet(applications, "transactionId")
      ensures unchanged(this`users, this`scholarships, this`reviews)
    {
      created := None;
      if cred.NoHeader? {
        return E401, None;
      }
      if cred.Rejected? {
        return E403, None;
      }
      if sessionId.None? || sessionId.value == "" {
        return E400, None;
      }
      if retrieved.None? {
        return E500, None;
      }
      var session := retrieved.value;
      if session.paymentStatus != "paid" {
        return E400, None;
      }
      if AnyMatch(applications, "transactionId", session.paymentIntent) {
        return Ok, None;
      }
      var record := PaymentRecord(session, now);
      applications := applications[nextId := record];
      assert FieldOf(applications[nextId], "transactionId") == session.paymentIntent;
      created := Some(nextId);
      nextId := nextId + 1;
      status := Ok;
    }
  }

  /** The public listing of a whole collection: six documents or all of them, each the
      projection of the stored document with its id. */
  lemma PublicRecentOfCollection(m: map<Id, Fields>, n: nat)
    requires IdsBelow(m, n)
    ensures |PublicRecent(Docs(m, n))| == if |m| < 6 then |m| else 6
    ensures forall i :: 0 <= i < |PublicRecent(Docs(m, n))| ==>
      var p := PublicRecent(Docs(m, n))[i];
      p.id in m && p == Project(Doc(p.id, m[p.id]))
  {
    DocsCountsCollection(m, n);
    var all := Docs(m, n);
    forall d | d in all ensures d == Doc(d.id, m[d.id]) {
      var k :| 0 <= k < |all| && all[k] == d;
    }
    PublicRecentOfStored(all, m);
  }

  /** No stored document missing from the public listing of the whole collection is newer
      than one shown. */
  lemma PublicRecentOfCollectionIsNewest(m: map<Id, Fields>, n: nat)
    requires IdsBelow(m, n)
    ensures forall id, i ::
      (id in m && id !in IdsOf(PublicRecent(Docs(m, n))) && 0 <= i < |PublicRecent(Docs(m, n))|) ==>
        DateKey(Doc(id, m[id])) <= DateKey(PublicRecent(Docs(m, n))[i])
  {
    var all := Docs(m, n);
    var r := PublicRecent(all);
    forall id, i | id in m && id !in IdsOf(r) && 0 <= i < |r|
      ensures DateKey(Doc(id, m[id])) <= DateKey(r[i])
    {
      var d := Doc(id, m[id]);
      assert d in all;
      PublicRecentIsNewest(all, d);
    }
  }

  /** Each entry of a public listing of stored documents projects the stored document with
      its id. */
  lemma PublicRecentOfStored(docs: seq<Doc>, m: map<Id, Fields>)
    requires forall d :: d in docs ==> d.id in m && d == Doc(d.id, m[d.id])
    ensures forall i :: 0 <= i < |PublicRecent(docs)| ==>
      var p := PublicRecent(docs)[i];
      p.id in m && p == Project(Doc(p.id, m[p.id]))
  {
    var r := PublicRecent(docs);
    var top :| multiset(top) <= multiset(docs) && r == ProjectAll(top);
    forall i | 0 <= i < |r| ensures r[i].id in m && r[i] == Project(Doc(r[i].id, m[r[i].id])) {
      assert top[i] in multiset(docs);
      assert r[i] == Project(top[i]);
    }
  }

  /** Sorting a selection from a whole collection newest first keeps exactly the stored
      documents whose field matches. */
  lemma SortedSelectionMembers(m: map<Id, Fields>, n: nat, f: string, v: Value)
    requires IdsBelow(m, n)
    ensures forall d :: d in SortNewestFirst(Select(Docs(m, n), f, v)) <==>
      d.id in m && m[d.id] == d.fields && FieldOf(d.fields, f) == v
  {
    var chosen := Select(Docs(m, n), f, v);
    assert forall d :: d in SortNewestFirst(chosen) <==> d in multiset(chosen);
  }

  /** Sorting a selection from a listing shows each id at most once. */
  lemma SortedSelectionOnceEach(m: map<Id, Fields>, n: nat, f: string, v: Value, r: seq<Doc>)
    requires r == SortNewestFirst(Select(Docs(m, n), f, v))
    ensures forall i, j :: 0 <= i < j < |r| ==> r[i].id != r[j].id
  {
    var chosen := Select(Docs(m, n), f, v);
    SelectKeepsOrder(Docs(m, n), f, v);
    SubListingHasDistinctIds(r, chosen);
  }

  /** A selection from an id-ordered listing is id-ordered. */
  lemma {:induction false} SelectKeepsOrder(docs: seq<Doc>, f: string, v: Value)
    requires forall i, j :: 0 <= i < j < |docs| ==> docs[i].id < docs[j].id
    ensures forall i, j :: 0 <= i < j < |Select(docs, f, v)| ==> Select(docs, f, v)[i].id < Select(docs, f, v)[j].id
  {
    if docs != [] {
      SelectKeepsOrder(docs[1..], f, v);
      var rest := Select(docs[1..], f, v);
      assert forall d :: d in rest ==> d in docs[1..];
    }
  }
}
