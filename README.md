# ScholarStream server: authorization and application lifecycle

A Dafny model of the core of the ScholarStream backend (`index.js`), an Express server over a
MongoDB database with four collections: `users`, `scholarships`, `applications` and `reviews`.

The model covers what the server decides on its own, behind its I/O:

- **Role guards.** `verifyAdmin`, `verifyModerator` and `verifyAdminOrModerator` look up the
  caller's user record by the email in the verified token. They compare its role after
  lowercasing. A caller with no user record fails every guard with 403; that is not an error.
- **Users.** Registration forces the role to `"student"` and stores nothing when the email is
  already taken. The role lookup answers `"student"` by default. Admins list users, set
  roles and delete users.
- **Applications.** Creation stamps the status `"pending"` and the date. Staff (admins and
  moderators) patch any field with no further check. The owner edits only while the
  application is pending; the checks run in the order not-found (404), not-owner (403),
  not-pending (400). The owner may delete an application in any status. Listings are filters.
- **Payment confirmation.** `PATCH /payment-success` takes the checkout session the payment
  processor returns. It refuses a missing session id and an unpaid session. It does not
  insert when an application already carries the session's payment intent as its
  transaction id. Otherwise it inserts a record built from the session metadata.
- **Reviews.** A review belongs to the caller who posted it. Its owner or staff may update it
  or delete it. An update writes only the rating and the comment. The public listing is the
  six newest reviews, projected to public fields.

Model structure:

- `documents.dfy` (`Documents`): field values, documents as field maps, and the query forms the
  routes use. A missing field reads as null, as it does in a MongoDB equality query. `$set` is
  a right-biased merge. Natural order is modelled as insertion order: ids are allocated in
  increasing order and a listing is in ascending id order.
- `roles.dfy` (`Roles`): ASCII lowercasing, the three guards, and the reply of the role lookup.
- `access.dfy` (`Access`): the credential (no header, rejected token, or verified email), the
  statuses, and the middleware gate.
- `lifecycle.dfy` (`Lifecycle`): the documents the create routes build, and the check
  sequences of the owner edit, the owner delete and the review update/delete, as functions.
- `payment.dfy` (`Payment`): the processor's session, the fee fallback, the record a paid
  session becomes, and the checks before the duplicate lookup.
- `listing.dfy` (`Listing`): the newest-first sort, the limit of six, and the public projection.
- `server.dfy` (`Server`): class `Store`. Its fields are the four collections (`map<Id, Fields>`)
  and the next id. It has one method per route. `Valid()` holds that ids are below the next
  id, that user emails are unique, that every stored role is text, and that every review
  carries a date. Every route preserves it.
- `scenarios.dfy` (`Scenarios`): request sequences proved from the route contracts alone.

The caller's identity, the clock and the processor's session are inputs. A method receives
the token outcome as a `Credential`, the time of the request as `now`, and the processor's
answer as `retrieved`.

Behaviours worth knowing, each as index.js has it:

- A confirmed payment stores `applicationStatus: "pending"` (index.js:541). Only
  `paymentStatus` is `"paid"` (index.js:540).
- A missing `Authorization` header gives 401. A token that fails verification gives 403
  (index.js:27, index.js:36).
- The fee falls back to the charged total only when the metadata fee is absent or empty. A
  declared `"0"` is a non-empty text and is kept (index.js:536-538).
- Nothing keeps transaction ids unique except the payment route's own lookup. A client's
  `POST /applications` body, and an owner's edit, may carry any `transactionId` or
  `paymentStatus`. `NewApplication` states that those fields are stored as sent.

## Model

| member | source | states |
|---|---|---|
| `Documents.FindUnique` | index.js:60 | `findOne` by a unique field returns the one matching document exactly when some document matches |
| `Documents.Merge` | index.js:260-263 | `$set`: patched fields take the patch's values, all other fields keep theirs, no field is dropped |
| `Documents.Docs` | index.js:236 | a collection listing holds every stored document, each with its id, in ascending id order |
| `Documents.Select` | index.js:248-250 | an equality filter keeps exactly the documents whose field equals the value |
| `Documents.DocsCount` | index.js:236 | a listing has one entry per stored id it covers |
| `Documents.SubListingHasDistinctIds` | index.js:236 | a listing returned by `toArray` holds each document once, so any selection or reordering of it shows each id at most once |
| `Documents.DocsCountsCollection` | index.js:322-338 | a listing of a whole collection has as many entries as the collection has documents |
| `Roles.LowerIsCaseInsensitive` | index.js:61 | lowercasing a role gives a lower-case word exactly when the role spells that word in any mixture of cases |
| `Roles.LowerIdempotent` | index.js:112 | lowercasing a role that the role route already stored lowercased leaves it unchanged |
| `Roles.Lower` | index.js:61 | `toLowerCase` on ASCII text; its meaning is stated by `Roles.LowerIsCaseInsensitive` and `Roles.LowerIdempotent` |
| `Roles.RoleOf` | index.js:77 | `user?.role?.toLowerCase()`: nothing for a missing user or role, else the lowercased role; stated through `Roles.GuardsByRoleSpelling` and `Roles.RoleReply` |
| `Roles.VerifyAdmin` | index.js:59-65 | `verifyAdmin` passes only for an existing user whose lowercased role is "admin"; stated by `Roles.GuardsByRoleSpelling` |
| `Roles.VerifyModerator` | index.js:67-73 | `verifyModerator` passes only for an existing user whose lowercased role is "moderator"; stated by `Roles.GuardsByRoleSpelling` |
| `Roles.VerifyAdminOrModerator` | index.js:75-82 | `verifyAdminOrModerator` passes only for an existing user whose lowercased role is "admin" or "moderator"; stated by `Roles.GuardsByRoleSpelling` |
| `Roles.GuardsByRoleSpelling` | index.js:59-82 | `verifyAdmin` passes iff a user record exists and its role spells "admin" in any case; `verifyModerator` the same for "moderator"; `verifyAdminOrModerator` is their union; no user passes none; no user passes both |
| `Roles.RoleReply` | index.js:104-115 | the role lookup is never empty and always lower case; it is "student" for a missing or empty email, an unknown user or a missing or empty role, and otherwise exactly the user's lowercased role |
| `Access.Gate` | index.js:25-38 | the token check then the role guard: 401 without a header, 403 for a rejected token or a refused guard, otherwise the handler runs; stated by `Access.GateByRole` |
| `Access.GateByRole` | index.js:25-38 | only a missing header gives 401; a rejected token gets 403 on every route; a signed-in route runs iff the token verified; a guarded handler runs iff the token verified and the caller's stored role spells the guard's word; a verified caller with no user record passes only the token check |
| `Access.SelfOnly` | index.js:245-246 | a self-only listing's check: 401 without a header, 403 for a rejected token or another email; stated by `Access.SelfOnlyExactlyOwner` |
| `Access.SelfOnlyExactlyOwner` | index.js:378-380 | a self-only listing answers exactly for the verified token of the path's email; only a missing header is 401, every other refusal is 403 |
| `Lifecycle.Registered` | index.js:93-95 | a registered user has role "student" whatever the body said; every other field is the body's |
| `Lifecycle.NewApplication` | index.js:224-227 | a created application has status "pending" and the request's date whatever the client sent; every other field is the client's |
| `Lifecycle.NewReview` | index.js:345-352 | a created review is owned by the caller and dated by the request whatever the client sent; every other field is the client's |
| `Lifecycle.ReviewUpdateTouchesOnlyRatingAndComment` | index.js:406-414 | a review update writes the rating and the comment and leaves every other field, the owner and the date included, unchanged |
| `Lifecycle.OwnerEditCheck` | index.js:268-287 | the owner edit's checks in the handler's order: token, not found, not owner, not pending; stated by `Lifecycle.TokenCheckedFirst` and `Lifecycle.OwnerEditPrecedence` |
| `Lifecycle.OwnerDeleteCheck` | index.js:299-310 | the owner delete's checks: token, not found, not owner; stated by `Lifecycle.TokenCheckedFirst` and `Lifecycle.DeleteIgnoresStatus` |
| `Lifecycle.ReviewChangeCheck` | index.js:389-404 | the review update and delete checks: token, not found, neither owner nor admin nor moderator; stated by `Lifecycle.TokenCheckedFirst` and `Lifecycle.ReviewChangeIsOwnerOrStaff` |
| `Lifecycle.ReviewPatch` | index.js:406-414 | the review update's `$set` of the rating and the comment only; stated by `Lifecycle.ReviewUpdateTouchesOnlyRatingAndComment` |
| `Lifecycle.StatusPatch` | index.js:255-266 | a staff decision body setting `applicationStatus`; stated by `Lifecycle.DecisionKeepsOwner` |
| `Lifecycle.DecisionKeepsOwner` | index.js:255-266 | a staff decision keeps the application's owner, and leaves it editable by the owner exactly when the new status is "pending" |
| `Lifecycle.OwnerEditPrecedence` | index.js:275-291 | an owner edit goes through iff the application exists, belongs to the caller and is pending; missing is 404 first, another caller is 403 whatever the status, the owner of a decided application gets 400 |
| `Lifecycle.DeleteIgnoresStatus` | index.js:303-312 | an owner delete answers as an owner edit would, except that it goes through where the edit is refused for not being pending |
| `Lifecycle.ReviewChangeIsOwnerOrStaff` | index.js:389-404 | a review update or delete goes through iff the caller owns the review or is admin or moderator; any other caller gets 403; a missing review is 404 |
| `Lifecycle.TokenCheckedFirst` | index.js:25-38 | without a verified token the owner edit, the owner delete and the review change answer as the signed-in gate does: 401 without a header, 403 for a rejected token, whatever is stored; an Ok from any of them implies a verified token |
| `Payment.FeeOf` | index.js:536-538 | the stored fee: the metadata text when it is non-empty, the charged total otherwise; stated by `Payment.FeeFallsBackOnlyWhenAbsent` |
| `Payment.FinalizeCheck` | index.js:505-518 | payment confirmation's checks up to the duplicate lookup, with the 500 of a session that cannot be retrieved (index.js:554-557); stated by `Payment.FinalizeNeedsPaidSession` |
| `Payment.FeeFallsBackOnlyWhenAbsent` | index.js:536-538 | the stored fee is the charged total iff the metadata fee is absent or empty; a declared "0" is kept |
| `Payment.PaymentRecord` | index.js:528-544 | a record built from a session has payment status "paid", application status "pending", the payment intent as transaction id, the metadata's owner, scholarship, university name, city, country and subject category (null when unset), the fee and the request's date, and exactly those eleven fields |
| `Payment.FinalizeNeedsPaidSession` | index.js:505-518 | payment confirmation passes its checks iff the token verified, the session id is present and non-empty, and the session is paid; no header is 401, a rejected token 403, a missing or empty session id 400, a session the processor cannot return 500, an unpaid session 400 |
| `Listing.InsertByDate` | index.js:336 | inserting a review into a newest-first list keeps it newest first and adds exactly that review |
| `Listing.SortNewestFirst` | index.js:364 | sorting by `reviewDate` descending gives a newest-first permutation of the input |
| `Listing.Project` | index.js:325-334 | a projected review keeps its id and every public field with its value, and holds only public fields, never the owner's email |
| `Listing.ProjectAll` | index.js:325-334 | projecting a list projects each review in place |
| `Listing.Newest6` | index.js:336-337 | sort then limit gives min(6, n) reviews taken from the input (as a sub-multiset), newest first, and no review left out is newer than one kept |
| `Listing.PublicRecent` | index.js:321-341 | the public list holds min(6, n) entries, newest first, without `userEmail`: the projections of a sub-multiset of the input |
| `Listing.PrependNewest` | index.js:336 | a review no older than the head of a newest-first list can be put in front of it |
| `Listing.ProjectAllKeepsOrder` | index.js:325-337 | projecting a newest-first list keeps it newest first |
| `Listing.PrefixLeavesOlder` | index.js:336-337 | the first entries of a newest-first list are taken from it, and no copy left behind is newer than one kept |
| `Listing.PublicRecentHasDistinctIds` | index.js:321-341 | on a listing with ascending ids, the public list shows each review at most once |
| `Listing.PublicRecentIsNewest` | index.js:336-337 | no review left out of the public list is newer than any review shown |
| `Server.Store.CallerRecord` | index.js:60 | the user record `findOne({ email })` finds for a verified token's email, none for an unverified one; stated by `Documents.FindUnique` under unique emails |
| `Server.Store.ListUsers` | index.js:85-88 | admins get exactly the stored users, each once, in ascending id order; anyone else gets the gate's refusal and nothing |
| `Server.Store.Register` | index.js:93-102 | a user is inserted iff no user has the body's email; the insert has role "student"; nothing else changes |
| `Server.Store.RoleLookup` | index.js:104-115 | answers the lowercased role of the user with that email, or "student" when the email is missing, empty or unknown |
| `Server.Store.SetRole` | index.js:118-129 | admins set a user's role to the lowercased text; nothing else changes |
| `Server.Store.DeleteUser` | index.js:131-141 | admins remove the user; nothing else changes |
| `Server.Store.CreateScholarship` | index.js:187-195 | admins insert the body as sent under a fresh id |
| `Server.Store.UpdateScholarship` | index.js:197-208 | admins `$set` the body on the scholarship |
| `Server.Store.DeleteScholarship` | index.js:210-220 | admins remove the scholarship |
| `Server.Store.CreateApplication` | index.js:224-229 | a signed-in caller inserts the body stamped pending under a fresh id; existing applications are unchanged |
| `Server.Store.ListApplications` | index.js:231-239 | staff get exactly the stored applications, each once, in ascending id order |
| `Server.Store.ListMyApplications` | index.js:241-253 | 403 unless the token's email is the path's; otherwise exactly the applications whose `userEmail` is that email, each once, in natural order |
| `Server.Store.StaffUpdateApplication` | index.js:255-266 | staff `$set` any patch on the application, status included; no other application changes |
| `Server.Store.OwnerUpdateApplication` | index.js:268-297 | the status is the owner-edit check on the stored application; on success only that application changes, to the old record merged with the patch; on any error nothing changes |
| `Server.Store.DeleteApplication` | index.js:299-317 | the status is the owner-delete check; on success exactly that application is removed, whatever its status |
| `Server.PublicRecentOfCollection` | index.js:321-341 | the public list of the whole review collection has min(6, number of reviews) entries, each the projection of the stored review with that id |
| `Server.PublicRecentOfCollectionIsNewest` | index.js:336-337 | no stored review missing from the public list of the whole collection is newer than one shown |
| `Server.Store.PublicReviews` | index.js:321-341 | the public list of the stored reviews: min(6, number of reviews) entries, newest first, each the projection of the stored review with its id, each review once, and no stored review left out is newer than one shown |
| `Server.Store.CreateReview` | index.js:345-356 | a signed-in caller inserts a review owned by the caller and dated `now` |
| `Server.Store.ListReviews` | index.js:359-367 | staff get every review, newest first |
| `Server.Store.ScholarshipReviews` | index.js:370-375 | exactly the reviews of that scholarship, in natural order, for anyone |
| `Server.SortedSelectionMembers` | index.js:381-384 | a filtered, date-sorted listing of a whole collection holds exactly the stored documents whose field matches |
| `Server.SortedSelectionOnceEach` | index.js:381-384 | a filtered, date-sorted listing shows each document once |
| `Server.Store.MyReviews` | index.js:378-386 | Ok iff the token's email is the path's, else 401 or 403; then a newest-first permutation of the caller's reviews, each once |
| `Server.Store.UpdateReview` | index.js:389-416 | the status is the review-change check; on success only the rating and the comment of that review change |
| `Server.Store.DeleteReview` | index.js:419-440 | the status is the review-change check; on success exactly that review is removed |
| `Server.Store.FinalizePayment` | index.js:505-558 | the status is the finalize check; a record is inserted iff the checks pass and no application has the payment intent as transaction id; afterwards one does; a new record is the only holder of that id; transaction-id uniqueness is preserved |
| `Server.SelectKeepsOrder` | index.js:248-250 | filtering a natural-order listing keeps natural order |
| `Scenarios.SubmitAndEdit` | index.js:224-291 | a created application can be edited by its owner at once; the stored record is the created one with the patch applied |
| `Scenarios.EditLockedAfterDecision` | index.js:255-291 | create, owner edit, staff decision: the owner's next edit gets 400, and the stored application is the created one with only the first edit and the decision applied |
| `Scenarios.DeleteThenGone` | index.js:299-317 | after the owner deletes an application in any status, editing or deleting it again gets 404 |
| `Scenarios.FinalizeTwice` | index.js:520-546 | confirming the same paid session twice inserts once; exactly one application holds its transaction id |
| `Scenarios.FinalizeExample` | index.js:528-544 | a paid session with fee "50" stores that fee text, payment status "paid", application status "pending" and the intent as transaction id |
| `Scenarios.ModeratorCannotDeleteScholarship` | index.js:210-220 | a moderator's scholarship delete gets 403 and changes nothing: every collection and the next id are as before |
| `Scenarios.PromoteThenLookup` | index.js:104-129 | after an admin sets the role "MODERATOR", the lookup answers "moderator" and the moderator guard admits the user |
| `Scenarios.RegisterTwice` | index.js:93-102 | registering the same email twice stores one user, with role "student" |

## Left out

- Express, CORS and `dotenv` setup, Firebase Admin initialisation, the MongoDB connection, `GET /` and `app.listen` (index.js:1-22, 41-56, 563-571): start-up and transport.
- Firebase token verification itself (index.js:29-32): a `Credential` stands for its outcome. A verified token without an email claim is not modelled.
- `POST /create-checkout-session` (index.js:444-503): it only builds a request to the payment processor, and its `amount * 100` is floating-point arithmetic. A falsy fee becomes `"0"` (index.js:489-491); only a truthy fee whose text is empty, such as an empty JSON array, sends a session from this route to the charged-total fallback, which `Payment.FeeOf` models.
- The numeric value of the fee (`parseFloat`, `amount_total / 100`): `Amount` keeps the text or the cents.
- `GET /scholarships` search and filter (index.js:144-175): their meaning is MongoDB regex matching.
- `GET /scholarships/:id` (index.js:177-185): a read of one document by id, whose 400 depends on ObjectId syntax.
- ObjectId validity: every `Id` is a valid id. Handlers that would throw on a malformed id are not modelled.
- An `_id` inside a request body or patch: `Fields` excludes that key.
- Dotted paths in `$set`, arrays and nested objects: values are flat.
- `toLowerCase` beyond ASCII: only `A`-`Z` are lowered.
- `Server.Store.SetRole`: takes the new role as text; a body whose `role` is not a string would make the handler throw.
- Failures of the database (the 500 answers of index.js:293-295 and 314-316, and unhandled rejections): store operations always succeed. The one 500 modelled is a session the processor cannot return (index.js:554-557).
- Natural order: MongoDB leaves the order of an unsorted `find` unspecified, and ObjectIds made by different processes are not monotone. The model takes natural order to be insertion order (ascending `Id`). The ascending-id promises of `ListUsers`, `ListApplications`, `ListMyApplications` and `ScholarshipReviews` rest on that choice.
- Ordering among reviews with equal dates: MongoDB's sort leaves it unspecified; the model chooses to keep natural order. A `reviewDate` that is not a date sorts after every date; no stored review has one.
- Stored records no route writes: `Server.Store.Valid` requires every stored user to have a text role and every stored review a date, so the store-level contracts (`RoleLookup`, the guards through `CallerRecord`) do not speak of a user whose role is missing or null, though the handlers accept one (`user.role?.` at index.js:61, 69, 77 and 112, `|| "student"` at 114); the functions `Roles.RoleOf`, `Roles.RoleReply` and `Roles.GuardsByRoleSpelling` cover that case.
- The race between a `findOne` check and the write that follows it under concurrent requests: every request runs alone.
- Response bodies beyond the status, the new id and listing contents (messages, `insertOne` results).
- `verifyModerator` (index.js:67-73) is modelled, but no route uses it.
