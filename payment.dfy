/** `PATCH /payment-success`: turning a checkout session reported by the payment processor
    into an application record. */
module Payment {
  import opened Documents
  import opened Access

  /** The checkout session as the processor returns it: its payment status, its payment
      intent id (the future transaction id), the metadata written when it was created, and the
      charged total in cents. */
  datatype Session = Session(
    paymentStatus: string,
    paymentIntent: Value,
    metadata: map<string, string>,
    amountTotal: int)

  /** `session.metadata[key]`, null when the key was never set. */
  function Meta(s: Session, key: string): Value {
    if key in s.metadata then Str(s.metadata[key]) else Null
  }

  /** The stored fee: the metadata fee when it is a non-empty text (so "0" counts as given),
      the charged total otherwise. */
  function FeeOf(s: Session): Amount {
    if "applicationFees" in s.metadata && s.metadata["applicationFees"] != "" then
      ParsedFee(s.metadata["applicationFees"])
    else
      ChargedTotal(s.amountTotal)
  }

  /** The fee falls back to the charged total only when the metadata fee is absent or
      empty; a declared "0" is kept. */
  lemma FeeFallsBackOnlyWhenAbsent(s: Session)
    ensures FeeOf(s).ChargedTotal? <==>
      "applicationFees" !in s.metadata || s.metadata["applicationFees"] == ""
    ensures FeeOf(s).ChargedTotal? ==> FeeOf(s).cents == s.amountTotal
    ensures FeeOf(s).ParsedFee? ==> FeeOf(s).text == s.metadata["applicationFees"]
    ensures "applicationFees" in s.metadata && s.metadata["applicationFees"] == "0" ==>
      FeeOf(s) == ParsedFee("0")
  {
  }

  /** The application record built from a paid session at time `now`. */
  function PaymentRecord(s: Session, now: nat): (a: Fields)
    ensures FieldOf(a, "paymentStatus") == Str("paid")
    ensures FieldOf(a, "applicationStatus") == Str("pending")
    ensures FieldOf(a, "transactionId") == s.paymentIntent
    ensures FieldOf(a, "appliedAt") == Date(now)
    ensures FieldOf(a, "applicationFees") == Money(FeeOf(s))
    ensures FieldOf(a, "userEmail") == Meta(s, "userEmail")
    ensures FieldOf(a, "scholarshipId") == Meta(s, "scholarshipId")
    ensures FieldOf(a, "universityName") == Meta(s, "universityName")
    ensures FieldOf(a, "universityCity") == Meta(s, "universityCity")
    ensures FieldOf(a, "universityCountry") == Meta(s, "universityCountry")
    ensures FieldOf(a, "subjectCategory") == Meta(s, "subjectCategory")
    ensures a.Keys == {"scholarshipId", "universityName", "universityCity", "universityCountry",
      "subjectCategory", "userEmail", "applicationFees", "paymentStatus", "applicationStatus",
      "transactionId", "appliedAt"}
  {
    map[
      "scholarshipId" := Meta(s, "scholarshipId"),
      "universityName" := Meta(s, "universityName"),
      "universityCity" := Meta(s, "universityCity"),
      "universityCountry" := Meta(s, "universityCountry"),
      "subjectCategory" := Meta(s, "subjectCategory"),
      "userEmail" := Meta(s, "userEmail"),
      "applicationFees" := Money(FeeOf(s)),
      "paymentStatus" := Str("paid"),
      "applicationStatus" := Str("pending"),
      "transactionId" := s.paymentIntent,
      "appliedAt" := Date(now)
    ]
  }

  /** The checks before the duplicate lookup: token, then a missing or empty `session_id`
      (400), then a session the processor could not return (`retrieved` is `None`; the
      handler's catch answers 500), then a session that is not paid (400). */
  function FinalizeCheck(cred: Credential, sessionId: Option<string>, retrieved: Option<Session>): Status {
    match cred
    case NoHeader => E401
    case Rejected => E403
    case Verified(_) =>
      if sessionId.None? || sessionId.value == "" then E400
      else if retrieved.None? then E500
      else if retrieved.value.paymentStatus != "paid" then E400
      else Ok
  }

  /** Only a verified caller with a session id whose session is paid gets past the checks. */
  lemma FinalizeNeedsPaidSession(cred: Credential, sessionId: Option<string>, retrieved: Option<Session>)
    ensures FinalizeCheck(cred, sessionId, retrieved) == Ok <==>
      cred.Verified? && sessionId.Some? && sessionId.value != "" &&
      retrieved.Some? && retrieved.value.paymentStatus == "paid"
    ensures cred.Verified? && (sessionId.None? || sessionId == Some("")) ==>
      FinalizeCheck(cred, sessionId, retrieved) == E400
    ensures cred.Verified? && sessionId.Some? && sessionId.value != "" && retrieved.None? ==>
      FinalizeCheck(cred, sessionId, retrieved) == E500
    ensures (cred.Verified? && sessionId.Some? && sessionId.value != "" &&
             retrieved.Some? && retrieved.value.paymentStatus != "paid") ==>
      FinalizeCheck(cred, sessionId, retrieved) == E400
    ensures cred.NoHeader? ==> FinalizeCheck(cred, sessionId, retrieved) == E401
    ensures cred.Rejected? ==> FinalizeCheck(cred, sessionId, retrieved) == E403
  {
  }
}
