/**
 * What the waitlist handler promises, stated over all inputs: which
 * branch each request takes, what record is built, and how the store's
 * answer becomes the response.
 */
module WaitlistProperties {
  import opened Outcomes
  import opened Js
  import opened EmailFormat
  import opened Waitlist

  /** "Email is required" (400, no insert) exactly when `email` is not a non-empty string. */
  lemma RequiredEmailCheck(body: RequestBody, email: Option<Json>, droneType: Option<Json>, env: Env, now: string, outcome: InsertOutcome)
    requires BodyFields(body) == Returns((email, droneType))
    ensures var r := Handle(body, env, now, outcome);
      r.payload == Error(EmailRequired) <==> !(email.Some? && email.value.JString? && email.value.s != "")
    ensures var r := Handle(body, env, now, outcome);
      r.payload == Error(EmailRequired) ==> r.status == 400 && r.insertAttempt == None
  {
  }

  /** A non-empty string email is rejected as malformed (400, no insert) exactly when the pattern does not match it. */
  lemma FormatCheck(body: RequestBody, email: string, droneType: Option<Json>, env: Env, now: string, outcome: InsertOutcome)
    requires BodyFields(body) == Returns((Some(JString(email)), droneType)) && email != ""
    ensures var r := Handle(body, env, now, outcome);
      r.payload == Error(InvalidEmailFormat) <==> !MatchesEmailPattern(email)
    ensures var r := Handle(body, env, now, outcome);
      r.payload == Error(InvalidEmailFormat) ==> r.status == 400 && r.insertAttempt == None
  {
    ValidEmailIffPattern(email);
  }

  /** The configuration error (500, no insert) happens exactly for a well-formed email and a missing URL or key. */
  lemma ConfigurationCheck(body: RequestBody, email: Option<Json>, droneType: Option<Json>, env: Env, now: string, outcome: InsertOutcome)
    requires BodyFields(body) == Returns((email, droneType))
    ensures var r := Handle(body, env, now, outcome);
      r.payload == Error(ServerConfigurationError) <==>
        && email.Some? && email.value.JString? && MatchesEmailPattern(email.value.s)
        && !Configured(env)
    ensures var r := Handle(body, env, now, outcome);
      r.payload == Error(ServerConfigurationError) ==> r.status == 500 && r.insertAttempt == None
  {
    if email.Some? && email.value.JString? {
      ValidEmailIffPattern(email.value.s);
    }
  }

  /** Validation comes first: a rejected email is rejected the same way whatever the configuration. */
  lemma ValidationPrecedesConfiguration(body: RequestBody, env1: Env, env2: Env, now: string, outcome: InsertOutcome)
    ensures Handle(body, env1, now, outcome).status == 400 ==> Handle(body, env2, now, outcome) == Handle(body, env1, now, outcome)
  {
  }

  /**
   * The insert is attempted exactly when every guard passes and the drone
   * type can be trimmed; the record holds the lower-cased email, the
   * normalised drone type and the timestamp.
   */
  lemma InsertAttemptCases(body: RequestBody, email: Option<Json>, droneType: Option<Json>, env: Env, now: string, outcome: InsertOutcome)
    requires BodyFields(body) == Returns((email, droneType))
    ensures var r := Handle(body, env, now, outcome);
      r.insertAttempt.Some? <==>
        && email.Some? && email.value.JString? && MatchesEmailPattern(email.value.s)
        && Configured(env) && env.clientAccepts
        && (droneType == None || droneType.value.JNull? || droneType.value.JString?)
    ensures var r := Handle(body, env, now, outcome);
      r.insertAttempt.Some? ==>
        && email.Some? && email.value.JString?
        && StoredDroneType(droneType).Returns?
        && r.insertAttempt.value == InsertRecord(ToLowerAscii(email.value.s), StoredDroneType(droneType).value, now)
  {
    if email.Some? && email.value.JString? {
      ValidEmailIffPattern(email.value.s);
    }
  }

  /** Once the insert is made, its outcome alone decides the response. */
  lemma InsertOutcomeMapping(body: RequestBody, env: Env, now: string, outcome: InsertOutcome)
    requires Handle(body, env, now, outcome).insertAttempt.Some?
    ensures var r := Handle(body, env, now, outcome);
      && (outcome == Inserted ==> r.status == 200 && r.payload == Message(JoinedWaitlist))
      && (outcome == Rejected(Some(UniqueViolation)) ==> r.status == 200 && r.payload == Message(AlreadyOnWaitlist))
      && (outcome.Rejected? && outcome.code != Some(UniqueViolation) ==> r.status == 500 && r.payload == Error(FailedToJoin))
      && (outcome == InsertThrew ==> r.status == 500 && r.payload == Error(InternalServerError))
  {
  }

  /**
   * The store is consulted only by the one insert: the record does not
   * depend on its answer, and without an insert the answer is ignored.
   */
  lemma OutcomeMattersOnlyAfterInsert(body: RequestBody, env: Env, now: string, outcome1: InsertOutcome, outcome2: InsertOutcome)
    ensures Handle(body, env, now, outcome1).insertAttempt == Handle(body, env, now, outcome2).insertAttempt
    ensures Handle(body, env, now, outcome1).insertAttempt == None ==>
      Handle(body, env, now, outcome1) == Handle(body, env, now, outcome2)
  {
  }

  /**
   * "Internal server error" comes from an exception: an unreadable or null
   * body, the client refusing the configuration, a drone type without a
   * `trim` method, or the insert throwing.
   */
  lemma InternalErrorCases(body: RequestBody, env: Env, now: string, outcome: InsertOutcome)
    ensures var r := Handle(body, env, now, outcome);
      r.payload == Error(InternalServerError) <==>
        || body.Unparsable? || body.value.JNull?
        || (var email := BodyFields(body).value.0;
            var droneType := BodyFields(body).value.1;
            && email.Some? && email.value.JString? && MatchesEmailPattern(email.value.s)
            && Configured(env)
            && (!env.clientAccepts || StoredDroneType(droneType).Throws? || outcome == InsertThrew))
    ensures var r := Handle(body, env, now, outcome);
      r.payload == Error(InternalServerError) ==> r.status == 500 && (r.insertAttempt.Some? ==> outcome == InsertThrew)
  {
    if BodyFields(body).Returns? {
      var email := BodyFields(body).value.0;
      if email.Some? && email.value.JString? {
        ValidEmailIffPattern(email.value.s);
      }
    }
  }

  /** A body `{ "email": e }` with no drone type. */
  function EmailOnly(e: string): (body: RequestBody)
    ensures BodyFields(body) == Returns((Some(JString(e)), None))
  {
    Parsed(JObject(map["email" := JString(e)]))
  }

  /**
   * A parsed body that is neither an object nor `null` (a number, a string,
   * a boolean or an array) has no `email` property, so it is refused as
   * missing its email.
   */
  lemma NonObjectBodyNeedsEmail(v: Json, env: Env, now: string, outcome: InsertOutcome)
    requires !v.JObject? && !v.JNull?
    ensures Handle(Parsed(v), env, now, outcome) == Response(400, Error(EmailRequired), None)
  {
    RequiredEmailCheck(Parsed(v), None, None, env, now, outcome);
  }

  /** Surrounding whitespace is not trimmed before the format check: the padded address is refused. */
  lemma PaddedAddressIsRejected(env: Env, now: string, outcome: InsertOutcome)
    ensures Handle(EmailOnly("PILOT@Example.com "), env, now, outcome) == Response(400, Error(InvalidEmailFormat), None)
  {
    var s := "PILOT@Example.com ";
    assert IsWhitespace(s[17]);
    assert !ValidEmail(s);
  }

  /** A well-formed address alone, on a configured server, is stored lower-cased with a null drone type. */
  lemma AcceptedAddressIsStored(e: string, env: Env, now: string)
    requires MatchesEmailPattern(e) && Configured(env) && env.clientAccepts
    ensures Handle(EmailOnly(e), env, now, Inserted)
      == Response(200, Message(JoinedWaitlist), Some(InsertRecord(ToLowerAscii(e), None, now)))
  {
    InsertAttemptCases(EmailOnly(e), Some(JString(e)), None, env, now, Inserted);
    InsertOutcomeMapping(EmailOnly(e), env, now, Inserted);
  }

  /** The mixed-case example: it is stored as "pilot@example.com". */
  lemma MixedCaseIsStoredLowerCased(env: Env, now: string)
    requires Configured(env) && env.clientAccepts
    ensures Handle(EmailOnly("PILOT@Example.com"), env, now, Inserted)
      == Response(200, Message(JoinedWaitlist), Some(InsertRecord("pilot@example.com", None, now)))
  {
    ExampleIsWellFormed();
    ValidEmailIffPattern("PILOT@Example.com");
    ExampleLowerCased();
    AcceptedAddressIsStored("PILOT@Example.com", env, now);
  }

  lemma ExampleIsWellFormed()
    ensures ValidEmail("PILOT@Example.com")
  {
    var s := "PILOT@Example.com";
    assert forall k | 0 <= k < |s| && k != 5 && k != 13 :: IsLabelChar(s[k]);
    LabelRunOfSlice(s, 0, 5);
    LabelRunOfSlice(s, 6, 13);
    LabelRunOfSlice(s, 14, 17);
    assert MatchesAt(s, 5, 13);
    ValidEmailIffPattern(s);
  }

  lemma ExampleLowerCased()
    ensures ToLowerAscii("PILOT@Example.com") == "pilot@example.com"
  {
    var t := ToLowerAscii("PILOT@Example.com");
    assert t[0] == 'p' && t[1] == 'i' && t[2] == 'l' && t[3] == 'o' && t[4] == 't';
    assert t[5] == '@' && t[6] == 'e' && t[7] == 'x' && t[8] == 'a' && t[9] == 'm' && t[10] == 'p' && t[11] == 'l' && t[12] == 'e';
    assert t[13] == '.' && t[14] == 'c' && t[15] == 'o' && t[16] == 'm';
  }

  /** An address without '@' is refused as malformed, even when the server is not configured. */
  lemma AddressWithoutAtIsRejected(env: Env, now: string, outcome: InsertOutcome)
    ensures Handle(EmailOnly("not-an-email"), env, now, outcome) == Response(400, Error(InvalidEmailFormat), None)
  {
    var s := "not-an-email";
    assert forall i | 0 <= i < |s| :: s[i] != '@';
    ValidEmailIffPattern(s);
    assert Decide(EmailOnly(s), env, now) == MalformedEmail;
  }
}
