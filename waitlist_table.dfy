/**
 * The `waitlist` table as the handler relies on it: rows keyed by their
 * unique `email` column, where a second insert of a present email is
 * refused with a unique-constraint violation. The hosted database itself
 * is not modelled; this reference table only states the uniqueness rule,
 * so that what repeated submissions do can be stated.
 */
module WaitlistTable {
  import opened Outcomes
  import opened Js
  import opened EmailFormat
  import opened Waitlist
  import opened WaitlistProperties

  /** The rows of the table, by email. */
  type Table = map<string, InsertRecord>

  /** Every row is stored under its own email. */
  predicate KeyedByEmail(t: Table) {
    forall e :: e in t ==> t[e].email == e
  }

  /** What the table answers to an insert of `rec`. */
  function TableAnswer(t: Table, rec: InsertRecord): (outcome: InsertOutcome)
    ensures outcome == Inserted || outcome == Rejected(Some(UniqueViolation))
    ensures outcome == Inserted <==> rec.email !in t
  {
    if rec.email in t then Rejected(Some(UniqueViolation)) else Inserted
  }

  /** The table after an insert of `rec`: a new row is added, no row is changed. */
  function AfterInsert(t: Table, rec: InsertRecord): (t': Table)
    ensures t'.Keys == t.Keys + {rec.email}
    ensures forall e :: e in t ==> t'[e] == t[e]
    ensures rec.email !in t ==> t'[rec.email] == rec
    ensures KeyedByEmail(t) ==> KeyedByEmail(t')
  {
    if rec.email in t then t else t[rec.email := rec]
  }

  /**
   * One request against the table. When the handler makes no insert the
   * store's answer is never read (OutcomeMattersOnlyAfterInsert), so any
   * outcome may be passed.
   */
  function Submit(t: Table, body: RequestBody, env: Env, now: string): (result: (Response, Table))
    ensures KeyedByEmail(t) ==> KeyedByEmail(result.1)
    ensures forall e :: e in t ==> e in result.1 && result.1[e] == t[e]
    ensures result.1.Keys <= t.Keys + (if result.0.insertAttempt.Some? then {result.0.insertAttempt.value.email} else {})
    ensures result.0.status == 400 ==> result.1 == t
    ensures result.0.status == 500 ==> result.1 == t
    ensures result.0.payload == Message(AlreadyOnWaitlist) ==> result.1 == t
    ensures result.1 != t <==> result.0.payload == Message(JoinedWaitlist)
    ensures result.0.payload == Message(JoinedWaitlist) ==>
      && result.0.insertAttempt.Some?
      && result.1 == t[result.0.insertAttempt.value.email := result.0.insertAttempt.value]
  {
    match Decide(body, env, now)
    case Attempt(rec) =>
      assert rec.email !in t ==> rec.email in AfterInsert(t, rec);
      (Handle(body, env, now, TableAnswer(t, rec)), AfterInsert(t, rec))
    case _ => (Handle(body, env, now, Inserted), t)
  }

  /**
   * Submitting a new address twice: the first call joins the waitlist, the
   * second is told it is already on it, and exactly one row is added.
   */
  lemma SubmitTwice(t: Table, body: RequestBody, email: string, droneType: Option<Json>, env: Env, now1: string, now2: string)
    requires BodyFields(body) == Returns((Some(JString(email)), droneType))
    requires MatchesEmailPattern(email) && Configured(env) && env.clientAccepts
    requires StoredDroneType(droneType).Returns?
    requires ToLowerAscii(email) !in t
    ensures var (r1, t1) := Submit(t, body, env, now1);
      && r1 == Response(200, Message(JoinedWaitlist), Some(InsertRecord(ToLowerAscii(email), StoredDroneType(droneType).value, now1)))
      && t1 == t[ToLowerAscii(email) := r1.insertAttempt.value]
    ensures var (r1, t1) := Submit(t, body, env, now1);
      var (r2, t2) := Submit(t1, body, env, now2);
      && r2.status == 200 && r2.payload == Message(AlreadyOnWaitlist)
      && t2 == t1
  {
    InsertAttemptCases(body, Some(JString(email)), droneType, env, now1, Inserted);
    InsertAttemptCases(body, Some(JString(email)), droneType, env, now2, Inserted);
  }

  /** A matching address on a working server leads to an insert of its lower-cased form. */
  lemma AcceptedAddressIsAttempted(body: RequestBody, email: string, droneType: Option<Json>, env: Env, now: string)
    requires BodyFields(body) == Returns((Some(JString(email)), droneType))
    requires MatchesEmailPattern(email) && Configured(env) && env.clientAccepts
    requires StoredDroneType(droneType).Returns?
    ensures Decide(body, env, now).Attempt? && Decide(body, env, now).rec.email == ToLowerAscii(email)
  {
    ValidEmailIffPattern(email);
  }

  /**
   * A request whose insert is made, seen through the table: its email is
   * a key afterwards, and an email already held is answered as a
   * duplicate with the table unchanged.
   */
  lemma SubmitOfAttempt(t: Table, body: RequestBody, env: Env, now: string, rec: InsertRecord)
    requires Decide(body, env, now) == Attempt(rec)
    ensures rec.email in Submit(t, body, env, now).1
    ensures rec.email in t ==> Submit(t, body, env, now) == (Response(200, Message(AlreadyOnWaitlist), Some(rec)), t)
  {
  }

  /**
   * Addresses that differ only in the case of ASCII letters share one
   * row: once one is stored, the other is answered as a duplicate and
   * the table does not change.
   */
  lemma CaseVariantsShareOneRow(
    t: Table, env: Env,
    body1: RequestBody, email1: string, droneType1: Option<Json>, now1: string,
    body2: RequestBody, email2: string, droneType2: Option<Json>, now2: string)
    requires BodyFields(body1) == Returns((Some(JString(email1)), droneType1))
    requires BodyFields(body2) == Returns((Some(JString(email2)), droneType2))
    requires MatchesEmailPattern(email1) && MatchesEmailPattern(email2)
    requires ToLowerAscii(email1) == ToLowerAscii(email2)
    requires Configured(env) && env.clientAccepts
    requires StoredDroneType(droneType1).Returns? && StoredDroneType(droneType2).Returns?
    ensures var (r1, t1) := Submit(t, body1, env, now1);
      var (r2, t2) := Submit(t1, body2, env, now2);
      && ToLowerAscii(email1) in t1
      && r2.status == 200 && r2.payload == Message(AlreadyOnWaitlist)
      && t2 == t1
  {
    AcceptedAddressIsAttempted(body1, email1, droneType1, env, now1);
    SubmitOfAttempt(t, body1, env, now1, Decide(body1, env, now1).rec);
    var t1 := Submit(t, body1, env, now1).1;
    AcceptedAddressIsAttempted(body2, email2, droneType2, env, now2);
    SubmitOfAttempt(t1, body2, env, now2, Decide(body2, env, now2).rec);
  }
}
