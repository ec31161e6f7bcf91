/**
 * The `POST` handler of the waitlist endpoint: a cascade of guards with
 * early returns, then the insert of one normalised record and a mapping of
 * the store's answer to the response. The store call is not modelled; its
 * outcome is a parameter, consulted only when the handler gets that far.
 */
module Waitlist {
  import opened Outcomes
  import opened Js
  import opened EmailFormat

  const EmailRequired: string := "Email is required"
  const InvalidEmailFormat: string := "Invalid email format"
  const ServerConfigurationError: string := "Server configuration error"
  const AlreadyOnWaitlist: string := "You are already on the waitlist!"
  const FailedToJoin: string := "Failed to join waitlist"
  const JoinedWaitlist: string := "Successfully joined waitlist"
  const InternalServerError: string := "Internal server error"

  /** The PostgreSQL error code for a unique-constraint violation. */
  const UniqueViolation: string := "23505"

  /** What `request.json()` delivers: a parsed value, or a rejection. */
  datatype RequestBody = Unparsable | Parsed(value: Json)

  /**
   * The two environment variables read when the module loads, and whether
   * the client library accepts them when the client is created (its URL
   * validation is not part of this model).
   */
  datatype Env = Env(supabaseUrl: Option<string>, supabaseAnonKey: Option<string>, clientAccepts: bool)

  /** What the insert into the `waitlist` table reports, when it is made. */
  datatype InsertOutcome =
    | Inserted                      // `error` is null
    | Rejected(code: Option<string>) // `error` is set, with this `code` if it has one
    | InsertThrew                   // the awaited call throws

  /** The row handed to the insert. */
  datatype InsertRecord = InsertRecord(email: string, droneType: Option<string>, createdAt: string)

  /** The JSON body of the response: `{ message }` or `{ error }`. */
  datatype Payload = Message(text: string) | Error(text: string)

  /** A response, and the record passed to the insert if the handler made one. */
  datatype Response = Response(status: int, payload: Payload, insertAttempt: Option<InsertRecord>)

  const InternalError: Response := Response(500, Error(InternalServerError), None)

  /** Destructuring the parsed body into its `email` and `droneType` fields. */
  function BodyFields(body: RequestBody): (r: Eval<(Option<Json>, Option<Json>)>)
    ensures r.Throws? <==> body.Unparsable? || body.value.JNull?
    ensures r.Returns? && body.value.JObject? ==>
      && (r.value.0.Some? <==> "email" in body.value.fields)
      && (r.value.1.Some? <==> "droneType" in body.value.fields)
    ensures r.Returns? ==>
      && r.value.0 == (if body.value.JObject? && "email" in body.value.fields then Some(body.value.fields["email"]) else None)
      && r.value.1 == (if body.value.JObject? && "droneType" in body.value.fields then Some(body.value.fields["droneType"]) else None)
  {
    match body
    case Unparsable => Throws
    case Parsed(v) =>
      match (Prop(v, "email"), Prop(v, "droneType"))
      case (Returns(email), Returns(droneType)) => Returns((email, droneType))
      case _ => Throws
  }

  /** The presence and type guard on `email`: it passes only a truthy string, whose text is returned. */
  function RequiredEmail(email: Option<Json>): (r: Option<string>)
    ensures r.Some? <==> email.Some? && email.value.JString? && email.value.s != ""
    ensures r.Some? ==> email == Some(JString(r.value))
  {
    if !Truthy(email) || !IsString(email) then None else Some(email.value.s)
  }

  /** An environment value that is present and not empty, so that it is truthy. */
  predicate NonEmpty(v: Option<string>) {
    v.Some? && v.value != ""
  }

  /** Both the URL and the key are present and non-empty, so the configuration guard lets the request through. */
  predicate Configured(env: Env) {
    NonEmpty(env.supabaseUrl) && NonEmpty(env.supabaseAnonKey)
  }

  /** The stored email: lower-cased, then trimmed. On an accepted address the trim changes nothing. */
  function StoredEmail(email: string): (r: string)
    ensures ValidEmail(email) ==> r == ToLowerAscii(email) && ValidEmail(r)
  {
    var lower := ToLowerAscii(email);
    LowerKeepsValidEmail(email);
    TrimWithoutWhitespace(lower);
    Trim(lower)
  }

  /**
   * The stored drone type: absent or null gives null; a string gives
   * its trimmed form unless that is empty, which gives null; any other
   * value has no `trim` method, so the call throws a TypeError.
   */
  function StoredDroneType(droneType: Option<Json>): (r: Eval<Option<string>>)
    ensures r.Throws? <==> droneType.Some? && !droneType.value.JNull? && !droneType.value.JString?
    ensures r.Returns? && r.value.Some? ==>
      && droneType.Some? && droneType.value.JString?
      && r.value.value == Trim(droneType.value.s)
    ensures r.Returns? && r.value.Some? ==> r.value.value != ""
    ensures r == Returns(None) <==>
      || droneType == None || droneType == Some(JNull)
      || (droneType.Some? && droneType.value.JString? && forall k :: 0 <= k < |droneType.value.s| ==> IsWhitespace(droneType.value.s[k]))
  {
    match droneType
    case None => Returns(None)
    case Some(JNull) => Returns(None)
    case Some(JString(d)) =>
      var t := Trim(d);
      Returns(if Truthy(Some(JString(t))) then Some(t) else None)
    case Some(_) => Throws
  }

  /** The row built for an accepted address. */
  function NewRecord(email: string, droneType: Option<string>, now: string): (rec: InsertRecord)
    requires ValidEmail(email)
    ensures rec.email == ToLowerAscii(email) && ValidEmail(rec.email)
    ensures rec.droneType == droneType && rec.createdAt == now
  {
    InsertRecord(StoredEmail(email), droneType, now)
  }

  /** Which way a request goes through the handler, before the store answers. */
  datatype Decision =
    | MissingEmail           // the presence and type check fails
    | MalformedEmail         // the format check fails
    | NotConfigured          // the URL or the key is missing
    | Crashed                // an exception before the insert is made
    | Attempt(rec: InsertRecord) // the insert is made with this record

  /**
   * The guards of the handler, in the order the code runs them, up to the
   * configuration check.
   */
  function Decide(body: RequestBody, env: Env, now: string): (d: Decision)
    ensures d.Attempt? ==>
      && ValidEmail(d.rec.email)
      && d.rec.droneType != Some("")
      && d.rec.createdAt == now
  {
    match BodyFields(body)
    case Throws => Crashed
    case Returns((emailField, droneField)) =>
      match RequiredEmail(emailField)
      case None => MissingEmail
      case Some(email) =>
        if !ValidEmail(email) then MalformedEmail
        else if !Configured(env) then NotConfigured
        else Proceed(email, droneField, env, now)
  }

  /**
   * What follows the guards: creating the client, then building the
   * record. The email is normalised before the drone type, and only the
   * drone type's `trim` call can throw.
   */
  function Proceed(email: string, droneField: Option<Json>, env: Env, now: string): (d: Decision)
    requires ValidEmail(email)
    ensures d.Attempt? || d == Crashed
    ensures d.Attempt? ==>
      && d.rec.email == ToLowerAscii(email)
      && ValidEmail(d.rec.email)
      && d.rec.droneType != Some("")
      && d.rec.createdAt == now
  {
    if !env.clientAccepts then Crashed
    else BuildRecord(email, StoredDroneType(droneField), now)
  }

  /** The record is built once the drone type's `trim` has run; a throw there crashes the handler. */
  function BuildRecord(email: string, droneType: Eval<Option<string>>, now: string): (d: Decision)
    requires ValidEmail(email)
    requires droneType.Returns? ==> droneType.value != Some("")
    ensures d.Attempt? <==> droneType.Returns?
    ensures d.Crashed? <==> droneType.Throws?
    ensures d.Attempt? ==>
      && d.rec.email == ToLowerAscii(email)
      && ValidEmail(d.rec.email)
      && d.rec.droneType == droneType.value
      && d.rec.createdAt == now
  {
    match droneType
    case Throws => Crashed
    case Returns(dt) => Attempt(NewRecord(email, dt, now))
  }

  /**
   * The responses of the handler. Each message names one cause; only
   * "Internal server error" has two, an exception before the insert or
   * the insert throwing.
   */
  function Respond(d: Decision, outcome: InsertOutcome): (r: Response)
    ensures r.status == 200 || r.status == 400 || r.status == 500
    ensures r.status == 200 <==> r.payload.Message?
    ensures r.insertAttempt == (if d.Attempt? then Some(d.rec) else None)
    ensures r.status == 400 <==> d == MissingEmail || d == MalformedEmail
    ensures r.payload == Error(EmailRequired) <==> d == MissingEmail
    ensures r.payload == Error(InvalidEmailFormat) <==> d == MalformedEmail
    ensures r.payload == Error(ServerConfigurationError) <==> d == NotConfigured
    ensures r.payload == Error(InternalServerError) <==> d == Crashed || (d.Attempt? && outcome == InsertThrew)
    ensures r.payload == Message(JoinedWaitlist) <==> d.Attempt? && outcome == Inserted
    ensures r.payload == Message(AlreadyOnWaitlist) <==> d.Attempt? && outcome == Rejected(Some(UniqueViolation))
    ensures r.payload == Error(FailedToJoin) <==>
      d.Attempt? && outcome.Rejected? && outcome.code != Some(UniqueViolation)
  {
    match d
    case MissingEmail => Response(400, Error(EmailRequired), None)
    case MalformedEmail => Response(400, Error(InvalidEmailFormat), None)
    case NotConfigured => Response(500, Error(ServerConfigurationError), None)
    case Crashed => InternalError
    case Attempt(rec) =>
      match outcome
      case Inserted => Response(200, Message(JoinedWaitlist), Some(rec))
      case Rejected(code) =>
        if code == Some(UniqueViolation) then Response(200, Message(AlreadyOnWaitlist), Some(rec))
        else Response(500, Error(FailedToJoin), Some(rec))
      case InsertThrew => Response(500, Error(InternalServerError), Some(rec))
  }

  /**
   * The handler. `now` stands for the ISO timestamp taken at insert time; `outcome` for
   * what the insert reports if it is made.
   */
  function Handle(body: RequestBody, env: Env, now: string, outcome: InsertOutcome): (r: Response)
    ensures r.status == 200 || r.status == 400 || r.status == 500
    ensures r.status == 200 <==> r.payload.Message?
    ensures r.insertAttempt.Some? ==>
      && r.status != 400
      && ValidEmail(r.insertAttempt.value.email)
      && r.insertAttempt.value.droneType != Some("")
      && r.insertAttempt.value.createdAt == now
  {
    Respond(Decide(body, env, now), outcome)
  }
}
