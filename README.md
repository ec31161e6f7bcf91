# Waitlist signup endpoint: a Dafny model

This project models the one piece of logic in a product landing page: the
`POST` handler of its waitlist endpoint (`src/app/api/waitlist/route.ts`).
The handler reads a JSON body with `email` and an optional `droneType`. It
checks that the email is a non-empty string and that it matches
`^[^\s@]+@[^\s@]+\.[^\s@]+$`. It checks that the database URL and key are
configured. It then inserts one record (lower-cased email, trimmed drone
type or null, timestamp) into the `waitlist` table. Finally it maps the
database's answer to a response: code `23505` means "already on the
waitlist" (200), any other error means "Failed to join waitlist" (500), no
error means "Successfully joined waitlist" (200). A catch-all turns any
exception into "Internal server error" (500).

The handler is pure apart from its one insert, so the model uses datatypes,
functions and lemmas:

- `outcomes.dfy`, module `Outcomes`: `Option`, and `Eval` (a value or a
  thrown exception).
- `js.dfy`, module `Js`: the JavaScript the handler relies on. It covers
  JSON values, truthiness, property reads (which throw on `null`), the
  ECMAScript whitespace set that both `\s` and `trim` use, `trim`, and
  lower-casing of ASCII letters.
- `email_format.dfy`, module `EmailFormat`: the regular expression in two
  forms. `MatchesEmailPattern` says some split of the string fits the
  pattern. `ValidEmail` is a direct test: no whitespace, exactly one `@`, a
  non-empty part before it, and a `.` inside the part after it.
  `ValidEmailIffPattern` proves the two agree on every string.
- `waitlist.dfy`, module `Waitlist`: the handler. `Decide` runs the guards
  in the code's order and builds the record. `Proceed` is the part after
  the configuration check. `Respond` turns the decision and the insert's
  outcome into a response. `Handle` is `POST`. The database call is a
  parameter, `InsertOutcome`, that is read only when the insert is made.
  The timestamp is the parameter `now`.
- `waitlist_properties.dfy`, module `WaitlistProperties`: the handler's
  promises over all inputs, plus worked examples.
- `waitlist_table.dfy`, module `WaitlistTable`: a reference `waitlist`
  table with a unique `email` column. It is used to state what submitting
  the same address twice does.

Behaviour worth noting:

- An address with surrounding spaces, such as `"PILOT@Example.com "`, is
  rejected with 400 "Invalid email format". It is not stored trimmed,
  because the pattern is tested before `trim` runs, and `\s` is excluded
  everywhere in the pattern (`PaddedAddressIsRejected`). On every accepted
  address `trim` changes nothing (`StoredEmail`).
- When the database is not configured, a malformed address still gets 400,
  not 500: validation runs first (`ValidationPrecedesConfiguration`,
  `AddressWithoutAtIsRejected`).
- The empty string is rejected as "Email is required", not as malformed,
  because `!email` is true for `""`.
- A `droneType` that is neither absent, `null` nor a string (for example a
  number) has no `trim` method. The call throws, and the response is 500
  "Internal server error" with no insert.
- A JSON body of `null` makes the destructuring throw, which gives 500. Any
  other non-object body (a number, an array) has no `email`, which gives
  400 "Email is required" (`NonObjectBodyNeedsEmail`).

## Model

| member | source | states |
|---|---|---|
| `Js.Truthy` | src/app/api/waitlist/route.ts:11 | definition, no contract: JavaScript truthiness as the `!email` and `|| null` tests use it; `undefined`, `null`, `false`, `0` and `""` are falsy |
| `Js.IsString` | src/app/api/waitlist/route.ts:11 | definition, no contract: the `typeof email` test for `'string'` |
| `Js.IsWhitespace` | src/app/api/waitlist/route.ts:19 | definition, no contract: the ECMAScript WhiteSpace and LineTerminator characters, which `\s` matches and `trim` removes |
| `Js.Prop` | src/app/api/waitlist/route.ts:9 | reading `email` or `droneType` throws exactly on `null`; it yields a value only for an object that has the key, and then that key's value |
| `Js.TrimStart` | src/app/api/waitlist/route.ts:43 | the result is a suffix of the input, everything removed is whitespace, and the result does not start with whitespace |
| `Js.TrimEnd` | src/app/api/waitlist/route.ts:43 | the result is a prefix of the input, everything removed is whitespace, and the result does not end with whitespace |
| `Js.Trim` | src/app/api/waitlist/route.ts:44 | the result is the input with a whitespace prefix and a whitespace suffix cut away, and it neither starts nor ends with whitespace; it is empty exactly when the input is all whitespace |
| `Js.TrimWithoutWhitespace` | src/app/api/waitlist/route.ts:43 | `trim` leaves a string without whitespace unchanged |
| `Js.TrimIdempotent` | src/app/api/waitlist/route.ts:44 | trimming a trimmed string changes nothing |
| `Js.LowerChar` | src/app/api/waitlist/route.ts:43 | definition: ASCII case mapping, an ASCII capital maps to its small letter and every other character is unchanged; the properties used are stated by `ToLowerAscii` and `LowerKeepsValidEmail` |
| `Js.ToLowerAscii` | src/app/api/waitlist/route.ts:43 | the result has the input's length, is lower-cased character by character, and contains no ASCII capital |
| `Js.LowerKeepsStructure` | src/app/api/waitlist/route.ts:43 | lower-casing keeps whitespace, `@` and `.` exactly where they were, and lower-casing twice equals lower-casing once |
| `EmailFormat.MatchesEmailPattern` | src/app/api/waitlist/route.ts:19-20 | definition, no contract: the anchored pattern matches exactly when the string splits into a run without whitespace or `@`, an `@`, such a run, a `.`, and such a run |
| `EmailFormat.ValidEmail` | src/app/api/waitlist/route.ts:19-20 | definition, no contract: the structural rule the model tests in place of the pattern; `ValidEmailIffPattern` proves the two agree |
| `EmailFormat.ValidEmailIffPattern` | src/app/api/waitlist/route.ts:19-20 | the structural rule (no whitespace, one `@`, non-empty local part, interior `.` in the domain) accepts exactly the strings the anchored pattern matches |
| `EmailFormat.LowerKeepsValidEmail` | src/app/api/waitlist/route.ts:43 | the lower-cased form of an accepted address is itself accepted |
| `Waitlist.BodyFields` | src/app/api/waitlist/route.ts:9 | destructuring the body throws exactly for an unparsable or `null` body; otherwise each field holds the object's value under that key, and is `undefined` when the key is absent or the body is not an object |
| `Waitlist.RequiredEmail` | src/app/api/waitlist/route.ts:11 | the presence and type guard passes exactly for a non-empty string, and yields that string |
| `Waitlist.StoredEmail` | src/app/api/waitlist/route.ts:43 | for an accepted address, lower-case-then-trim equals plain lower-casing, and the stored email is itself accepted |
| `Waitlist.StoredDroneType` | src/app/api/waitlist/route.ts:44 | absent or `null` gives null; a string gives its trimmed form, or null when it is all whitespace; the stored value is never `""`; any other value throws |
| `Waitlist.NewRecord` | src/app/api/waitlist/route.ts:42-46 | the record holds the lower-cased email (itself accepted), the given drone type and the timestamp |
| `Waitlist.Configured` | src/app/api/waitlist/route.ts:28 | definition, no contract: the configuration guard passes exactly when both the URL and the key are present and non-empty |
| `Waitlist.Decide` | src/app/api/waitlist/route.ts:9-34 | a decision to insert carries an accepted email, a drone type other than `""`, and the request's timestamp |
| `Waitlist.Proceed` | src/app/api/waitlist/route.ts:36-47 | after the guards, the result is an insert of the lower-cased, accepted email with a non-empty or null drone type, or else an exception |
| `Waitlist.BuildRecord` | src/app/api/waitlist/route.ts:42-46 | the insert is made exactly when the drone type's `trim` did not throw, and then carries the lower-cased, accepted email, that drone type and the timestamp; otherwise the handler crashes |
| `Waitlist.Respond` | src/app/api/waitlist/route.ts:12-74 | the status is 200, 400 or 500; 200 goes with `message`; the record is reported exactly when the insert is made; each message names its one cause, and "Internal server error" has two (an exception before the insert, or the insert throwing) |
| `Waitlist.Handle` | src/app/api/waitlist/route.ts:7-75 | every response has status 200, 400 or 500; 200 carries a `message` and 400/500 an `error`; an insert is never made on a 400, and its record has an accepted email, no `""` drone type and the request's timestamp |
| `WaitlistProperties.RequiredEmailCheck` | src/app/api/waitlist/route.ts:11-16 | "Email is required" is returned exactly when `email` is not a non-empty string, always as 400 with no insert |
| `WaitlistProperties.FormatCheck` | src/app/api/waitlist/route.ts:18-25 | for a non-empty string email, "Invalid email format" is returned exactly when the pattern does not match, always as 400 with no insert |
| `WaitlistProperties.ConfigurationCheck` | src/app/api/waitlist/route.ts:27-34 | "Server configuration error" is returned exactly when the email matches and the URL or key is missing or empty, always as 500 with no insert |
| `WaitlistProperties.ValidationPrecedesConfiguration` | src/app/api/waitlist/route.ts:11-34 | a 400 response does not depend on the configuration |
| `WaitlistProperties.InsertAttemptCases` | src/app/api/waitlist/route.ts:36-47 | the insert is made exactly when the email matches, the configuration is present and accepted, and the drone type is absent, null or a string; the record is the lower-cased email, the normalised drone type and the timestamp |
| `WaitlistProperties.InsertOutcomeMapping` | src/app/api/waitlist/route.ts:49-67 | once the insert is made: no error gives 200 "Successfully joined waitlist"; code `23505` gives 200 "You are already on the waitlist!"; any other error gives 500 "Failed to join waitlist"; a throw gives 500 "Internal server error" |
| `WaitlistProperties.OutcomeMattersOnlyAfterInsert` | src/app/api/waitlist/route.ts:39-67 | the record does not depend on the database's answer, and when no insert is made the answer has no effect on the response |
| `WaitlistProperties.InternalErrorCases` | src/app/api/waitlist/route.ts:68-74 | "Internal server error" (500) is returned exactly for an unparsable or null body, or, past the guards, for a refused client, a drone type without `trim`, or a throwing insert |
| `WaitlistProperties.AcceptedAddressIsStored` | src/app/api/waitlist/route.ts:39-67 | a body holding only a matching email, on a configured server whose insert succeeds, gives 200 "Successfully joined waitlist" and stores the lower-cased email with a null drone type |
| `WaitlistProperties.MixedCaseIsStoredLowerCased` | src/app/api/waitlist/route.ts:43 | `"PILOT@Example.com"` is stored as `"pilot@example.com"` with a null drone type |
| `WaitlistProperties.NonObjectBodyNeedsEmail` | src/app/api/waitlist/route.ts:9-16 | a parsed body that is neither an object nor `null` gets 400 "Email is required" with no insert, whatever the configuration and the store's answer |
| `WaitlistProperties.PaddedAddressIsRejected` | src/app/api/waitlist/route.ts:19-25 | `"PILOT@Example.com "` is rejected as 400 "Invalid email format" with no insert, whatever the configuration |
| `WaitlistProperties.AddressWithoutAtIsRejected` | src/app/api/waitlist/route.ts:19-34 | `"not-an-email"` is rejected as 400 "Invalid email format" with no insert, even on a server that is not configured |
| `WaitlistTable.TableAnswer` | src/app/api/waitlist/route.ts:51 | definition: the reference table's unique `email` key answers success for an email it does not hold and the unique-violation code otherwise; what this means for requests is stated by `Submit` and `SubmitTwice` |
| `WaitlistTable.AfterInsert` | src/app/api/waitlist/route.ts:39-47 | an insert adds only the record's email as a key, changes no existing row, and keeps every row stored under its own email |
| `WaitlistTable.Submit` | src/app/api/waitlist/route.ts:39-74 | one request keeps rows stored under their own email and never changes or removes a row; the table changes exactly when the response is 200 "Successfully joined waitlist", and then by exactly the inserted record under its email; a 400, any 500 and "You are already on the waitlist!" leave it unchanged |
| `WaitlistTable.SubmitTwice` | src/app/api/waitlist/route.ts:49-67 | the first submission of a new address gives 200 "Successfully joined waitlist" and adds exactly its row; a second gives 200 "You are already on the waitlist!" and leaves the table unchanged |
| `WaitlistTable.AcceptedAddressIsAttempted` | src/app/api/waitlist/route.ts:19-46 | a matching email, a configured server that accepts the client and a drone type with a working `trim` lead to an insert of the lower-cased email |
| `WaitlistTable.SubmitOfAttempt` | src/app/api/waitlist/route.ts:39-56 | when the insert is made, its email is a key of the table afterwards, and an email the table already holds gives 200 "You are already on the waitlist!" with the table unchanged |
| `WaitlistTable.CaseVariantsShareOneRow` | src/app/api/waitlist/route.ts:43-56 | two addresses equal after lower-casing share one row: after the first is stored, the second is told it is already on the waitlist and the table is unchanged |

## Left out

- `Js.ToLowerAscii`: lower-cases ASCII letters only. JavaScript's `toLowerCase` follows Unicode case mapping, which can also change other letters and even the length of the string.
- `Js.LowerChar`: ASCII only, for the same reason.
- Strings are sequences of Unicode scalar values. JavaScript strings are UTF-16 code units; lone surrogates cannot be represented. Every whitespace character is in the Basic Multilingual Plane, so the pattern and `trim` are unaffected.
- The whitespace set is the ECMAScript WhiteSpace and LineTerminator set for current Unicode (the space separators, TAB, VT, FF, ZWNBSP, LF, CR, LS, PS). Later changes to the Unicode space-separator category are not modelled.
- The hosted database client and the network insert are not modelled. `createClient` becomes the flag `Env.clientAccepts` (the library's URL validation is not part of this model). The insert becomes the parameter `InsertOutcome`.
- `request.json()` becomes `RequestBody`: a parsed JSON value, or `Unparsable`. JSON number precision and duplicate keys are not modelled.
- The two `process.env` reads become two optional strings in `Env`.
- `console.error` logging is output only and is left out.
- `new Date().toISOString()` becomes the opaque string parameter `now`.
- `NextResponse.json` is reduced to a status and a `message` or `error` payload. Headers and serialisation are left out.
- `WaitlistTable` is a reference for the database's unique constraint only. Other database failures and concurrent inserts are not modelled. The real table's behaviour is outside the repository.
- `src/app/page.tsx` (the signup form, its submission state, analytics calls and the screenshot lightbox), `src/app/layout.tsx` and `src/app/opengraph-image.tsx` are presentation and are not part of this model. The form treats any 2xx response, including the duplicate-email 200, as success.
