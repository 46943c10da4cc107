# Contact-form backend, modelled in Dafny

This project models the contact-form backend of a personal portfolio site. A
visitor submits a name, an email address, a subject and a message. The
Express backend (`backend/server.js`) does the following:

- it trims the four fields and rejects blank ones or a malformed address;
- it appends the accepted submission to a JSON file of records;
- it optionally relays the submission by SMTP, and answers with a small set of
  JSON replies.

A serverless variant (`netlify/functions/contact.js`) posts three of the
fields to a hosted database table instead.

I/O is turned into parameters: the file system, the clock, the mail client
and the HTTP insert. What is left is a set of deterministic functions and one
stateful store:

- `wrappers.dfy`: `Option` and `Result`.
- `text.dfy`: the ECMAScript whitespace set, which `trim` and `\s` share
  (`IsSpace`). It also holds `trim`, whitespace stripping, `includes`,
  `endsWith`, ASCII lower-casing and the newline-to-`<br>` replacement. Each
  comes with a characterisation. For example, `Trim` is the unique unpadded
  core of its input, and the replacement is fixed character by character and
  distributes over concatenation.
- `validation.dfy`: `normalizeBody`, `isValidEmail` and the two checks of
  `POST /api/contact`. The scanning email check is proved equivalent to the
  regular expression `^[^\s@]+@[^\s@]+\.[^\s@]+$`, stated as a split into
  local part, `@`, host, `.` and last part.
- `store.dfy`: the records file as a `FileState` (no file, non-array
  content, an array of records, unreadable), `readMessages`, and a
  `MessageStore` class whose `Append` method reads, pushes and writes back.
- `smtp.dfy`: the following pieces of the SMTP side:
  - the settings read from the environment (`Settings`);
  - `normalizeSmtpConfig` with its Gmail-only password rule;
  - the "configured" test with its service-over-host choice;
  - the outgoing mail;
  - `mapSmtpError`.
- `server.dfy`: the three handlers. `GET /api/messages` and
  `GET /api/smtp-test` are functions. `POST /api/contact` is a method over
  the store. It returns the reply and the ordered list of effects it
  performed (append, then send), so the ordering guarantees can be stated.
  Its reply is tied to the decision table `ContactReply`.
- `netlify.dfy`: the serverless `handler` as a function of the HTTP method,
  the body, the parse outcome and the insert outcome. It returns the response
  and the row it sent to the table, if the insert call was made.

Behaviour the model follows as the code is written:

- `/api/smtp-test` answers 401 for any verify failure, not only for
  authentication failures.
- A required delivery that fails for a non-authentication reason also gives
  401.
- No lock serialises the read-modify-write of the records file.
- No HTML escaping is done.
- The Gmail password rule also triggers when `SMTP_SERVICE` is `gmail`.

## Model

| member | source | states |
|---|---|---|
| Text.Trim | backend/server.js:32-39 | the trimmed text has no whitespace at either end and is no longer than its input |
| Text.TrimUnique | backend/server.js:32-39 | trimming whitespace-padding around an unpadded middle gives exactly that middle |
| Text.TrimSplit | backend/server.js:32-39 | every string is whitespace, then its trim, then whitespace |
| Text.TrimIdempotent | backend/server.js:29 | trimming twice is trimming once (`isValidEmail` re-trims an already trimmed field) |
| Text.TrimEmptyIff | backend/server.js:135 | a field trims to "" exactly when it is whitespace only |
| Text.RemoveSpaces | backend/server.js:67 | stripping with `/\s+/gu` leaves no whitespace and never lengthens the text |
| Text.RemoveSpacesOfNoSpace | backend/server.js:67 | a text without whitespace is left unchanged by the stripping |
| Text.RemoveSpacesEmptyIff | backend/server.js:67 | stripping leaves "" exactly when the text is whitespace only |
| Text.RemoveSpacesAfterTrim | backend/server.js:64-67 | stripping the trimmed password equals stripping the raw one |
| Text.ContainsIff | backend/server.js:66 | `includes` holds exactly when the needle occurs at some index |
| Text.EndsWith | backend/server.js:66 | `endsWith` holds exactly when the suffix occurs at the end |
| Text.LowerEqualsIff | backend/server.js:66 | comparing the lower-cased service name with `gmail` ignores the case of each letter |
| Text.NewlinesToBreaks | backend/server.js:181 | the HTML message holds no newline |
| Text.NewlinesToBreaksChar | backend/server.js:181 | a newline becomes `<br>`; any other character is kept as it is |
| Text.NewlinesToBreaksConcat | backend/server.js:181 | the replacement distributes over concatenation, so with the per-character rule it is fixed on every input |
| Text.NewlinesToBreaksWithoutNewline | backend/server.js:181 | a message without a newline is passed through unchanged |
| Validation.NormalizeBody | backend/server.js:32-39 | each normalised field is the trim of the field's text (a missing field's text is ""), so it is unpadded and a missing field becomes "" |
| Validation.NormalizeBodyIdempotent | backend/server.js:32-39 | normalising an already normalised payload changes nothing |
| Validation.IndexOf | backend/server.js:29 | the index found is the first `@`, or the length when there is none |
| Validation.IsValidEmail | backend/server.js:28-30 | `isValidEmail` holds exactly when the trimmed text matches the pattern: a non-empty local part, `@`, a non-empty host, `.`, a non-empty last part, none holding whitespace or `@` |
| Validation.EmailShapeIff | backend/server.js:28-30 | the scanning check accepts exactly the strings the email regular expression matches |
| Validation.ValidEmailParts | backend/server.js:28-30 | an accepted address, trimmed, has no whitespace and exactly one `@`, not at the start |
| Validation.ValidEmailAccepted | backend/server.js:28-30 | `a@b.com` is accepted |
| Validation.ValidEmailRejectsNoDot | backend/server.js:28-30 | `a@b` is rejected |
| Validation.ValidEmailRejectsNoAt | backend/server.js:28-30 | `not-an-email` is rejected |
| Validation.Validate | backend/server.js:135-141 | success exactly when all four fields are non-empty and the email is valid; a blank field is reported as MissingFields whatever the email is; the payload passes through unchanged |
| Validation.MissingFieldsIff | backend/server.js:133-137 | a request is refused for missing fields exactly when some raw field is falsy or whitespace only |
| Validation.AcceptedSubmission | backend/server.js:133-141 | an accepted payload has four non-empty trimmed fields and an email matching the pattern as it stands |
| Store.NewRecord | backend/server.js:143-148 | the record carries the clock's id and timestamp, `delivery = "stored"` and the four normalised fields |
| Store.ReadMessages | backend/server.js:41-50 | reading fails only for an unreadable file, with ReadError; a missing file or non-array content reads as no records; an array reads as exactly its records |
| Store.Appended | backend/server.js:52-56 | after an append the file reads as the previous records followed by the new one (non-array content is replaced) |
| Store.AppendAllReads | backend/server.js:52-56 | after any run of appends the file reads as the earlier records, unchanged, followed by the new ones in order |
| Store.FreshStoreHoldsAppends | backend/server.js:41-56 | a fresh store reads as empty, and after N appends it reads as exactly those N records in insertion order |
| Store.MessageStore.Append | backend/server.js:52-56 | success exactly when the read and the write succeed, and the file is then the old records plus the entry; a read failure leaves the file alone; a write failure leaves what the failed write left |
| Smtp.EnvOr | backend/server.js:16 | a set, non-empty variable gives its value; an unset or empty one gives the fallback |
| Smtp.Flag | backend/server.js:17 | a boolean setting is true exactly when the variable is set to `true` in any ASCII case |
| Smtp.GmailLike | backend/server.js:66 | Gmail-like exactly when the host contains `gmail.com` at some index, the user ends with `@gmail.com`, or the service is `gmail` letter for letter in either case |
| Smtp.NormalizeSmtpConfig | backend/server.js:58-70 | service, host and user are the trims of `SMTP_SERVICE`, `SMTP_HOST` and `SMTP_USER`; the port is `SMTP_PORT` or "587"; `secure` follows `SMTP_SECURE`; all four text fields, the password included, come out unpadded |
| Smtp.PasswordNormalization | backend/server.js:64-67 | for a Gmail-like relay the password loses every whitespace character, otherwise it is only trimmed; both rules agree on a password without inner whitespace |
| Smtp.PassBlankIff | backend/server.js:64-67 | the password is blank exactly when `SMTP_PASS` is whitespace only, under either rule |
| Smtp.LoadSettings | backend/server.js:15-17 | the recipient is the trim of `CONTACT_TO`, the sender the trim of `CONTACT_FROM` or else `SMTP_USER`; `SMTP_REQUIRED` is read as a flag; the SMTP part is `normalizeSmtpConfig` of the same environment |
| Smtp.Configured | backend/server.js:75 | delivery is unconfigured exactly when service and host are both blank, or the user, the password or the recipient is blank |
| Smtp.TransportFor | backend/server.js:72-92 | a transport exists exactly when configured; a non-blank service is the relay, otherwise the host is; the credentials, port and `secure` are passed through |
| Smtp.ConfiguredFromEnv | backend/server.js:58-89 | delivery is unconfigured exactly when service and host are both blank, or user, password or `CONTACT_TO` is blank |
| Smtp.MapSmtpError | backend/server.js:94-99 | the authentication text exactly when the code is EAUTH or the reply code is 535, the generic text otherwise |
| Smtp.MailText | backend/server.js:168-174 | the plain-text body opens with the `Name:` line and ends with the message |
| Smtp.ComposeMail | backend/server.js:163-183 | the mail is from `CONTACT_FROM`, or `SMTP_USER` when that is blank; it goes to `CONTACT_TO` and replies to the submitter; its subject is `[Portfolio] ` plus the subject; its text is the joined lines, ending with the message; its HTML message is the message with each newline replaced by `<br>` |
| Smtp.ConfiguredMailHasSender | backend/server.js:164 | whenever a transport exists the mail has a non-empty sender |
| Server.MessagesReply | backend/server.js:105-112 | 200 with the records and their count exactly when the file can be read, otherwise 500 "Cannot read messages." |
| Server.ListingAfterAppends | backend/server.js:105-112 | the listing of a fresh store is empty with status 200; after N appends it lists exactly those N records in order |
| Server.SmtpTestReply | backend/server.js:114-130 | 200 exactly when delivery is unconfigured or verify succeeds, with the "not configured" or the "valid" text respectively; otherwise 401 with the mapped error text; `ok` exactly on 200 |
| Server.ContactReply | backend/server.js:132-203 | the response table: 400 with the validation text; 500 exactly when the store failed; 401 exactly when a configured, required send failed; otherwise 200, with a warning exactly when a non-required send failed; `ok` exactly when the status is 200 |
| Server.MissingFieldsFirst | backend/server.js:135-141 | a blank field gives 400 "All fields are required." whatever the other inputs are |
| Server.HandleContact | backend/server.js:132-204 | the reply follows the response table; a rejected submission performs no effect and leaves the store unchanged; an accepted one is appended first |
| Server.StoreAndNotify | backend/server.js:143-203 | the append comes first; a mail is sent only after a successful append and only when configured, and the record is then in the file for good |
| Netlify.Truthy | netlify/functions/contact.js:9 | JavaScript truthiness: undefined and null are falsy, a string exactly when non-empty, a number exactly when non-zero, a boolean is itself, arrays and objects are truthy |
| Netlify.BodyText | netlify/functions/contact.js:7 | the text parsed is never empty: a missing or empty body is read as `{}`, any other body as itself |
| Netlify.Handle | netlify/functions/contact.js:1-33 | any method but POST gives 405 with no insert; a parse failure gives 500 "Server error: " plus its message; a falsy name, email or message gives 400 "Missing fields"; an insert is made exactly when the parse succeeded and all three are truthy, and it sends them unchanged; 200 `{"ok":true}` exactly when that insert succeeded; a rejected insert gives 500 with "DB insert failed: " and the response text; a thrown insert gives 500 "Server error: " plus its message |
| Netlify.EmptyBodyIsMissingFields | netlify/functions/contact.js:7-11 | a POST without a body is parsed as `{}` and refused with 400 "Missing fields" |
| Netlify.InsertsUntrimmed | netlify/functions/contact.js:7-22 | non-empty strings are sent to the table unchanged, even a whitespace-only name that the backend refuses as missing |

## Left out

- The Express, helmet and CORS setup, `app.listen`, the 100 kB body limit and
  `GET /api/health`, which always answers 200 `{ok: true}`: these are
  framework plumbing.
- `String(...)` applied to a non-string truthy field. The model takes the
  resulting text as the field's value.
- Settings: `CONTACT_TO`, `CONTACT_FROM` and `SMTP_REQUIRED` are read once at
  start-up, while `normalizeSmtpConfig` re-reads the environment on every
  request. The model reads both from one environment, which is the same as
  long as the environment does not change while the server runs.
- `Number(SMTP_PORT)`: the port is kept as the variable's text, default
  "587".
- Text.LowerEqualsIff and Smtp.Flag: these cover ASCII case only. They do not
  model full Unicode `toLowerCase`, whose special mappings never produce the
  compared words `gmail` and `true`.
- Store.ReadMessages: JSON parsing and serialisation are abstracted to
  `FileState`. Array elements are taken to be records, and an unparsable
  file counts as unreadable.
- Concurrent requests. Two overlapping read-modify-write appends can lose a
  record, because the code has no lock. The model treats each request as
  running alone.
- The clock. `Date.now()` and `toISOString()` are parameters, and uniqueness
  of ids is not claimed, since two requests in the same millisecond get the
  same id.
- `nodemailer`. `createTransport`, `verify` and `sendMail` are foreign
  calls, and their results are parameters. An exception thrown by
  `createTransport` itself is not modelled.
- Smtp.ComposeMail: of the HTML body only the message paragraph is modelled.
  The surrounding markup is not, and no HTML escaping is done, as in the
  code.
- Logging with `console.error`.
- Netlify.Handle: `JSON.parse`, destructuring and the `fetch` to the hosted
  table are abstracted to their outcomes. The request headers and the
  environment variables of the insert are not modelled, and neither is a
  failure of `res.text()`.
