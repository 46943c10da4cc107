/**
 * The request handlers of the contact backend, with the framework, the file
 * system, the clock and the mail client turned into parameters:
 * `/api/messages` lists the store, `/api/smtp-test` checks the relay, and
 * `/api/contact` validates, stores, then optionally sends.
 */
module Server {
  import opened Wrappers
  import opened Validation
  import opened Store
  import opened Smtp

  /** A JSON reply body: `{ok, message, warning?}` or `{ok: true, count, messages}`. */
  datatype Body = Status(ok: bool, message: string, warning: Option<string>) | Listing(count: nat, messages: seq<StoredMessage>)

  datatype Reply = Reply(status: int, body: Body)

  const MissingFieldsText := "All fields are required."
  const InvalidEmailText := "Invalid email address."
  const StoredText := "Message received and stored successfully."
  const SentText := "Message sent successfully."
  const SkippedText := "Message received and stored successfully (email delivery skipped)."
  const StoreFailedText := "Server error while storing message."
  const CannotReadText := "Cannot read messages."
  const NotConfiguredText := "SMTP not configured. Form can still store messages locally."
  const RelayValidText := "SMTP connection/auth is valid."

  function RejectionText(e: ValidationError): string {
    match e
    case MissingFields => MissingFieldsText
    case InvalidEmail => InvalidEmailText
  }

  // ---------------------------------------------------------------- GET /api/messages

  /** `GET /api/messages`: the records read, with their count, or 500 when the file cannot be read. */
  function MessagesReply(f: FileState): (r: Reply)
    ensures r.status == 200 <==> ReadMessages(f).Success?
    ensures r.status == 200 ==> r.body == Listing(|ReadMessages(f).value|, ReadMessages(f).value)
    ensures r.status != 200 ==> r == Reply(500, Status(false, CannotReadText, None))
  {
    match ReadMessages(f)
    case Success(data) => Reply(200, Listing(|data|, data))
    case Failure(_) => Reply(500, Status(false, CannotReadText, None))
  }

  /** Listing before any submission gives no records, not an error; after N
      successful appends it gives those N records in insertion order. */
  lemma ListingAfterAppends(entries: seq<StoredMessage>)
    ensures MessagesReply(NoFile) == Reply(200, Listing(0, []))
    ensures MessagesReply(AppendAll(NoFile, entries)) == Reply(200, Listing(|entries|, entries))
  {
    FreshStoreHoldsAppends(entries);
  }

  // ---------------------------------------------------------------- GET /api/smtp-test

  /** How `transporter.verify()` went. */
  datatype VerifyOutcome = Verified | VerifyFailed(error: SmtpError)

  /** `GET /api/smtp-test`: 200 when delivery is not configured (verify is then
      not called) or verify succeeds, 401 with the mapped text when it fails. */
  function SmtpTestReply(t: Option<Transport>, verify: VerifyOutcome): (r: Reply)
    ensures r.body.Status? && r.body.warning.None?
    ensures r.status == 200 <==> t.None? || verify.Verified?
    ensures r.status == 200 || r.status == 401
    ensures r.body.ok <==> r.status == 200
    ensures t.None? ==> r.body.message == NotConfiguredText
    ensures t.Some? && verify.Verified? ==> r.body.message == RelayValidText
    ensures r.status == 401 ==> r.body.message == MapSmtpError(verify.error)
  {
    if t.None? then Reply(200, Status(true, NotConfiguredText, None))
    else match verify
      case Verified => Reply(200, Status(true, RelayValidText, None))
      case VerifyFailed(e) => Reply(401, Status(false, MapSmtpError(e), None))
  }

  // ---------------------------------------------------------------- POST /api/contact

  /** How `transporter.sendMail(...)` went. */
  datatype SendOutcome = Delivered | SendFailed(error: SmtpError)

  /** The effects a request performs, in the order performed. */
  datatype Effect = AppendAttempt(entry: StoredMessage) | SendAttempt(mail: Mail)

  /** The response table of `POST /api/contact`, given the validation result,
      whether the record was stored, whether delivery is configured, how the
      send went and `SMTP_REQUIRED`. */
  function ContactReply(v: Result<Payload, ValidationError>, stored: bool, configured: bool,
                        send: SendOutcome, required: bool): (r: Reply)
    ensures r.body.Status? && (r.body.ok <==> r.status == 200)
    ensures v.Failure? ==> r.status == 400 && r.body.message == RejectionText(v.error)
    ensures r.status == 500 <==> v.Success? && !stored
    ensures r.status == 500 ==> r.body.message == StoreFailedText
    ensures r.status == 200 <==> v.Success? && stored && (!configured || send.Delivered? || !required)
    ensures r.status == 401 <==> v.Success? && stored && configured && send.SendFailed? && required
    ensures r.status == 401 ==> r.body.message == MapSmtpError(send.error)
    ensures r.body.warning.Some? <==> r.status == 200 && configured && send.SendFailed?
    ensures r.body.warning.Some? ==> r.body.warning.value == MapSmtpError(send.error) && r.body.message == SkippedText
    ensures r.status == 200 && !configured ==> r.body.message == StoredText
    ensures r.status == 200 && configured && send.Delivered? ==> r.body.message == SentText
  {
    match v
    case Failure(e) => Reply(400, Status(false, RejectionText(e), None))
    case Success(_) =>
      if !stored then Reply(500, Status(false, StoreFailedText, None))
      else if !configured then Reply(200, Status(true, StoredText, None))
      else match send
        case Delivered => Reply(200, Status(true, SentText, None))
        case SendFailed(e) =>
          if required then Reply(401, Status(false, MapSmtpError(e), None))
          else Reply(200, Status(true, SkippedText, Some(MapSmtpError(e))))
  }

  /** Whatever the payload, a blank field is reported before a malformed email. */
  lemma MissingFieldsFirst(p: Payload, stored: bool, configured: bool, send: SendOutcome, required: bool)
    requires !AllPresent(p)
    ensures ContactReply(Validate(p), stored, configured, send, required) ==
      Reply(400, Status(false, MissingFieldsText, None))
  {
  }

  /** `POST /api/contact` over the store, under the settings loaded at start-up.
      `write` is how the file write goes, `send` how `sendMail` goes if it is
      called, `at` the clock readings. */
  method HandleContact(store: MessageStore, settings: Settings, body: RequestBody, at: Stamp,
                       write: WriteResult, send: SendOutcome)
    returns (reply: Reply, effects: seq<Effect>)
    modifies store
    ensures var v := Validate(NormalizeBody(body));
      var stored := v.Success? && old(store.Messages()).Success? && write.Written?;
      reply == ContactReply(v, stored, TransportFor(settings.smtp, settings.contactTo).Some?, send, settings.smtpRequired)
    // a rejected submission touches neither the store nor the relay
    ensures Validate(NormalizeBody(body)).Failure? ==> effects == [] && store.file == old(store.file)
    ensures Validate(NormalizeBody(body)).Success? ==>
      Accepted(old(store.file), store.file, settings, NormalizeBody(body), at, write, effects)
  {
    var payload := NormalizeBody(body);
    if !AllPresent(payload) {
      return Reply(400, Status(false, MissingFieldsText, None)), [];
    }
    if !IsValidEmail(payload.email) {
      return Reply(400, Status(false, InvalidEmailText, None)), [];
    }
    reply, effects := StoreAndNotify(store, settings, payload, at, write, send);
  }

  /** What an accepted submission leads to: the append comes first, as a
      "stored" record of the normalised fields; a mail is sent only after the
      append succeeded and only when delivery is configured, and by then the
      record is in the file for good. */
  ghost predicate Accepted(before: FileState, after: FileState, settings: Settings, p: Payload, at: Stamp,
                           write: WriteResult, effects: seq<Effect>)
  {
    var entry := NewRecord(p, at);
    var appended := ReadMessages(before).Success? && write.Written?;
    1 <= |effects| <= 2 && effects[0] == AppendAttempt(entry) &&
    (ReadMessages(before).Failure? ==> after == before) &&
    (ReadMessages(before).Success? ==> after == if write.Written? then Appended(before, entry) else write.left) &&
    (|effects| == 2 <==> appended && TransportFor(settings.smtp, settings.contactTo).Some?) &&
    (|effects| == 2 ==>
      effects[1] == SendAttempt(ComposeMail(settings, p)) &&
      ReadMessages(after) == Success(ReadMessages(before).value + [entry]))
  }

  /** The part of `POST /api/contact` after validation (the caller has
      validated `payload`): build the record, append it, then send the mail if
      a transport is configured. */
  method StoreAndNotify(store: MessageStore, settings: Settings, payload: Payload, at: Stamp,
                        write: WriteResult, send: SendOutcome)
    returns (reply: Reply, effects: seq<Effect>)
    modifies store
    ensures var stored := old(store.Messages()).Success? && write.Written?;
      reply == ContactReply(Success(payload), stored, TransportFor(settings.smtp, settings.contactTo).Some?, send, settings.smtpRequired)
    ensures Accepted(old(store.file), store.file, settings, payload, at, write, effects)
  {
    var saved := NewRecord(payload, at);
    effects := [AppendAttempt(saved)];
    var appended := store.Append(saved, write);
    if appended.Failure? {
      return Reply(500, Status(false, StoreFailedText, None)), effects;
    }
    var transporter := TransportFor(settings.smtp, settings.contactTo);
    if transporter.None? {
      return Reply(200, Status(true, StoredText, None)), effects;
    }
    effects := effects + [SendAttempt(ComposeMail(settings, payload))];
    match send
    case Delivered =>
      reply := Reply(200, Status(true, SentText, None));
    case SendFailed(e) =>
      var smtpMessage := MapSmtpError(e);
      if settings.smtpRequired {
        reply := Reply(401, Status(false, smtpMessage, None));
      } else {
        reply := Reply(200, Status(true, SkippedText, Some(smtpMessage)));
      }
  }
}
