/**
 * The serverless variant of the contact endpoint: one handler that checks the
 * HTTP method, parses the body, checks that three fields are truthy and
 * inserts them into a hosted table. JSON parsing and the HTTP insert are
 * given to the handler as their outcomes.
 */
module Netlify {
  import opened Wrappers
  import opened Text
  import Validation

  /** A JSON value, as far as the handler can tell values apart. */
  datatype Json = Undefined | Null | Bool(b: bool) | Num(n: real) | Str(s: string)
                | Arr(items: seq<Json>) | Obj(members: seq<(string, Json)>)

  /** JavaScript truthiness; `NaN` cannot come out of JSON. */
  function Truthy(v: Json): (b: bool)
    ensures v.Undefined? || v.Null? ==> !b
    ensures v.Str? ==> (b <==> v.s != "")
    ensures v.Num? ==> (b <==> v.n != 0.0)
    ensures v.Bool? ==> b == v.b
    ensures v.Arr? || v.Obj? ==> b
  {
    match v
    case Undefined => false
    case Null => false
    case Bool(b) => b
    case Num(n) => n != 0.0
    case Str(s) => s != ""
    case _ => true
  }

  /** `JSON.parse(text)` followed by `const { name, email, message } = ...`:
      the three properties (absent ones are `Undefined`), or the message of
      what was thrown (a syntax error, or destructuring `null`). */
  datatype Unpacked = Fields(name: Json, email: Json, message: Json) | Threw(error: string)

  datatype Event = Event(httpMethod: string, body: Option<string>)

  /** What the insert `fetch` came back with: a 2xx response, another status
      with its body text, or a thrown network error. */
  datatype InsertOutcome = InsertOk | InsertRejected(text: string) | InsertThrew(error: string)

  /** The row sent to the hosted table: `JSON.stringify({ name, email, message })`. */
  datatype Row = Row(name: Json, email: Json, message: Json)

  datatype Response = Response(statusCode: int, body: string)

  /** The response, and the row sent to the table if the insert call was made
      (whether or not the table accepted it). */
  datatype Outcome = Outcome(response: Response, sent: Option<Row>)

  const MethodNotAllowed := "Method Not Allowed"
  const MissingFields := "Missing fields"
  const InsertFailedPrefix := "DB insert failed: "
  const ServerErrorPrefix := "Server error: "
  const OkBody := "{\"ok\":true}"

  /** `event.body || "{}"`: a missing or empty body is read as an empty object. */
  function BodyText(body: Option<string>): (t: string)
    ensures t != ""
    ensures body.None? || body == Some("") ==> t == "{}"
    ensures body.Some? && body.value != "" ==> t == body.value
  {
    match body
    case Some(text) => if text == "" then "{}" else text
    case None => "{}"
  }

  /** `exports.handler`. `unpack` stands for parsing and destructuring a body
      text, `insert` for the outcome of the insert call. */
  function Handle(event: Event, unpack: string -> Unpacked, insert: InsertOutcome): (r: Outcome)
    ensures event.httpMethod != "POST" ==> r == Outcome(Response(405, MethodNotAllowed), None)
    ensures r.sent.Some? <==>
      event.httpMethod == "POST" && unpack(BodyText(event.body)).Fields? &&
      var f := unpack(BodyText(event.body));
      Truthy(f.name) && Truthy(f.email) && Truthy(f.message)
    ensures r.sent.Some? ==>
      var f := unpack(BodyText(event.body));
      r.sent.value == Row(f.name, f.email, f.message)
    ensures r.response.statusCode == 200 <==> r.sent.Some? && insert.InsertOk?
    ensures r.response.statusCode == 200 ==> r.response.body == OkBody
    ensures r.response.statusCode == 400 ==> r.response.body == MissingFields && r.sent.None?
    ensures event.httpMethod == "POST" && unpack(BodyText(event.body)).Threw? ==>
      r == Outcome(Response(500, ServerErrorPrefix + unpack(BodyText(event.body)).error), None)
    ensures event.httpMethod == "POST" && unpack(BodyText(event.body)).Fields? ==>
      var f := unpack(BodyText(event.body));
      !(Truthy(f.name) && Truthy(f.email) && Truthy(f.message)) ==>
      r == Outcome(Response(400, MissingFields), None)
    ensures r.sent.Some? && insert.InsertRejected? ==> r.response == Response(500, InsertFailedPrefix + insert.text)
    ensures r.sent.Some? && insert.InsertThrew? ==> r.response == Response(500, ServerErrorPrefix + insert.error)
    ensures r.response.statusCode in {200, 400, 405, 500}
  {
    if event.httpMethod != "POST" then Outcome(Response(405, MethodNotAllowed), None)
    else
      match unpack(BodyText(event.body))
      case Threw(e) => Outcome(Response(500, ServerErrorPrefix + e), None)
      case Fields(name, email, message) =>
        if !Truthy(name) || !Truthy(email) || !Truthy(message) then
          Outcome(Response(400, MissingFields), None)
        else
          var row := Row(name, email, message);
          match insert
          case InsertOk => Outcome(Response(200, OkBody), Some(row))
          case InsertRejected(text) => Outcome(Response(500, InsertFailedPrefix + text), Some(row))
          case InsertThrew(e) => Outcome(Response(500, ServerErrorPrefix + e), Some(row))
  }

  /** An event without a body is parsed as `{}`, so it is refused as missing fields. */
  lemma EmptyBodyIsMissingFields(unpack: string -> Unpacked, insert: InsertOutcome, body: Option<string>)
    requires unpack("{}") == Fields(Undefined, Undefined, Undefined)
    requires body == None || body == Some("")
    ensures Handle(Event("POST", body), unpack, insert) == Outcome(Response(400, MissingFields), None)
  {
  }

  /** Unlike the backend, this handler neither trims nor checks the email
      shape, and does not ask for a subject: any non-empty strings are
      sent as they are, even a whitespace-only name, which the backend
      refuses as a missing field. */
  lemma InsertsUntrimmed(unpack: string -> Unpacked, text: string, insert: InsertOutcome,
                         name: string, email: string, subject: string, message: string)
    requires unpack(text) == Fields(Str(name), Str(email), Str(message))
    requires text != "" && name != "" && email != "" && message != ""
    ensures Handle(Event("POST", Some(text)), unpack, insert).sent == Some(Row(Str(name), Str(email), Str(message)))
    ensures AllSpace(name) ==>
      Validation.Validate(Validation.NormalizeBody(Validation.RequestBody(
        Validation.Given(name), Validation.Given(email), Validation.Given(subject), Validation.Given(message)))) ==
      Failure(Validation.MissingFields)
  {
    if AllSpace(name) {
      TrimOfAllSpace(name);
    }
  }
}
