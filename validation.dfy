/**
 * Submission validation of the contact backend: `normalizeBody`, which trims
 * the four fields of the request body, `isValidEmail`, the loose
 * `local@host.tld` shape check, and the two checks `/api/contact` runs on the
 * normalised payload before anything is stored.
 */
module Validation {
  import opened Wrappers
  import opened Text

  /** One field of the JSON request body: a falsy value (absent, null, "", 0,
      false), or the text `String(...)` gives a truthy one. */
  datatype Field = Missing | Given(text: string)

  datatype RequestBody = RequestBody(name: Field, email: Field, subject: Field, message: Field)

  /** The normalised submission. */
  datatype Payload = Payload(name: string, email: string, subject: string, message: string)

  datatype ValidationError = MissingFields | InvalidEmail

  /** `String(value || '')`. */
  function FieldText(f: Field): string {
    match f
    case Missing => ""
    case Given(t) => t
  }

  predicate Trimmed(p: Payload) {
    Unpadded(p.name) && Unpadded(p.email) && Unpadded(p.subject) && Unpadded(p.message)
  }

  /** `normalizeBody`: every field trimmed, a missing field read as "". */
  function NormalizeBody(body: RequestBody): (p: Payload)
    ensures Trimmed(p)
    ensures p.name == Trim(FieldText(body.name)) && p.email == Trim(FieldText(body.email))
    ensures p.subject == Trim(FieldText(body.subject)) && p.message == Trim(FieldText(body.message))
    ensures body.name.Missing? ==> p.name == ""
    ensures body.email.Missing? ==> p.email == ""
    ensures body.subject.Missing? ==> p.subject == ""
    ensures body.message.Missing? ==> p.message == ""
  {
    Payload(Trim(FieldText(body.name)), Trim(FieldText(body.email)),
            Trim(FieldText(body.subject)), Trim(FieldText(body.message)))
  }

  /** Sending an already normalised payload back through `normalizeBody` changes nothing. */
  lemma NormalizeBodyIdempotent(body: RequestBody)
    ensures var p := NormalizeBody(body);
      NormalizeBody(RequestBody(Given(p.name), Given(p.email), Given(p.subject), Given(p.message))) == p
  {
    var p := NormalizeBody(body);
    TrimOfUnpadded(p.name);
    TrimOfUnpadded(p.email);
    TrimOfUnpadded(p.subject);
    TrimOfUnpadded(p.message);
  }

  // ---------------------------------------------------------------- email shape

  /** A character the class `[^\s@]` admits. */
  predicate PlainChar(c: char) {
    !IsSpace(c) && c != '@'
  }

  predicate Plain(s: string) {
    forall i :: 0 <= i < |s| ==> PlainChar(s[i])
  }

  /** What `/^[^\s@]+@[^\s@]+\.[^\s@]+$/` matches: a split of `s` into a
      non-empty local part, `@`, a non-empty host part, `.` and a non-empty
      last part, none of which holds whitespace or `@` (the host and the last
      part may hold further dots). */
  ghost predicate MatchesEmailPattern(s: string) {
    exists a, d :: 0 < a && a + 1 < d && d + 1 < |s| && s[a] == '@' && s[d] == '.' &&
      Plain(s[..a]) && Plain(s[a + 1..d]) && Plain(s[d + 1..])
  }

  /** Index of the first `c` in `s`, or `|s|` when there is none. */
  function IndexOf(s: string, c: char): (k: nat)
    ensures k <= |s| && (k < |s| ==> s[k] == c)
    ensures forall j :: 0 <= j < k ==> s[j] != c
  {
    if s == [] then 0
    else if s[0] == c then 0
    else 1 + IndexOf(s[1..], c)
  }

  /** The domain holds a dot that is neither its first nor its last character. */
  predicate HasInnerDot(domain: string) {
    |domain| >= 3 && '.' in domain[1..|domain| - 1]
  }

  /** The shape check, decided by scanning: the first `@` is not at the start,
      nothing on either side of it is whitespace or `@`, and the domain has an
      inner dot. */
  function EmailShape(s: string): bool {
    var a := IndexOf(s, '@');
    0 < a < |s| && Plain(s[..a]) && Plain(s[a + 1..]) && HasInnerDot(s[a + 1..])
  }

  lemma EmailShapeSound(s: string)
    requires EmailShape(s)
    ensures MatchesEmailPattern(s)
  {
    var a := IndexOf(s, '@');
    var dom := s[a + 1..];
    var k :| 0 <= k < |dom[1..|dom| - 1]| && dom[1..|dom| - 1][k] == '.';
    var d := a + 2 + k;
    assert s[d] == '.';
    assert s[a + 1..d] == dom[..k + 1];
    assert s[d + 1..] == dom[k + 2..];
    assert Plain(s[a + 1..d]);
    assert Plain(s[d + 1..]);
  }

  lemma EmailShapeComplete(s: string, a: int, d: int)
    requires 0 < a && a + 1 < d && d + 1 < |s| && s[a] == '@' && s[d] == '.'
    requires Plain(s[..a]) && Plain(s[a + 1..d]) && Plain(s[d + 1..])
    ensures EmailShape(s)
  {
    var i := IndexOf(s, '@');
    assert forall j :: 0 <= j < a ==> s[j] == s[..a][j];
    assert i == a;
    var dom := s[a + 1..];
    forall j | 0 <= j < |dom| ensures PlainChar(dom[j]) {
      if a + 1 + j < d {
        assert dom[j] == s[a + 1..d][j];
      } else if a + 1 + j > d {
        assert dom[j] == s[d + 1..][a + j - d];
      } else {
        assert dom[j] == '.';
      }
    }
    assert dom[1..|dom| - 1][d - a - 2] == '.';
  }

  /** The scanning check decides exactly the pattern. */
  lemma EmailShapeIff(s: string)
    ensures EmailShape(s) <==> MatchesEmailPattern(s)
  {
    if EmailShape(s) {
      EmailShapeSound(s);
    }
    if MatchesEmailPattern(s) {
      var a, d :| 0 < a && a + 1 < d && d + 1 < |s| && s[a] == '@' && s[d] == '.' &&
        Plain(s[..a]) && Plain(s[a + 1..d]) && Plain(s[d + 1..]);
      EmailShapeComplete(s, a, d);
    }
  }

  /** `isValidEmail`: the shape check on the trimmed text, which accepts
      exactly what the pattern matches. */
  function IsValidEmail(email: string): (b: bool)
    ensures b <==> MatchesEmailPattern(Trim(email))
  {
    EmailShapeIff(Trim(email));
    EmailShape(Trim(email))
  }

  /** A valid address, once trimmed, has no whitespace at all and exactly one `@`,
      with non-empty text before it. */
  lemma ValidEmailParts(email: string)
    requires IsValidEmail(email)
    ensures var t := Trim(email);
      NoSpace(t) && exists a :: 0 < a < |t| && t[a] == '@' && forall j :: 0 <= j < |t| && t[j] == '@' ==> j == a
  {
    var t := Trim(email);
    var a := IndexOf(t, '@');
    forall j | 0 <= j < |t| ensures !IsSpace(t[j]) && (t[j] == '@' ==> j == a) {
      if j < a { assert t[..a][j] == t[j]; } else if j > a { assert t[a + 1..][j - a - 1] == t[j]; }
    }
  }

  lemma ValidEmailAccepted()
    ensures IsValidEmail("a@b.com")
  {
    TrimOfUnpadded("a@b.com");
    EmailShapeComplete("a@b.com", 1, 3);
  }

  lemma ValidEmailRejectsNoDot()
    ensures !IsValidEmail("a@b")
  {
    TrimOfUnpadded("a@b");
    assert IndexOf("a@b", '@') == 1;
  }

  lemma ValidEmailRejectsNoAt()
    ensures !IsValidEmail("not-an-email")
  {
    var s := "not-an-email";
    TrimOfUnpadded(s);
    assert forall j :: 0 <= j < |s| ==> s[j] != '@';
  }

  // ---------------------------------------------------------------- the checks of /api/contact

  predicate AllPresent(p: Payload) {
    p.name != "" && p.email != "" && p.subject != "" && p.message != ""
  }

  /** The two checks of `/api/contact`, in order: every field present, then the
      email shape. The payload passes through unchanged. */
  function Validate(p: Payload): (r: Result<Payload, ValidationError>)
    ensures r.Success? <==> AllPresent(p) && IsValidEmail(p.email)
    ensures r == Failure(MissingFields) <==> !AllPresent(p)
    ensures r.Success? ==> r.value == p
  {
    if !AllPresent(p) then Failure(MissingFields)
    else if !IsValidEmail(p.email) then Failure(InvalidEmail)
    else Success(p)
  }

  /** A field counts as missing exactly when it is falsy or whitespace only. */
  lemma MissingFieldsIff(body: RequestBody)
    ensures Validate(NormalizeBody(body)) == Failure(MissingFields) <==>
      AllSpace(FieldText(body.name)) || AllSpace(FieldText(body.email)) ||
      AllSpace(FieldText(body.subject)) || AllSpace(FieldText(body.message))
  {
    TrimEmptyIff(FieldText(body.name));
    TrimEmptyIff(FieldText(body.email));
    TrimEmptyIff(FieldText(body.subject));
    TrimEmptyIff(FieldText(body.message));
  }

  /** An accepted submission has four non-empty, trimmed fields and an email
      that the pattern matches as it stands. */
  lemma AcceptedSubmission(body: RequestBody)
    requires Validate(NormalizeBody(body)).Success?
    ensures var p := NormalizeBody(body);
      AllPresent(p) && Trimmed(p) && MatchesEmailPattern(p.email)
  {
    var p := NormalizeBody(body);
    TrimOfUnpadded(p.email);
    EmailShapeIff(p.email);
  }
}
