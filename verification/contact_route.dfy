/**
 * The contact-lead endpoint: the parsed request body goes through three
 * guards in a fixed order (required fields, email shape, phone shape) and the
 * first that fails decides the response; a body that cannot be read gives 500.
 */
module ContactRoute {
  import opened Wrappers

  /** The request body's fields; `None` is a field that is missing or `null`. */
  datatype ContactRequest = ContactRequest(
    name: Option<string>,
    email: Option<string>,
    phone: Option<string>,
    propertyValue: Option<real>,
    monthlySalary: Option<real>)

  /**
   * What `await req.json()` gives: it throws on malformed JSON, and on the
   * JSON value `null` reading `body.name` throws; both end in the catch block.
   */
  datatype RequestBody = Unparseable | JsonNull | Parsed(request: ContactRequest)

  datatype LeadData = LeadData(name: string, email: string, timestamp: string)

  datatype ResponseBody = ResponseBody(status: string, message: string, data: Option<LeadData>)

  datatype Response = Response(httpStatus: int, body: ResponseBody)

  const RequiredMessage: string := "All fields are required"
  const EmailMessage: string := "Invalid email format"
  const PhoneMessage: string := "Invalid phone number"
  const SuccessMessage: string := "Lead received"
  const ServerErrorMessage: string := "Internal server error"

  /** A number field is truthy when present and not zero. */
  predicate IsTruthyAmount(field: Option<real>) {
    field.Some? && field.value != 0.0
  }

  /** The first guard: every field truthy. */
  predicate HasRequiredFields(r: ContactRequest) {
    && IsTruthyText(r.name)
    && IsTruthyText(r.email)
    && IsTruthyText(r.phone)
    && IsTruthyAmount(r.propertyValue)
    && IsTruthyAmount(r.monthlySalary)
  }

  /** `\s` in a JavaScript regular expression: WhiteSpace and LineTerminator code points. */
  predicate IsWhitespace(c: char) {
    || c == '\t' || c == '\n' || c == '\U{000B}' || c == '\U{000C}' || c == '\r' || c == ' '
    || c == '\U{00A0}' || c == '\U{1680}' || ('\U{2000}' <= c <= '\U{200A}')
    || c == '\U{2028}' || c == '\U{2029}' || c == '\U{202F}' || c == '\U{205F}'
    || c == '\U{3000}' || c == '\U{FEFF}'
  }

  /** The character class `[^\s@]`. */
  predicate IsAtomChar(c: char) {
    !IsWhitespace(c) && c != '@'
  }

  /** `[^\s@]+`: a non-empty run of the class. */
  predicate IsAtomRun(s: string) {
    |s| > 0 && forall k :: 0 <= k < |s| ==> IsAtomChar(s[k])
  }

  /**
   * `/^[^\s@]+@[^\s@]+\.[^\s@]+$/.test(s)`: s splits as A "@" B "." C with
   * three non-empty runs; `i` is the '@' and `j` the '.'.
   */
  predicate MatchesEmailRegex(s: string): (ok: bool)
    ensures ok ==> '@' in s && |s| >= 5
  {
    exists i, j :: 0 <= i < j < |s| && s[i] == '@' && s[j] == '.'
      && IsAtomRun(s[..i]) && IsAtomRun(s[i + 1..j]) && IsAtomRun(s[j + 1..])
  }

  /** `/^\d{10,15}$/.test(s)`: 10 to 15 characters, each an ASCII digit. */
  predicate MatchesPhoneRegex(s: string) {
    10 <= |s| <= 15 && forall k :: 0 <= k < |s| ==> '0' <= s[k] <= '9'
  }

  /** All three guards pass. */
  predicate IsAcceptedLead(r: ContactRequest) {
    && HasRequiredFields(r)
    && MatchesEmailRegex(r.email.value)
    && MatchesPhoneRegex(r.phone.value)
  }

  function ErrorResponse(httpStatus: int, message: string): Response {
    Response(httpStatus, ResponseBody("error", message, None))
  }

  /**
   * `POST`: the guards run in order and the first failure answers 400 with its
   * own message; a lead passing all three answers 200 and echoes the name, the
   * email and the `timestamp` (the clock is a parameter); an unreadable body
   * answers 500. Exactly the 200 response says "success" and carries data.
   */
  function Post(body: RequestBody, timestamp: string): (res: Response)
    ensures res.httpStatus == 200 <==> body.Parsed? && IsAcceptedLead(body.request)
    ensures res.httpStatus == 500 <==> !body.Parsed?
    ensures !body.Parsed? ==> res == ErrorResponse(500, ServerErrorMessage)
    ensures body.Parsed? && !IsAcceptedLead(body.request) ==> res.httpStatus == 400
    ensures res.body.status == (if res.httpStatus == 200 then "success" else "error")
    ensures res.body.data.Some? <==> res.httpStatus == 200
    ensures res.httpStatus == 200 ==>
      && res.body.message == SuccessMessage
      && res.body.data.value == LeadData(body.request.name.value, body.request.email.value, timestamp)
    ensures res.httpStatus == 400 ==>
      res.body.message == (
        if !HasRequiredFields(body.request) then RequiredMessage
        else if !MatchesEmailRegex(body.request.email.value) then EmailMessage
        else PhoneMessage)
  {
    match body
    case Unparseable => ErrorResponse(500, ServerErrorMessage)
    case JsonNull => ErrorResponse(500, ServerErrorMessage)
    case Parsed(r) =>
      if !HasRequiredFields(r) then ErrorResponse(400, RequiredMessage)
      else if !MatchesEmailRegex(r.email.value) then ErrorResponse(400, EmailMessage)
      else if !MatchesPhoneRegex(r.phone.value) then ErrorResponse(400, PhoneMessage)
      else Response(200, ResponseBody("success", SuccessMessage, Some(LeadData(r.name.value, r.email.value, timestamp))))
  }

  /** A missing field is reported whatever the email and phone look like. */
  lemma MissingFieldComesFirst(r: ContactRequest, timestamp: string)
    requires !HasRequiredFields(r)
    ensures Post(Parsed(r), timestamp) == ErrorResponse(400, RequiredMessage)
  {
  }

  /** With all fields present, a bad email is reported whatever the phone looks like. */
  lemma BadEmailComesBeforePhone(r: ContactRequest, timestamp: string)
    requires HasRequiredFields(r) && !MatchesEmailRegex(r.email.value)
    ensures Post(Parsed(r), timestamp) == ErrorResponse(400, EmailMessage)
  {
  }

  /** Only falsy amounts are refused: negative ones pass the first guard. */
  lemma NegativeAmountsAreNotMissing(r: ContactRequest)
    requires IsTruthyText(r.name) && IsTruthyText(r.email) && IsTruthyText(r.phone)
    requires r.propertyValue.Some? && r.propertyValue.value < 0.0
    requires r.monthlySalary.Some? && r.monthlySalary.value < 0.0
    ensures HasRequiredFields(r)
  {
  }

  predicate HasNoWhitespace(s: string) {
    forall k :: 0 <= k < |s| ==> !IsWhitespace(s[k])
  }

  /** `s[i]` is the one and only '@' of `s`. */
  predicate IsOnlyAt(s: string, i: int) {
    0 <= i < |s| && s[i] == '@' && forall k :: 0 <= k < |s| && s[k] == '@' ==> k == i
  }

  /** `d` has a '.' that is neither its first nor its last character. */
  predicate HasInnerDot(d: string) {
    exists j :: 0 < j < |d| - 1 && d[j] == '.'
  }

  /**
   * The email pattern, read plainly: no whitespace, exactly one '@' with
   * something before it, and a '.' inside the part after it.
   */
  predicate IsPlainEmailShape(s: string) {
    HasNoWhitespace(s) && exists i :: 0 < i < |s| && IsOnlyAt(s, i) && HasInnerDot(s[i + 1..])
  }

  lemma EmailRegexIff(s: string)
    ensures MatchesEmailRegex(s) <==> IsPlainEmailShape(s)
  {
    if MatchesEmailRegex(s) { RegexGivesShape(s); }
    if IsPlainEmailShape(s) { ShapeGivesRegex(s); }
  }

  lemma RegexGivesShape(s: string)
    requires MatchesEmailRegex(s)
    ensures IsPlainEmailShape(s)
  {
    var i, j :| 0 <= i < j < |s| && s[i] == '@' && s[j] == '.'
      && IsAtomRun(s[..i]) && IsAtomRun(s[i + 1..j]) && IsAtomRun(s[j + 1..]);
    AtomCharsAroundSplit(s, i, j);
    assert IsOnlyAt(s, i);
    assert s[i + 1..][j - i - 1] == '.';
    assert HasInnerDot(s[i + 1..]);
  }

  /** Outside the '@' and the '.', every character of a split `A@B.C` is in `[^\s@]`. */
  lemma AtomCharsAroundSplit(s: string, i: int, j: int)
    requires 0 <= i < j < |s|
    requires IsAtomRun(s[..i]) && IsAtomRun(s[i + 1..j]) && IsAtomRun(s[j + 1..])
    ensures forall k :: 0 <= k < |s| && k != i && k != j ==> IsAtomChar(s[k])
  {
    forall k | 0 <= k < |s| && k != i && k != j
      ensures IsAtomChar(s[k])
    {
      if k < i { assert s[k] == s[..i][k]; }
      else if k < j { assert s[k] == s[i + 1..j][k - i - 1]; }
      else { assert s[k] == s[j + 1..][k - j - 1]; }
    }
  }

  lemma ShapeGivesRegex(s: string)
    requires IsPlainEmailShape(s)
    ensures MatchesEmailRegex(s)
  {
    var i :| 0 < i < |s| && IsOnlyAt(s, i) && HasInnerDot(s[i + 1..]);
    var d := s[i + 1..];
    var dot :| 0 < dot < |d| - 1 && d[dot] == '.';
    var j := i + 1 + dot;
    assert s[j] == '.';
    forall k | 0 <= k < |s| && k != i
      ensures IsAtomChar(s[k])
    {
    }
    assert IsAtomRun(s[..i]);
    assert IsAtomRun(s[i + 1..j]);
    assert IsAtomRun(s[j + 1..]);
  }

  /** A few inputs, checked against the pattern. */
  lemma EmailExamples()
    ensures MatchesEmailRegex("a@b.c")
    ensures MatchesEmailRegex("a.b@c.d.e")
    ensures !MatchesEmailRegex("a@b.")
    ensures !MatchesEmailRegex("a@@b.c")
    ensures !MatchesEmailRegex("a b@c.d")
  {
    var e := "a@b.c";
    assert e[..1] == "a" && e[2..3] == "b" && e[4..] == "c";
    assert 0 <= 1 < 3 < |e| && e[1] == '@' && e[3] == '.'
      && IsAtomRun(e[..1]) && IsAtomRun(e[2..3]) && IsAtomRun(e[4..]);
    var s := "a.b@c.d.e";
    assert s[..3] == "a.b" && s[4..5] == "c" && s[6..] == "d.e";
    assert 0 <= 3 < 5 < |s| && s[3] == '@' && s[5] == '.'
      && IsAtomRun(s[..3]) && IsAtomRun(s[4..5]) && IsAtomRun(s[6..]);
    EmailRegexIff("a@b.");
    EmailRegexIff("a@@b.c");
    EmailRegexIff("a b@c.d");
    assert "a@b."[2..] == "b.";
    assert "a b@c.d"[1] == ' ';
    assert "a@@b.c"[1] == '@' && "a@@b.c"[2] == '@';
  }

  /** `\d` is ASCII only: other scripts' digits, signs and spaces are refused. */
  lemma PhoneExamples()
    ensures MatchesPhoneRegex("9876543210")
    ensures MatchesPhoneRegex("919876543210123")
    ensures !MatchesPhoneRegex("987654321")
    ensures !MatchesPhoneRegex("9198765432101234")
    ensures !MatchesPhoneRegex("+919876543210")
    ensures !MatchesPhoneRegex("98765 43210")
    ensures !MatchesPhoneRegex("\U{0969}\U{0968}\U{0967}0000000")
  {
    assert "+919876543210"[0] == '+';
    assert "98765 43210"[5] == ' ';
    assert "\U{0969}\U{0968}\U{0967}0000000"[0] == '\U{0969}';
  }
}
