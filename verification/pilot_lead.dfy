/** The pilot-lead form handler (src/app/api/pilot-lead/route.ts): field
    cleaning, the email pattern and the order of the checks. Strings are
    sequences of Unicode scalar values; the notification e-mail is an
    input outcome. */
module PilotLead {
  import opened Wrappers

  // ---------------------------------------------------------------------
  // Whitespace, trim and clean

  /** The characters JavaScript's `trim()` removes and `\s` matches:
      WhiteSpace and LineTerminator of ECMAScript. */
  predicate IsJsSpace(c: char) {
    c == '\t' || c == '\n' || c == '\U{000B}' || c == '\U{000C}' || c == '\r' || c == ' '
    || c == '\U{00A0}' || c == '\U{1680}' || ('\U{2000}' <= c <= '\U{200A}')
    || c == '\U{2028}' || c == '\U{2029}' || c == '\U{202F}' || c == '\U{205F}'
    || c == '\U{3000}' || c == '\U{FEFF}'
  }

  predicate AllSpace(s: string) {
    forall k :: 0 <= k < |s| ==> IsJsSpace(s[k])
  }

  /** How many whitespace characters open `s`. */
  function LeadingSpace(s: string): (n: nat)
    ensures n <= |s| && AllSpace(s[..n])
    ensures n < |s| ==> !IsJsSpace(s[n])
    decreases |s|
  {
    if |s| == 0 || !IsJsSpace(s[0]) then 0
    else
      var n := 1 + LeadingSpace(s[1..]);
      assert forall k :: 1 <= k < n ==> s[..n][k] == s[1..][..n - 1][k - 1];
      n
  }

  /** How many whitespace characters close `s`. */
  function TrailingSpace(s: string): (n: nat)
    ensures n <= |s| && AllSpace(s[|s| - n..])
    ensures forall k :: |s| - n <= k < |s| ==> IsJsSpace(s[k])
    ensures n < |s| ==> !IsJsSpace(s[|s| - n - 1])
    decreases |s|
  {
    if |s| == 0 || !IsJsSpace(s[|s| - 1]) then 0
    else
      var front := s[..|s| - 1];
      var n := 1 + TrailingSpace(front);
      assert forall k :: |s| - n <= k < |s| - 1 ==> s[k] == front[k];
      n
  }

  /** `String.prototype.trim`: `s` without its leading and trailing
      whitespace. */
  function Trim(s: string): (r: string)
    ensures |r| <= |s|
    ensures |r| > 0 ==> !IsJsSpace(r[0]) && !IsJsSpace(r[|r| - 1])
    ensures exists a :: 0 <= a <= |s| - |r| && r == s[a..a + |r|] && AllSpace(s[..a]) && AllSpace(s[a + |r|..])
  {
    var lead := LeadingSpace(s);
    if lead == |s| then
      assert s[|s|..] == [];
      []
    else
      var rest := s[lead..];
      var trail := TrailingSpace(rest);
      assert !IsJsSpace(rest[0]);
      var r := rest[..|rest| - trail];
      assert r == s[lead..lead + |r|];
      assert s[lead + |r|..] == rest[|rest| - trail..];
      assert r[0] == s[lead];
      assert r[|r| - 1] == rest[|rest| - trail - 1];
      r
  }

  /** A request field as JSON decoding delivers it: a string, or anything
      else (absent, null, a number, an object). */
  datatype JsonValue = JString(s: string) | NotAString

  /** `clean(value, maxLength)`: "" for anything but a string; otherwise
      the trimmed string cut to its first `maxLength` characters. */
  function Clean(v: JsonValue, maxLength: nat): (r: string)
    ensures |r| <= maxLength
    ensures v.NotAString? ==> r == ""
    ensures v.JString? ==>
      |r| == (if |Trim(v.s)| <= maxLength then |Trim(v.s)| else maxLength) && r == Trim(v.s)[..|r|]
  {
    match v
    case NotAString => ""
    case JString(s) =>
      var t := Trim(s);
      if |t| <= maxLength then t else t[..maxLength]
  }

  // ---------------------------------------------------------------------
  // Email pattern

  /** A character `[^\s@]` matches. */
  predicate EmailChar(c: char) {
    !IsJsSpace(c) && c != '@'
  }

  /** A non-empty run of `[^\s@]`. */
  predicate Segment(t: string) {
    |t| > 0 && forall k :: 0 <= k < |t| ==> EmailChar(t[k])
  }

  /** `/^[^\s@]+@[^\s@]+\.[^\s@]+$/` read as its definition: `s` splits at
      an '@' and a later '.' into three non-empty runs of `[^\s@]`. */
  ghost predicate MatchesEmailPattern(s: string) {
    exists i, j :: 0 <= i < j < |s| && s[i] == '@' && s[j] == '.'
      && Segment(s[..i]) && Segment(s[i + 1..j]) && Segment(s[j + 1..])
  }

  /** The number of times `c` occurs in `s`. */
  function Occurrences(s: string, c: char): (n: nat)
    ensures n <= |s|
    ensures n == 0 <==> c !in s
    decreases |s|
  {
    if |s| == 0 then 0
    else (if s[0] == c then 1 else 0) + Occurrences(s[1..], c)
  }

  /** The first position of `c` in `s`. */
  function IndexOf(s: string, c: char): (i: nat)
    requires c in s
    ensures i < |s| && s[i] == c && c !in s[..i]
    decreases |s|
  {
    if s[0] == c then 0
    else
      var i := 1 + IndexOf(s[1..], c);
      assert s[..i] == [s[0]] + s[1..][..i - 1];
      i
  }

  /** `isValidEmail`: no whitespace, exactly one '@' with something
      before it, and after it a '.' with something on either side. */
  function IsValidEmail(s: string): (b: bool)
    ensures b ==> '@' in s && IndexOf(s, '@') > 0
  {
    (forall k :: 0 <= k < |s| ==> !IsJsSpace(s[k]))
    && Occurrences(s, '@') == 1
    && var i := IndexOf(s, '@');
       var domain := s[i + 1..];
       i > 0 && |domain| >= 3 && '.' in domain[1..|domain| - 1]
  }

  // ---------------------------------------------------------------------
  // The POST handler

  /** The JSON body's fields (`website` is the hidden honeypot). */
  datatype LeadBody = LeadBody(
    name: JsonValue, email: JsonValue, organization: JsonValue,
    siteType: JsonValue, message: JsonValue, website: JsonValue)

  /** What `request.json()` produced: unparsable text, `null` (whose field
      access throws) or a value whose fields are read. A non-object value
      such as a number reads as a body with every field `NotAString`. */
  datatype RequestBody = MalformedJson | JsonNull | JsonObject(fields: LeadBody)

  /** The cleaned lead handed to the notifier. */
  datatype Lead = Lead(name: string, email: string, organization: string, siteType: string, message: string)

  /** How `sendNotificationEmail` ended: skipped for missing settings,
      sent, or thrown (a network error or a non-OK reply). */
  datatype NotifyOutcome = NotConfigured | Sent | SendFailed

  datatype Reply = OkReply | ErrorReply(message: string)

  /** The HTTP answer and the lead passed to the notifier, if any. */
  datatype LeadResponse = LeadResponse(status: int, reply: Reply, notified: Option<Lead>)

  const HoneypotCap: nat := 200
  const NameCap: nat := 120
  const EmailCap: nat := 160
  const OrganizationCap: nat := 180
  const SiteTypeCap: nat := 60
  const MessageCap: nat := 2000

  const MissingFields: string := "Missing required fields"
  const InvalidEmail: string := "Please enter a valid email"
  const SubmitFailed: string := "Could not submit pilot request"

  /** The cleaned fields of a body. */
  function CleanLead(b: LeadBody): (l: Lead)
    ensures |l.name| <= NameCap && |l.email| <= EmailCap && |l.organization| <= OrganizationCap
    ensures |l.siteType| <= SiteTypeCap && |l.message| <= MessageCap
  {
    Lead(Clean(b.name, NameCap), Clean(b.email, EmailCap), Clean(b.organization, OrganizationCap),
         Clean(b.siteType, SiteTypeCap), Clean(b.message, MessageCap))
  }

  predicate HasRequired(l: Lead) {
    l.name != "" && l.email != "" && l.organization != "" && l.siteType != ""
  }

  /** `POST`: a filled honeypot is answered with success and dropped; then
      missing required fields, then a malformed email give 400; only then is
      the notifier called, and its failure, like a body that cannot be read,
      gives 500. */
  function HandleLead(req: RequestBody, notify: NotifyOutcome): (r: LeadResponse)
    ensures req.MalformedJson? || req.JsonNull? ==> r == LeadResponse(500, ErrorReply(SubmitFailed), None)
    ensures r.notified.Some? ==>
      req.JsonObject? && Clean(req.fields.website, HoneypotCap) == ""
      && r.notified.value == CleanLead(req.fields)
      && HasRequired(r.notified.value) && IsValidEmail(r.notified.value.email)
    ensures r.status == 200 <==> r.reply == OkReply
    ensures r.status == 400 ==> r.notified.None?
  {
    match req
    case MalformedJson => LeadResponse(500, ErrorReply(SubmitFailed), None)
    case JsonNull => LeadResponse(500, ErrorReply(SubmitFailed), None)
    case JsonObject(b) =>
      if Clean(b.website, HoneypotCap) != "" then LeadResponse(200, OkReply, None)
      else
        var lead := CleanLead(b);
        if !HasRequired(lead) then LeadResponse(400, ErrorReply(MissingFields), None)
        else if !IsValidEmail(lead.email) then LeadResponse(400, ErrorReply(InvalidEmail), None)
        else if notify == SendFailed then LeadResponse(500, ErrorReply(SubmitFailed), Some(lead))
        else LeadResponse(200, OkReply, Some(lead))
  }
}
