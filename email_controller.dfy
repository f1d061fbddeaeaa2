/** The `POST` send-email handler: schema validation, recipient parsing and
    checks, attachment size limits, the idempotency key and replay rule, the
    greeting line, the send, and the status of the answer. The schema's
    format validators, the zod error text, the SHA-256 digest of the
    fingerprint and the base64 decoder are collaborators passed in. */
module EmailController {
  import opened Wrappers
  import opened Api
  import Text
  import IdempotencyStore
  import EmailService
  import ErrorHandler

  /** 1.6 MiB is 1677721.6 bytes; a whole number of bytes exceeds it exactly
      when it exceeds 1677721. */
  const MAX_ATTACHMENT_BYTES: nat := 1677721
  const MAX_TOTAL_ATTACHMENTS_BYTES: nat := 6 * 1024 * 1024
  const DATA_URL_PREFIX: string := "data:application/pdf;base64,"

  /** The request body, with `smtp_port` already a number. */
  datatype EmailRequest = EmailRequest(
    toEmail: string,
    subject: Option<string>,
    body: Option<string>,
    dearName: Option<string>,
    smtpUser: string,
    smtpPass: string,
    smtpServer: string,
    smtpPort: int,
    idempotencyKey: Option<string>,
    replyTo: Option<string>,
    cc: Option<string>,
    bcc: Option<string>,
    attachments: Option<seq<EmailService.Attachment>>)

  /** The fields `deriveKey` hashes, missing optionals already `''`. */
  datatype Fingerprint = Fingerprint(
    toEmail: string, subject: string, body: string, smtpUser: string,
    smtpServer: string, smtpPort: int, replyTo: string, cc: string, bcc: string)

  /** What the handler relies on but does not define: zod's `email()` and
      `uuid()` checks and its error text, the SHA-256 hex digest cut to 32
      characters of the serialised fingerprint, and the byte length base64
      decoding yields (absent when decoding throws). */
  datatype Collaborators = Collaborators(
    isEmail: string -> bool,
    isUuid: string -> bool,
    schemaMessage: EmailRequest -> string,
    digest: Fingerprint -> string,
    decodedLength: string -> Option<nat>)

  // --------------------------------------------------------------- schema

  /** `/\.pdf$/i`. */
  predicate PdfName(f: string) {
    |f| >= 4 && Text.LowerAscii(f[|f| - 4..]) == ".pdf"
  }

  predicate AttachmentShape(a: EmailService.Attachment) {
    |a.filename| >= 1 && PdfName(a.filename) && |a.contentBase64| >= 10
  }

  predicate MaxLength(o: Option<string>, n: nat) {
    o.None? || |o.value| <= n
  }

  /** `emailSchema.safeParse(...).success`. The password's length is checked
      before its white space is stripped. */
  function SchemaAccepts(req: EmailRequest, c: Collaborators): (accepted: bool)
    ensures accepted ==> |req.toEmail| >= 1 && |req.smtpPass| >= 1 && req.smtpPort > 0
    ensures accepted && req.attachments.Some? ==> |req.attachments.value| <= 5
    ensures accepted ==>
      (MaxLength(req.subject, 255) && MaxLength(req.body, 200000)
       && MaxLength(req.dearName, 255) && |req.smtpServer| >= 1)
    ensures accepted ==>
      (c.isEmail(req.smtpUser)
       && (req.idempotencyKey.None? || c.isUuid(req.idempotencyKey.value))
       && (req.replyTo.None? || c.isEmail(req.replyTo.value)))
    ensures accepted && req.attachments.Some? ==>
      forall i :: 0 <= i < |req.attachments.value| ==> AttachmentShape(req.attachments.value[i])
  {
    |req.toEmail| >= 1
    && MaxLength(req.subject, 255)
    && MaxLength(req.body, 200000)
    && MaxLength(req.dearName, 255)
    && c.isEmail(req.smtpUser)
    && |req.smtpPass| >= 1
    && |req.smtpServer| >= 1
    && req.smtpPort > 0
    && (req.idempotencyKey.None? || c.isUuid(req.idempotencyKey.value))
    && (req.replyTo.None? || c.isEmail(req.replyTo.value))
    && (req.attachments.None? ||
         (|req.attachments.value| <= 5
          && forall i :: 0 <= i < |req.attachments.value| ==> AttachmentShape(req.attachments.value[i])))
  }

  /** The parsed data: the password with every white-space character removed. */
  function Parsed(req: EmailRequest): (d: EmailRequest)
    ensures d == req.(smtpPass := d.smtpPass)
    ensures d.smtpPass == Text.RemoveWhitespace(req.smtpPass)
    ensures forall i :: 0 <= i < |d.smtpPass| ==> !Text.IsWhitespace(d.smtpPass[i])
  {
    req.(smtpPass := Text.RemoveWhitespace(req.smtpPass))
  }

  /** The schema checks the password's length before stripping it, so a
      password made only of white space is accepted and sent empty. */
  lemma WhitespacePasswordSentEmpty(req: EmailRequest, c: Collaborators)
    requires SchemaAccepts(req, c)
    requires forall i :: 0 <= i < |req.smtpPass| ==> Text.IsWhitespace(req.smtpPass[i])
    ensures |req.smtpPass| >= 1 && Parsed(req).smtpPass == ""
  {
    Text.RemoveWhitespaceDropsBlank(req.smtpPass);
  }

  // ----------------------------------------------------------- recipients

  /** The recipients named by `to_email`. */
  function Recipients(toEmail: string): seq<string> {
    Text.CommaList(toEmail)
  }

  /** The optional cc/bcc lists: parsed when the field is a non-empty string. */
  function OptionalList(field: Option<string>): (r: Option<seq<string>>)
    ensures r.Some? <==> Text.Truthy(field)
    ensures r.Some? ==> r.value == Text.CommaList(field.value)
  {
    if Text.Truthy(field) then Some(Text.CommaList(field.value)) else None
  }

  /** The recipient checks, the empty list first. */
  function CheckRecipients(rs: seq<string>): (r: Option<ApiError>)
    ensures r.Some? ==> !r.value.success && r.value.error.kind == INVALID_RECIPIENT
    ensures r == None <==> |rs| > 0 && forall i :: 0 <= i < |rs| ==> ' ' !in rs[i]
    ensures |rs| == 0 ==> r == Some(Fail("The recipient address is empty", INVALID_RECIPIENT))
  {
    if |rs| == 0 then Some(Fail("The recipient address is empty", INVALID_RECIPIENT))
    else if exists i :: 0 <= i < |rs| && ' ' in rs[i] then
      Some(Fail("The recipient address contains space", INVALID_RECIPIENT))
    else None
  }

  /** An address with no comma and no white space at either end. */
  predicate Address(x: string) {
    x != "" && ',' !in x && Text.Trim(x) == x
  }

  /** Addresses separated by a comma and a space are accepted: the space goes
      with the trimming, only a space inside an address is refused. */
  lemma SpaceAfterCommaAccepted(a: string, b: string)
    requires Address(a) && Address(b) && ' ' !in a && ' ' !in b
    ensures Recipients(a + ", " + b) == [a, b]
    ensures CheckRecipients(Recipients(a + ", " + b)) == None
  {
    var xs := [a, b];
    Text.CommaListOfJoin(xs);
    assert Text.Join(xs, ", ") == a + ", " + b by {
      assert xs[1..] == [b];
    }
  }

  /** A space inside an address is refused, wherever it stands in the list. */
  lemma InnerSpaceRefused(xs: seq<string>, k: nat)
    requires forall i :: 0 <= i < |xs| ==> Address(xs[i])
    requires k < |xs| && ' ' in xs[k]
    ensures Recipients(Text.Join(xs, ", ")) == xs
    ensures CheckRecipients(Recipients(Text.Join(xs, ", "))) == Some(Fail("The recipient address contains space", INVALID_RECIPIENT))
  {
    Text.CommaListOfJoin(xs);
  }

  // ---------------------------------------------------------- attachments

  /** The content stripped of surrounding white space and of a
      `data:application/pdf;base64,` prefix (in any letter case) followed by
      at least one character and no line break. */
  predicate DataUrl(b: string) {
    |b| > |DATA_URL_PREFIX| && Text.LowerAscii(b[..|DATA_URL_PREFIX|]) == DATA_URL_PREFIX
    && forall i :: |DATA_URL_PREFIX| <= i < |b| ==> !Text.IsLineTerminator(b[i])
  }

  /** The text handed to the base64 decoder. */
  function Payload(content: string): string {
    var b := Text.Trim(content);
    if DataUrl(b) then b[|DATA_URL_PREFIX|..] else b
  }

  /** The decoded size of each attachment, absent when decoding throws. */
  function DecodedSize(decode: string -> Option<nat>): EmailService.Attachment -> Option<nat> {
    (a: EmailService.Attachment) => decode(Payload(a.contentBase64))
  }

  /** Decodes to at most 1.6 MiB. */
  predicate Fits(a: EmailService.Attachment, sizeOf: EmailService.Attachment -> Option<nat>) {
    sizeOf(a).Some? && sizeOf(a).value <= MAX_ATTACHMENT_BYTES
  }

  /** The bytes of all attachments that decode. */
  function DecodedTotal(atts: seq<EmailService.Attachment>, sizeOf: EmailService.Attachment -> Option<nat>): nat
    decreases |atts|
  {
    if atts == [] then 0
    else
      var d := sizeOf(atts[|atts| - 1]);
      DecodedTotal(atts[..|atts| - 1], sizeOf) + (if d.Some? then d.value else 0)
  }

  /** One turn of the attachment loop: decode, add to the running total,
      refuse an undecodable or oversized attachment. */
  function Step(acc: Result<nat, ApiError>, a: EmailService.Attachment, sizeOf: EmailService.Attachment -> Option<nat>): (r: Result<nat, ApiError>)
    ensures r.Success? <==> acc.Success? && Fits(a, sizeOf)
    ensures r.Success? ==> r.value == acc.value + sizeOf(a).value
    ensures acc.Failure? ==> r == acc
    ensures acc.Success? && r.Failure? ==> !r.error.success && r.error.error.kind == VALIDATION
  {
    match acc
    case Failure(e) => Failure(e)
    case Success(total) =>
      match sizeOf(a)
      case None => Failure(Fail("Attachment " + a.filename + " base64 invalid", VALIDATION))
      case Some(size) =>
        if size > MAX_ATTACHMENT_BYTES then Failure(Fail("Attachment " + a.filename + " too large (> 1.6MB)", VALIDATION))
        else Success(total + size)
  }

  /** The attachment loop over `atts`: the running total, or the first
      refusal. */
  function Scan(atts: seq<EmailService.Attachment>, sizeOf: EmailService.Attachment -> Option<nat>): (r: Result<nat, ApiError>)
    ensures r.Failure? ==> !r.error.success && r.error.error.kind == VALIDATION
    decreases |atts|
  {
    if atts == [] then Success(0)
    else Step(Scan(atts[..|atts| - 1], sizeOf), atts[|atts| - 1], sizeOf)
  }

  /** The refusal, if any, the attachment checks produce. */
  function AttachmentsVerdict(atts: Option<seq<EmailService.Attachment>>, decode: string -> Option<nat>): (r: Option<ApiError>)
    ensures atts.None? || |atts.value| == 0 ==> r == None
    ensures r.Some? ==> !r.value.success && r.value.error.kind == VALIDATION
  {
    if atts.None? || |atts.value| == 0 then None
    else match Scan(atts.value, DecodedSize(decode))
      case Failure(e) => Some(e)
      case Success(total) =>
        if total > MAX_TOTAL_ATTACHMENTS_BYTES then Some(Fail("Total attachments exceed 6.0MB", VALIDATION)) else None
  }

  /** A refusal in a prefix of the list is the refusal of the whole list. */
  lemma {:induction false} FailureSticks(atts: seq<EmailService.Attachment>, i: nat, sizeOf: EmailService.Attachment -> Option<nat>)
    requires i <= |atts| && Scan(atts[..i], sizeOf).Failure?
    ensures Scan(atts, sizeOf) == Scan(atts[..i], sizeOf)
    decreases |atts| - i
  {
    if i == |atts| {
      assert atts[..i] == atts;
    } else {
      assert atts[..i + 1][..i] == atts[..i];
      FailureSticks(atts, i + 1, sizeOf);
    }
  }

  /** The scan succeeds exactly when every attachment decodes within the
      single limit, and then it yields their total size. */
  lemma {:induction false} ScanSucceedsIff(atts: seq<EmailService.Attachment>, sizeOf: EmailService.Attachment -> Option<nat>)
    ensures Scan(atts, sizeOf).Success? <==> forall i :: 0 <= i < |atts| ==> Fits(atts[i], sizeOf)
    ensures Scan(atts, sizeOf).Success? ==> Scan(atts, sizeOf).value == DecodedTotal(atts, sizeOf)
    ensures Scan(atts, sizeOf).Failure? ==>
      !Scan(atts, sizeOf).error.success && Scan(atts, sizeOf).error.error.kind == VALIDATION
    decreases |atts|
  {
    if atts != [] {
      var init := atts[..|atts| - 1];
      var last := atts[|atts| - 1];
      ScanSucceedsIff(init, sizeOf);
      assert Scan(atts, sizeOf) == Step(Scan(init, sizeOf), last, sizeOf);
      assert forall i :: 0 <= i < |init| ==> init[i] == atts[i];
      if forall i :: 0 <= i < |atts| ==> Fits(atts[i], sizeOf) {
        assert Fits(last, sizeOf);
      }
    }
  }

  /** The attachments pass exactly when each decodes to at most 1.6 MiB and
      together they decode to at most 6 MiB; every refusal is a VALIDATION
      error. */
  lemma AttachmentsAcceptedIff(atts: seq<EmailService.Attachment>, decode: string -> Option<nat>)
    ensures AttachmentsVerdict(Some(atts), decode) == None <==>
      (forall i :: 0 <= i < |atts| ==> Fits(atts[i], DecodedSize(decode)))
      && DecodedTotal(atts, DecodedSize(decode)) <= MAX_TOTAL_ATTACHMENTS_BYTES
    ensures AttachmentsVerdict(Some(atts), decode).Some? ==>
      AttachmentsVerdict(Some(atts), decode).value.error.kind == VALIDATION
  {
    ScanSucceedsIff(atts, DecodedSize(decode));
  }

  /** Stripping the data-URL prefix: whatever letter case the prefix is
      written in, the decoder sees the text after it. */
  lemma DataUrlStripped(prefix: string, x: string)
    requires Text.LowerAscii(prefix) == DATA_URL_PREFIX
    requires x != [] && !Text.IsWhitespace(x[|x| - 1])
    requires forall i :: 0 <= i < |x| ==> !Text.IsLineTerminator(x[i])
    ensures Payload(prefix + x) == x
  {
    var s := prefix + x;
    assert Text.LowerAscii(prefix)[0] == 'd';
    assert s[0] == prefix[0];
    Text.TrimKeepsBareText(s);
    assert s[..|DATA_URL_PREFIX|] == prefix;
    assert forall i :: |DATA_URL_PREFIX| <= i < |s| ==> s[i] == x[i - |DATA_URL_PREFIX|];
    assert s[|DATA_URL_PREFIX|..] == x;
  }

  /** The attachment loop: one decode per attachment, a running total, an
      early refusal, then the total limit. */
  method CheckAttachments(atts: seq<EmailService.Attachment>, decode: string -> Option<nat>)
    returns (problem: Option<ApiError>)
    ensures problem == AttachmentsVerdict(Some(atts), decode)
  {
    if |atts| == 0 {
      return None;
    }
    var total: nat := 0;
    for i := 0 to |atts|
      invariant Scan(atts[..i], DecodedSize(decode)) == Success(total)
    {
      var a := atts[i];
      assert atts[..i + 1][..i] == atts[..i];
      var b64 := Text.Trim(a.contentBase64);
      if DataUrl(b64) {
        b64 := b64[|DATA_URL_PREFIX|..];
      }
      assert b64 == Payload(a.contentBase64);
      var decoded := decode(b64);
      assert decoded == DecodedSize(decode)(a);
      if decoded.None? {
        problem := Some(Fail("Attachment " + a.filename + " base64 invalid", VALIDATION));
        FailureSticks(atts, i + 1, DecodedSize(decode));
        return;
      }
      var size := decoded.value;
      total := total + size;
      if size > MAX_ATTACHMENT_BYTES {
        problem := Some(Fail("Attachment " + a.filename + " too large (> 1.6MB)", VALIDATION));
        FailureSticks(atts, i + 1, DecodedSize(decode));
        return;
      }
    }
    assert atts[..|atts|] == atts;
    if total > MAX_TOTAL_ATTACHMENTS_BYTES {
      return Some(Fail("Total attachments exceed 6.0MB", VALIDATION));
    }
    return None;
  }

  // ------------------------------------------------------ idempotency key

  /** `deriveKey`'s selection of fields. */
  function FingerprintOf(d: EmailRequest): Fingerprint {
    Fingerprint(d.toEmail, Text.OrElse(d.subject, ""), Text.OrElse(d.body, ""), d.smtpUser,
                d.smtpServer, d.smtpPort, Text.OrElse(d.replyTo, ""), Text.OrElse(d.cc, ""), Text.OrElse(d.bcc, ""))
  }

  /** The client's key when it sent one, otherwise the derived one. */
  function IdempotencyKey(d: EmailRequest, c: Collaborators): (key: string)
    ensures Text.Truthy(d.idempotencyKey) ==> key == d.idempotencyKey.value
    ensures !Text.Truthy(d.idempotencyKey) ==> key == c.digest(FingerprintOf(d))
  {
    Text.OrElse(d.idempotencyKey, c.digest(FingerprintOf(d)))
  }

  /** The derived key does not depend on the password, the greeting name or
      the attachments. */
  lemma KeyIgnoresSecretAndExtras(d: EmailRequest, c: Collaborators, pass: string, dear: Option<string>,
                                  atts: Option<seq<EmailService.Attachment>>)
    ensures IdempotencyKey(d.(smtpPass := pass, dearName := dear, attachments := atts), c) == IdempotencyKey(d, c)
  {
  }

  /** A missing optional field and an empty one give the same derived key. */
  lemma KeyNormalisesMissingFields(d: EmailRequest, c: Collaborators)
    requires !Text.Truthy(d.idempotencyKey)
    ensures IdempotencyKey(d.(subject := None, body := None, replyTo := None, cc := None, bcc := None), c)
         == IdempotencyKey(d.(subject := Some(""), body := Some(""), replyTo := Some(""), cc := Some(""), bcc := Some("")), c)
  {
  }

  // ------------------------------------------------------------- greeting

  predicate Special(c: char) {
    c == '&' || c == '<' || c == '>' || c == '"'
  }

  function Entity(c: char): string {
    if c == '&' then "&amp;" else if c == '<' then "&lt;" else if c == '>' then "&gt;" else "&quot;"
  }

  /** The length of the run of special characters `s` starts with. */
  function RunLength(s: string): (n: nat)
    ensures n <= |s|
    ensures forall i :: 0 <= i < n ==> Special(s[i])
    ensures n < |s| ==> !Special(s[n])
    decreases |s|
  {
    if s == [] || !Special(s[0]) then 0 else 1 + RunLength(s[1..])
  }

  /** `escapeHtml`: each maximal run of `& < > "` is looked up whole in the
      entity table, so a run of one character becomes its entity and a run
      of two or more is not found and stays as it is. */
  function EscapeHtml(s: string): (r: string)
    ensures |r| >= |s|
    decreases |s|
  {
    if s == [] then ""
    else if !Special(s[0]) then [s[0]] + EscapeHtml(s[1..])
    else
      var n := RunLength(s);
      (if n == 1 then Entity(s[0]) else s[..n]) + EscapeHtml(s[n..])
  }

  predicate NoMarkup(t: string) {
    forall i :: 0 <= i < |t| ==> t[i] != '<' && t[i] != '>' && t[i] != '"'
  }

  /** No two special characters side by side. */
  predicate Isolated(s: string) {
    forall i, j :: 0 <= i < |s| && j == i + 1 && j < |s| ==> !(Special(s[i]) && Special(s[j]))
  }

  /** Text without special characters is left unchanged. */
  lemma {:induction false} EscapePlainText(s: string)
    requires forall i :: 0 <= i < |s| ==> !Special(s[i])
    ensures EscapeHtml(s) == s
    decreases |s|
  {
    if s != [] {
      EscapePlainText(s[1..]);
      assert [s[0]] + s[1..] == s;
    }
  }

  /** When special characters stand alone, the result holds no `<`, `>` or
      `"`: the markup is neutralised. */
  lemma {:induction false} EscapeIsolated(s: string)
    requires Isolated(s)
    ensures NoMarkup(EscapeHtml(s))
    decreases |s|
  {
    if s != [] {
      assert Isolated(s[1..]) by {
        forall i, j | 0 <= i < |s[1..]| && j == i + 1 && j < |s[1..]|
          ensures !(Special(s[1..][i]) && Special(s[1..][j]))
        {
          assert s[1..][i] == s[i + 1] && s[1..][j] == s[j + 1];
        }
      }
      EscapeIsolated(s[1..]);
      if Special(s[0]) {
        assert |s| > 1 ==> !Special(s[1]);
        assert RunLength(s) == 1;
      }
    }
  }

  /** A run of two or more special characters passes through unescaped. */
  lemma EscapeLeavesRuns(run: string, rest: string)
    requires |run| >= 2 && forall i :: 0 <= i < |run| ==> Special(run[i])
    requires rest == [] || !Special(rest[0])
    ensures EscapeHtml(run + rest) == run + EscapeHtml(rest)
  {
    var s := run + rest;
    RunLengthOfRun(run, rest);
    assert s[..|run|] == run && s[|run|..] == rest;
  }

  lemma {:induction false} RunLengthOfRun(run: string, rest: string)
    requires forall i :: 0 <= i < |run| ==> Special(run[i])
    requires rest == [] || !Special(rest[0])
    ensures RunLength(run + rest) == |run|
    decreases |run|
  {
    if run != [] {
      RunLengthOfRun(run[1..], rest);
      assert (run + rest)[1..] == run[1..] + rest;
    } else {
      assert run + rest == rest;
    }
  }

  /** A special character standing alone becomes its entity. */
  lemma EscapeSingle(c: char, rest: string)
    requires Special(c) && (rest == [] || !Special(rest[0]))
    ensures EscapeHtml([c] + rest)
         == (if c == '&' then "&amp;" else if c == '<' then "&lt;" else if c == '>' then "&gt;" else "&quot;")
            + EscapeHtml(rest)
  {
    RunLengthOfRun([c], rest);
    assert ([c] + rest)[1..] == rest;
  }

  /** Two examples of the two regimes. */
  lemma EscapeExamples()
    ensures EscapeHtml("<b>") == "&lt;b&gt;"
    ensures EscapeHtml("<<") == "<<"
  {
    EscapeLeavesRuns("<<", "");
    assert "<<" + "" == "<<";
  }

  /** The body actually sent: with a greeting name, a greeting paragraph in
      front of the body (or of nothing); without one, the body as given. */
  function DecoratedBody(dearName: Option<string>, body: Option<string>): (r: Option<string>)
    ensures !Text.Truthy(dearName) ==> r == body
    ensures Text.Truthy(dearName) ==>
      r.Some? && Text.StartsWith(r.value, "<p>Dear Sir ")
      && |r.value| >= |Text.OrElse(body, "")|
      && r.value[|r.value| - |Text.OrElse(body, "")|..] == Text.OrElse(body, "")
    ensures Text.Truthy(dearName) ==>
      r == Some("<p>Dear Sir " + EscapeHtml(dearName.value) + "</p>\n" + Text.OrElse(body, ""))
  {
    if Text.Truthy(dearName) then
      Some("<p>Dear Sir " + EscapeHtml(dearName.value) + "</p>\n" + Text.OrElse(body, ""))
    else body
  }

  /** A greeting name without special characters appears in the paragraph
      exactly as given. */
  lemma GreetingKeepsPlainName(name: string, body: Option<string>)
    requires name != [] && forall i :: 0 <= i < |name| ==> !Special(name[i])
    ensures DecoratedBody(Some(name), body) == Some("<p>Dear Sir " + name + "</p>\n" + Text.OrElse(body, ""))
  {
    EscapePlainText(name);
  }

  /** A greeting name whose special characters stand alone cannot open or
      close markup inside the greeting paragraph. */
  lemma GreetingNeutralisesMarkup(name: string, body: Option<string>)
    requires name != [] && Isolated(name)
    ensures DecoratedBody(Some(name), body).Some?
    ensures var greeting := DecoratedBody(Some(name), body).value;
      var n := |greeting| - |"</p>\n" + Text.OrElse(body, "")|;
      |"<p>Dear Sir "| <= n && NoMarkup(greeting[|"<p>Dear Sir "|..n])
  {
    var e := EscapeHtml(name);
    EscapeIsolated(name);
    var greeting := "<p>Dear Sir " + e + "</p>\n" + Text.OrElse(body, "");
    assert greeting[|"<p>Dear Sir "|..|greeting| - |"</p>\n" + Text.OrElse(body, "")|] == e;
  }

  // -------------------------------------------------------------- replies

  /** `mapStatus` of the email controller; the kind may be absent. */
  function MapStatus(kind: Option<string>): (status: int)
    ensures status == 429 <==> kind == Some(DAILY_LIMIT)
    ensures status == 400 <==> kind == Some(INVALID_RECIPIENT)
    ensures status == 401 <==> kind == Some(AUTH_BROWSER_INTERACTION_REQUIRED)
    ensures status == 502 <==> kind == Some(SMTP_SYNTAX)
    ensures status in {429, 400, 401, 502, 500}
  {
    match kind
    case None => 500
    case Some(k) =>
      if k == DAILY_LIMIT then 429
      else if k == INVALID_RECIPIENT then 400
      else if k == AUTH_BROWSER_INTERACTION_REQUIRED then 401
      else if k == SMTP_SYNTAX then 502
      else 500
  }

  /** The controller's table and the error handler's agree on every kind. */
  lemma MapStatusAgrees(kind: string)
    ensures MapStatus(Some(kind)) == ErrorHandler.MapStatus(kind)
  {
  }

  /** The success payload (timestamps and the provider's own response left
      out). */
  datatype SentResponse = SentResponse(
    success: bool, message: string, subject: string, assignedAccountEmail: string,
    idempotencyKey: string, messageId: string)

  /** What is stored under a key and answered: a success payload or the
      mapped send failure. */
  datatype EmailBody = Sent(response: SentResponse) | Failed(e: ApiError)

  datatype EmailReply = EmailReply(status: int, body: EmailBody)

  type Entries = map<string, IdempotencyStore.Entry<EmailBody>>

  /** Everything one request does: the answer, the store afterwards, and the
      message handed to the transport, if any. */
  datatype Outcome = Outcome(reply: EmailReply, entries: Entries, mail: Option<EmailService.MailMessage>)

  /** Validation, recipient checks and attachment checks all pass. */
  predicate Accepted(req: EmailRequest, c: Collaborators) {
    SchemaAccepts(req, c)
    && CheckRecipients(Recipients(req.toEmail)) == None
    && AttachmentsVerdict(req.attachments, c.decodedLength) == None
  }

  /** The arguments of the send. */
  function SendParamsOf(d: EmailRequest): EmailService.SendParams {
    EmailService.SendParams(
      EmailService.SmtpParams(d.smtpUser, d.smtpPass, d.smtpServer, d.smtpPort),
      Recipients(d.toEmail), d.subject, DecoratedBody(d.dearName, d.body), d.replyTo,
      OptionalList(d.cc), OptionalList(d.bcc), d.attachments)
  }

  /** `sendEmailHandler` on the store contents `m`. The lookup happens at
      `now`; the transport answers `transport` and the outcome is recorded at
      `finishedAt`. */
  function Handle(req: EmailRequest, c: Collaborators, m: Entries, now: int,
                  transport: EmailService.SendOutcome, finishedAt: int): Outcome
  {
    if !SchemaAccepts(req, c) then
      Outcome(EmailReply(400, Failed(Fail(c.schemaMessage(req), VALIDATION))), m, None)
    else
      var d := Parsed(req);
      var rs := Recipients(d.toEmail);
      if CheckRecipients(rs).Some? then Outcome(EmailReply(400, Failed(CheckRecipients(rs).value)), m, None)
      else if AttachmentsVerdict(d.attachments, c.decodedLength).Some? then
        Outcome(EmailReply(400, Failed(AttachmentsVerdict(d.attachments, c.decodedLength).value)), m, None)
      else Deliver(d, c, m, now, transport, finishedAt)
  }

  /** The handler once the parsed request `d` has passed every check: replay
      a stored success, or send and record the outcome. */
  function Deliver(d: EmailRequest, c: Collaborators, m: Entries, now: int,
                   transport: EmailService.SendOutcome, finishedAt: int): Outcome
  {
    var key := IdempotencyKey(d, c);
    var look := IdempotencyStore.Get(m, key, now);
    if look.found.Some? && look.found.value.status == IdempotencyStore.Success then
      Outcome(EmailReply(200, look.found.value.response), look.after, None)
    else
      var params := SendParamsOf(d);
      var mail := EmailService.SingleMail(params);
      match EmailService.SendEmail(params, transport)
      case Success(id) =>
        var body := Sent(SentResponse(true, "Email sent", Text.OrElse(d.subject, ""), d.smtpUser, key, id));
        Outcome(EmailReply(200, body), look.after[key := IdempotencyStore.Entry(IdempotencyStore.Success, body, finishedAt)], Some(mail))
      case Failure(e) =>
        Outcome(EmailReply(MapStatus(Some(e.error.kind)), Failed(e)),
                look.after[key := IdempotencyStore.Entry(IdempotencyStore.Error, Failed(e), finishedAt)], Some(mail))
  }

  /** The handler itself, against the idempotency store object. */
  method SendEmailHandler(store: IdempotencyStore.Store<EmailBody>, req: EmailRequest, c: Collaborators, now: int,
                          transport: EmailService.SendOutcome, finishedAt: int)
    returns (reply: EmailReply, mail: Option<EmailService.MailMessage>)
    modifies store
    ensures reply == Handle(req, c, old(store.entries), now, transport, finishedAt).reply
    ensures mail == Handle(req, c, old(store.entries), now, transport, finishedAt).mail
    ensures store.entries == Handle(req, c, old(store.entries), now, transport, finishedAt).entries
  {
    if !SchemaAccepts(req, c) {
      return EmailReply(400, Failed(Fail(c.schemaMessage(req), VALIDATION))), None;
    }
    var d := Parsed(req);
    var recipients := Recipients(d.toEmail);
    if |recipients| == 0 {
      return EmailReply(400, Failed(Fail("The recipient address is empty", INVALID_RECIPIENT))), None;
    }
    if exists i :: 0 <= i < |recipients| && ' ' in recipients[i] {
      return EmailReply(400, Failed(Fail("The recipient address contains space", INVALID_RECIPIENT))), None;
    }
    if d.attachments.Some? && |d.attachments.value| > 0 {
      var problem := CheckAttachments(d.attachments.value, c.decodedLength);
      if problem.Some? {
        return EmailReply(400, Failed(problem.value)), None;
      }
    }
    var key := IdempotencyKey(d, c);
    var existing := store.GetIdempotent(key, now);
    if existing.Some? && existing.value.status == IdempotencyStore.Success {
      return EmailReply(200, existing.value.response), None;
    }
    var params := SendParamsOf(d);
    mail := Some(EmailService.SingleMail(params));
    match transport {
      case Delivered(id) =>
        var body := Sent(SentResponse(true, "Email sent", Text.OrElse(d.subject, ""), d.smtpUser, key, id));
        store.SetIdempotent(key, IdempotencyStore.Entry(IdempotencyStore.Success, body, finishedAt));
        reply := EmailReply(200, body);
      case Rejected(msg) =>
        var err := EmailService.MapSmtpError(msg);
        store.SetIdempotent(key, IdempotencyStore.Entry(IdempotencyStore.Error, Failed(err), finishedAt));
        reply := EmailReply(MapStatus(Some(err.error.kind)), Failed(err));
    }
  }

  // ------------------------------------------------------------ properties

  /** A request refused by validation, the recipient checks or the
      attachment checks sends nothing, leaves the store alone and answers
      400 with a VALIDATION or INVALID_RECIPIENT error. */
  lemma RefusalHasNoEffect(req: EmailRequest, c: Collaborators, m: Entries, now: int,
                           transport: EmailService.SendOutcome, finishedAt: int)
    requires !Accepted(req, c)
    ensures var o := Handle(req, c, m, now, transport, finishedAt);
      o.mail == None && o.entries == m && o.reply.status == 400
      && o.reply.body.Failed? && o.reply.body.e.error.kind in {VALIDATION, INVALID_RECIPIENT}
  {
    if SchemaAccepts(req, c) && CheckRecipients(Recipients(req.toEmail)) == None {
      AttachmentsAcceptedIff(req.attachments.value, c.decodedLength);
    }
  }

  /** A fresh successful entry under the request's key is answered as it
      was, with nothing sent and the store unchanged. */
  lemma SuccessReplayed(req: EmailRequest, c: Collaborators, m: Entries, now: int,
                        transport: EmailService.SendOutcome, finishedAt: int)
    requires Accepted(req, c)
    requires var key := IdempotencyKey(Parsed(req), c);
      key in m && m[key].status == IdempotencyStore.Success && !IdempotencyStore.Expired(m[key], now)
    ensures var o := Handle(req, c, m, now, transport, finishedAt);
      o.mail == None && o.entries == m
      && o.reply == EmailReply(200, m[IdempotencyKey(Parsed(req), c)].response)
  {
  }

  /** A recorded failure does not block a retry: the message is sent again
      and the new outcome replaces the old entry. */
  lemma ErrorEntryRetried(req: EmailRequest, c: Collaborators, m: Entries, now: int,
                          transport: EmailService.SendOutcome, finishedAt: int)
    requires Accepted(req, c)
    requires var key := IdempotencyKey(Parsed(req), c);
      key in m && m[key].status == IdempotencyStore.Error
    ensures var o := Handle(req, c, m, now, transport, finishedAt);
      var key := IdempotencyKey(Parsed(req), c);
      o.mail == Some(EmailService.SingleMail(SendParamsOf(Parsed(req))))
      && key in o.entries && o.entries[key].createdAt == finishedAt
      && (o.entries[key].status == IdempotencyStore.Success <==> transport.Delivered?)
  {
  }

  /** Every send is recorded under the key with what was answered, and the
      answer's status is 200 exactly for a delivered message. */
  lemma SendRecorded(req: EmailRequest, c: Collaborators, m: Entries, now: int,
                     transport: EmailService.SendOutcome, finishedAt: int)
    requires Handle(req, c, m, now, transport, finishedAt).mail.Some?
    ensures var o := Handle(req, c, m, now, transport, finishedAt);
      var key := IdempotencyKey(Parsed(req), c);
      key in o.entries && o.entries[key].response == o.reply.body
      && (o.reply.status == 200 <==> transport.Delivered?)
      && (transport.Rejected? ==> o.reply.body == Failed(EmailService.MapSmtpError(transport.message)))
  {
    HandleDelivers(req, c, m, now, transport, finishedAt);
    DeliverRecords(Parsed(req), c, m, now, transport, finishedAt);
  }

  /** A request that reaches the transport has passed every check. */
  lemma HandleDelivers(req: EmailRequest, c: Collaborators, m: Entries, now: int,
                       transport: EmailService.SendOutcome, finishedAt: int)
    ensures Handle(req, c, m, now, transport, finishedAt).mail.Some? ==>
      Handle(req, c, m, now, transport, finishedAt) == Deliver(Parsed(req), c, m, now, transport, finishedAt)
  {
    if SchemaAccepts(req, c) {
      var d := Parsed(req);
      if CheckRecipients(Recipients(d.toEmail)).None? && AttachmentsVerdict(d.attachments, c.decodedLength).None? {
        assert Handle(req, c, m, now, transport, finishedAt) == Deliver(d, c, m, now, transport, finishedAt);
      }
    }
  }

  lemma DeliverRecords(d: EmailRequest, c: Collaborators, m: Entries, now: int,
                       transport: EmailService.SendOutcome, finishedAt: int)
    requires Deliver(d, c, m, now, transport, finishedAt).mail.Some?
    ensures var o := Deliver(d, c, m, now, transport, finishedAt);
      var key := IdempotencyKey(d, c);
      key in o.entries && o.entries[key].response == o.reply.body
      && (o.reply.status == 200 <==> transport.Delivered?)
      && (transport.Rejected? ==> o.reply.body == Failed(EmailService.MapSmtpError(transport.message)))
  {
  }

  /** The same request twice within the lifetime of an entry: the second is
      answered from the store and sends nothing, whatever its transport
      would have done. */
  lemma DuplicateSendsOnce(req: EmailRequest, c: Collaborators, m: Entries, now1: int, id: string,
                           finishedAt: int, now2: int, transport2: EmailService.SendOutcome, finishedAt2: int)
    requires Accepted(req, c)
    requires now2 - finishedAt <= IdempotencyStore.TTL_MS
    ensures var first := Handle(req, c, m, now1, EmailService.Delivered(id), finishedAt);
      first.mail.Some?
      ==> (var second := Handle(req, c, first.entries, now2, transport2, finishedAt2);
           second.mail == None && second.reply == first.reply && second.entries == first.entries)
  {
  }
}
