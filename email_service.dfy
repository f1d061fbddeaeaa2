/** Mail dispatch: the message record handed to the SMTP transport for a
    single send and for each item of a batch, the batch loop with its summary,
    and the classification of transport failures by message text. The
    transport itself is an oracle: one `SendOutcome` per message sent. */
module EmailService {
  import opened Wrappers
  import opened Api
  import Text

  /** SMTP credentials and target of a send. */
  datatype SmtpParams = SmtpParams(smtpUser: string, smtpPass: string, smtpServer: string, smtpPort: int)

  /** An attachment as the caller supplies it: a PDF in base64. */
  datatype Attachment = Attachment(filename: string, contentBase64: string)

  /** An attachment as handed to the transport. */
  datatype MailAttachment = MailAttachment(filename: string, contentBase64: string, contentType: string)

  /** The options `createTransport` receives. */
  datatype TransportOptions = TransportOptions(
    host: string, port: int, secure: bool, user: string, pass: string,
    pool: bool, maxConnections: nat, maxMessages: nat)

  /** The message record `sendMail` receives. */
  datatype MailMessage = MailMessage(
    from: string,
    to: string,
    subject: Option<string>,
    html: Option<string>,
    text: Option<string>,
    replyTo: Option<string>,
    cc: Option<string>,
    bcc: Option<string>,
    attachments: Option<seq<MailAttachment>>)

  /** What the transport does with one message: accept it with a message id,
      or throw an error whose `message` may be absent. */
  datatype SendOutcome = Delivered(messageId: string) | Rejected(message: Option<string>)

  /** The arguments of `sendEmail`. */
  datatype SendParams = SendParams(
    smtp: SmtpParams,
    to: seq<string>,
    subject: Option<string>,
    body: Option<string>,
    replyTo: Option<string>,
    cc: Option<seq<string>>,
    bcc: Option<seq<string>>,
    attachments: Option<seq<Attachment>>)

  // ------------------------------------------------------- classification

  const DAILY_LIMIT_TEXT: string := "Daily user sending limit exceeded"
  const INVALID_RECIPIENT_TEXT: string := "The recipient address"
  const AUTH_BROWSER_TEXT: string := "Please log in with your web browser and then try again"
  const SMTP_SYNTAX_TEXT: string := "Syntax error, cannot decode response"

  /** `mapSmtpError`: keep the raw message and classify it by the first of
      four phrases it contains, in a fixed order of priority. */
  function MapSmtpError(errMessage: Option<string>): (e: ApiError)
    ensures !e.success && e.error.message == Text.OrElse(errMessage, "")
  {
    var raw := Text.OrElse(errMessage, "");
    var kind :=
      if Text.Contains(raw, DAILY_LIMIT_TEXT) then DAILY_LIMIT
      else if Text.Contains(raw, INVALID_RECIPIENT_TEXT) then INVALID_RECIPIENT
      else if Text.Contains(raw, AUTH_BROWSER_TEXT) then AUTH_BROWSER_INTERACTION_REQUIRED
      else if Text.Contains(raw, SMTP_SYNTAX_TEXT) then SMTP_SYNTAX
      else SMTP_ERROR;
    Fail(raw, kind)
  }

  /** The kind `mapSmtpError` assigns is the first phrase, in priority order,
      that occurs somewhere in the message; SMTP_ERROR when none does. */
  lemma ClassificationPriority(raw: string)
    ensures var kind := MapSmtpError(Some(raw)).error.kind;
      (kind == DAILY_LIMIT <==> exists i :: Text.OccursAt(raw, DAILY_LIMIT_TEXT, i))
      && (kind == INVALID_RECIPIENT <==>
            (!exists i :: Text.OccursAt(raw, DAILY_LIMIT_TEXT, i))
            && exists i :: Text.OccursAt(raw, INVALID_RECIPIENT_TEXT, i))
      && (kind == AUTH_BROWSER_INTERACTION_REQUIRED <==>
            (!exists i :: Text.OccursAt(raw, DAILY_LIMIT_TEXT, i))
            && (!exists i :: Text.OccursAt(raw, INVALID_RECIPIENT_TEXT, i))
            && exists i :: Text.OccursAt(raw, AUTH_BROWSER_TEXT, i))
      && (kind == SMTP_SYNTAX <==>
            (!exists i :: Text.OccursAt(raw, DAILY_LIMIT_TEXT, i))
            && (!exists i :: Text.OccursAt(raw, INVALID_RECIPIENT_TEXT, i))
            && (!exists i :: Text.OccursAt(raw, AUTH_BROWSER_TEXT, i))
            && exists i :: Text.OccursAt(raw, SMTP_SYNTAX_TEXT, i))
      && (kind == SMTP_ERROR <==>
            (!exists i :: Text.OccursAt(raw, DAILY_LIMIT_TEXT, i))
            && (!exists i :: Text.OccursAt(raw, INVALID_RECIPIENT_TEXT, i))
            && (!exists i :: Text.OccursAt(raw, AUTH_BROWSER_TEXT, i))
            && (!exists i :: Text.OccursAt(raw, SMTP_SYNTAX_TEXT, i)))
  {
    Text.ContainsIff(raw, DAILY_LIMIT_TEXT);
    Text.ContainsIff(raw, INVALID_RECIPIENT_TEXT);
    Text.ContainsIff(raw, AUTH_BROWSER_TEXT);
    Text.ContainsIff(raw, SMTP_SYNTAX_TEXT);
  }

  // ------------------------------------------------------- single send

  /** `list.join(', ')`, the form recipient lists take in a message. */
  function JoinAddresses(xs: seq<string>): string {
    Text.Join(xs, ", ")
  }

  /** `list?.length ? list.join(', ') : undefined`. */
  function OptionalAddresses(xs: Option<seq<string>>): (r: Option<string>)
    ensures r.Some? <==> xs.Some? && |xs.value| > 0
    ensures r.Some? ==> r.value == JoinAddresses(xs.value)
  {
    if xs.Some? && |xs.value| > 0 then Some(JoinAddresses(xs.value)) else None
  }

  /** The attachments mapped for the transport, all typed as PDF. */
  function ForTransport(atts: seq<Attachment>): (r: seq<MailAttachment>)
    ensures |r| == |atts|
    ensures forall i :: 0 <= i < |r| ==>
      r[i].filename == atts[i].filename && r[i].contentBase64 == atts[i].contentBase64
      && r[i].contentType == "application/pdf"
  {
    seq(|atts|, i requires 0 <= i < |atts| => MailAttachment(atts[i].filename, atts[i].contentBase64, "application/pdf"))
  }

  /** The transport of a single send: TLS from the start only on port 465. */
  function SingleTransport(smtp: SmtpParams): (t: TransportOptions)
    ensures t.secure <==> smtp.smtpPort == 465
    ensures t.host == smtp.smtpServer && t.port == smtp.smtpPort && !t.pool
  {
    TransportOptions(smtp.smtpServer, smtp.smtpPort, smtp.smtpPort == 465, smtp.smtpUser, smtp.smtpPass, false, 0, 0)
  }

  /** The message `sendEmail` hands to the transport. */
  function SingleMail(p: SendParams): (m: MailMessage)
    ensures m.from == p.smtp.smtpUser && m.to == JoinAddresses(p.to)
    ensures m.subject == p.subject && m.html == p.body && m.text == p.body && m.replyTo == p.replyTo
    ensures m.cc.Some? <==> p.cc.Some? && |p.cc.value| > 0
    ensures m.bcc.Some? <==> p.bcc.Some? && |p.bcc.value| > 0
    ensures m.attachments.Some? <==> p.attachments.Some? && |p.attachments.value| > 0
    ensures m.cc == OptionalAddresses(p.cc) && m.bcc == OptionalAddresses(p.bcc)
    ensures m.attachments.Some? ==> m.attachments.value == ForTransport(p.attachments.value)
  {
    MailMessage(
      p.smtp.smtpUser, JoinAddresses(p.to), p.subject, p.body, p.body, p.replyTo,
      OptionalAddresses(p.cc), OptionalAddresses(p.bcc),
      if p.attachments.Some? && |p.attachments.value| > 0 then Some(ForTransport(p.attachments.value)) else None)
  }

  /** `sendEmail`: the transport's message id, or the classified failure. */
  function SendEmail(p: SendParams, outcome: SendOutcome): (r: Result<string, ApiError>)
    ensures r.Success? <==> outcome.Delivered?
    ensures outcome.Rejected? ==> r.error == MapSmtpError(outcome.message)
  {
    match outcome
    case Delivered(id) => Success(id)
    case Rejected(msg) => Failure(MapSmtpError(msg))
  }

  // --------------------------------------------------------------- batch

  /** One entry of a batch. */
  datatype BatchItem = BatchItem(
    to: seq<string>,
    subject: Option<string>,
    body: Option<string>,
    replyTo: Option<string>,
    cc: Option<seq<string>>,
    bcc: Option<seq<string>>,
    attachments: Option<seq<Attachment>>)

  /** The arguments of `sendEmailBatch`. */
  datatype BatchParams = BatchParams(
    smtp: SmtpParams,
    items: seq<BatchItem>,
    defaultSubject: Option<string>,
    defaultBody: Option<string>,
    defaultAttachments: Option<seq<Attachment>>)

  /** The report on one item. */
  datatype BatchResultItem = BatchResultItem(
    to: seq<string>, subject: Option<string>, success: bool,
    messageId: Option<string>, error: Option<ErrorBody>)

  /** The report on the whole batch. */
  datatype BatchSummary = BatchSummary(
    success: bool, message: string, total: nat, sent: nat, failed: nat,
    results: seq<BatchResultItem>)

  /** The transport of a batch: one pooled connection reused for every item. */
  function BatchTransport(p: BatchParams): (t: TransportOptions)
    ensures t.secure <==> p.smtp.smtpPort == 465
    ensures t.pool && t.maxConnections == 1 && t.maxMessages == |p.items|
  {
    TransportOptions(p.smtp.smtpServer, p.smtp.smtpPort, p.smtp.smtpPort == 465, p.smtp.smtpUser, p.smtp.smtpPass,
                     true, 1, |p.items|)
  }

  /** The message sent for one item: the item's own subject, body and
      attachments, each falling back to the batch default. */
  function BatchMail(p: BatchParams, item: BatchItem): (m: MailMessage)
    ensures m.to == JoinAddresses(item.to)
    ensures m.subject == Text.OrOption(item.subject, p.defaultSubject)
    ensures m.html == Text.OrOption(item.body, p.defaultBody) && m.text == m.html
    ensures m.from == p.smtp.smtpUser && m.replyTo == item.replyTo
    ensures m.cc == OptionalAddresses(item.cc) && m.bcc == OptionalAddresses(item.bcc)
    ensures item.attachments.Some? && |item.attachments.value| > 0 ==>
      m.attachments == Some(ForTransport(item.attachments.value))
    ensures !(item.attachments.Some? && |item.attachments.value| > 0) ==>
      m.attachments == (if p.defaultAttachments.Some? then Some(ForTransport(p.defaultAttachments.value)) else None)
  {
    var atts := if item.attachments.Some? && |item.attachments.value| > 0 then item.attachments else p.defaultAttachments;
    MailMessage(
      p.smtp.smtpUser, JoinAddresses(item.to),
      Text.OrOption(item.subject, p.defaultSubject),
      Text.OrOption(item.body, p.defaultBody), Text.OrOption(item.body, p.defaultBody),
      item.replyTo, OptionalAddresses(item.cc), OptionalAddresses(item.bcc),
      if atts.Some? then Some(ForTransport(atts.value)) else None)
  }

  /** The report on one item given what the transport did with it. */
  function ItemResult(p: BatchParams, item: BatchItem, outcome: SendOutcome): (r: BatchResultItem)
    ensures r.to == item.to && r.subject == Text.OrOption(item.subject, p.defaultSubject)
    ensures r.success <==> outcome.Delivered?
    ensures outcome.Rejected? ==> r.error == Some(MapSmtpError(outcome.message).error) && r.messageId == None
    ensures outcome.Delivered? ==> r.messageId == Some(outcome.messageId) && r.error == None
  {
    var subject := Text.OrOption(item.subject, p.defaultSubject);
    match outcome
    case Delivered(id) => BatchResultItem(item.to, subject, true, Some(id), None)
    case Rejected(msg) => BatchResultItem(item.to, subject, false, None, Some(MapSmtpError(msg).error))
  }

  /** `results.filter(r => r.success).length`. */
  function CountSent(rs: seq<BatchResultItem>): (n: nat)
    ensures n <= |rs|
    ensures n == |rs| <==> forall i :: 0 <= i < |rs| ==> rs[i].success
    ensures n == 0 <==> forall i :: 0 <= i < |rs| ==> !rs[i].success
    decreases |rs|
  {
    if rs == [] then 0
    else (if rs[0].success then 1 else 0) + CountSent(rs[1..])
  }

  /** The number of messages the transport accepted. */
  function CountDelivered(outcomes: seq<SendOutcome>): nat
    decreases |outcomes|
  {
    if outcomes == [] then 0
    else (if outcomes[0].Delivered? then 1 else 0) + CountDelivered(outcomes[1..])
  }

  /** The summary headline. */
  function SummaryMessage(sent: nat, failed: nat): (r: string)
    ensures r == "All emails sent" <==> failed == 0
    ensures r == "Partial success" <==> failed > 0 && sent > 0
    ensures r == "All failed" <==> failed > 0 && sent == 0
  {
    if failed == 0 then "All emails sent" else if sent > 0 then "Partial success" else "All failed"
  }

  /** `sendEmailBatch`: send every item in order over one connection, record
      one result per item whatever happened to the others, then count. The
      i-th send has outcome `outcomes[i]`; `mails` are the messages sent. */
  method SendEmailBatch(p: BatchParams, outcomes: seq<SendOutcome>)
    returns (summary: BatchSummary, mails: seq<MailMessage>)
    requires |outcomes| == |p.items|
    ensures |mails| == |p.items| && forall i :: 0 <= i < |mails| ==> mails[i] == BatchMail(p, p.items[i])
    ensures |summary.results| == |p.items|
    ensures forall i :: 0 <= i < |p.items| ==> summary.results[i] == ItemResult(p, p.items[i], outcomes[i])
    ensures summary.total == |p.items| && summary.sent == CountDelivered(outcomes)
    ensures summary.failed == summary.total - summary.sent
    ensures summary.success <==> summary.failed == 0
    ensures summary.message == SummaryMessage(summary.sent, summary.failed)
  {
    var results: seq<BatchResultItem> := [];
    mails := [];
    for i := 0 to |p.items|
      invariant |results| == i && |mails| == i
      invariant forall j :: 0 <= j < i ==> results[j] == ItemResult(p, p.items[j], outcomes[j])
      invariant forall j :: 0 <= j < i ==> mails[j] == BatchMail(p, p.items[j])
    {
      var item := p.items[i];
      mails := mails + [BatchMail(p, item)];
      results := results + [ItemResult(p, item, outcomes[i])];
    }
    var sent := CountSent(results);
    SentMatchesDelivered(p, outcomes, results);
    var failed := |results| - sent;
    summary := BatchSummary(failed == 0, SummaryMessage(sent, failed), |results|, sent, failed, results);
  }

  /** Counting successful results is counting accepted messages. */
  lemma {:induction false} SentMatchesDelivered(p: BatchParams, outcomes: seq<SendOutcome>, rs: seq<BatchResultItem>)
    requires |rs| == |outcomes| <= |p.items|
    requires forall j :: 0 <= j < |rs| ==> rs[j] == ItemResult(p, p.items[j], outcomes[j])
    ensures CountSent(rs) == CountDelivered(outcomes)
    decreases |rs|
  {
    if rs != [] {
      SentMatchesDelivered(p.(items := p.items[1..]), outcomes[1..], rs[1..]);
    }
  }

  /** A batch of three whose second item is refused for its recipient still
      sends the other two: 3 in all, 2 sent, 1 failed, and the failure is
      classified INVALID_RECIPIENT with the transport's text kept. */
  lemma MiddleItemFails(p: BatchParams, id1: string, id3: string, detail: string)
    requires |p.items| == 3 && 'D' !in detail
    ensures var outcomes := [Delivered(id1), Rejected(Some(INVALID_RECIPIENT_TEXT + detail)), Delivered(id3)];
      var r := ItemResult(p, p.items[1], outcomes[1]);
      CountDelivered(outcomes) == 2
      && !r.success
      && r.error == Some(ErrorBody(INVALID_RECIPIENT_TEXT + detail, INVALID_RECIPIENT))
      && SummaryMessage(CountDelivered(outcomes), |outcomes| - CountDelivered(outcomes)) == "Partial success"
  {
    var raw := INVALID_RECIPIENT_TEXT + detail;
    var outcomes := [Delivered(id1), Rejected(Some(raw)), Delivered(id3)];
    assert outcomes[1..][1..] == [Delivered(id3)];
    assert CountDelivered([Delivered(id3)]) == 1 by {
      assert [Delivered(id3)][1..] == [];
    }
    assert CountDelivered(outcomes[1..]) == 1;
    assert Text.OccursAt(raw, INVALID_RECIPIENT_TEXT, 0);
    Text.ContainsIff(raw, INVALID_RECIPIENT_TEXT);
    Text.AbsentWithoutFirstChar(raw, DAILY_LIMIT_TEXT);
  }
}
