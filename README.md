# Email relay and image-generation server: verified model of the core

This project models, in Dafny, the core of a small HTTP server with two jobs:

- relaying e-mail over a caller-supplied SMTP account (`POST /send-email`);
- generating images through a pool of provider API keys (`POST /generate-image`).

The model covers these parts:

- **Idempotency store** (`idempotency_store.dfy`): an in-memory map from a request fingerprint to the recorded outcome. Each entry lives for five minutes. A lookup purges a stale entry, and a periodic sweep purges all of them.
- **Key manager** (`key_manager.dfy`): an array of key records and a round-robin pointer.
  - `pickKey` hands out the next key that is not cooling down. A key whose cooldown is over is rehabilitated.
  - `reportSuccess` and `reportError` update a key's health. A severe failure, or a third failure in a row, quarantines the key for five minutes.
  - `listKeyStates` shows the records with the keys masked.
- **E-mail service** (`email_service.dfy`): the transport options and the message built for one send and for a batch. Transport errors are classified by phrase, and the batch is summarised.
- **E-mail controller** (`email_controller.dfy`): the send-email handler.
  - It validates the body against the schema.
  - It splits and checks the recipients.
  - It enforces the per-attachment and total attachment size limits.
  - It derives the idempotency key, replays a stored success, adds the greeting line and sends.
  - It records the outcome and chooses the HTTP status.
- **Gemini client** (`gemini_client.dfy`): clamps the image count, picks a key, calls the provider and reports the outcome to the key manager.
- **Gemini controller** (`gemini_controller.dfy`): the image handler, with its `return=binary` decision table and its own status mapping.
- **Prompt template** (`template.dfy`): the sections of the image prompt and how they are joined. The sections are built from a `Wording` record so that their properties are proved for any wording. `WORDING` holds the server's Vietnamese text.
- **Error handler** (`error_handler.dfy`): the last-resort Express handler.

Two kinds of module support these:

- `text.dfy` models the JavaScript string operations the code relies on: `trim`, `split`, `join`, `includes`, `||` on strings, truthiness and decimal printing.
- `api.dfy` holds the error envelope `{ success: false, error: { message, type } }` and its kinds.

Where the code updates state in place, the model does too:

- The store is a class with a `map` field.
- The key manager is a class over an `array`.
- The batch send and the attachment check are loops.

Each such method is proved equal to a pure function of the old state. The properties are proved about those functions.

Everything outside the server is a parameter of the model:

- the clock readings;
- the SMTP transport's answer (`SendOutcome`);
- whether the provider call throws (`ProviderCall`);
- the zod validators and their error text;
- the SHA-256 digest;
- the base64 decoder.

### Behaviour of the code worth knowing

These follow from the code as written, and the model keeps them:

- **Only a stored success is replayed.** The handler short-circuits when the stored entry's status is `success` (`src/controllers/emailController.ts:105-119`). A stored error does not stop a new attempt, whose outcome then overwrites it (`EmailController.ErrorEntryRetried`).
- **`return=binary` with two images is refused after the provider call.** The image count is checked only once `generateImages` has returned (`src/controllers/geminiController.ts:23-32`). By then a key has been handed out and reported (`GeminiController.BinaryWithTwoImagesRefusedAfterCall`).
- **The provider is a fixed placeholder.** `callGemini` always returns `n` copies of one one-pixel PNG, each id made of a clock reading and the image index (`src/services/gemini/geminiClient.ts:31-42`).
- **A space after a comma in `to_email` is accepted.** The recipients are trimmed before the space check (`src/controllers/emailController.ts:72-78`), so `"a@x.com, b@x.com"` passes (`EmailController.SpaceAfterCommaAccepted`). Only a space inside an address is refused (`EmailController.InnerSpaceRefused`).
- **Runs of special characters are not escaped.** `escapeHtml` matches a run of `&<>"` as a whole and looks the run up in a table of single characters (`src/controllers/emailController.ts:148-150`). A run of two or more is not in the table and is left as it was (`EmailController.EscapeLeavesRuns`). An isolated special character becomes its entity (`EmailController.EscapeSingle`), so a text whose special characters all stand alone has no markup left (`EmailController.EscapeIsolated`).

## Model

| member | source | states |
|---|---|---|
| IdempotencyStore.Get | src/lib/idempotencyStore.ts:11-19 | a lookup finds an entry exactly when the key is present and at most TTL_MS old, returns it unchanged, and deletes only that key when it is stale |
| IdempotencyStore.Store.constructor | src/lib/idempotencyStore.ts:4 | the store starts empty |
| IdempotencyStore.Store.SetIdempotent | src/lib/idempotencyStore.ts:7-9 | the entry is stored or overwritten under the key, every other key unchanged |
| IdempotencyStore.Store.GetIdempotent | src/lib/idempotencyStore.ts:11-19 | the method answers and leaves the store as the lookup function does |
| IdempotencyStore.Store.CleanupIdempotency | src/lib/idempotencyStore.ts:21-26 | after the loop the store holds exactly the entries that are not stale at `now` |
| IdempotencyStore.GetAfterSet | src/lib/idempotencyStore.ts:7-19 | a fresh entry just stored is served back exactly |
| IdempotencyStore.SetIsolated | src/lib/idempotencyStore.ts:7-9 | storing under one key does not change what a lookup of another key finds |
| IdempotencyStore.GetAbsent | src/lib/idempotencyStore.ts:12-13 | an absent key is reported absent and the store is unchanged |
| IdempotencyStore.GetExpired | src/lib/idempotencyStore.ts:14-17 | a stale entry is reported absent and only its key is removed |
| IdempotencyStore.TtlInclusive | src/lib/idempotencyStore.ts:14 | an entry exactly five minutes old is still served |
| IdempotencyStore.LiveKeepsExactlyFresh | src/lib/idempotencyStore.ts:21-26 | the sweep keeps a key iff it is present and at most TTL_MS old, with its entry unmodified |
| IdempotencyStore.Live | src/lib/idempotencyStore.ts:21-26 | the sweep only removes: every entry it keeps is the original entry under the same key, and none it keeps is stale |
| IdempotencyStore.SweepIdempotent | src/lib/idempotencyStore.ts:21-26 | sweeping twice at one instant equals sweeping once |
| IdempotencyStore.SweepLater | src/lib/idempotencyStore.ts:21-29 | a later sweep subsumes an earlier one |
| IdempotencyStore.SweepAgreesWithLookup | src/lib/idempotencyStore.ts:11-26 | the lazy and the periodic purge agree: a lookup finds the same before and after a sweep, and a sweep after a lookup leaves the same store |
| KeyManager.ScanFrom | src/services/gemini/keyManager.ts:25-28 | the scan returns the first offset from the pointer whose key is not cooling down, or none when every remaining one is |
| KeyManager.Pick | src/services/gemini/keyManager.ts:23-38 | with no eligible key nothing changes; otherwise only the returned record changes (stamped, possibly rehabilitated) and the pointer moves just past it |
| KeyManager.Find | src/services/gemini/keyManager.ts:41 | the first record carrying the key, or none when no record does |
| KeyManager.SuccessStep | src/services/gemini/keyManager.ts:40-46 | only the found record changes: no failures and healthy |
| KeyManager.ErrorStep | src/services/gemini/keyManager.ts:48-56 | only the found record changes; an unknown key changes nothing |
| KeyManager.Mask | src/services/gemini/keyManager.ts:62-65 | a key of up to eight characters is `****`; a longer one is its first four characters, then `...`, then its last four |
| KeyManager.Views | src/services/gemini/keyManager.ts:58-60 | one view per record, with the masked key, health, deadline and failure count |
| KeyManager.Manager.constructor | src/services/gemini/keyManager.ts:13-21 | one healthy record per configured key, indexed by position, with no failures, and the pointer at 0 |
| KeyManager.Initial | src/services/gemini/keyManager.ts:13-19 | one record per configured key, in order, each healthy, with no cooldown and no failures, and the invariant holds |
| KeyManager.Manager.PickKey | src/services/gemini/keyManager.ts:23-38 | the returned record, the array and the pointer are those of `Pick` on the old state |
| KeyManager.Manager.ReportSuccess | src/services/gemini/keyManager.ts:40-46 | the records become `SuccessStep` of the old ones |
| KeyManager.Manager.ReportError | src/services/gemini/keyManager.ts:48-56 | the records become `ErrorStep` of the old ones |
| KeyManager.Manager.ListKeyStates | src/services/gemini/keyManager.ts:58-60 | one entry per record, in order, with the masked key, the health, the cooldown and the error count of that record |
| KeyManager.InvariantKept | src/services/gemini/keyManager.ts:23-38 | `pickKey` keeps the records well formed (index equals position) and the pointer in range |
| KeyManager.InvariantKeptBySuccess | src/services/gemini/keyManager.ts:40-46 | `reportSuccess` keeps the records well formed and never clears a deadline |
| KeyManager.InvariantKeptByError | src/services/gemini/keyManager.ts:48-56 | `reportError` keeps the records well formed |
| KeyManager.PickNoneIff | src/services/gemini/keyManager.ts:25-37 | `pickKey` returns null exactly when every key is cooling down |
| KeyManager.PickFirstEligible | src/services/gemini/keyManager.ts:25-35 | the key returned is the first one, counting round from the pointer, that is not cooling down |
| KeyManager.PickRehabilitatesOnlyReturned | src/services/gemini/keyManager.ts:29-34 | only the returned record changes; it is stamped `lastUsed = now` and reset to healthy exactly when its cooldown is over |
| KeyManager.RoundRobin | src/services/gemini/keyManager.ts:26-33 | with every key eligible, successive calls at one instant return consecutive positions modulo the number of keys |
| KeyManager.RoundRobinDistinct | src/services/gemini/keyManager.ts:26-33 | with every key eligible, as many calls as there are keys each hand out a key, and no two hand out the same one |
| KeyManager.FindStable | src/services/gemini/keyManager.ts:41-49 | the health updates never change which record carries which key |
| KeyManager.SuccessIdempotent | src/services/gemini/keyManager.ts:40-46 | `reportSuccess` is idempotent, and a no-op for an unknown key |
| KeyManager.ErrorStepEffect | src/services/gemini/keyManager.ts:48-56 | the failure is counted; the key is quarantined until now + 5 min iff the failure is severe or the count reaches 3, and otherwise health and deadline are unchanged |
| KeyManager.QuarantineLastsCooldown | src/services/gemini/keyManager.ts:28-31 | a quarantined key is skipped exactly until its deadline, and from then on it is handed out healthy with no failures |
| KeyManager.ThreeStrikes | src/services/gemini/keyManager.ts:51-55 | three non-severe failures in a row quarantine a healthy key; the first two leave it healthy |
| KeyManager.MaskForgetsMiddle | src/services/gemini/keyManager.ts:62-65 | keys that agree on their first and last four characters mask alike, and so do all short keys |
| EmailService.MapSmtpError | src/services/emailService.ts:153-164 | the error envelope keeps the raw message (empty when absent) |
| EmailService.ClassificationPriority | src/services/emailService.ts:158-161 | the kind is the first phrase, in priority order, occurring in the message, and SMTP_ERROR iff none occurs |
| EmailService.OptionalAddresses | src/services/emailService.ts:85-86 | a cc or bcc header is present iff the list is present and non-empty, and then it is the list joined by `, ` |
| EmailService.ForTransport | src/services/emailService.ts:71-75 | one PDF attachment per input, keeping its name and content |
| EmailService.SingleTransport | src/services/emailService.ts:63-69 | the connection is implicit TLS iff the port is 465; no pool |
| EmailService.SingleMail | src/services/emailService.ts:71-88 | sender, recipients joined by `, `, subject, html and text bodies, reply-to; cc and bcc as joined lists, present iff non-empty; the attachments, present iff non-empty, each mapped to a PDF |
| EmailService.SendEmail | src/services/emailService.ts:77-94 | succeeds iff the transport delivers; a rejection throws the classified error |
| EmailService.BatchTransport | src/services/emailService.ts:99-109 | a pooled connection, one at a time, for as many messages as items; TLS iff port 465 |
| EmailService.BatchMail | src/services/emailService.ts:113-129 | each item's message is sent from the SMTP user to its joined recipients with its reply-to; subject and body fall back to the defaults; cc and bcc are present only when non-empty; the item's own attachments are used when it has some, the default attachments otherwise |
| EmailService.ItemResult | src/services/emailService.ts:130-136 | an item succeeds iff delivered; a delivered item carries the transport's message id and no error; a failure carries the classified error and no message id |
| EmailService.CountSent | src/services/emailService.ts:141 | the count equals the total iff every item succeeded, and is zero iff none did |
| EmailService.SummaryMessage | src/services/emailService.ts:145 | `All emails sent` iff nothing failed, `Partial success` iff some failed and some were sent, `All failed` iff some failed and none was sent |
| EmailService.SendEmailBatch | src/services/emailService.ts:97-151 | one message and one result per item, in order; sent is the number delivered, failed is the rest, success iff none failed, and the matching summary message |
| EmailService.SentMatchesDelivered | src/services/emailService.ts:141 | counting successful results equals counting delivered outcomes |
| EmailService.MiddleItemFails | src/services/emailService.ts:130-148 | a batch whose middle item is refused for its recipient reports 2 sent, that item's INVALID_RECIPIENT error, and "Partial success" |
| EmailController.Parsed | src/controllers/emailController.ts:22 | parsing changes only the password, which becomes the password with every white-space character removed |
| EmailController.SchemaAccepts | src/controllers/emailController.ts:11-30 | an accepted body has a non-empty `to_email`, password and server; subject and greeting name of at most 255 characters and a body of at most 200000; a positive port; a valid sender, optional reply-to and optional UUID key; and at most five attachments, each with a non-empty name ending in `.pdf` in any letter case and at least 10 characters of content |
| EmailController.WhitespacePasswordSentEmpty | src/controllers/emailController.ts:22 | the password's length is checked before its white space is stripped, so a password of only white space is accepted and becomes empty |
| EmailController.OptionalList | src/controllers/emailController.ts:134-135 | cc and bcc are parsed iff the field is non-empty, and then they are the field's comma list (split on `,`, trimmed, empty parts dropped) |
| EmailController.CheckRecipients | src/controllers/emailController.ts:72-78 | the recipients pass iff there is at least one and none contains a space; an empty list is refused with its own message |
| EmailController.SpaceAfterCommaAccepted | src/controllers/emailController.ts:72-78 | two addresses separated by `, ` are split into exactly those addresses and accepted |
| EmailController.InnerSpaceRefused | src/controllers/emailController.ts:72-78 | a list joined by `, ` splits back into its addresses, and is refused when one of them contains a space |
| EmailController.Step | src/controllers/emailController.ts:83-96 | one attachment: a failure sticks; an attachment that decodes and fits adds its size, otherwise the walk fails with VALIDATION |
| EmailController.ScanSucceedsIff | src/controllers/emailController.ts:81-97 | the walk succeeds iff every attachment decodes and is at most 1.6 MiB, and then its total is the sum of the sizes |
| EmailController.Scan | src/controllers/emailController.ts:81-97 | every refusal of the attachment walk is a VALIDATION error |
| EmailController.AttachmentsVerdict | src/controllers/emailController.ts:81-101 | no attachments means no refusal; every refusal is a VALIDATION error |
| EmailController.AttachmentsAcceptedIff | src/controllers/emailController.ts:81-101 | attachments are accepted iff each fits and their total is at most 6 MiB; a refusal is a VALIDATION error |
| EmailController.DataUrlStripped | src/controllers/emailController.ts:84-86 | a `data:application/pdf;base64,` prefix in any letter case is stripped before decoding |
| EmailController.CheckAttachments | src/controllers/emailController.ts:81-101 | the loop's verdict equals the attachment verdict function |
| EmailController.IdempotencyKey | src/controllers/emailController.ts:104 | the caller's key is used verbatim when given, otherwise the digest of the fingerprint |
| EmailController.KeyIgnoresSecretAndExtras | src/controllers/emailController.ts:32-47 | the derived key does not depend on the password, the greeting name or the attachments |
| EmailController.KeyNormalisesMissingFields | src/controllers/emailController.ts:34-44 | missing and empty optional fields derive the same key |
| EmailController.EscapePlainText | src/controllers/emailController.ts:148-150 | text without `&<>"` is unchanged |
| EmailController.EscapeIsolated | src/controllers/emailController.ts:148-150 | when no two special characters are adjacent, the result contains no `<`, `>` or `"` |
| EmailController.EscapeHtml | src/controllers/emailController.ts:148-150 | escaping never shortens the text |
| EmailController.EscapeSingle | src/controllers/emailController.ts:148-150 | a special character standing alone becomes `&amp;`, `&lt;`, `&gt;` or `&quot;` and the rest is escaped on its own |
| EmailController.EscapeLeavesRuns | src/controllers/emailController.ts:148-150 | a run of two or more special characters is left as it was |
| EmailController.EscapeExamples | src/controllers/emailController.ts:148-150 | `<b>` becomes `&lt;b&gt;` and `<<` stays `<<` |
| EmailController.DecoratedBody | src/controllers/emailController.ts:122 | without a greeting name the body is unchanged; with one it is the `Dear Sir` paragraph around the escaped name, a newline, then the body or nothing |
| EmailController.GreetingKeepsPlainName | src/controllers/emailController.ts:122 | a greeting name without `&<>"` appears in the paragraph as given |
| EmailController.GreetingNeutralisesMarkup | src/controllers/emailController.ts:122 | when the name's special characters stand alone, the text between `<p>Dear Sir ` and `</p>` holds no `<`, `>` or `"` |
| EmailController.MapStatus | src/controllers/emailController.ts:152-160 | 429, 400, 401 and 502 iff the kind is the matching one; 500 otherwise, including no kind |
| EmailController.MapStatusAgrees | src/controllers/emailController.ts:152-160 | the controller's status table agrees with the error handler's |
| EmailController.SendEmailHandler | src/controllers/emailController.ts:65-146 | the reply, the message handed to the transport and the new store are those of the handler function on the old store |
| EmailController.RefusalHasNoEffect | src/controllers/emailController.ts:66-101 | a refused request sends nothing, leaves the store alone and answers 400 VALIDATION or INVALID_RECIPIENT |
| EmailController.SuccessReplayed | src/controllers/emailController.ts:105-119 | a fresh stored success is answered as it was, with nothing sent |
| EmailController.ErrorEntryRetried | src/controllers/emailController.ts:105-145 | a stored error does not block a retry: the message is sent again and the new outcome replaces the entry |
| EmailController.SendRecorded | src/controllers/emailController.ts:124-145 | every send is recorded under the key with what was answered; 200 iff delivered, and a rejection answers the classified error |
| EmailController.DuplicateSendsOnce | src/controllers/emailController.ts:104-141 | the same request again within five minutes of a delivery sends nothing and gets the same answer |
| GeminiClient.ImageCount | src/services/gemini/geminiClient.ts:45 | the count is never above the maximum; an absent or zero count means one; a count within range is kept; a count above the maximum becomes the maximum |
| GeminiClient.Placeholder | src/services/gemini/geminiClient.ts:31-42 | `n` images, each the fixed PNG with its decoded size, image `i` with id `<clock reading for i>_<i>` |
| GeminiClient.PlaceholderIdsDistinct | src/services/gemini/geminiClient.ts:36-37 | the image ids of one call are all different, whatever the clock reads for each image |
| GeminiClient.MapGeminiError | src/services/gemini/geminiClient.ts:65-68 | a GEMINI_ERROR envelope carrying the provider's message, or the default text when it has none |
| GeminiClient.GenerateImages | src/services/gemini/geminiClient.ts:44-63 | the result, the key records and the pointer are those of the generate function on the old manager state |
| GeminiClient.ExhaustedChangesNothing | src/services/gemini/geminiClient.ts:47-50 | with every key cooling down the call fails with PROVIDER_KEYS_EXHAUSTED and the manager is unchanged |
| GeminiClient.SuccessReportsKey | src/services/gemini/geminiClient.ts:52-55 | a provider success returns the clamped number of images and reports success for the key used |
| GeminiClient.FailureReportsKey | src/services/gemini/geminiClient.ts:56-61 | a provider failure is reported once against the key used and surfaces as GEMINI_ERROR; a severe one quarantines the key |
| GeminiClient.FailureStatusDecidesQuarantine | src/services/gemini/geminiClient.ts:56-59 | a provider failure with 401 or 403 in `status` (or in `code` when `status` is absent or zero) quarantines the key used for five minutes; any other failure below the third strike leaves that key's health and deadline as they were |
| GeminiController.Count | src/controllers/geminiController.ts:10 | the parsed count is between 1 and 10, the given value when present |
| GeminiController.SchemaAccepts | src/controllers/geminiController.ts:5-13 | an accepted body has a prompt of 3 to 5000 characters; when given, positive width and height, a style and a client request id of at most 100 characters, a count between 1 and 10, and a return mode among `base64`, `url` and `binary` |
| GeminiController.MimeToExt | src/controllers/geminiController.ts:60-67 | each of the four image types maps to its extension and nothing else does; anything else is `bin` |
| GeminiController.MapStatus | src/controllers/geminiController.ts:52-58 | 503 iff keys are exhausted, 502 iff the provider failed, otherwise 500 |
| GeminiController.BinaryReply | src/controllers/geminiController.ts:26-43 | no image is a 500, several are a 400, one without data is a 500; the raw reply iff exactly one image with data, typed by its mime and named `<id>.<ext>` |
| GeminiController.Catch | src/controllers/geminiController.ts:46-48 | a thrown envelope is echoed with this controller's status; anything else is a 500 INTERNAL_ERROR carrying its message |
| GeminiController.GenerateImageHandler | src/controllers/geminiController.ts:15-50 | the reply and the key manager's new state are those of the handler function |
| GeminiController.RefusalTouchesNoKey | src/controllers/geminiController.ts:16-19 | a body the schema refuses is answered 400 VALIDATION and no key is touched |
| GeminiController.ClientFailureStatuses | src/controllers/geminiController.ts:46-58 | exhausted keys answer 503 and a provider failure 502 |
| GeminiController.BinaryWithTwoImagesRefusedAfterCall | src/controllers/geminiController.ts:23-32 | binary with two images is refused with 400 only after a key has been used and its success reported |
| GeminiController.PlaceholderAsBinary | src/controllers/geminiController.ts:33-42 | the single placeholder image answered as binary is the fixed PNG, typed `image/png` and named `<clock reading for image 0>_0.png` |
| GeminiController.BinarySingleImage | src/controllers/geminiController.ts:26-42 | one image as binary is the fixed PNG, typed `image/png` and named `<clock reading for image 0>_0.png` |
| Template.StyleSection | src/template.ts:26-28 | the style line is present iff the style is non-empty, and is the label followed by the style |
| Template.SizeSection | src/template.ts:31-33 | the size line is present iff both sides are given and non-zero, and reads `<label><width>x<height> px` |
| Template.Sections | src/template.ts:15-47 | for any wording: instruction, trimmed description, the style iff given, the size iff both sides are non-zero, quality constraints and output line, in that order |
| Template.Prompt | src/template.ts:49 | for any wording, the prompt is the sections joined by blank lines; it starts with the instruction and the description and ends with the constraints and the output line |
| Template.BuildGoogleImagePrompt | src/template.ts:12-50 | the server's prompt is its sections joined by blank lines: it starts with its instruction and the trimmed description and ends with its quality constraints and output line |
| Template.SurroundingSpaceIgnored | src/template.ts:23 | a white-space character added before or after the description does not change the prompt |
| ErrorHandler.MapStatus | src/middleware/errorHandler.ts:13-21 | 429, 400, 401 and 502 iff the kind is the matching one, otherwise 500 |
| ErrorHandler.Handle | src/middleware/errorHandler.ts:4-11 | an error with the envelope is echoed iff it has `success === false` and an `error` member; anything else is a 500 INTERNAL_ERROR with its message or the default text |
| ErrorHandler.ProviderKindsAreInternal | src/middleware/errorHandler.ts:13-21 | the provider kinds have no status of their own here: they are 500s |
| ErrorHandler.EnvelopeRoundTrip | src/middleware/errorHandler.ts:5-8 | a service's envelope comes back unchanged, with a 4xx status iff its kind is one of the three client-side kinds |
| ErrorHandler.UnmappedIsInternal | src/middleware/errorHandler.ts:9-10 | anything without the envelope is a 500 INTERNAL_ERROR carrying its message |
| Text.ContainsIff | src/services/emailService.ts:158 | `includes` holds iff the phrase occurs at some position |
| Text.TrimStartAppend | src/template.ts:23 | dropping leading white space from a concatenation keeps the second part whole once the first has something left |
| Text.TrimDropsTrailingWhitespace | src/template.ts:23 | `trim` ignores a trailing white-space character |
| Text.RemoveWhitespaceAppend | src/controllers/emailController.ts:22 | removing white space works piece by piece, so the kept characters stay in order |
| Text.RemoveWhitespaceKeepsBare | src/controllers/emailController.ts:22 | a password without white space is left as it is |
| Text.RemoveWhitespaceDropsBlank | src/controllers/emailController.ts:22 | text made only of white space is removed entirely |
| Text.SplitAtMark | src/services/gemini/geminiClient.ts:37 | two ids `<digits>_<rest>` are equal only when both parts are |
| Text.JoinSplit | src/controllers/emailController.ts:72 | splitting then joining on the same separator gives the string back |
| Text.CommaList | src/controllers/emailController.ts:72 | every part of a comma list is non-empty and comma-free |
| Text.CommaListOfJoin | src/controllers/emailController.ts:72 | non-empty, comma-free, trimmed addresses joined by `, ` split back into exactly that list |

## Left out

- The SMTP transport (`nodemailer` `createTransport`, `sendMail`, `close`) is an oracle. Its answer is the input `SendOutcome`, and the model records the transport options and the message handed to it.
- The base64 decoding of attachment content for the transport is left out. The message keeps the base64 text.
- The SHA-256 digest of `JSON.stringify` of the fingerprint is the `digest` collaborator. The model states which fields enter the fingerprint and how missing ones are normalised.
- zod's `email()` and `uuid()` checks and its error text are the `isEmail`, `isUuid` and `schemaMessage` collaborators.
- `z.coerce.number()` on the port is not modelled. The port is already a number, and so are the image dimensions.
- The size check's base64 decoder is the `decodedLength` collaborator. Node's decoder never throws, so `None` (the "base64 invalid" branch) stands for a decoder that does.
- `Date.now()`, `setTimeout`, `setInterval` and `Math.random()` are parameters: `now`, `finishedAt`, `clock` (the reading taken for each placeholder image, by index) and `requestId`. The sweep is an operation called with its instant.
- The success payload has no `sent_time` and no `providerResponse`. The replay branch that backfills missing fields is not modelled, because every success this handler stores already carries `subject` and `assigned_account_email`.
- The `Content-Length` header and the binary buffer are not modelled. The binary reply carries the base64 text, content type and file name.
- The Gemini SDK is not part of this model: `callGemini` is the placeholder the server ships, and whether it throws is the input `ProviderCall`. The configured model name (`GEMINI_MODEL`) is the `model` parameter, the count bound (`src/config/env.ts:14`) is the `maxImages` parameter, and the key list (`src/config/env.ts:24`) is the constructor argument.
- Logging, Express wiring and routes, the auth and rate-limit middleware, and the swagger docs are not part of this model.
- Interleaving of concurrent requests is not modelled. Each handler is modelled as one step against the store and the key manager, but the source handlers await in the middle:
  - the e-mail handler awaits `sendEmail` between its lookup (`src/controllers/emailController.ts:105`) and its record (`:140`, `:143`), so two identical requests in flight can both send;
  - `generateImages` awaits the provider between `pickKey` and the health report (`src/services/gemini/geminiClient.ts:47-59`), so another request can pick in between.

  `EmailController.DuplicateSendsOnce`, `KeyManager.RoundRobin` and the other multi-request lemmas hold for requests that run one after another.
- JavaScript numbers are not modelled: no NaN, fractions or float rounding. Counts and sizes are unbounded integers, and string lengths count characters rather than UTF-16 code units.
- KeyManager.RoundRobin: proved for up to as many successive picks as there are keys, all at one instant with every key eligible.
- GeminiController.Catch: a thrown value with `success === false` but no `error` member makes the source's catch block itself throw. The model answers `Unanswered` and says nothing more.
