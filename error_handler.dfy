/** The last-resort Express error handler: an error that already carries the
    envelope is answered as it is, with a status chosen by its kind; anything
    else becomes a 500 INTERNAL_ERROR envelope. */
module ErrorHandler {
  import opened Wrappers
  import opened Api
  import Text

  /** What the handler answers: the thrown value echoed unchanged, or a new
      envelope. */
  datatype Body = Echo(thrown: Thrown) | Envelope(e: ApiError)

  datatype Reply = Reply(status: int, body: Body)

  /** `mapStatus` of the error handler. */
  function MapStatus(kind: string): (status: int)
    ensures status == 429 <==> kind == DAILY_LIMIT
    ensures status == 400 <==> kind == INVALID_RECIPIENT
    ensures status == 401 <==> kind == AUTH_BROWSER_INTERACTION_REQUIRED
    ensures status == 502 <==> kind == SMTP_SYNTAX
    ensures status in {429, 400, 401, 502, 500}
  {
    if kind == DAILY_LIMIT then 429
    else if kind == INVALID_RECIPIENT then 400
    else if kind == AUTH_BROWSER_INTERACTION_REQUIRED then 401
    else if kind == SMTP_SYNTAX then 502
    else 500
  }

  /** The error already carries the envelope: `success === false` and an
      `error` member. */
  predicate AlreadyMapped(err: Thrown) {
    err.success == Some(false) && err.error.Some?
  }

  /** `errorHandler`. */
  function Handle(err: Thrown): (r: Reply)
    ensures r.body.Echo? <==> AlreadyMapped(err)
    ensures r.body.Echo? ==> r.body.thrown == err && r.status == MapStatus(err.error.value.kind)
    ensures r.body.Envelope? ==>
      r.status == 500 && !r.body.e.success && r.body.e.error.kind == INTERNAL_ERROR
      && r.body.e.error.message == Text.OrElse(err.message, "Internal Server Error")
  {
    if AlreadyMapped(err) then Reply(MapStatus(err.error.value.kind), Echo(err))
    else Reply(500, Envelope(Fail(Text.OrElse(err.message, "Internal Server Error"), INTERNAL_ERROR)))
  }

  /** The provider's kinds get no status of their own here: they are 500s. */
  lemma ProviderKindsAreInternal(message: string)
    ensures Handle(Throw(Fail(message, PROVIDER_KEYS_EXHAUSTED))).status == 500
    ensures Handle(Throw(Fail(message, GEMINI_ERROR))).status == 500
  {
  }

  /** An envelope thrown by any service comes back unchanged, and its status
      is 4xx exactly for the three client-side kinds. */
  lemma EnvelopeRoundTrip(e: ApiError)
    requires !e.success
    ensures Handle(Throw(e)).body == Echo(Throw(e))
    ensures 400 <= Handle(Throw(e)).status < 500 <==>
      e.error.kind in {DAILY_LIMIT, INVALID_RECIPIENT, AUTH_BROWSER_INTERACTION_REQUIRED}
  {
  }

  /** Anything without the envelope is a 500, whatever it says. */
  lemma UnmappedIsInternal(err: Thrown)
    requires err.success != Some(false) || err.error == None
    ensures Handle(err).status == 500
    ensures Handle(err).body.Envelope? && Handle(err).body.e.error.kind == INTERNAL_ERROR
    ensures Text.Truthy(err.message) ==> Handle(err).body.e.error.message == err.message.value
  {
  }
}
