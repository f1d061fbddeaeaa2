/** The uniform error envelope of the server (`ApiError` in src/types/email.ts)
    and the error kinds that travel in its `type` field. */
module Api {
  import opened Wrappers

  const VALIDATION: string := "VALIDATION"
  const INVALID_RECIPIENT: string := "INVALID_RECIPIENT"
  const DAILY_LIMIT: string := "DAILY_LIMIT"
  const AUTH_BROWSER_INTERACTION_REQUIRED: string := "AUTH_BROWSER_INTERACTION_REQUIRED"
  const SMTP_SYNTAX: string := "SMTP_SYNTAX"
  const SMTP_ERROR: string := "SMTP_ERROR"
  const PROVIDER_KEYS_EXHAUSTED: string := "PROVIDER_KEYS_EXHAUSTED"
  const GEMINI_ERROR: string := "GEMINI_ERROR"
  const INTERNAL_ERROR: string := "INTERNAL_ERROR"

  /** The `error` member of the envelope; `kind` is the wire field `type`. */
  datatype ErrorBody = ErrorBody(message: string, kind: string)

  /** `{ success: false, error: { message, type } }`. */
  datatype ApiError = ApiError(success: bool, error: ErrorBody)

  /** The envelope every failure path builds. */
  function Fail(message: string, kind: string): ApiError {
    ApiError(false, ErrorBody(message, kind))
  }

  /** A thrown JavaScript value, reduced to the members the catch blocks read:
      `err.success`, `err.error` and `err.message`, each possibly absent. */
  datatype Thrown = Thrown(success: Option<bool>, error: Option<ErrorBody>, message: Option<string>)

  /** An envelope thrown as an exception. */
  function Throw(e: ApiError): Thrown {
    Thrown(Some(e.success), Some(e.error), None)
  }
}
