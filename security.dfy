/**
 * The two access rules (src/middleware/security.js): the CORS origin
 * decision and the optional API-key gate. Configuration is a parameter.
 */
module Security {
  import opened Wrappers
  import opened Http

  /** The origins allowed when none are configured. */
  const DefaultAllowedOrigins: seq<string> := ["http://localhost:3001", "http://localhost:8080", "http://127.0.0.1:3001"]

  const CorsRejection := "Not allowed by CORS"
  const InvalidApiKey := "Invalid API key"

  /** What the CORS origin callback is called with: allowed, or the error. */
  datatype CorsDecision = Allow | Deny(message: string)

  /** `corsOptions.origin(origin, callback)`: no origin, or a listed one, is allowed. */
  function CorsOrigin(origin: Option<string>, allowedOrigins: seq<string>): (d: CorsDecision)
    ensures d == Allow <==> origin.None? || origin.value == "" || origin.value in allowedOrigins
    ensures d.Deny? ==> d.message == CorsRejection
  {
    if origin.None? || origin.value == "" then Allow
    else if origin.value in allowedOrigins then Allow
    else Deny(CorsRejection)
  }

  lemma DefaultOrigins()
    ensures CorsOrigin(Some("http://localhost:8080"), DefaultAllowedOrigins) == Allow
    ensures CorsOrigin(Some("http://evil.example"), DefaultAllowedOrigins) == Deny(CorsRejection)
  {
    assert DefaultAllowedOrigins[1] == "http://localhost:8080";
  }

  datatype ApiKeyBody = ApiKeyBody(error: string)

  /**
   * `validateApiKey(req, res, next)` on the `x-api-key` header and the
   * configured key: with no (or an empty) configured key every request
   * passes; otherwise exactly the requests carrying that key do.
   */
  function ValidateApiKey(header: Option<string>, configured: Option<string>): (g: Gate<ApiKeyBody>)
    ensures g == Next <==> configured.None? || configured.value == "" || header == configured
    ensures g.Answer? ==> g.response == Response(401, ApiKeyBody(InvalidApiKey))
  {
    var keyRequired := configured.Some? && configured.value != "";
    if keyRequired && (header.None? || header.value == "" || header.value != configured.value) then
      Answer(Response(401, ApiKeyBody(InvalidApiKey)))
    else Next
  }
}
