/** The booking backend as the pages see it: the requests they send and the
    replies they read, with transport and JSON parsing abstracted away. */
module Backend {
  import opened Wrappers

  /** The user record returned by verify-OTP. */
  datatype User = User(id: string, phone: string, name: string, isOnboarded: bool, hasCompletedProfile: bool)

  /** What a page learns from one `fetch` plus `response.json()`.
      `ParseOrTransportFailure` covers both a rejected `fetch` and a body that
      is not JSON: either way the promise rejects and the `catch` branch runs.
      `payload` is the endpoint-specific field (`user`, or
      `data.bookingNumber`); `None` stands for an absent field. */
  datatype Reply<P> =
    | ParseOrTransportFailure
    | Answered(status: int, success: bool, message: Option<string>, payload: Option<P>)

  /** `response.ok`: the status lies in 200-299, as the Fetch standard defines it. */
  predicate IsOk(status: int) {
    200 <= status <= 299
  }

  /** `data.message || fallback`: an absent or empty message is falsy. */
  function MessageOr(message: Option<string>, fallback: string): (r: string)
    ensures message.Some? && message.value != "" ==> r == message.value
    ensures message.None? || message.value == "" ==> r == fallback
  {
    if message.Some? && message.value != "" then message.value else fallback
  }

  /** The request bodies the wizard sends (all JSON, `application/json`). */
  datatype Request =
    | SendOtp(phone: string)
    | VerifyOtp(phone: string, otp: string)
    | CreateInstantBooking(phone: string, serviceType: string)

  const DefaultBaseUrl: string := "https://localfix.xyz"

  /** `import.meta.env.VITE_API_URL || 'https://localfix.xyz'`. */
  function BaseUrl(configured: Option<string>): (r: string)
    ensures r != ""
    ensures configured.Some? && configured.value != "" ==> r == configured.value
    ensures configured.None? || configured.value == "" ==> r == DefaultBaseUrl
  {
    if configured.Some? && configured.value != "" then configured.value else DefaultBaseUrl
  }

  function Path(req: Request): string {
    match req
    case SendOtp(_) => "/api/v1/web/send-otp"
    case VerifyOtp(_, _) => "/api/v1/web/verify-otp"
    case CreateInstantBooking(_, _) => "/api/v1/web/instant"
  }

  function Url(configured: Option<string>, req: Request): string {
    BaseUrl(configured) + Path(req)
  }

  /** Each kind of request goes to its own endpoint, whatever the base URL. */
  lemma UrlsDistinguishRequestKinds(configured: Option<string>, a: Request, b: Request)
    requires Url(configured, a) == Url(configured, b)
    ensures a.SendOtp? <==> b.SendOtp?
    ensures a.VerifyOtp? <==> b.VerifyOtp?
    ensures a.CreateInstantBooking? <==> b.CreateInstantBooking?
  {
    var base := BaseUrl(configured);
    assert Url(configured, a)[|base|..] == Path(a);
    assert Url(configured, b)[|base|..] == Path(b);
  }
}
