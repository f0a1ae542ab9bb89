/**
 * The decision half of `GoogleLoginApi.get`: the guard on the `code` and
 * `error` query parameters, the two calls to the identity provider, and the
 * translation of what they raise into the reason carried by an error redirect.
 *
 * The provider is abstract: `exchange(code, redirectUri)` stands for
 * `google_get_access_token` and `fetch(accessToken)` for `google_get_user_info`.
 * Each either returns a value or raises.
 */
module Callback {
  import opened Wrappers

  /** What the provider helpers can raise, as the view tells them apart. */
  datatype Failure =
    | ValidationError(text: string)  // a `ValidationError`; `text` is what `str(e)` gives
    | OtherError                     // any other `Exception`

  /** The outcome of one call that may raise. */
  datatype Attempt<T> = Returned(value: T) | Raised(failure: Failure)

  /** The user-info payload; each key may be missing. */
  datatype UserInfo = UserInfo(email: Option<string>, givenName: Option<string>, familyName: Option<string>)

  /** Either stop with an error redirect carrying `reason`, or go on with the provider's claims. */
  datatype Decision = Redirect(reason: string) | Proceed(info: UserInfo)

  /** The fixed message for every failure that is not a `ValidationError`. */
  const GenericMessage := "An error occurred while processing your request."

  /** Python truthiness of an optional string: present and non-empty. */
  predicate Truthy(s: Option<string>) {
    s.Some? && s.value != ""
  }

  /** `if error or not code`: the callback is refused before any provider call. */
  predicate Refused(code: Option<string>, error: Option<string>) {
    Truthy(error) || !Truthy(code)
  }

  /** `str(error)` as `urlencode` renders it: the error text, or "None" when there is none. */
  function GuardReason(error: Option<string>): (reason: string)
    ensures error.Some? ==> reason == error.value
    ensures error.None? ==> reason == "None"
  {
    match error
    case Some(e) => e
    case None => "None"
  }

  /** The reason a failure of a provider call puts in the redirect. */
  function FailureReason(f: Failure): (reason: string)
    ensures f.ValidationError? ==> reason == f.text
    ensures f.OtherError? ==> reason == GenericMessage
  {
    match f
    case ValidationError(text) => text
    case OtherError => GenericMessage
  }

  /** The redirect URI handed to the token exchange: the frontend base URL followed by "/google". */
  function RedirectUri(frontendUrl: string): (uri: string)
    ensures |uri| == |frontendUrl| + 7
    ensures uri[..|frontendUrl|] == frontendUrl && uri[|frontendUrl|..] == "/google"
  {
    frontendUrl + "/google"
  }

  /** Guard, token exchange, user-info fetch, and the mapping of raised failures to reasons. */
  function Decide(code: Option<string>, error: Option<string>, frontendUrl: string,
                  exchange: (string, string) -> Attempt<string>,
                  fetch: string -> Attempt<UserInfo>): (d: Decision)
  {
    if Refused(code, error) then Redirect(GuardReason(error))
    else
      match exchange(code.value, RedirectUri(frontendUrl))
      case Raised(f) => Redirect(FailureReason(f))
      case Returned(accessToken) =>
        match fetch(accessToken)
        case Raised(f) => Redirect(FailureReason(f))
        case Returned(info) => Proceed(info)
  }

  /**
   * A refused callback redirects with the error text (or "None"), whatever the
   * provider would have done: neither provider call is made.
   */
  lemma RefusedIgnoresProvider(code: Option<string>, error: Option<string>, frontendUrl: string,
                               exchange: (string, string) -> Attempt<string>, fetch: string -> Attempt<UserInfo>,
                               exchange': (string, string) -> Attempt<string>, fetch': string -> Attempt<UserInfo>)
    requires Refused(code, error)
    ensures Decide(code, error, frontendUrl, exchange, fetch) == Redirect(GuardReason(error))
    ensures Decide(code, error, frontendUrl, exchange, fetch) == Decide(code, error, frontendUrl, exchange', fetch')
  {
  }

  /** A callback without `error` and without a usable `code` redirects with the literal reason "None". */
  lemma MissingCodeReasonIsNone(code: Option<string>, frontendUrl: string,
                                exchange: (string, string) -> Attempt<string>, fetch: string -> Attempt<UserInfo>)
    requires code.None? || code == Some("")
    ensures Decide(code, None, frontendUrl, exchange, fetch) == Redirect("None")
  {
  }

  /**
   * The view goes on exactly when it is not refused and both provider calls
   * return; the claims it goes on with are those the user-info call returned
   * for the exchanged token.
   */
  lemma ProceedIffBothCallsReturn(code: Option<string>, error: Option<string>, frontendUrl: string,
                                  exchange: (string, string) -> Attempt<string>, fetch: string -> Attempt<UserInfo>)
    ensures Decide(code, error, frontendUrl, exchange, fetch).Proceed? <==>
              && !Refused(code, error)
              && exchange(code.value, RedirectUri(frontendUrl)).Returned?
              && fetch(exchange(code.value, RedirectUri(frontendUrl)).value).Returned?
    ensures Decide(code, error, frontendUrl, exchange, fetch).Proceed? ==>
              Decide(code, error, frontendUrl, exchange, fetch).info ==
                fetch(exchange(code.value, RedirectUri(frontendUrl)).value).value
  {
  }

  /**
   * When the token exchange raises, the view redirects with that failure's
   * reason and the user-info call is not made.
   */
  lemma ExchangeFailureRedirects(code: Option<string>, error: Option<string>, frontendUrl: string,
                                 exchange: (string, string) -> Attempt<string>,
                                 fetch: string -> Attempt<UserInfo>, fetch': string -> Attempt<UserInfo>)
    requires !Refused(code, error)
    requires exchange(code.value, RedirectUri(frontendUrl)).Raised?
    ensures Decide(code, error, frontendUrl, exchange, fetch) ==
              Redirect(FailureReason(exchange(code.value, RedirectUri(frontendUrl)).failure))
    ensures Decide(code, error, frontendUrl, exchange, fetch) == Decide(code, error, frontendUrl, exchange, fetch')
  {
  }

  /** When the token exchange returns and the user-info call raises, the view redirects with that failure's reason. */
  lemma FetchFailureRedirects(code: Option<string>, error: Option<string>, frontendUrl: string,
                              exchange: (string, string) -> Attempt<string>, fetch: string -> Attempt<UserInfo>)
    requires !Refused(code, error)
    requires exchange(code.value, RedirectUri(frontendUrl)).Returned?
    requires fetch(exchange(code.value, RedirectUri(frontendUrl)).value).Raised?
    ensures Decide(code, error, frontendUrl, exchange, fetch) ==
              Redirect(FailureReason(fetch(exchange(code.value, RedirectUri(frontendUrl)).value).failure))
  {
  }
}
