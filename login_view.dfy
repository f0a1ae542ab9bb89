/**
 * `GoogleLoginApi.get` end to end: the callback decision, the claim
 * defaults, find-or-create, and the success payload carrying the user and
 * the two tokens.
 *
 * Token minting is a parameter `issue(user) = (access, refresh)`; the
 * frontend base URL is a plain string.
 */
module LoginView {
  import opened Wrappers
  import opened Callback
  import opened Directory

  /** What the view answers. */
  datatype Response =
    | ErrorRedirect(reason: string)  // 302 to `{frontend}?error=<reason, url-encoded>`
    | Success(user: UserRecord, accessToken: string, refreshToken: string)  // 200 with the user and both tokens
    | Uncaught                       // an exception escapes the view (no `email` claim)

  /** The response and the user table after the request. */
  datatype Outcome = Outcome(response: Response, records: seq<UserRecord>)

  /** `user_data.get('given_name', '')`. */
  function FirstName(info: UserInfo): (name: string)
    ensures info.givenName.Some? ==> name == info.givenName.value
    ensures info.givenName.None? ==> name == ""
  {
    info.givenName.GetOr("")
  }

  /** `user_data.get('family_name', '')`. */
  function LastName(info: UserInfo): (name: string)
    ensures info.familyName.Some? ==> name == info.familyName.value
    ensures info.familyName.None? ==> name == ""
  {
    info.familyName.GetOr("")
  }

  /** The whole view as a function of the table before the request. */
  function Login(records: seq<UserRecord>, code: Option<string>, error: Option<string>, frontendUrl: string,
                 exchange: (string, string) -> Attempt<string>, fetch: string -> Attempt<UserInfo>,
                 issue: UserRecord -> (string, string)): (out: Outcome)
  {
    match Decide(code, error, frontendUrl, exchange, fetch)
    case Redirect(reason) => Outcome(ErrorRedirect(reason), records)
    case Proceed(info) =>
      match info.email
      case None => Outcome(Uncaught, records)
      case Some(email) =>
        var out := Reconciled(records, email, FirstName(info), LastName(info));
        var tokens := issue(out.user);
        Outcome(Success(out.user, tokens.0, tokens.1), out.records)
  }

  /**
   * The view's `get`: decide, then find or create the user and answer with the
   * user and its tokens.
   */
  method GoogleLoginGet(directory: UserDirectory, code: Option<string>, error: Option<string>, frontendUrl: string,
                        exchange: (string, string) -> Attempt<string>, fetch: string -> Attempt<UserInfo>,
                        issue: UserRecord -> (string, string))
    returns (response: Response)
    requires directory.Valid()
    modifies directory
    ensures directory.Valid()
    ensures Outcome(response, directory.records) ==
              Login(old(directory.records), code, error, frontendUrl, exchange, fetch, issue)
    ensures !response.Success? ==> directory.records == old(directory.records)
  {
    var decision := Decide(code, error, frontendUrl, exchange, fetch);
    match decision
    case Redirect(reason) =>
      response := ErrorRedirect(reason);
    case Proceed(info) =>
      if info.email.None? {
        response := Uncaught;
      } else {
        var user := directory.FindOrCreate(info.email.value, FirstName(info), LastName(info));
        var (accessToken, refreshToken) := issue(user);
        response := Success(user, accessToken, refreshToken);
      }
  }

  /** A response other than success leaves the table as it was. */
  lemma FailureLeavesTable(records: seq<UserRecord>, code: Option<string>, error: Option<string>, frontendUrl: string,
                           exchange: (string, string) -> Attempt<string>, fetch: string -> Attempt<UserInfo>,
                           issue: UserRecord -> (string, string))
    ensures var out := Login(records, code, error, frontendUrl, exchange, fetch, issue);
            !out.response.Success? ==> out.records == records
  {
  }

  /**
   * A refused callback redirects with `error` (or "None"), leaves the table
   * alone, and does not depend on the provider or the token issuer.
   */
  lemma RefusedLogin(records: seq<UserRecord>, code: Option<string>, error: Option<string>, frontendUrl: string,
                     exchange: (string, string) -> Attempt<string>, fetch: string -> Attempt<UserInfo>,
                     issue: UserRecord -> (string, string))
    requires Refused(code, error)
    ensures Login(records, code, error, frontendUrl, exchange, fetch, issue) ==
              Outcome(ErrorRedirect(GuardReason(error)), records)
  {
  }

  /**
   * A `ValidationError` from either provider call redirects with its text; any
   * other failure redirects with the generic message. The table does not change.
   */
  lemma ProviderFailureLogin(records: seq<UserRecord>, code: Option<string>, error: Option<string>, frontendUrl: string,
                             exchange: (string, string) -> Attempt<string>, fetch: string -> Attempt<UserInfo>,
                             issue: UserRecord -> (string, string), f: Failure)
    requires !Refused(code, error)
    requires var token := exchange(code.value, RedirectUri(frontendUrl));
             token == Raised(f) || (token.Returned? && fetch(token.value) == Raised(f))
    ensures f.ValidationError? ==>
              Login(records, code, error, frontendUrl, exchange, fetch, issue) == Outcome(ErrorRedirect(f.text), records)
    ensures f.OtherError? ==>
              Login(records, code, error, frontendUrl, exchange, fetch, issue) == Outcome(ErrorRedirect(GenericMessage), records)
  {
  }

  /**
   * A successful login answers with the one record of the table holding the
   * claimed email, together with the tokens issued for it, and keeps the table
   * invariants.
   */
  lemma SuccessfulLogin(records: seq<UserRecord>, code: Option<string>, error: Option<string>, frontendUrl: string,
                        exchange: (string, string) -> Attempt<string>, fetch: string -> Attempt<UserInfo>,
                        issue: UserRecord -> (string, string))
    requires UniqueUsernames(records) && UniqueEmails(records)
    ensures var out := Login(records, code, error, frontendUrl, exchange, fetch, issue);
            && UniqueUsernames(out.records) && UniqueEmails(out.records)
            && (out.response.Success? ==>
                  var d := Decide(code, error, frontendUrl, exchange, fetch);
                  && d.Proceed? && d.info.email.Some?
                  && out.response.user.email == d.info.email.value
                  && out.response.user in out.records
                  && (out.response.accessToken, out.response.refreshToken) == issue(out.response.user)
                  && (forall u :: u in out.records && u.email == d.info.email.value ==> u == out.response.user))
  {
  }

  /**
   * A callback that proceeds with an `email` claim succeeds: it answers with
   * find-or-create's user for that email and the names from `given_name` and
   * `family_name` (default ''), the tokens issued for that user, and
   * find-or-create's new table.
   */
  lemma ProceedingLoginSucceeds(records: seq<UserRecord>, code: Option<string>, error: Option<string>, frontendUrl: string,
                                exchange: (string, string) -> Attempt<string>, fetch: string -> Attempt<UserInfo>,
                                issue: UserRecord -> (string, string))
    requires Decide(code, error, frontendUrl, exchange, fetch).Proceed?
    requires Decide(code, error, frontendUrl, exchange, fetch).info.email.Some?
    ensures var info := Decide(code, error, frontendUrl, exchange, fetch).info;
            var r := Reconciled(records, info.email.value, FirstName(info), LastName(info));
            Login(records, code, error, frontendUrl, exchange, fetch, issue) ==
              Outcome(Success(r.user, issue(r.user).0, issue(r.user).1), r.records)
  {
  }

  /** A user-info payload without `email` makes the view raise, before the table is touched. */
  lemma MissingEmailLogin(records: seq<UserRecord>, code: Option<string>, error: Option<string>, frontendUrl: string,
                          exchange: (string, string) -> Attempt<string>, fetch: string -> Attempt<UserInfo>,
                          issue: UserRecord -> (string, string))
    requires Decide(code, error, frontendUrl, exchange, fetch).Proceed?
    requires Decide(code, error, frontendUrl, exchange, fetch).info.email.None?
    ensures Login(records, code, error, frontendUrl, exchange, fetch, issue) == Outcome(Uncaught, records)
  {
  }
}
