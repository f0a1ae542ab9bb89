/** Concrete logins worked through the model. */
module Scenarios {
  import opened Wrappers
  import opened Callback
  import opened Directory
  import opened LoginView

  /** A provider that accepts only the code "VALIDCODE", issuing the token "T1". */
  function Exchange(code: string, redirectUri: string): (token: Attempt<string>) {
    if code == "VALIDCODE" then Returned("T1") else Raised(OtherError)
  }

  /** A provider whose token "T1" belongs to a@x.com, given name "A", no family name. */
  function Fetch(accessToken: string): (info: Attempt<UserInfo>) {
    if accessToken == "T1" then Returned(UserInfo(Some("a@x.com"), Some("A"), None))
    else Raised(ValidationError("['Invalid token']"))
  }

  /** First login of a@x.com into an empty table: a record with username "a" is created and returned. */
  lemma FirstLoginCreatesBaseName(frontendUrl: string, issue: UserRecord -> (string, string))
    ensures var user := UserRecord("a", "a@x.com", "A", "", "google");
            Login([], Some("VALIDCODE"), None, frontendUrl, Exchange, Fetch, issue) ==
              Outcome(Success(user, issue(user).0, issue(user).1), [user])
  {
    assert Text.LocalPart("a@x.com") == "a";
    assert Candidate("a", 0) == "a";
  }

  /** With "a" taken by another email, a@x.com gets the username "a_1". */
  lemma CollisionGetsSuffix(frontendUrl: string, issue: UserRecord -> (string, string))
    ensures var other := UserRecord("a", "a@y.org", "", "", "google");
            var user := UserRecord("a_1", "a@x.com", "A", "", "google");
            Login([other], Some("VALIDCODE"), None, frontendUrl, Exchange, Fetch, issue) ==
              Outcome(Success(user, issue(user).0, issue(user).1), [other, user])
  {
    var other := UserRecord("a", "a@y.org", "", "", "google");
    assert Text.LocalPart("a@x.com") == "a";
    assert [other][0].username == "a";
    assert Candidate("a", 0) == "a" && "a" in UsernamesOf([other]);
    assert Text.Decimal(1) == "1";
    assert Candidate("a", 1) == "a_1" && "a_1" !in UsernamesOf([other]);
    FirstFreeSuffixFromIs("a", UsernamesOf([other]), 0, 1);
  }

  /** A repeat login of a@x.com returns the stored record and adds none. */
  lemma RepeatLoginReusesRecord(frontendUrl: string, issue: UserRecord -> (string, string))
    ensures var user := UserRecord("a", "a@x.com", "Old", "Name", "google");
            Login([user], Some("VALIDCODE"), None, frontendUrl, Exchange, Fetch, issue) ==
              Outcome(Success(user, issue(user).0, issue(user).1), [user])
  {
  }

  /** `error=access_denied` redirects with that reason. */
  lemma AccessDeniedRedirects(records: seq<UserRecord>, frontendUrl: string, issue: UserRecord -> (string, string))
    ensures Login(records, None, Some("access_denied"), frontendUrl, Exchange, Fetch, issue) ==
              Outcome(ErrorRedirect("access_denied"), records)
  {
  }

  /** A code the provider rejects with a non-validation failure redirects with the generic message. */
  lemma RejectedCodeRedirects(records: seq<UserRecord>, frontendUrl: string, issue: UserRecord -> (string, string))
    ensures Login(records, Some("EXPIRED"), None, frontendUrl, Exchange, Fetch, issue) ==
              Outcome(ErrorRedirect(GenericMessage), records)
  {
  }

  /**
   * The imperative view on a fresh table: two logins of a@x.com create one
   * record, "a", and return it both times, each time with the tokens minted
   * by that request's issuer.
   */
  method TwoLoginsThroughView(frontendUrl: string,
                              issue1: UserRecord -> (string, string), issue2: UserRecord -> (string, string))
    returns (first: Response, second: Response, records: seq<UserRecord>)
    ensures first.Success? && first.user == UserRecord("a", "a@x.com", "A", "", "google")
    ensures (first.accessToken, first.refreshToken) == issue1(first.user)
    ensures second.Success? && second.user == first.user
    ensures (second.accessToken, second.refreshToken) == issue2(first.user)
    ensures records == [first.user]
  {
    var directory := new UserDirectory([]);
    first := GoogleLoginGet(directory, Some("VALIDCODE"), None, frontendUrl, Exchange, Fetch, issue1);
    FirstLoginCreatesBaseName(frontendUrl, issue1);
    second := GoogleLoginGet(directory, Some("VALIDCODE"), None, frontendUrl, Exchange, Fetch, issue2);
    records := directory.records;
  }
}
