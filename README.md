# Google login callback: a model in Dafny

This project models the deterministic part of `GoogleLoginApi.get`, the Django REST
Framework view that completes a Google OAuth2 "authorization code" login:

- **Callback decision** (module `Callback`). If the `error` query parameter is truthy, or
  `code` is missing or empty, the view redirects to the frontend with `error=<error>`. When
  `error` is absent, the reason is the literal string `"None"`. Otherwise it exchanges the
  code for an access token (redirect URI `<frontend>/google`) and fetches the user info. A
  `ValidationError` raised by either call becomes a redirect carrying `str(e)`. Any other
  exception becomes a redirect carrying "An error occurred while processing your request.".
- **Username probe** (module `Directory`, `UserDirectory.ProbeUsername`). The base is the part
  of the email before the first `@`. The loop tries `base`, `base_1`, `base_2`, … and stops at
  the first name no record uses; it is proved to terminate.
- **Find-or-create by email** (`UserDirectory.FindOrCreate`). The probe runs first. An existing
  record with the email is returned unchanged. Otherwise one record is appended, with the
  probed username, the email, `given_name`/`family_name` (default `''`) and
  `registration_method = 'google'`.
- **The whole view** (module `LoginView`). `Login` is a pure function from the table, the two
  query parameters and the abstract provider and token issuer to the response and the new
  table. `GoogleLoginGet` is the imperative view, proved equal to `Login`.

The user table is a class `UserDirectory` holding a `seq<UserRecord>`. Its invariant
`Valid()` says that usernames are unique and emails are unique. The provider calls
`google_get_access_token` and `google_get_user_info` are function parameters `exchange` and
`fetch`. Each returns a value or raises a `ValidationError(text)` or some other error.
`generate_tokens_for_user` is a function parameter `issue`. Module `Scenarios` works through
five concrete logins. It also calls `GoogleLoginGet` twice on a table built by the constructor, and proves
that one record is created and returned both times, each time with the tokens issued by that call.

In these places the view behaves as follows, and so does the model:

- With neither `code` nor `error`, the redirect reason is the literal `"None"`
  (`urlencode({'error': None})`).
- The username probe runs before the email lookup, so it also runs for an existing user.
- A `ValidationError`'s text is passed through as `str(e)`, with no sanitising.
- A user-info payload without `email` makes `email.split` raise outside the `try`. The model
  gives this as the response `Uncaught`, with the table unchanged.

## Model

| member | source | states |
|---|---|---|
| `Text.Decimal` | authentication/views.py:56 | `str(suffix)`: a non-empty string of decimal digits, with a leading `0` only for zero and at least two digits from 10 on |
| `Text.DecimalRoundTrip` | authentication/views.py:56 | reading `str(n)` back as decimal gives `n` |
| `Text.DecimalInjective` | authentication/views.py:56 | distinct suffixes render differently |
| `Text.LocalPart` | authentication/views.py:52 | `email.split('@')[0]` is a prefix of the email, contains no `@`, and is followed by `@` when shorter than the email |
| `Text.LocalPartUnique` | authentication/views.py:52 | any prefix with those three properties is the base username, so the contract fixes the result |
| `Text.LocalPartWhole` | authentication/views.py:52 | the base is the whole email exactly when the email has no `@` |
| `Callback.Refused` | authentication/views.py:31 | `error or not code` under Python truthiness: `error` present and non-empty, or `code` absent or empty; no contract of its own, its effect is stated by `RefusedIgnoresProvider` and `ProceedIffBothCallsReturn` |
| `Callback.GuardReason` | authentication/views.py:31-32 | the guard's redirect reason is the `error` text, or `"None"` when `error` is absent |
| `Callback.FailureReason` | authentication/views.py:40-44 | a `ValidationError` yields its `str(e)` text; any other failure yields the generic message |
| `Callback.RedirectUri` | authentication/views.py:35 | the redirect URI is the frontend URL followed by exactly `/google` |
| `Callback.Decide` | authentication/views.py:31-45 | no contract of its own; its cases are stated by `RefusedIgnoresProvider`, `MissingCodeReasonIsNone`, `ProceedIffBothCallsReturn`, `ExchangeFailureRedirects` and `FetchFailureRedirects` |
| `Callback.RefusedIgnoresProvider` | authentication/views.py:31-33 | a truthy `error` or a missing/empty `code` redirects with `GuardReason(error)`, and the result does not depend on either provider call |
| `Callback.MissingCodeReasonIsNone` | authentication/views.py:31-33 | no `error` and no usable `code` redirects with the reason `"None"` |
| `Callback.ProceedIffBothCallsReturn` | authentication/views.py:31-39 | the view proceeds if and only if the guard passes and both provider calls return; it then proceeds with the fetched claims |
| `Callback.ExchangeFailureRedirects` | authentication/views.py:37-45 | a raising token exchange redirects with that failure's reason, whatever the user-info call would do |
| `Callback.FetchFailureRedirects` | authentication/views.py:39-45 | a raising user-info call after a successful exchange redirects with that failure's reason |
| `Directory.UsernamesOf` | authentication/views.py:55 | the set of usernames holds every record's username and nothing else |
| `Directory.EmailIndex` | authentication/views.py:60-62 | the lookup by email finds a record with that email, and finds none exactly when no record has it |
| `Directory.EmailIndexUnique` | authentication/views.py:60-61 | with unique emails, the lookup finds the one record holding the email |
| `Directory.Candidate` | authentication/views.py:53-56 | no contract of its own; its body is `base` for step 0 and `f"{base}_{k}"` (with `str(k)` as `Text.Decimal`) after, and `CandidateInjective` and `TriedStep` show the names are pairwise distinct |
| `Directory.CandidateInjective` | authentication/views.py:53-56 | `base`, `base_1`, `base_2`, … are pairwise distinct |
| `Directory.TriedStep` | authentication/views.py:53-57 | each probe step tries a name not tried before |
| `Directory.FirstFreeSuffixFrom` | authentication/views.py:53-57 | probing from step `k` ends at a step `m >= k` whose name is unused, with every step from `k` up to `m` taken |
| `Directory.FirstFreeSuffixFromIs` | authentication/views.py:53-57 | a free step with all earlier steps taken is the step the probe stops at |
| `Directory.FirstUnusedIsLeast` | authentication/views.py:52-57 | the chosen name is unused; it is `base` if `base` is free, else `base_k` for the least `k >= 1` with `base` and all `base_j` (`j < k`) taken |
| `Directory.FirstUnused` | authentication/views.py:53-57 | the name the probe loop ends on; no contract of its own, characterised by `FirstUnusedIsLeast` and matched by `UserDirectory.ProbeUsername` |
| `Directory.NewRecord` | authentication/views.py:64-70 | a created record is tagged `registration_method = 'google'` |
| `Directory.Reconciled` | authentication/views.py:52-70 | find-or-create as a function of the old table; no contract of its own, stated by `ReconcileExisting`, `ReconcileNew`, `ReconcileKeepsInvariants` and `ReconcileIdempotent`, and matched by `UserDirectory.FindOrCreate` |
| `Directory.ReconcileExisting` | authentication/views.py:60-61 | an email already present returns that exact record and leaves the table unchanged |
| `Directory.ReconcileNew` | authentication/views.py:52-70 | a new email appends exactly one record (probed username, the email, the names, `'google'`), keeps the old records and returns the new one |
| `Directory.ReconcileKeepsInvariants` | authentication/views.py:52-70 | find-or-create keeps usernames and emails unique; afterwards exactly one record has the email, and it is the user returned |
| `Directory.ReconcileIdempotent` | authentication/views.py:60-70 | a second find-or-create with the same email returns the same user and changes nothing |
| `Directory.UserDirectory.ProbeUsername` | authentication/views.py:53-57 | the loop ends with the first of `base`, `base_1`, … that no record uses |
| `Directory.UserDirectory.FindOrCreate` | authentication/views.py:52-70 | keeps `Valid()`; an existing email leaves the table as it was and returns its record; a new email appends exactly the new record |
| `LoginView.FirstName` | authentication/views.py:48 | `given_name` when present, otherwise `''` |
| `LoginView.LastName` | authentication/views.py:49 | `family_name` when present, otherwise `''` |
| `LoginView.GoogleLoginGet` | authentication/views.py:20-82 | the view keeps `Valid()`, matches `Login` in response and new table, and changes the table only on success |
| `LoginView.Login` | authentication/views.py:20-82 | the whole view as a function of the old table; no contract of its own, stated by `FailureLeavesTable`, `RefusedLogin`, `ProviderFailureLogin`, `ProceedingLoginSucceeds`, `SuccessfulLogin` and `MissingEmailLogin`, and matched by `GoogleLoginGet` |
| `LoginView.FailureLeavesTable` | authentication/views.py:31-52 | every response other than success leaves the table unchanged |
| `LoginView.RefusedLogin` | authentication/views.py:31-33 | a refused callback redirects with `GuardReason(error)` and leaves the table unchanged |
| `LoginView.ProviderFailureLogin` | authentication/views.py:37-45 | a `ValidationError` from either call redirects with its text, and any other failure with the generic message; the table is unchanged |
| `LoginView.SuccessfulLogin` | authentication/views.py:47-82 | the table keeps its invariants; success carries the one record with the claimed email and the two tokens issued for it |
| `LoginView.ProceedingLoginSucceeds` | authentication/views.py:47-82 | a callback that proceeds with an `email` claim answers success with find-or-create's user (names from `given_name`/`family_name`, default `''`), the tokens issued for it, and find-or-create's table |
| `LoginView.MissingEmailLogin` | authentication/views.py:47-52 | claims without `email` raise out of the view before the table is touched |
| `Scenarios.FirstLoginCreatesBaseName` | authentication/views.py:47-82 | a first login of `a@x.com` into an empty table creates and returns username `a` |
| `Scenarios.CollisionGetsSuffix` | authentication/views.py:52-70 | with `a` taken, `a@x.com` is created as `a_1` |
| `Scenarios.RepeatLoginReusesRecord` | authentication/views.py:60-61 | a repeat login returns the stored record and adds none |
| `Scenarios.AccessDeniedRedirects` | authentication/views.py:31-33 | `error=access_denied` redirects with `access_denied` |
| `Scenarios.RejectedCodeRedirects` | authentication/views.py:37-45 | a code the provider rejects with a non-validation failure redirects with the generic message |
| `Scenarios.TwoLoginsThroughView` | authentication/views.py:20-82 | calling the view twice for `a@x.com` on an empty table creates one record `a` and returns that record both times, each time with the tokens issued by that call |

## Left out

- The input serializer (`InputSerializer`, lines 16-22). It would answer 400 before the guard, for example for a blank `code` or `error`. The guard is modelled on the validated `code` and `error` as Python truthiness.
- `APIView`, the mixins, `redirect` and `Response`. These are framework plumbing. A redirect is represented by its reason; the location `{BASE_FRONTEND_URL}?error=<urlencode(reason)>` and the percent-encoding are not modelled.
- `google_get_access_token` and `google_get_user_info`. These are network calls and appear only as abstract results: a value, a `ValidationError` carrying its `str(e)` text, or another error. How Django renders `str(e)` (a list repr) is not modelled.
- `generate_tokens_for_user` and `UserSerializer`. Tokens are opaque strings from the parameter `issue`, and each request gets its own issuer, so a later login may receive a different pair. That pairs minted for the same user differ, and that they verify, is not modelled. The success response carries the user record itself in place of its serialised view.
- A user-info payload whose `given_name` or `family_name` key is present with a JSON `null`. Python then yields `None`, not `''`; the model has only "present with a string" or "absent".
- Concurrent logins, and the race between the username probe and `create`. The view has no retry around `create`, and the model has none either. The database's uniqueness constraint and the error it raises are also left out. The table is a single sequential value.
- `MultipleObjectsReturned` from `User.objects.get`. The model excludes it by requiring unique emails (`Valid()`).
- Database collation. Names and emails are compared exactly, as sequences of characters.
- Record fields other than the five the view sets (primary key, password and so on).
- `LoginView.FailureLeavesTable`: record creation (`User.objects.create`, lines 64-70), token minting (`generate_tokens_for_user`, line 73) and serialisation (`UserSerializer(user).data` and `str(token)`, lines 77-79) are taken to never raise, and so are the database reads `User.objects.filter(username=...).exists()` (line 55) and `User.objects.get(email=...)` (line 61), apart from `DoesNotExist`. An exception in any of them would escape the view. An exception after `create` could come when `create` has already committed the row; one from the reads leaves the table unchanged. So the only escaping exception modelled is the missing `email` claim, and "a response other than success leaves the table unchanged" holds only under this assumption.
- `LoginView.GoogleLoginGet`: its clause that the table changes only on success rests on the same assumption of non-failing creation, minting and serialisation.
