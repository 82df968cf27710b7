# IAM_USER_NO_SERVICE_SPECIFIC_CREDENTIALS in Dafny

This project models the AWS Config rule `IAM_USER_NO_SERVICE_SPECIFIC_CREDENTIALS`. The rule runs periodically, lists the account's IAM users page by page and reports one evaluation of type `AWS::IAM::User` per user:

- **NON_COMPLIANT** when one of the user's service-specific credentials has the status `Active`. The annotation names the first such credential.
- **COMPLIANT** otherwise.
- **NON_COMPLIANT** with an annotation pointing at the logs when checking that user's credentials raised.

The rule parameter `ServiceName`, when present, is passed to every credential call as a filter. A fault while listing users is raised again.

The two IAM calls become parameters of the model:

- `list_service_specific_credentials` is a total function from the call's keyword arguments (a `map<string, string>`, where an absent key is an omitted argument) to a page or a fault.
- The `list_users` paginator becomes a `UserListing`. It holds the pages delivered and the fault raised after them, if any. The paginator is lazy, so the users of delivered pages are checked before that fault surfaces.

The rule loops with `while True` while pages say they are truncated. A `fuel` bound on fetches per user stands in for that loop. Running out of fuel is an outcome of its own, meaning "has not returned yet". `UserScan.ScanFuelMonotone`, `UserScan.UserFuelMonotone` and `Periodic.PeriodicFuelMonotone` show that any other outcome stays the same under more fuel, for one scan, one user and a whole run.

Modules:

- `Types`: data, constants and annotations.
- `Request`: how a credential call is built (`get_credentials_for_user`).
- `MarkerChain`: the reference walk along the `Marker` chain. It ignores credentials.
- `UserScan`: `evaluate_user`, proved against that walk.
- `Periodic`: `handle_credential_check_error` and `evaluate_periodic`. It has a functional definition and a method with the nested loops of the source, proved equal to it.
- `Scenarios`: scenarios 4, 6 (both the page-one and the page-two variant), 8 and 9 of the rule's docstring (python-rdklib/IAM_USER_NO_SERVICE_SPECIFIC_CREDENTIALS/IAM_USER_NO_SERVICE_SPECIFIC_CREDENTIALS.py:30-79), stated for fixed services. Scenarios 1, 2, 3, 5 and 7 are covered by the general lemmas only: `EvaluatePeriodic` (no users), `UserCompliantIffNoActive` and `UserNonCompliantIffActive`.

## Model

| member | source | states |
|---|---|---|
| Request.CredentialsRequest | python-rdklib/IAM_USER_NO_SERVICE_SPECIFIC_CREDENTIALS/IAM_USER_NO_SERVICE_SPECIFIC_CREDENTIALS.py:86-94 | `UserName` is always passed. `ServiceName` is passed exactly when a filter is set, with its value. `Marker` is passed exactly when a marker is set, with its value. No other argument is passed, so neither is ever passed as None |
| Request.RequestArguments | python-rdklib/IAM_USER_NO_SERVICE_SPECIFIC_CREDENTIALS/IAM_USER_NO_SERVICE_SPECIFIC_CREDENTIALS.py:86-94 | reading a call back: whenever it yields arguments, building the call from them gives that very call back; when it yields none, no choice of arguments builds that call |
| Request.ArgumentsRoundTrip | python-rdklib/IAM_USER_NO_SERVICE_SPECIFIC_CREDENTIALS/IAM_USER_NO_SERVICE_SPECIFIC_CREDENTIALS.py:86-94 | the user name, filter and marker can be read back unchanged from the call built from them |
| Request.PayloadRoundTrip | python-rdklib/IAM_USER_NO_SERVICE_SPECIFIC_CREDENTIALS/IAM_USER_NO_SERVICE_SPECIFIC_CREDENTIALS.py:86-94 | every call with `UserName` and only the three known arguments is the one built from its own arguments, so the four branches cover every shape |
| Request.RequestInjective | python-rdklib/IAM_USER_NO_SERVICE_SPECIFIC_CREDENTIALS/IAM_USER_NO_SERVICE_SPECIFIC_CREDENTIALS.py:86-94 | different (user, filter, marker) triples give different calls; in particular a first call never looks like a follow-up call |
| MarkerChain.FirstActive | python-rdklib/IAM_USER_NO_SERVICE_SPECIFIC_CREDENTIALS/IAM_USER_NO_SERVICE_SPECIFIC_CREDENTIALS.py:101-102 | `None` exactly when no credential has status exactly "Active"; otherwise the index of an Active credential with none before it |
| MarkerChain.Follow | python-rdklib/IAM_USER_NO_SERVICE_SPECIFIC_CREDENTIALS/IAM_USER_NO_SERVICE_SPECIFIC_CREDENTIALS.py:98-115 | the reference walk: at most `fuel` calls, the first built from the starting marker and answered by the service; it stops for lack of fuel exactly when the last page still leads on |
| MarkerChain.ChainAnswered | python-rdklib/IAM_USER_NO_SERVICE_SPECIFIC_CREDENTIALS/IAM_USER_NO_SERVICE_SPECIFIC_CREDENTIALS.py:100 | every exchange of the walk holds the service's answer to its request, addressed to the user under the filter |
| MarkerChain.ChainLinked | python-rdklib/IAM_USER_NO_SERVICE_SPECIFIC_CREDENTIALS/IAM_USER_NO_SERVICE_SPECIFIC_CREDENTIALS.py:111-113 | marker threading: every exchange but the last answered with a truncated page, and the next call carries exactly the `Marker` that page handed out |
| MarkerChain.ChainEnds | python-rdklib/IAM_USER_NO_SERVICE_SPECIFIC_CREDENTIALS/IAM_USER_NO_SERVICE_SPECIFIC_CREDENTIALS.py:110-115 | unless fuel ran out, the walk ends exactly where its last response says: a page not truncated, a fault, or a truncated page without `Marker` |
| UserScan.LoopBody | python-rdklib/IAM_USER_NO_SERVICE_SPECIFIC_CREDENTIALS/IAM_USER_NO_SERVICE_SPECIFIC_CREDENTIALS.py:100-115 | one loop pass leaves with the first Active credential's id when the page has one; otherwise it goes on at the page's marker exactly when the walk does, or ends as the walk ends |
| UserScan.ScanFrom | python-rdklib/IAM_USER_NO_SERVICE_SPECIFIC_CREDENTIALS/IAM_USER_NO_SERVICE_SPECIFIC_CREDENTIALS.py:98-115 | at most `fuel` calls, the first built from the entry marker; running out of fuel means every fetch was used |
| UserScan.EvaluateUser | python-rdklib/IAM_USER_NO_SERVICE_SPECIFIC_CREDENTIALS/IAM_USER_NO_SERVICE_SPECIFIC_CREDENTIALS.py:97-122 | the first call carries no `Marker`; every call names the user and carries the filter; a returned evaluation is for the user's id and resource type `AWS::IAM::User` |
| UserScan.ScanIsChainPrefix | python-rdklib/IAM_USER_NO_SERVICE_SPECIFIC_CREDENTIALS/IAM_USER_NO_SERVICE_SPECIFIC_CREDENTIALS.py:99-115 | the calls of the check are a prefix of the calls of the reference walk |
| UserScan.ScanStopsAtFirstActive | python-rdklib/IAM_USER_NO_SERVICE_SPECIFIC_CREDENTIALS/IAM_USER_NO_SERVICE_SPECIFIC_CREDENTIALS.py:101-109 | a check that finds an Active credential stops on the first page of the walk holding one and reports that page's first Active credential |
| UserScan.ScanWithoutActive | python-rdklib/IAM_USER_NO_SERVICE_SPECIFIC_CREDENTIALS/IAM_USER_NO_SERVICE_SPECIFIC_CREDENTIALS.py:110-115 | a check that finds nothing fetches the whole walk, and no page of it holds an Active credential |
| UserScan.ScanEndsWithChain | python-rdklib/IAM_USER_NO_SERVICE_SPECIFIC_CREDENTIALS/IAM_USER_NO_SERVICE_SPECIFIC_CREDENTIALS.py:110-115 | a check that finds nothing ends as the walk ends: last page, the same fault, or out of fuel |
| UserScan.ScanFindsIffChainHasActive | python-rdklib/IAM_USER_NO_SERVICE_SPECIFIC_CREDENTIALS/IAM_USER_NO_SERVICE_SPECIFIC_CREDENTIALS.py:101-115 | the check finds an Active credential exactly when some page of the walk holds one |
| UserScan.ScanFuelMonotone | python-rdklib/IAM_USER_NO_SERVICE_SPECIFIC_CREDENTIALS/IAM_USER_NO_SERVICE_SPECIFIC_CREDENTIALS.py:99-115 | any outcome other than running out of fuel, with its calls, is unchanged by a larger fuel bound |
| UserScan.UserFuelMonotone | python-rdklib/IAM_USER_NO_SERVICE_SPECIFIC_CREDENTIALS/IAM_USER_NO_SERVICE_SPECIFIC_CREDENTIALS.py:97-122 | a user's check that returned or raised within the fuel bound returns or raises the same, after the same calls, under any larger bound |
| UserScan.UserNonCompliantIffActive | python-rdklib/IAM_USER_NO_SERVICE_SPECIFIC_CREDENTIALS/IAM_USER_NO_SERVICE_SPECIFIC_CREDENTIALS.py:101-109 | NON_COMPLIANT exactly when some page holds an Active credential; then the annotation is the fixed prefix plus the id of the first Active credential in page-then-list order, and the last call fetched that page |
| UserScan.FetchesUpToFirstActivePage | python-rdklib/IAM_USER_NO_SERVICE_SPECIFIC_CREDENTIALS/IAM_USER_NO_SERVICE_SPECIFIC_CREDENTIALS.py:101-109 | early exit: if page k is the first with an Active credential, exactly k + 1 pages are fetched, whatever follows |
| UserScan.UserCompliantIffNoActive | python-rdklib/IAM_USER_NO_SERVICE_SPECIFIC_CREDENTIALS/IAM_USER_NO_SERVICE_SPECIFIC_CREDENTIALS.py:110-122 | COMPLIANT, with the fixed annotation, exactly when the walk reaches a page that is not truncated and no page holds an Active credential; every page is then fetched |
| UserScan.UserThrowsIffChainBreaks | python-rdklib/IAM_USER_NO_SERVICE_SPECIFIC_CREDENTIALS/IAM_USER_NO_SERVICE_SPECIFIC_CREDENTIALS.py:100-113 | the check raises exactly when the walk breaks on a fault before any Active credential, and raises that fault; it has not returned exactly when fuel ran out on a walk without Active credentials |
| Periodic.ServiceNameFilter | python-rdklib/IAM_USER_NO_SERVICE_SPECIFIC_CREDENTIALS/IAM_USER_NO_SERVICE_SPECIFIC_CREDENTIALS.py:139 | the filter is set exactly when the parameters hold `ServiceName`, and it is that value |
| Periodic.HandleCredentialCheckError | python-rdklib/IAM_USER_NO_SERVICE_SPECIFIC_CREDENTIALS/IAM_USER_NO_SERVICE_SPECIFIC_CREDENTIALS.py:125-134 | a raised check gives NON_COMPLIANT for the user's id with the log annotation, whatever the fault |
| Periodic.UserVerdict | python-rdklib/IAM_USER_NO_SERVICE_SPECIFIC_CREDENTIALS/IAM_USER_NO_SERVICE_SPECIFIC_CREDENTIALS.py:148-151 | each user's entry is for that user's id and type; there is none exactly when the user's check has not returned |
| Periodic.EvaluateUsers | python-rdklib/IAM_USER_NO_SERVICE_SPECIFIC_CREDENTIALS/IAM_USER_NO_SERVICE_SPECIFIC_CREDENTIALS.py:145-151 | one entry per user checked; every user has an entry exactly when every check returned |
| Periodic.EvaluateUsersVerdicts | python-rdklib/IAM_USER_NO_SERVICE_SPECIFIC_CREDENTIALS/IAM_USER_NO_SERVICE_SPECIFIC_CREDENTIALS.py:145-151 | entry i is user i's own verdict, in enumeration order; the run stops exactly at the first user whose check has not returned |
| Periodic.EvaluateUsersFiltered | python-rdklib/IAM_USER_NO_SERVICE_SPECIFIC_CREDENTIALS/IAM_USER_NO_SERVICE_SPECIFIC_CREDENTIALS.py:139-149 | every call of a run of users carries the filter |
| Periodic.EvaluatePeriodic | python-rdklib/IAM_USER_NO_SERVICE_SPECIFIC_CREDENTIALS/IAM_USER_NO_SERVICE_SPECIFIC_CREDENTIALS.py:137-155 | a returned run has one evaluation per listed user, in order, each with that user's id and type `AWS::IAM::User`; a raised fault is the listing's; zero users gives an empty run or the listing fault |
| Periodic.ErrorContainment | python-rdklib/IAM_USER_NO_SERVICE_SPECIFIC_CREDENTIALS/IAM_USER_NO_SERVICE_SPECIFIC_CREDENTIALS.py:148-151 | in a returned run, each user's entry is exactly what its own check returned, or the log evaluation when that check raised; other users do not affect it |
| Periodic.RunReturnsIffListingSucceeds | python-rdklib/IAM_USER_NO_SERVICE_SPECIFIC_CREDENTIALS/IAM_USER_NO_SERVICE_SPECIFIC_CREDENTIALS.py:142-155 | the run returns evaluations exactly when the listing did not fail and every check returned or raised; so a credential fault alone never makes the run raise |
| Periodic.ListingFailureIsFatal | python-rdklib/IAM_USER_NO_SERVICE_SPECIFIC_CREDENTIALS/IAM_USER_NO_SERVICE_SPECIFIC_CREDENTIALS.py:153-155 | a failed listing never yields evaluations; once every listed user's check has finished, the run raises that very fault |
| Periodic.FilterReachesEveryRequest | python-rdklib/IAM_USER_NO_SERVICE_SPECIFIC_CREDENTIALS/IAM_USER_NO_SERVICE_SPECIFIC_CREDENTIALS.py:139-149 | every credential call of the run passes `ServiceName` exactly when the parameters hold it, with that value |
| Periodic.EvaluateUsersFuelMonotone | python-rdklib/IAM_USER_NO_SERVICE_SPECIFIC_CREDENTIALS/IAM_USER_NO_SERVICE_SPECIFIC_CREDENTIALS.py:145-151 | a run of users whose every check finished within the fuel bound is the same under any larger bound |
| Periodic.PeriodicFuelMonotone | python-rdklib/IAM_USER_NO_SERVICE_SPECIFIC_CREDENTIALS/IAM_USER_NO_SERVICE_SPECIFIC_CREDENTIALS.py:137-155 | a periodic run that returned its evaluations or raised the listing fault is the same under any larger fuel bound |
| Periodic.AllUsersSplit | python-rdklib/IAM_USER_NO_SERVICE_SPECIFIC_CREDENTIALS/IAM_USER_NO_SERVICE_SPECIFIC_CREDENTIALS.py:144-145 | the users are enumerated page by page: those of the pages before page p, then page p, then those after |
| Periodic.EvaluateUsersStops | python-rdklib/IAM_USER_NO_SERVICE_SPECIFIC_CREDENTIALS/IAM_USER_NO_SERVICE_SPECIFIC_CREDENTIALS.py:148-149 | once a check has not returned, the users after it are not reached |
| Periodic.EvaluatePage | python-rdklib/IAM_USER_NO_SERVICE_SPECIFIC_CREDENTIALS/IAM_USER_NO_SERVICE_SPECIFIC_CREDENTIALS.py:145-151 | the inner loop over one page appends exactly the entries and calls of checking those users after the ones before |
| Periodic.RunPeriodic | python-rdklib/IAM_USER_NO_SERVICE_SPECIFIC_CREDENTIALS/IAM_USER_NO_SERVICE_SPECIFIC_CREDENTIALS.py:137-155 | the nested page and user loops compute exactly `EvaluatePeriodic` |
| Scenarios.ActiveOnPageTwo | python-rdklib/IAM_USER_NO_SERVICE_SPECIFIC_CREDENTIALS/IAM_USER_NO_SERVICE_SPECIFIC_CREDENTIALS_test.py:215-231 | an Active credential on page two gives NON_COMPLIANT with its id, after exactly two calls; the second carries page one's marker |
| Scenarios.ActiveOnPageOne | python-rdklib/IAM_USER_NO_SERVICE_SPECIFIC_CREDENTIALS/IAM_USER_NO_SERVICE_SPECIFIC_CREDENTIALS_test.py:234-250 | an Active credential on a truncated page one gives NON_COMPLIANT after exactly one call |
| Scenarios.NotActiveIsCompliant | python-rdklib/IAM_USER_NO_SERVICE_SPECIFIC_CREDENTIALS/IAM_USER_NO_SERVICE_SPECIFIC_CREDENTIALS_test.py:166-178 | only "NotActive" credentials under a filter gives COMPLIANT after one call that passes `ServiceName` |
| Scenarios.CredentialErrorIsRaised | python-rdklib/IAM_USER_NO_SERVICE_SPECIFIC_CREDENTIALS/IAM_USER_NO_SERVICE_SPECIFIC_CREDENTIALS_test.py:269-281 | a failing credential call makes the user's check raise that fault after one call |
| Scenarios.CredentialErrorIsContained | python-rdklib/IAM_USER_NO_SERVICE_SPECIFIC_CREDENTIALS/IAM_USER_NO_SERVICE_SPECIFIC_CREDENTIALS_test.py:269-281 | a failing credential call still gives a returned run with that user NON_COMPLIANT and the log annotation |
| Scenarios.ListingErrorIsRaised | python-rdklib/IAM_USER_NO_SERVICE_SPECIFIC_CREDENTIALS/IAM_USER_NO_SERVICE_SPECIFIC_CREDENTIALS_test.py:285-291 | a listing that fails before any page makes the run raise that fault with no calls made |

## Left out

- `lambda_handler` and the `Evaluator` of rdklib (python-rdklib/IAM_USER_NO_SERVICE_SPECIFIC_CREDENTIALS/IAM_USER_NO_SERVICE_SPECIFIC_CREDENTIALS.py:158-161) are framework dispatch. They are not part of this model.
- `client_factory.build_client` and `get_paginator` (python-rdklib/IAM_USER_NO_SERVICE_SPECIFIC_CREDENTIALS/IAM_USER_NO_SERVICE_SPECIFIC_CREDENTIALS.py:140-143) are not modelled. The IAM clients are the `fetch` and `listing` parameters.
- The `print` logging in `handle_credential_check_error` and `evaluate_periodic` (python-rdklib/IAM_USER_NO_SERVICE_SPECIFIC_CREDENTIALS/IAM_USER_NO_SERVICE_SPECIFIC_CREDENTIALS.py:127, python-rdklib/IAM_USER_NO_SERVICE_SPECIFIC_CREDENTIALS/IAM_USER_NO_SERVICE_SPECIFIC_CREDENTIALS.py:154) is left out. It has no effect on the result.
- UserScan.ScanFrom: the `while True` loop is bounded by `fuel`. A service that answers "truncated" forever is modelled only up to that bound, as the `OutOfFuel` / `Diverged` / `Unfinished` outcomes.
- A missing `Marker` on a truncated page is modelled as a contained fault. Other missing response keys are not modelled, because responses are typed records. These are `ServiceSpecificCredentials`, `Status`, `ServiceSpecificCredentialId`, `Users`, `UserId` and `UserName`. A missing `UserId` or `UserName` (python-rdklib/IAM_USER_NO_SERVICE_SPECIFIC_CREDENTIALS/IAM_USER_NO_SERVICE_SPECIFIC_CREDENTIALS.py:146-147) would be raised outside the per-user `try` and be fatal.
- `IsTruncated` is a boolean here. Python truthiness of other values is not modelled; only a present and true flag continues.
- Faults are one `Fault` type. The Python exception class hierarchy, and exceptions that `except Exception` would not catch, are not modelled.
- The comment at python-rdklib/IAM_USER_NO_SERVICE_SPECIFIC_CREDENTIALS/IAM_USER_NO_SERVICE_SPECIFIC_CREDENTIALS.py:87 says the API rejects `None` for `ServiceName` or `Marker`, and the code only tests `== None` (python-rdklib/IAM_USER_NO_SERVICE_SPECIFIC_CREDENTIALS/IAM_USER_NO_SERVICE_SPECIFIC_CREDENTIALS.py:88, python-rdklib/IAM_USER_NO_SERVICE_SPECIFIC_CREDENTIALS/IAM_USER_NO_SERVICE_SPECIFIC_CREDENTIALS.py:92). So a `ServiceName` rule parameter of "" is passed through as `ServiceName=""`. The model follows the code: `ServiceNameFilter` and `CredentialsRequest` pass any present value, including the empty string.
- The test at python-rdklib/IAM_USER_NO_SERVICE_SPECIFIC_CREDENTIALS/IAM_USER_NO_SERVICE_SPECIFIC_CREDENTIALS_test.py:215 (active credential on page two, two calls) has the same method name as the one at python-rdklib/IAM_USER_NO_SERVICE_SPECIFIC_CREDENTIALS/IAM_USER_NO_SERVICE_SPECIFIC_CREDENTIALS_test.py:234, so the later definition replaces it. `Scenarios.ActiveOnPageTwo` proves the behaviour that shadowed test describes.
