/**
 Some of the rule's documented scenarios, stated for small fixed services.
 A credential service here is a function of the request; `TwoPages`
 matches a mock that answers by call order because the first call of a
 check is the only one without `Marker`, and the others answer every call
 alike.
 */
module Scenarios {
  import opened Types
  import opened Request
  import opened MarkerChain
  import opened UserScan
  import opened Periodic

  const CredentialId: string := "matchingCredential"
  const MatchingService: string := "matchingService"

  const ActiveCredential: Credential := Credential(CredentialId, "Active", MatchingService)
  const NotActiveCredential: Credential := Credential("nonMatchingCredential", "NotActive", MatchingService)

  /** First page: nothing Active, truncated, pointing at page two. */
  const InactivePageOne: CredentialPage := CredentialPage([NotActiveCredential], Some(true), Some("getPageTwo"))
  /** First page: an Active credential, truncated. */
  const ActivePageOne: CredentialPage := CredentialPage([ActiveCredential], Some(true), Some("getPageTwo"))
  /** Last page with an Active credential. */
  const ActivePageTwo: CredentialPage := CredentialPage([ActiveCredential], Some(false), None)

  /** Page one for a request without marker, page two for any other. */
  function TwoPages(first: CredentialPage): CredentialService {
    (p: Payload) => if MarkerKey in p then Success(ActivePageTwo) else Success(first)
  }

  /** A service whose every call fails. */
  const Failing: CredentialService :=
    (p: Payload) => Failure(ServiceError("unknown-code", "unknown-message"))

  /** Active credential on page two: the user is NON_COMPLIANT with that
      credential's id, after exactly two calls, the second one carrying the
      marker page one handed out. */
  lemma ActiveOnPageTwo()
    ensures var u := EvaluateUser(TwoPages(InactivePageOne), "NAME", "non_compliant_user_id", None, 5);
            && u.outcome == Returned(Evaluation(NonCompliant, "non_compliant_user_id", ResourceType,
                                                ActiveFoundPrefix + CredentialId))
            && u.requests == [map[UserNameKey := "NAME"], map[UserNameKey := "NAME", MarkerKey := "getPageTwo"]]
  {
    var fetch := TwoPages(InactivePageOne);
    var r0 := CredentialsRequest("NAME", None, None);
    var r1 := CredentialsRequest("NAME", None, Some("getPageTwo"));
    assert fetch(r0) == Success(InactivePageOne);
    assert fetch(r1) == Success(ActivePageTwo);
    assert FirstActive(InactivePageOne.credentials) == None;
    assert FirstActive(ActivePageTwo.credentials) == Some(0);
    ScanUnfold(fetch, "NAME", None, None, 5);
    ScanLeavesAtOnce(fetch, "NAME", None, Some("getPageTwo"), 4);
  }

  /** Active credential on page one: the scan stops there, after one call,
      though page one is truncated. */
  lemma ActiveOnPageOne()
    ensures var u := EvaluateUser(TwoPages(ActivePageOne), "NAME", "non_compliant_user_id", None, 5);
            && u.outcome == Returned(Evaluation(NonCompliant, "non_compliant_user_id", ResourceType,
                                                ActiveFoundPrefix + CredentialId))
            && u.requests == [map[UserNameKey := "NAME"]]
  {
    var fetch := TwoPages(ActivePageOne);
    assert fetch(CredentialsRequest("NAME", None, None)) == Success(ActivePageOne);
    assert FirstActive(ActivePageOne.credentials) == Some(0);
    ScanLeavesAtOnce(fetch, "NAME", None, None, 5);
  }

  /** Only "NotActive" credentials, with the filter set: COMPLIANT, and the
      one call passes `ServiceName`. */
  lemma NotActiveIsCompliant()
    ensures var fetch := (p: Payload) => Success(CredentialPage([NotActiveCredential], Some(false), None));
            var u := EvaluateUser(fetch, "NAME", "compliant_user_id", Some(MatchingService), 5);
            && u.outcome == Returned(Evaluation(Compliant, "compliant_user_id", ResourceType, NoActiveAnnotation))
            && u.requests == [map[UserNameKey := "NAME", ServiceNameKey := MatchingService]]
  {
    var fetch := (p: Payload) => Success(CredentialPage([NotActiveCredential], Some(false), None));
    assert FirstActive([NotActiveCredential]) == None;
    ScanLeavesAtOnce(fetch, "NAME", Some(MatchingService), None, 5);
  }

  /** A failing credential call makes the user's check raise that fault,
      after one call. */
  lemma CredentialErrorIsRaised()
    ensures EvaluateUser(Failing, "NAME", "compliant_user_id", None, 5)
              == UserRun([map[UserNameKey := "NAME"]], Threw(ServiceError("unknown-code", "unknown-message")))
  {
    ScanLeavesAtOnce(Failing, "NAME", None, None, 5);
  }

  /** A failing credential call: the user is NON_COMPLIANT with the
      annotation pointing at the logs, and the run still returns. */
  lemma CredentialErrorIsContained()
    ensures EvaluatePeriodic(map[], Failing, UserListing([[User("NAME", "compliant_user_id")]], None), 5)
              == Run([map[UserNameKey := "NAME"]],
                     Evaluations([Evaluation(NonCompliant, "compliant_user_id", ResourceType, CheckErrorAnnotation)]))
  {
    var user := User("NAME", "compliant_user_id");
    var pages := [[user]];
    var none: seq<User> := [];
    assert pages[1..] == [];
    assert AllUsers(pages) == [user];
    CredentialErrorIsRaised();
    assert UserVerdict(Failing, user, None, 5)
             == Some(Evaluation(NonCompliant, "compliant_user_id", ResourceType, CheckErrorAnnotation));
    EvaluateUsersSnoc(Failing, none, user, None, 5);
    assert none + [user] == [user];
    assert EvaluateUsers(Failing, [user], None, 5)
             == Batch([map[UserNameKey := "NAME"]],
                      [Evaluation(NonCompliant, "compliant_user_id", ResourceType, CheckErrorAnnotation)], true);
    var parameters: map<string, string> := map[];
    assert ServiceNameFilter(parameters) == None;
  }

  /** A failing user listing: the fault is raised again and nothing is
      returned, whatever the credential service would answer. */
  lemma ListingErrorIsRaised(fetch: CredentialService)
    ensures var f := ServiceError("unknown-code", "unknown-message");
            EvaluatePeriodic(map[], fetch, UserListing([], Some(f)), 5) == Run([], Reraised(f))
  {
  }
}
