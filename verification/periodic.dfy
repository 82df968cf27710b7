/**
 The periodic evaluation (`evaluate_periodic`): read the optional
 `ServiceName` filter from the rule parameters, enumerate the IAM users page
 by page, and append one evaluation per user. A fault while checking one
 user is contained: that user is reported NON_COMPLIANT with an annotation
 pointing at the logs. A fault while listing users is fatal: it is raised
 again and no evaluation is returned.
 */
module Periodic {
  import opened Types
  import opened Request
  import opened UserScan

  /** What the user listing delivered: the pages handed out before the
      paginator stopped, and the fault it raised when asked for the next
      page, if it raised one. The paginator is lazy, so the users of the
      pages already delivered are checked before that fault surfaces. */
  datatype UserListing = UserListing(pages: seq<seq<User>>, failure: Option<Fault>)

  /** The rule's filter: the `ServiceName` parameter when it is present. */
  function ServiceNameFilter(parameters: map<string, string>): (filter: Option<string>)
    ensures filter.Some? <==> ServiceNameKey in parameters
    ensures filter.Some? ==> filter.value == parameters[ServiceNameKey]
  {
    if ServiceNameKey in parameters then Some(parameters[ServiceNameKey]) else None
  }

  /** `handle_credential_check_error`: the conservative evaluation of a user
      whose check raised. The fault itself is only logged. */
  function HandleCredentialCheckError(fault: Fault, userId: string): (e: Evaluation)
    ensures e.complianceType == NonCompliant
    ensures e.resourceId == userId && e.resourceType == ResourceType
    ensures e.annotation == CheckErrorAnnotation
  {
    Evaluation(NonCompliant, userId, ResourceType, CheckErrorAnnotation)
  }

  /** The entry appended for one user: what `evaluate_user` returned, or the
      conservative evaluation when it raised; `None` while it has not returned. */
  function UserVerdict(fetch: CredentialService, user: User, filter: Option<string>, fuel: nat): (v: Option<Evaluation>)
    ensures v.Some? ==> v.value.resourceId == user.userId && v.value.resourceType == ResourceType
    ensures v.None? <==> EvaluateUser(fetch, user.userName, user.userId, filter, fuel).outcome.Diverged?
  {
    match EvaluateUser(fetch, user.userName, user.userId, filter, fuel).outcome
    case Returned(e) => Some(e)
    case Threw(f) => Some(HandleCredentialCheckError(f, user.userId))
    case Diverged => None
  }

  /** Every user's check returns or raises within the fuel bound. */
  predicate ChecksFinish(fetch: CredentialService, users: seq<User>, filter: Option<string>, fuel: nat) {
    forall i :: 0 <= i < |users| ==> UserVerdict(fetch, users[i], filter, fuel).Some?
  }

  /** The requests made for a run of users, the evaluations appended, and
      whether every user's check returned. */
  datatype Batch = Batch(requests: seq<Payload>, evaluations: seq<Evaluation>, finished: bool)

  /** One turn of the inner loop of `evaluate_periodic`: once a check has
      not returned nothing moves on; otherwise the user's requests are made
      and, when its check returns or raises, its entry is appended. */
  function Extend(fetch: CredentialService, b: Batch, user: User, filter: Option<string>, fuel: nat): Batch
  {
    if !b.finished then b
    else
      var u := EvaluateUser(fetch, user.userName, user.userId, filter, fuel);
      match UserVerdict(fetch, user, filter, fuel)
      case None => Batch(b.requests + u.requests, b.evaluations, false)
      case Some(e) => Batch(b.requests + u.requests, b.evaluations + [e], true)
  }

  /** The inner loop of `evaluate_periodic` over a run of users, each check
      inside its own failure boundary. It stops at a user whose check has not
      returned, since `evaluate_periodic` would still be inside that check. */
  function EvaluateUsers(fetch: CredentialService, users: seq<User>, filter: Option<string>, fuel: nat): (b: Batch)
    ensures |b.evaluations| <= |users|
    ensures b.finished <==> |b.evaluations| == |users|
  {
    if |users| == 0 then Batch([], [], true)
    else Extend(fetch, EvaluateUsers(fetch, users[..|users| - 1], filter, fuel), users[|users| - 1], filter, fuel)
  }

  /** Each entry of a run of users is that user's own verdict, and the run
      stops exactly at the first user whose check has not returned. */
  lemma {:induction false} EvaluateUsersVerdicts(fetch: CredentialService, users: seq<User>, filter: Option<string>, fuel: nat)
    ensures var b := EvaluateUsers(fetch, users, filter, fuel);
            && (forall i :: 0 <= i < |b.evaluations| ==> UserVerdict(fetch, users[i], filter, fuel) == Some(b.evaluations[i]))
            && (!b.finished ==> UserVerdict(fetch, users[|b.evaluations|], filter, fuel).None?)
    decreases |users|
  {
    if |users| > 0 {
      EvaluateUsersVerdicts(fetch, users[..|users| - 1], filter, fuel);
    }
  }

  /** Every request passes `ServiceName` exactly as `filter` says. */
  predicate AllFilteredBy(requests: seq<Payload>, filter: Option<string>) {
    forall k :: 0 <= k < |requests| ==> FilteredBy(requests[k], filter)
  }

  /** Every request of a run of users carries the filter. */
  lemma {:induction false} EvaluateUsersFiltered(fetch: CredentialService, users: seq<User>, filter: Option<string>, fuel: nat)
    ensures AllFilteredBy(EvaluateUsers(fetch, users, filter, fuel).requests, filter)
    decreases |users|
  {
    if |users| > 0 {
      var front := users[..|users| - 1];
      EvaluateUsersFiltered(fetch, front, filter, fuel);
      var b0 := EvaluateUsers(fetch, front, filter, fuel);
      var b := EvaluateUsers(fetch, users, filter, fuel);
      if b0.finished {
        var user := users[|users| - 1];
        var u := EvaluateUser(fetch, user.userName, user.userId, filter, fuel);
        assert b.requests == b0.requests + u.requests;
        forall k | 0 <= k < |b.requests|
          ensures FilteredBy(b.requests[k], filter)
        {
          if k >= |b0.requests| {
            assert b.requests[k] == u.requests[k - |b0.requests|];
            assert Addressed(u.requests[k - |b0.requests|], user.userName, filter);
          } else {
            assert b.requests[k] == b0.requests[k];
          }
        }
      }
    }
  }

  /** How a periodic run ends: with the evaluations, with the listing fault
      raised again, or (out of fuel) still inside some user's check. */
  datatype RunResult = Evaluations(evaluations: seq<Evaluation>) | Reraised(fault: Fault) | Unfinished

  datatype Run = Run(requests: seq<Payload>, result: RunResult)

  /** `evaluate_periodic`: evaluate every listed user in enumeration order,
      then re-raise the listing fault if there was one. */
  function EvaluatePeriodic(parameters: map<string, string>, fetch: CredentialService,
                            listing: UserListing, fuel: nat): (run: Run)
    ensures run.result.Evaluations? ==>
              && listing.failure.None?
              && |run.result.evaluations| == |AllUsers(listing.pages)|
              && forall i :: 0 <= i < |run.result.evaluations| ==>
                   && run.result.evaluations[i].resourceId == AllUsers(listing.pages)[i].userId
                   && run.result.evaluations[i].resourceType == ResourceType
    ensures run.result.Reraised? ==> listing.failure == Some(run.result.fault)
    ensures AllUsers(listing.pages) == [] ==>
              run == Run([], if listing.failure.Some? then Reraised(listing.failure.value) else Evaluations([]))
  {
    var filter := ServiceNameFilter(parameters);
    var batch := EvaluateUsers(fetch, AllUsers(listing.pages), filter, fuel);
    EvaluateUsersVerdicts(fetch, AllUsers(listing.pages), filter, fuel);
    if !batch.finished then Run(batch.requests, Unfinished)
    else match listing.failure
      case Some(f) => Run(batch.requests, Reraised(f))
      case None => Run(batch.requests, Evaluations(batch.evaluations))
  }

  // ---------------------------------------------------------------------
  // Properties of a run

  /** Containment: when the run returns, the entry of each user is exactly
      what `evaluate_user` alone returns for that user, or, when that check
      raised, NON_COMPLIANT with the annotation pointing at the logs. One
      user's fault never changes another user's entry. */
  lemma ErrorContainment(parameters: map<string, string>, fetch: CredentialService,
                         listing: UserListing, fuel: nat, i: nat)
    requires EvaluatePeriodic(parameters, fetch, listing, fuel).result.Evaluations?
    requires i < |AllUsers(listing.pages)|
    ensures var user := AllUsers(listing.pages)[i];
            var e := EvaluatePeriodic(parameters, fetch, listing, fuel).result.evaluations[i];
            match EvaluateUser(fetch, user.userName, user.userId, ServiceNameFilter(parameters), fuel).outcome
            case Returned(evaluation) => e == evaluation
            case Threw(_) => e == Evaluation(NonCompliant, user.userId, ResourceType, CheckErrorAnnotation)
            case Diverged => false
  {
    EvaluateUsersVerdicts(fetch, AllUsers(listing.pages), ServiceNameFilter(parameters), fuel);
  }

  /** A run returns its evaluations exactly when the listing did not fail
      and every user's check returned or raised; so a credential fault alone
      never makes the run raise. */
  lemma RunReturnsIffListingSucceeds(parameters: map<string, string>, fetch: CredentialService,
                                     listing: UserListing, fuel: nat)
    ensures EvaluatePeriodic(parameters, fetch, listing, fuel).result.Evaluations? <==>
              listing.failure.None? && ChecksFinish(fetch, AllUsers(listing.pages), ServiceNameFilter(parameters), fuel)
  {
    var users := AllUsers(listing.pages);
    var filter := ServiceNameFilter(parameters);
    var b := EvaluateUsers(fetch, users, filter, fuel);
    EvaluateUsersVerdicts(fetch, users, filter, fuel);
    if !b.finished {
      assert UserVerdict(fetch, users[|b.evaluations|], filter, fuel).None?;
    }
  }

  /** Fatal listing fault: a run whose listing failed never returns
      evaluations; once every listed user's check has finished it raises that
      very fault. */
  lemma ListingFailureIsFatal(parameters: map<string, string>, fetch: CredentialService,
                              listing: UserListing, fuel: nat)
    requires listing.failure.Some?
    ensures var r := EvaluatePeriodic(parameters, fetch, listing, fuel).result;
            r == Reraised(listing.failure.value) || r.Unfinished?
    ensures ChecksFinish(fetch, AllUsers(listing.pages), ServiceNameFilter(parameters), fuel) ==>
              EvaluatePeriodic(parameters, fetch, listing, fuel).result == Reraised(listing.failure.value)
  {
    var users := AllUsers(listing.pages);
    var filter := ServiceNameFilter(parameters);
    var b := EvaluateUsers(fetch, users, filter, fuel);
    EvaluateUsersVerdicts(fetch, users, filter, fuel);
    if !b.finished {
      assert UserVerdict(fetch, users[|b.evaluations|], filter, fuel).None?;
    }
  }

  /** The filter reaches every credential request of the run: `ServiceName`
      is passed exactly when the rule parameters hold it, with its value. */
  lemma FilterReachesEveryRequest(parameters: map<string, string>, fetch: CredentialService,
                                  listing: UserListing, fuel: nat)
    ensures var requests := EvaluatePeriodic(parameters, fetch, listing, fuel).requests;
            forall k :: 0 <= k < |requests| ==>
              && (ServiceNameKey in requests[k] <==> ServiceNameKey in parameters)
              && (ServiceNameKey in parameters ==> requests[k][ServiceNameKey] == parameters[ServiceNameKey])
  {
    var requests := EvaluatePeriodic(parameters, fetch, listing, fuel).requests;
    EvaluateUsersFiltered(fetch, AllUsers(listing.pages), ServiceNameFilter(parameters), fuel);
    forall k | 0 <= k < |requests|
      ensures FilteredBy(requests[k], ServiceNameFilter(parameters))
    {
    }
  }

  // ---------------------------------------------------------------------
  // The loops of `evaluate_periodic`, page by page and user by user

  /** Enumeration order: the users of a listing are those of the pages
      before page `p`, then page `p`, then those of the pages after it. */
  lemma {:induction false} AllUsersSplit(pages: seq<seq<User>>, p: nat)
    requires p < |pages|
    ensures AllUsers(pages) == AllUsers(pages[..p]) + pages[p] + AllUsers(pages[p + 1..])
    ensures AllUsers(pages[..p + 1]) == AllUsers(pages[..p]) + pages[p]
    decreases p
  {
    if p == 0 {
      assert pages[..1] == [pages[0]];
      assert AllUsers(pages[..1]) == pages[0] + AllUsers(pages[..1][1..]);
      assert pages[..1][1..] == [];
    } else {
      AllUsersSplit(pages[1..], p - 1);
      assert pages[1..][..p - 1] == pages[..p][1..];
      assert pages[1..][..p] == pages[..p + 1][1..];
      assert pages[1..][p - 1] == pages[p];
      assert pages[1..][p..] == pages[p + 1..];
    }
  }

  /** Checking a run of users and then one more is one more turn of the loop. */
  lemma EvaluateUsersSnoc(fetch: CredentialService, users: seq<User>, user: User, filter: Option<string>, fuel: nat)
    ensures EvaluateUsers(fetch, users + [user], filter, fuel)
              == Extend(fetch, EvaluateUsers(fetch, users, filter, fuel), user, filter, fuel)
  {
    assert (users + [user])[..|users|] == users;
  }

  /** One more turn after a run that finished, by what the user's check did. */
  lemma ExtendByOutcome(fetch: CredentialService, users: seq<User>, user: User, filter: Option<string>, fuel: nat,
                        b: Batch)
    requires EvaluateUsers(fetch, users, filter, fuel) == b && b.finished
    ensures var u := EvaluateUser(fetch, user.userName, user.userId, filter, fuel);
            EvaluateUsers(fetch, users + [user], filter, fuel)
              == match u.outcome
                 case Returned(e) => Batch(b.requests + u.requests, b.evaluations + [e], true)
                 case Threw(f) => Batch(b.requests + u.requests, b.evaluations + [HandleCredentialCheckError(f, user.userId)], true)
                 case Diverged => Batch(b.requests + u.requests, b.evaluations, false)
  {
    EvaluateUsersSnoc(fetch, users, user, filter, fuel);
  }

  /** Once a check does not return, the users after it are never reached. */
  lemma {:induction false} EvaluateUsersStops(fetch: CredentialService, users: seq<User>, later: seq<User>,
                                              filter: Option<string>, fuel: nat)
    requires !EvaluateUsers(fetch, users, filter, fuel).finished
    ensures EvaluateUsers(fetch, users + later, filter, fuel) == EvaluateUsers(fetch, users, filter, fuel)
    decreases |later|
  {
    if |later| > 0 {
      var front := later[..|later| - 1];
      assert users + later == (users + front) + [later[|later| - 1]];
      EvaluateUsersStops(fetch, users, front, filter, fuel);
      EvaluateUsersSnoc(fetch, users + front, later[|later| - 1], filter, fuel);
    } else {
      assert users + later == users;
    }
  }

  /** A check that does not return on page `p` leaves the whole run
      unfinished with the requests made so far. */
  lemma StopsInsidePage(parameters: map<string, string>, fetch: CredentialService,
                        listing: UserListing, fuel: nat, p: nat)
    requires p < |listing.pages|
    requires !EvaluateUsers(fetch, AllUsers(listing.pages[..p + 1]), ServiceNameFilter(parameters), fuel).finished
    ensures EvaluatePeriodic(parameters, fetch, listing, fuel)
              == Run(EvaluateUsers(fetch, AllUsers(listing.pages[..p + 1]), ServiceNameFilter(parameters), fuel).requests,
                     Unfinished)
  {
    AllUsersSplit(listing.pages, p);
    EvaluateUsersStops(fetch, AllUsers(listing.pages[..p + 1]), AllUsers(listing.pages[p + 1..]),
                       ServiceNameFilter(parameters), fuel);
  }

  /** A run whose every check returned ends as the listing says: with the
      evaluations, or with the listing fault raised again. */
  lemma PeriodicEnds(parameters: map<string, string>, fetch: CredentialService,
                     listing: UserListing, fuel: nat, b: Batch)
    requires EvaluateUsers(fetch, AllUsers(listing.pages), ServiceNameFilter(parameters), fuel) == b
    requires b.finished
    ensures EvaluatePeriodic(parameters, fetch, listing, fuel)
              == Run(b.requests, if listing.failure.Some? then Reraised(listing.failure.value) else Evaluations(b.evaluations))
  {
  }

  /** Taking one more user of a page. */
  lemma PrefixSnoc(before: seq<User>, page: seq<User>, i: nat)
    requires i < |page|
    ensures before + page[..i + 1] == (before + page[..i]) + [page[i]]
    ensures before + page == (before + page[..i + 1]) + page[i + 1..]
  {
    assert page[..i + 1] == page[..i] + [page[i]];
    assert page == page[..i + 1] + page[i + 1..];
  }

  /** The inner loop of `evaluate_periodic` over the users of one page, as
      `evaluate_periodic` writes it: for each user, that user's requests are made and
      its entry is appended, either what `evaluate_user` returned or, when it
      raised, the conservative evaluation. `finished` is false when a check
      has not returned, in which case the users after it are not reached. */
  method EvaluatePage(fetch: CredentialService, filter: Option<string>, fuel: nat,
                      ghost before: seq<User>, page: seq<User>,
                      requests0: seq<Payload>, evaluations0: seq<Evaluation>)
    returns (requests: seq<Payload>, evaluations: seq<Evaluation>, finished: bool)
    requires EvaluateUsers(fetch, before, filter, fuel) == Batch(requests0, evaluations0, true)
    ensures EvaluateUsers(fetch, before + page, filter, fuel) == Batch(requests, evaluations, finished)
  {
    requests, evaluations := requests0, evaluations0;
    assert before + page[..0] == before;
    for i := 0 to |page|
      invariant EvaluateUsers(fetch, before + page[..i], filter, fuel) == Batch(requests, evaluations, true)
    {
      var user := page[i];
      var u := EvaluateUser(fetch, user.userName, user.userId, filter, fuel);
      ExtendByOutcome(fetch, before + page[..i], user, filter, fuel, Batch(requests, evaluations, true));
      PrefixSnoc(before, page, i);
      requests := requests + u.requests;
      match u.outcome {
        case Diverged =>
          // `evaluate_periodic` is still inside this user's `evaluate_user`
          EvaluateUsersStops(fetch, before + page[..i + 1], page[i + 1..], filter, fuel);
          return requests, evaluations, false;
        case Returned(e) =>
          evaluations := evaluations + [e];
        case Threw(f) =>
          evaluations := evaluations + [HandleCredentialCheckError(f, user.userId)];
      }
    }
    assert page[..|page|] == page;
    finished := true;
  }

  /** `evaluate_periodic` written as loops: a loop over the listing's
      pages and, inside it, over each page's users; the listing fault, if
      any, is raised after the last page delivered. */
  method RunPeriodic(parameters: map<string, string>, fetch: CredentialService,
                     listing: UserListing, fuel: nat) returns (run: Run)
    ensures run == EvaluatePeriodic(parameters, fetch, listing, fuel)
  {
    var filter := ServiceNameFilter(parameters);
    var requests: seq<Payload> := [];
    var evaluations: seq<Evaluation> := [];
    for p := 0 to |listing.pages|
      invariant EvaluateUsers(fetch, AllUsers(listing.pages[..p]), filter, fuel) == Batch(requests, evaluations, true)
    {
      AllUsersSplit(listing.pages, p);
      var finished;
      requests, evaluations, finished :=
        EvaluatePage(fetch, filter, fuel, AllUsers(listing.pages[..p]), listing.pages[p], requests, evaluations);
      if !finished {
        StopsInsidePage(parameters, fetch, listing, fuel, p);
        return Run(requests, Unfinished);
      }
    }
    assert listing.pages[..|listing.pages|] == listing.pages;
    PeriodicEnds(parameters, fetch, listing, fuel, Batch(requests, evaluations, true));
    match listing.failure {
      case Some(f) => run := Run(requests, Reraised(f));
      case None => run := Run(requests, Evaluations(evaluations));
    }
  }

  // ---------------------------------------------------------------------
  // Fuel

  /** A run of users whose every check returned or raised within `fuel`
      fetches is the same under any larger bound. */
  lemma {:induction false} EvaluateUsersFuelMonotone(fetch: CredentialService, users: seq<User>,
                                                     filter: Option<string>, fuel: nat, more: nat)
    requires fuel <= more
    requires EvaluateUsers(fetch, users, filter, fuel).finished
    ensures EvaluateUsers(fetch, users, filter, more) == EvaluateUsers(fetch, users, filter, fuel)
    decreases |users|
  {
    if |users| > 0 {
      var front := users[..|users| - 1];
      var user := users[|users| - 1];
      EvaluateUsersFuelMonotone(fetch, front, filter, fuel, more);
      UserFuelMonotone(fetch, user.userName, user.userId, filter, fuel, more);
    }
  }

  /** A periodic run that did not stop inside some user's check, that is one
      that returned its evaluations or raised the listing fault, is the same
      under any larger fuel bound. */
  lemma PeriodicFuelMonotone(parameters: map<string, string>, fetch: CredentialService,
                             listing: UserListing, fuel: nat, more: nat)
    requires fuel <= more
    requires !EvaluatePeriodic(parameters, fetch, listing, fuel).result.Unfinished?
    ensures EvaluatePeriodic(parameters, fetch, listing, more) == EvaluatePeriodic(parameters, fetch, listing, fuel)
  {
    EvaluateUsersFuelMonotone(fetch, AllUsers(listing.pages), ServiceNameFilter(parameters), fuel, more);
  }
}
