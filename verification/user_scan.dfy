/**
 The per-user check (`evaluate_user`): fetch the user's credential pages in
 order, stop at the first credential whose status is exactly "Active", and
 follow `Marker` only while a page says it is truncated.

 `evaluate_user` loops with `while True`; a service that keeps answering
 "truncated" would keep it running forever. Here `fuel` bounds the number of
 fetches, and running out of it is an outcome of its own that stands for
 "has not terminated yet" (see `ScanFuelMonotone`).
 */
module UserScan {
  import opened Types
  import opened Request
  import opened MarkerChain

  /** How the loop of `evaluate_user` is left: on an Active credential (with
      its id), after the last page, on a fault, or out of fuel. */
  datatype ScanEnd = Found(credentialId: string) | Exhausted | Raised(fault: Fault) | OutOfFuel

  /** What one pass of the loop body makes of a response: leave the loop,
      or go round again with the page's marker. */
  datatype Step = Leave(end: ScanEnd) | Again(marker: string)

  /** The way the scan ends when the chain ends a given way. */
  function ScanEndOf(e: ChainEnd): ScanEnd {
    match e
    case LastPage => Exhausted
    case Broken(f) => Raised(f)
    case FuelSpent => OutOfFuel
  }

  /** One pass of the body of the loop in `evaluate_user` over one response.
      It leaves on the page's first Active credential; otherwise it does what
      the marker chain does: go on at the page's marker, or end with it. */
  function LoopBody(response: Result<CredentialPage, Fault>): (st: Step)
    ensures ActiveIn(response) ==> st == Leave(Found(ActiveIdIn(response)))
    ensures !ActiveIn(response) && LinkOf(response).GoesOn? ==> st == Again(LinkOf(response).marker)
    ensures !ActiveIn(response) && LinkOf(response).Ends? ==> st == Leave(ScanEndOf(LinkOf(response).end))
  {
    match response
    case Failure(f) => Leave(Raised(f))
    case Success(page) =>
      match FirstActive(page.credentials)
      case Some(i) => Leave(Found(page.credentials[i].id))
      case None =>
        if page.isTruncated == Some(true) then
          match page.marker
          case None => Leave(Raised(MissingKey(MarkerKey)))
          case Some(m) => Again(m)
        else Leave(Exhausted)
  }

  /** The requests the scan made, in order, and how it ended. */
  datatype Scan = Scan(requests: seq<Payload>, end: ScanEnd)

  /** The `while True` loop of `evaluate_user`, entered with `marker`. */
  function ScanFrom(fetch: CredentialService, userName: string, filter: Option<string>,
                    marker: Option<string>, fuel: nat): (s: Scan)
    decreases fuel
    ensures |s.requests| <= fuel
    ensures s.end.OutOfFuel? ==> |s.requests| == fuel
    ensures fuel > 0 ==> |s.requests| > 0 && s.requests[0] == CredentialsRequest(userName, filter, marker)
  {
    if fuel == 0 then Scan([], OutOfFuel)
    else
      var request := CredentialsRequest(userName, filter, marker);
      match LoopBody(fetch(request))
      case Leave(e) => Scan([request], e)
      case Again(m) =>
        var rest := ScanFrom(fetch, userName, filter, Some(m), fuel - 1);
        Scan([request] + rest.requests, rest.end)
  }

  /** A scan that goes round again is its first request followed by the scan
      from the marker that request's page handed out. */
  lemma ScanUnfold(fetch: CredentialService, userName: string, filter: Option<string>,
                   marker: Option<string>, fuel: nat)
    requires fuel > 0
    requires LoopBody(fetch(CredentialsRequest(userName, filter, marker))).Again?
    ensures var request := CredentialsRequest(userName, filter, marker);
            var rest := ScanFrom(fetch, userName, filter, Some(LoopBody(fetch(request)).marker), fuel - 1);
            ScanFrom(fetch, userName, filter, marker, fuel) == Scan([request] + rest.requests, rest.end)
  {
  }

  /** A scan whose first response leaves the loop makes that one request. */
  lemma ScanLeavesAtOnce(fetch: CredentialService, userName: string, filter: Option<string>,
                         marker: Option<string>, fuel: nat)
    requires fuel > 0
    requires LoopBody(fetch(CredentialsRequest(userName, filter, marker))).Leave?
    ensures var request := CredentialsRequest(userName, filter, marker);
            ScanFrom(fetch, userName, filter, marker, fuel) == Scan([request], LoopBody(fetch(request)).end)
  {
  }

  /** What `evaluate_user` does for one user: it returns an evaluation, lets
      a fault escape, or (out of fuel) has not returned yet. */
  datatype UserOutcome = Returned(evaluation: Evaluation) | Threw(fault: Fault) | Diverged

  datatype UserRun = UserRun(requests: seq<Payload>, outcome: UserOutcome)

  /** `evaluate_user`: scan from no marker and turn the way the scan ended
      into an evaluation of the user. */
  function EvaluateUser(fetch: CredentialService, userName: string, userId: string,
                        filter: Option<string>, fuel: nat): (u: UserRun)
    ensures fuel > 0 ==> |u.requests| > 0 && MarkerKey !in u.requests[0]
    ensures |u.requests| <= fuel
    ensures forall k :: 0 <= k < |u.requests| ==> Addressed(u.requests[k], userName, filter)
    ensures u.outcome.Returned? ==>
              && u.outcome.evaluation.resourceId == userId
              && u.outcome.evaluation.resourceType == ResourceType
  {
    ScanIsChainPrefix(fetch, userName, filter, None, fuel);
    ChainAnswered(fetch, userName, filter, None, fuel);
    var s := ScanFrom(fetch, userName, filter, None, fuel);
    var outcome :=
      match s.end
      case Found(id) => Returned(Evaluation(NonCompliant, userId, ResourceType, ActiveFoundPrefix + id))
      case Exhausted => Returned(Evaluation(Compliant, userId, ResourceType, NoActiveAnnotation))
      case Raised(f) => Threw(f)
      case OutOfFuel => Diverged;
    UserRun(s.requests, outcome)
  }

  // ---------------------------------------------------------------------
  // The scan against the marker chain

  /** The scan's requests are the chain's requests, up to where the scan stops. */
  lemma {:induction false} ScanIsChainPrefix(fetch: CredentialService, userName: string,
                                             filter: Option<string>, marker: Option<string>, fuel: nat)
    ensures RequestsPrefix(ScanFrom(fetch, userName, filter, marker, fuel).requests,
                           Follow(fetch, userName, filter, marker, fuel).exchanges)
    decreases fuel
  {
    if fuel > 0 {
      var step := LoopBody(fetch(CredentialsRequest(userName, filter, marker)));
      if step.Again? {
        ScanUnfold(fetch, userName, filter, marker, fuel);
        FollowUnfold(fetch, userName, filter, marker, fuel);
        ScanIsChainPrefix(fetch, userName, filter, Some(step.marker), fuel - 1);
        var request := CredentialsRequest(userName, filter, marker);
        PrefixCons(request, ScanFrom(fetch, userName, filter, Some(step.marker), fuel - 1).requests,
                   Exchange(request, fetch(request)), Follow(fetch, userName, filter, Some(step.marker), fuel - 1).exchanges);
      } else {
        ScanLeavesAtOnce(fetch, userName, filter, marker, fuel);
      }
    }
  }

  /** A scan that finds an Active credential stops on the first page of the
      chain holding one, and reports that page's first Active credential. */
  lemma {:induction false} ScanStopsAtFirstActive(fetch: CredentialService, userName: string,
                                                  filter: Option<string>, marker: Option<string>, fuel: nat)
    requires ScanFrom(fetch, userName, filter, marker, fuel).end.Found?
    ensures var s := ScanFrom(fetch, userName, filter, marker, fuel);
            var c := Follow(fetch, userName, filter, marker, fuel).exchanges;
            && 0 < |s.requests| <= |c|
            && ActiveIn(c[|s.requests| - 1].response)
            && s.end.credentialId == ActiveIdIn(c[|s.requests| - 1].response)
            && NoActiveBefore(c, |s.requests| - 1)
    decreases fuel
  {
    var step := LoopBody(fetch(CredentialsRequest(userName, filter, marker)));
    if step.Again? {
      ScanUnfold(fetch, userName, filter, marker, fuel);
      FollowUnfold(fetch, userName, filter, marker, fuel);
      ScanStopsAtFirstActive(fetch, userName, filter, Some(step.marker), fuel - 1);
      var request := CredentialsRequest(userName, filter, marker);
      var s' := ScanFrom(fetch, userName, filter, Some(step.marker), fuel - 1);
      var c' := Follow(fetch, userName, filter, Some(step.marker), fuel - 1).exchanges;
      NoActiveCons(Exchange(request, fetch(request)), c', |s'.requests| - 1);
    } else {
      ScanLeavesAtOnce(fetch, userName, filter, marker, fuel);
    }
  }

  /** A scan that finds nothing fetches the whole chain, no page of which
      holds an Active credential. */
  lemma {:induction false} ScanWithoutActive(fetch: CredentialService, userName: string,
                                             filter: Option<string>, marker: Option<string>, fuel: nat)
    requires !ScanFrom(fetch, userName, filter, marker, fuel).end.Found?
    ensures var c := Follow(fetch, userName, filter, marker, fuel).exchanges;
            && |ScanFrom(fetch, userName, filter, marker, fuel).requests| == |c|
            && NoActiveBefore(c, |c|)
    decreases fuel
  {
    if fuel > 0 {
      var step := LoopBody(fetch(CredentialsRequest(userName, filter, marker)));
      if step.Again? {
        ScanUnfold(fetch, userName, filter, marker, fuel);
        FollowUnfold(fetch, userName, filter, marker, fuel);
        ScanWithoutActive(fetch, userName, filter, Some(step.marker), fuel - 1);
        var request := CredentialsRequest(userName, filter, marker);
        var c' := Follow(fetch, userName, filter, Some(step.marker), fuel - 1).exchanges;
        NoActiveCons(Exchange(request, fetch(request)), c', |c'|);
      } else {
        ScanLeavesAtOnce(fetch, userName, filter, marker, fuel);
        FollowEndsAtOnce(fetch, userName, filter, marker, fuel);
      }
    }
  }

  /** A scan that finds nothing ends the way the chain ends: after the last
      page, on the same fault, or out of fuel. */
  lemma {:induction false} ScanEndsWithChain(fetch: CredentialService, userName: string,
                                             filter: Option<string>, marker: Option<string>, fuel: nat)
    requires !ScanFrom(fetch, userName, filter, marker, fuel).end.Found?
    ensures ScanFrom(fetch, userName, filter, marker, fuel).end == ScanEndOf(Follow(fetch, userName, filter, marker, fuel).end)
    decreases fuel
  {
    if fuel > 0 {
      var step := LoopBody(fetch(CredentialsRequest(userName, filter, marker)));
      if step.Again? {
        ScanUnfold(fetch, userName, filter, marker, fuel);
        FollowUnfold(fetch, userName, filter, marker, fuel);
        ScanEndsWithChain(fetch, userName, filter, Some(step.marker), fuel - 1);
      } else {
        ScanLeavesAtOnce(fetch, userName, filter, marker, fuel);
        FollowEndsAtOnce(fetch, userName, filter, marker, fuel);
      }
    }
  }

  /** The scan finds an Active credential exactly when some page of the
      chain holds one. */
  lemma ScanFindsIffChainHasActive(fetch: CredentialService, userName: string,
                                   filter: Option<string>, marker: Option<string>, fuel: nat)
    ensures var c := Follow(fetch, userName, filter, marker, fuel).exchanges;
            ScanFrom(fetch, userName, filter, marker, fuel).end.Found? <==> !NoActiveBefore(c, |c|)
  {
    if ScanFrom(fetch, userName, filter, marker, fuel).end.Found? {
      ScanStopsAtFirstActive(fetch, userName, filter, marker, fuel);
    } else {
      ScanWithoutActive(fetch, userName, filter, marker, fuel);
    }
  }

  /** Running out of fuel is the only outcome more fuel can change: a scan
      that ended within `fuel` fetches ends the same way, after the same
      requests, with any larger bound. */
  lemma {:induction false} ScanFuelMonotone(fetch: CredentialService, userName: string, filter: Option<string>,
                                            marker: Option<string>, fuel: nat, more: nat)
    requires fuel <= more
    requires !ScanFrom(fetch, userName, filter, marker, fuel).end.OutOfFuel?
    ensures ScanFrom(fetch, userName, filter, marker, more) == ScanFrom(fetch, userName, filter, marker, fuel)
    decreases fuel
  {
    var step := LoopBody(fetch(CredentialsRequest(userName, filter, marker)));
    if step.Again? {
      ScanUnfold(fetch, userName, filter, marker, fuel);
      ScanUnfold(fetch, userName, filter, marker, more);
      ScanFuelMonotone(fetch, userName, filter, Some(step.marker), fuel - 1, more - 1);
    } else {
      ScanLeavesAtOnce(fetch, userName, filter, marker, fuel);
      ScanLeavesAtOnce(fetch, userName, filter, marker, more);
    }
  }

  /** A user's check that returned or raised within `fuel` fetches does the
      same, with the same requests, under any larger bound. */
  lemma UserFuelMonotone(fetch: CredentialService, userName: string, userId: string,
                         filter: Option<string>, fuel: nat, more: nat)
    requires fuel <= more
    requires !EvaluateUser(fetch, userName, userId, filter, fuel).outcome.Diverged?
    ensures EvaluateUser(fetch, userName, userId, filter, more) == EvaluateUser(fetch, userName, userId, filter, fuel)
  {
    ScanFuelMonotone(fetch, userName, filter, None, fuel, more);
  }

  // ---------------------------------------------------------------------
  // The verdict of one user against the user's marker chain

  /** The user is reported NON_COMPLIANT exactly when some page of the chain
      holds an Active credential. The scan then stops on the first such page
      `k`, after exactly `k + 1` requests (the first `k + 1` of the chain), and
      names the first Active credential of that page, the first one in
      page-then-list order. */
  lemma UserNonCompliantIffActive(fetch: CredentialService, userName: string, userId: string,
                                  filter: Option<string>, fuel: nat)
    ensures var u := EvaluateUser(fetch, userName, userId, filter, fuel);
            var c := Follow(fetch, userName, filter, None, fuel).exchanges;
            (u.outcome.Returned? && u.outcome.evaluation.complianceType == NonCompliant) <==> !NoActiveBefore(c, |c|)
    ensures var u := EvaluateUser(fetch, userName, userId, filter, fuel);
            var c := Follow(fetch, userName, filter, None, fuel).exchanges;
            var k := |u.requests| - 1;
            !NoActiveBefore(c, |c|) ==>
              && 0 <= k < |c|
              && ActiveIn(c[k].response)
              && NoActiveBefore(c, k)
              && RequestsPrefix(u.requests, c)
              && u.outcome == Returned(Evaluation(NonCompliant, userId, ResourceType, ActiveFoundPrefix + ActiveIdIn(c[k].response)))
  {
    ScanFindsIffChainHasActive(fetch, userName, filter, None, fuel);
    ScanIsChainPrefix(fetch, userName, filter, None, fuel);
    if ScanFrom(fetch, userName, filter, None, fuel).end.Found? {
      ScanStopsAtFirstActive(fetch, userName, filter, None, fuel);
    }
  }

  /** Early exit: if page `k` of the chain is the first to hold an Active
      credential, exactly `k + 1` pages are fetched, whatever follows. */
  lemma FetchesUpToFirstActivePage(fetch: CredentialService, userName: string, userId: string,
                                   filter: Option<string>, fuel: nat, k: nat)
    requires k < |Follow(fetch, userName, filter, None, fuel).exchanges|
    requires ActiveIn(Follow(fetch, userName, filter, None, fuel).exchanges[k].response)
    requires NoActiveBefore(Follow(fetch, userName, filter, None, fuel).exchanges, k)
    ensures |EvaluateUser(fetch, userName, userId, filter, fuel).requests| == k + 1
  {
    UserNonCompliantIffActive(fetch, userName, userId, filter, fuel);
  }

  /** The user is reported COMPLIANT, with the fixed annotation, exactly
      when the chain reaches a page that is not truncated and no page of it
      holds an Active credential; every page of the chain is then fetched. */
  lemma UserCompliantIffNoActive(fetch: CredentialService, userName: string, userId: string,
                                 filter: Option<string>, fuel: nat)
    ensures var u := EvaluateUser(fetch, userName, userId, filter, fuel);
            var ch := Follow(fetch, userName, filter, None, fuel);
            (u.outcome.Returned? && u.outcome.evaluation.complianceType == Compliant)
              <==> ch.end.LastPage? && NoActiveBefore(ch.exchanges, |ch.exchanges|)
    ensures var u := EvaluateUser(fetch, userName, userId, filter, fuel);
            var ch := Follow(fetch, userName, filter, None, fuel);
            (u.outcome.Returned? && u.outcome.evaluation.complianceType == Compliant) ==>
              && u.outcome.evaluation == Evaluation(Compliant, userId, ResourceType, NoActiveAnnotation)
              && |u.requests| == |ch.exchanges|
              && RequestsPrefix(u.requests, ch.exchanges)
  {
    var s := ScanFrom(fetch, userName, filter, None, fuel);
    ScanFindsIffChainHasActive(fetch, userName, filter, None, fuel);
    ScanIsChainPrefix(fetch, userName, filter, None, fuel);
    if !s.end.Found? {
      ScanWithoutActive(fetch, userName, filter, None, fuel);
      ScanEndsWithChain(fetch, userName, filter, None, fuel);
    }
  }

  /** `evaluate_user` lets a fault escape exactly when the chain breaks on
      that fault before any page with an Active credential, and it is still
      running exactly when the fuel bound is reached on a clean chain. */
  lemma UserThrowsIffChainBreaks(fetch: CredentialService, userName: string, userId: string,
                                 filter: Option<string>, fuel: nat)
    ensures var u := EvaluateUser(fetch, userName, userId, filter, fuel);
            var ch := Follow(fetch, userName, filter, None, fuel);
            && (u.outcome.Threw? <==> ch.end.Broken? && NoActiveBefore(ch.exchanges, |ch.exchanges|))
            && (u.outcome.Threw? ==> u.outcome.fault == ch.end.fault)
            && (u.outcome.Diverged? <==> ch.end.FuelSpent? && NoActiveBefore(ch.exchanges, |ch.exchanges|))
  {
    var s := ScanFrom(fetch, userName, filter, None, fuel);
    ScanFindsIffChainHasActive(fetch, userName, filter, None, fuel);
    if !s.end.Found? {
      ScanEndsWithChain(fetch, userName, filter, None, fuel);
    }
  }
}
