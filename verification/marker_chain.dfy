/**
 The pages the credential service hands out for one user, in the order a
 client that follows `Marker` receives them. This chain looks at no
 credential; it is the reference the per-user check in `UserScan` is
 measured against.
 */
module MarkerChain {
  import opened Types
  import opened Request

  /** Index of the first credential whose status is exactly "Active", if any;
      every other status (for instance "Inactive" or "NotActive") is inactive. */
  function FirstActive(creds: seq<Credential>): (r: Option<nat>)
    ensures r.None? <==> forall i :: 0 <= i < |creds| ==> !IsActive(creds[i])
    ensures r.Some? ==> r.value < |creds| && IsActive(creds[r.value])
    ensures r.Some? ==> forall j :: 0 <= j < r.value ==> !IsActive(creds[j])
  {
    if |creds| == 0 then None
    else if IsActive(creds[0]) then Some(0)
    else match FirstActive(creds[1..])
      case None => None
      case Some(i) => Some(i + 1)
  }

  /** The service answered with a page holding an Active credential. */
  predicate ActiveIn(response: Result<CredentialPage, Fault>) {
    response.Success? && FirstActive(response.value.credentials).Some?
  }

  /** The id of the first Active credential of the page. */
  function ActiveIdIn(response: Result<CredentialPage, Fault>): string
    requires ActiveIn(response)
  {
    var creds := response.value.credentials;
    creds[FirstActive(creds).value].id
  }

  /** One call to the credential service and what it answered. */
  datatype Exchange = Exchange(request: Payload, response: Result<CredentialPage, Fault>)

  /** Why a walk along the chain stopped: a page that is not truncated, a
      fault, or the fuel bound. */
  datatype ChainEnd = LastPage | Broken(fault: Fault) | FuelSpent

  datatype Chain = Chain(exchanges: seq<Exchange>, end: ChainEnd)

  /** Where a response leads: the chain ends there, or it goes on at a marker.
      A page goes on exactly when `IsTruncated` is present and true; such a
      page without `Marker` breaks the chain, as indexing the missing key does
      in `evaluate_user`. */
  datatype Link = Ends(end: ChainEnd) | GoesOn(marker: string)

  function LinkOf(response: Result<CredentialPage, Fault>): Link
  {
    match response
    case Failure(f) => Ends(Broken(f))
    case Success(page) =>
      if page.isTruncated == Some(true) then
        match page.marker
        case None => Ends(Broken(MissingKey(MarkerKey)))
        case Some(m) => GoesOn(m)
      else Ends(LastPage)
  }

  /** Follows the chain from `marker`: one request per page, up to the first
      page that does not go on, or `fuel` requests. */
  function Follow(fetch: CredentialService, userName: string, filter: Option<string>,
                  marker: Option<string>, fuel: nat): (c: Chain)
    decreases fuel
    ensures |c.exchanges| <= fuel
    ensures fuel > 0 ==>
              && |c.exchanges| > 0
              && c.exchanges[0].request == CredentialsRequest(userName, filter, marker)
              && c.exchanges[0].response == fetch(c.exchanges[0].request)
    ensures c.end.FuelSpent? <==> |c.exchanges| == fuel && (fuel == 0 || LinkOf(c.exchanges[fuel - 1].response).GoesOn?)
  {
    if fuel == 0 then Chain([], FuelSpent)
    else
      var request := CredentialsRequest(userName, filter, marker);
      var exchange := Exchange(request, fetch(request));
      match LinkOf(exchange.response)
      case Ends(e) => Chain([exchange], e)
      case GoesOn(m) =>
        var rest := Follow(fetch, userName, filter, Some(m), fuel - 1);
        Chain([exchange] + rest.exchanges, rest.end)
  }

  /** Every exchange holds the service's answer to its request, and every
      request is addressed to `userName` under `filter`. */
  predicate Answered(fetch: CredentialService, exchanges: seq<Exchange>, userName: string, filter: Option<string>) {
    forall k :: 0 <= k < |exchanges| ==>
      fetch(exchanges[k].request) == exchanges[k].response && Addressed(exchanges[k].request, userName, filter)
  }

  /** Exchange `k` answered with a page that goes on, and exchange `k + 1`
      asked for exactly the marker that page handed out. */
  predicate Linked(exchanges: seq<Exchange>, k: nat, userName: string, filter: Option<string>)
    requires k + 1 < |exchanges|
  {
    var link := LinkOf(exchanges[k].response);
    link.GoesOn? && exchanges[k + 1].request == CredentialsRequest(userName, filter, Some(link.marker))
  }

  /** No exchange before the `n`-th answered with an Active credential. */
  predicate NoActiveBefore(exchanges: seq<Exchange>, n: nat)
    requires n <= |exchanges|
  {
    forall k :: 0 <= k < n ==> !ActiveIn(exchanges[k].response)
  }

  /** `requests` are the requests of the first `|requests|` exchanges. */
  predicate RequestsPrefix(requests: seq<Payload>, exchanges: seq<Exchange>) {
    |requests| <= |exchanges| && forall k :: 0 <= k < |requests| ==> requests[k] == exchanges[k].request
  }

  /** Putting an exchange without an Active credential in front of a chain
      shifts its clean prefix by one. */
  lemma NoActiveCons(e: Exchange, c: seq<Exchange>, n: nat)
    requires n <= |c|
    requires !ActiveIn(e.response) && NoActiveBefore(c, n)
    ensures NoActiveBefore([e] + c, n + 1)
    ensures n < |c| ==> ([e] + c)[n + 1] == c[n]
  {
    forall k | 0 <= k < n + 1
      ensures !ActiveIn(([e] + c)[k].response)
    {
      if k > 0 { assert ([e] + c)[k] == c[k - 1]; }
    }
  }

  /** Putting a request and its exchange in front keeps one a prefix of the other. */
  lemma PrefixCons(r: Payload, s: seq<Payload>, e: Exchange, c: seq<Exchange>)
    requires r == e.request && RequestsPrefix(s, c)
    ensures RequestsPrefix([r] + s, [e] + c)
  {
    forall k | 0 <= k < |s| + 1
      ensures ([r] + s)[k] == ([e] + c)[k].request
    {
      if k > 0 { assert ([r] + s)[k] == s[k - 1] && ([e] + c)[k] == c[k - 1]; }
    }
  }

  /** A chain that goes on is its first exchange followed by the chain from
      the marker that exchange handed out. */
  lemma FollowUnfold(fetch: CredentialService, userName: string, filter: Option<string>,
                     marker: Option<string>, fuel: nat)
    requires fuel > 0
    requires LinkOf(fetch(CredentialsRequest(userName, filter, marker))).GoesOn?
    ensures var request := CredentialsRequest(userName, filter, marker);
            var rest := Follow(fetch, userName, filter, Some(LinkOf(fetch(request)).marker), fuel - 1);
            Follow(fetch, userName, filter, marker, fuel)
              == Chain([Exchange(request, fetch(request))] + rest.exchanges, rest.end)
  {
  }

  /** A chain whose first response ends it is that one exchange. */
  lemma FollowEndsAtOnce(fetch: CredentialService, userName: string, filter: Option<string>,
                         marker: Option<string>, fuel: nat)
    requires fuel > 0
    requires LinkOf(fetch(CredentialsRequest(userName, filter, marker))).Ends?
    ensures var request := CredentialsRequest(userName, filter, marker);
            Follow(fetch, userName, filter, marker, fuel)
              == Chain([Exchange(request, fetch(request))], LinkOf(fetch(request)).end)
  {
  }

  /** Each exchange of the chain holds the service's answer to its request,
      and every request is addressed to the user under the filter. */
  lemma {:induction false} ChainAnswered(fetch: CredentialService, userName: string, filter: Option<string>,
                                         marker: Option<string>, fuel: nat)
    ensures Answered(fetch, Follow(fetch, userName, filter, marker, fuel).exchanges, userName, filter)
    decreases fuel
  {
    if fuel > 0 {
      var link := LinkOf(fetch(CredentialsRequest(userName, filter, marker)));
      if link.GoesOn? {
        FollowUnfold(fetch, userName, filter, marker, fuel);
        ChainAnswered(fetch, userName, filter, Some(link.marker), fuel - 1);
        var c := Follow(fetch, userName, filter, marker, fuel).exchanges;
        var c' := Follow(fetch, userName, filter, Some(link.marker), fuel - 1).exchanges;
        forall k | 0 <= k < |c|
          ensures fetch(c[k].request) == c[k].response && Addressed(c[k].request, userName, filter)
        {
          if k > 0 { assert c[k] == c'[k - 1]; }
        }
      }
    }
  }

  /** Marker threading: every exchange of the chain but the last answered
      with a page that goes on, and the next request carries exactly the
      marker that page handed out. */
  lemma {:induction false} ChainLinked(fetch: CredentialService, userName: string, filter: Option<string>,
                                       marker: Option<string>, fuel: nat)
    ensures forall k :: 0 <= k < |Follow(fetch, userName, filter, marker, fuel).exchanges| - 1 ==>
              Linked(Follow(fetch, userName, filter, marker, fuel).exchanges, k, userName, filter)
    decreases fuel
  {
    if fuel > 0 {
      var link := LinkOf(fetch(CredentialsRequest(userName, filter, marker)));
      if link.GoesOn? {
        FollowUnfold(fetch, userName, filter, marker, fuel);
        ChainLinked(fetch, userName, filter, Some(link.marker), fuel - 1);
        var c := Follow(fetch, userName, filter, marker, fuel).exchanges;
        var c' := Follow(fetch, userName, filter, Some(link.marker), fuel - 1).exchanges;
        forall k | 0 <= k < |c| - 1
          ensures Linked(c, k, userName, filter)
        {
          if k > 0 {
            assert Linked(c', k - 1, userName, filter);
            assert c[k] == c'[k - 1] && c[k + 1] == c'[k];
          }
        }
      }
    }
  }

  /** The chain stops only where its last exchange says so: it ends on
      exactly the end that exchange's response leads to, unless the fuel ran
      out first. */
  lemma {:induction false} ChainEnds(fetch: CredentialService, userName: string, filter: Option<string>,
                                     marker: Option<string>, fuel: nat)
    ensures var ch := Follow(fetch, userName, filter, marker, fuel);
            !ch.end.FuelSpent? ==>
              && |ch.exchanges| > 0
              && LinkOf(ch.exchanges[|ch.exchanges| - 1].response) == Ends(ch.end)
    decreases fuel
  {
    if fuel > 0 {
      var link := LinkOf(fetch(CredentialsRequest(userName, filter, marker)));
      if link.GoesOn? {
        FollowUnfold(fetch, userName, filter, marker, fuel);
        ChainEnds(fetch, userName, filter, Some(link.marker), fuel - 1);
      }
    }
  }
}
