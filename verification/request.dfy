/**
 Construction of the `list_service_specific_credentials` call
 (`get_credentials_for_user`). The API refuses `None` for `ServiceName` and
 `Marker`, so an unset filter or marker is left out of the call rather than
 passed as an empty value.
 */
module Request {
  import opened Types

  /** What a request for `userName` under `filter` must look like, whatever
      its marker. */
  predicate Addressed(p: Payload, userName: string, filter: Option<string>) {
    && UserNameKey in p
    && p[UserNameKey] == userName
    && FilteredBy(p, filter)
  }

  /** `ServiceName` is passed exactly when a filter is set, with its value. */
  predicate FilteredBy(p: Payload, filter: Option<string>) {
    && (ServiceNameKey in p <==> filter.Some?)
    && (filter.Some? ==> p[ServiceNameKey] == filter.value)
  }

  /** The keyword arguments passed for one page of a user's credentials. */
  function CredentialsRequest(userName: string, filter: Option<string>, marker: Option<string>): (p: Payload)
    ensures Addressed(p, userName, filter)
    ensures MarkerKey in p <==> marker.Some?
    ensures marker.Some? ==> p[MarkerKey] == marker.value
    ensures p.Keys <= {UserNameKey, ServiceNameKey, MarkerKey}
  {
    if filter.None? then
      if marker.None? then map[UserNameKey := userName]
      else map[UserNameKey := userName, MarkerKey := marker.value]
    else if marker.None? then map[UserNameKey := userName, ServiceNameKey := filter.value]
    else map[UserNameKey := userName, ServiceNameKey := filter.value, MarkerKey := marker.value]
  }

  /** Reads a payload back into the three arguments of `get_credentials_for_user`;
      `None` for a payload that carries an unknown key or no `UserName`. */
  function RequestArguments(p: Payload): (r: Option<(string, Option<string>, Option<string>)>)
    ensures r.Some? ==> CredentialsRequest(r.value.0, r.value.1, r.value.2) == p
    ensures r.None? ==> forall u, f, m :: CredentialsRequest(u, f, m) != p
  {
    if UserNameKey in p && p.Keys <= {UserNameKey, ServiceNameKey, MarkerKey} then
      var args := (p[UserNameKey],
                   if ServiceNameKey in p then Some(p[ServiceNameKey]) else None,
                   if MarkerKey in p then Some(p[MarkerKey]) else None);
      assert CredentialsRequest(args.0, args.1, args.2).Keys == p.Keys;
      Some(args)
    else None
  }

  /** Nothing is lost when a request is built: the arguments can be read back. */
  lemma ArgumentsRoundTrip(userName: string, filter: Option<string>, marker: Option<string>)
    ensures RequestArguments(CredentialsRequest(userName, filter, marker)) == Some((userName, filter, marker))
  {
  }

  /** Every well-formed payload is the request built from its own arguments,
      so the four branches of `get_credentials_for_user` cover all of them. */
  lemma PayloadRoundTrip(p: Payload)
    requires UserNameKey in p && p.Keys <= {UserNameKey, ServiceNameKey, MarkerKey}
    ensures RequestArguments(p).Some?
    ensures var (u, f, m) := RequestArguments(p).value; CredentialsRequest(u, f, m) == p
  {
    var (u, f, m) := RequestArguments(p).value;
    var q := CredentialsRequest(u, f, m);
    assert q.Keys == p.Keys;
  }

  /** Distinct arguments give distinct calls: a marker-less request is never
      confused with a follow-up one, nor a filtered request with an unfiltered one. */
  lemma RequestInjective(u1: string, f1: Option<string>, m1: Option<string>,
                         u2: string, f2: Option<string>, m2: Option<string>)
    requires CredentialsRequest(u1, f1, m1) == CredentialsRequest(u2, f2, m2)
    ensures u1 == u2 && f1 == f2 && m1 == m2
  {
    ArgumentsRoundTrip(u1, f1, m1);
    ArgumentsRoundTrip(u2, f2, m2);
  }
}
