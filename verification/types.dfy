/**
 The values the IAM_USER_NO_SERVICE_SPECIFIC_CREDENTIALS rule works on: the
 responses of the two IAM listing calls, the faults those calls can raise,
 and the evaluations the rule reports to AWS Config.
 */
module Types {

  datatype Option<+T> = None | Some(value: T)

  datatype Result<+T, +E> = Success(value: T) | Failure(error: E)

  /** A failure raised while the rule runs: an error returned by an IAM call,
      or a key missing from a response the rule indexes into. */
  datatype Fault = ServiceError(code: string, message: string) | MissingKey(key: string)

  /** One entry of a `ServiceSpecificCredentials` list. */
  datatype Credential = Credential(id: string, status: string, serviceName: string)

  /** One response of `list_service_specific_credentials`. `IsTruncated` is
      absent from a response that is not paginated, and `Marker` is only
      expected when the response is truncated. */
  datatype CredentialPage = CredentialPage(
    credentials: seq<Credential>,
    isTruncated: Option<bool>,
    marker: Option<string>)

  /** One entry of a `list_users` page. */
  datatype User = User(userName: string, userId: string)

  datatype ComplianceType = Compliant | NonCompliant

  datatype Evaluation = Evaluation(
    complianceType: ComplianceType,
    resourceId: string,
    resourceType: string,
    annotation: string)

  /** The keyword arguments of one `list_service_specific_credentials` call;
      a key that is absent is an argument that is not passed at all. */
  type Payload = map<string, string>

  /** The credential-listing service, with the network abstracted away. */
  type CredentialService = Payload -> Result<CredentialPage, Fault>

  const ResourceType: string := "AWS::IAM::User"

  const ActiveStatus: string := "Active"

  const ActiveFoundPrefix: string := "Active service specific credential found: "

  const NoActiveAnnotation: string := "No active ServiceSpecific credentials found"

  const CheckErrorAnnotation: string := "Encountered error checking credentials. Check custom rule lambda logs"

  const UserNameKey: string := "UserName"

  const ServiceNameKey: string := "ServiceName"

  const MarkerKey: string := "Marker"

  predicate IsActive(c: Credential) {
    c.status == ActiveStatus
  }

  /** The users of every page of a `list_users` enumeration, in order. */
  function AllUsers(pages: seq<seq<User>>): seq<User>
  {
    if |pages| == 0 then [] else pages[0] + AllUsers(pages[1..])
  }
}
