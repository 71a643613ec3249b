/**
 * What the cloud services answer. The identity service (IAM) and the
 * organization service are modelled as in-memory providers (modules Iam and
 * Organizations); this module holds the replies they share.
 */
module Cloud {

  /** The error codes a provider call can fail with. */
  datatype ApiError =
    | AccessDenied      // the caller's assumed-role credentials are refused
    | NoSuchEntity      // the role, policy or inline policy named does not exist
    | DeleteConflict    // a role that still holds policies cannot be deleted
    | DuplicatePolicy   // an organization policy of that name already exists
    | PolicyNotFound    // the organization policy id is unknown
    | TargetNotFound    // the account to attach to is not in the organization
    | ServiceFailure    // any other provider-side failure (injected)

  /** The provider's error text, which the handler interpolates with `%v`. */
  function ErrorText(e: ApiError): string {
    match e
    case AccessDenied => "AccessDenied"
    case NoSuchEntity => "NoSuchEntity"
    case DeleteConflict => "DeleteConflict"
    case DuplicatePolicy => "DuplicatePolicyException"
    case PolicyNotFound => "PolicyNotFoundException"
    case TargetNotFound => "TargetNotFoundException"
    case ServiceFailure => "ServiceFailure"
  }

  /** Reply of a call that returns data. */
  datatype Reply<T> = Ok(value: T) | Fail(error: ApiError)

  /** Reply of a call that only changes provider state. */
  datatype Status = Done | Failed(error: ApiError)

  /**
   * The checks every provider call makes, in order: the caller's credentials,
   * a failure injected for this call, and the existence of what it names.
   */
  function Gate(authorized: bool, injected: bool, found: bool): (e: Option<ApiError>)
    ensures e == None <==> authorized && !injected && found
    ensures !authorized ==> e == Some(AccessDenied)
  {
    if !authorized then Some(AccessDenied)
    else if injected then Some(ServiceFailure)
    else if !found then Some(NoSuchEntity)
    else None
  }

  datatype Option<T> = None | Some(value: T)
}
