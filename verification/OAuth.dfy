/** OAuth error codes (crates/oidc-core/src/error.rs). */
module OAuth {
  datatype ErrorCode =
    | InvalidRequest | InvalidClient | InvalidGrant | InvalidScope | UnauthorizedClient
    | UnsupportedGrantType | UnsupportedResponseType | AccessDenied | ServerError
    | TemporarilyUnavailable | LoginRequired | AccountSelectionRequired

  /** `as_str`: the value of the `error` parameter. */
  function Name(code: ErrorCode): string {
    match code
    case InvalidRequest => "invalid_request"
    case InvalidClient => "invalid_client"
    case InvalidGrant => "invalid_grant"
    case InvalidScope => "invalid_scope"
    case UnauthorizedClient => "unauthorized_client"
    case UnsupportedGrantType => "unsupported_grant_type"
    case UnsupportedResponseType => "unsupported_response_type"
    case AccessDenied => "access_denied"
    case ServerError => "server_error"
    case TemporarilyUnavailable => "temporarily_unavailable"
    case LoginRequired => "login_required"
    case AccountSelectionRequired => "account_selection_required"
  }
}
