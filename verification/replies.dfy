/**
 * The failures a request handler answers with, named after the HTTP status
 * each one is sent with.
 */
module Replies {
  import opened RescueRequestModel

  /** Why a 400 was sent. */
  datatype Reason =
    | MissingFields
    | InsufficientBalance
    | WrongStatus(current: Status)
    | NoNextStep(current: Status)
    | UnexpectedStatus(expected: Status)
    | LocationRequired
    | MissingAmbulanceId
    | MinimumTopUp
    | InvalidSignature
    | NotOrganisation
    | InvalidRequest
    | InvalidAmount

  /** Why a 403 was sent. */
  datatype Denial = RoleNotAllowed | AwaitingApproval | NotAssignedAmbulance | NotOwner

  datatype Failure =
    | BadRequest(reason: Reason)   // 400
    | Unauthenticated              // 401
    | Forbidden(denial: Denial)    // 403
    | NotFound                     // 404
    | ServerError                  // 500: an exception caught by the handler
}
