/** The HTTP statuses the handlers answer with. */
module Http {

  datatype Status =
    | Ok
    | Created
    | BadRequest
    | Unauthorized
    | Forbidden
    | NotFound
    | Conflict
    | InternalServerError
}
