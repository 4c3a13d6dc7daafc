/** Outcomes of a request handler: a value, or one of the HTTP error statuses
    the routers raise (or that the framework raises around them). */
module Http {

  datatype Option<+T> = None | Some(value: T)

  /** The error responses of the service. */
  datatype Error =
    | BadRequest           // 400: e-mail already registered
    | Unauthorized         // 401: bad credentials, bad or missing token, unknown or inactive subject
    | Forbidden            // 403: inactive account at login, non-admin caller on an admin route
    | NotFound             // 404: no row with the requested id
    | UnprocessableEntity  // 422: the framework's request validation rejected the input
    | InternalServerError  // 500: an exception the handler does not catch

  datatype Result<+T> = Ok(value: T) | Err(error: Error)
}
