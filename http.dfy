/** Requests the components issue and what comes back from them. A reply is
    an input of the model: the server, the network and the reactive-stream
    plumbing are not modelled, only which value or error each call yields. */
module Http {
  import opened JsValues

  /** Backend routes, relative to the configured API base URL. */
  const RefreshPath: string := "/auth/refresh"
  const LogoutPath: string := "/auth/logout"
  const CheckEmailPath: string := "/auth/check-email?correo="
  const CheckPhonePath: string := "/auth/check-phone?telefono="

  datatype Request = Request(verb: string, path: string, headers: map<string, string>, body: JsValue)

  /** An error as a subscriber sees it: an HTTP error response with its status,
      an `Error` thrown by the client code with its message, or the
      `SyntaxError` that `JSON.parse` throws. */
  datatype Error = Status(code: int) | Thrown(message: string) | SyntaxError

  /** The single value a request or an observable yields, or its error. */
  datatype Outcome = Ok(value: JsValue) | Err(error: Error)
}
