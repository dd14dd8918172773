/** `errorMiddleware`: the last-resort handler, deciding on the error's name. */
module ErrorMiddleware {
  import opened Http

  /** The parts of a JavaScript `Error` the handler reads. */
  datatype JsError = JsError(name: string, message: string)

  function HandleError(err: JsError): (r: Response<()>)
    ensures r.status == 400 <==> err.name == "ValidationError"
    ensures r.status == 400 ==> r.body == Message(err.message)
    ensures r.status == 401 <==> err.name == "UnauthorizedError"
    ensures r.status == 401 ==> r.body == Message("Invalid token")
    ensures r.status == 500 <==> err.name != "ValidationError" && err.name != "UnauthorizedError"
    ensures r.status == 500 ==> r.body == Message("Internal server error")
  {
    if err.name == "ValidationError" then Response(400, Message(err.message))
    else if err.name == "UnauthorizedError" then Response(401, Message("Invalid token"))
    else Response(500, Message("Internal server error"))
  }

  /** The status never depends on the message, and only a validation
      error's message reaches the client. */
  lemma StatusDependsOnlyOnName(e1: JsError, e2: JsError)
    requires e1.name == e2.name
    ensures HandleError(e1).status == HandleError(e2).status
    ensures e1.name != "ValidationError" ==> HandleError(e1) == HandleError(e2)
  {
  }
}
