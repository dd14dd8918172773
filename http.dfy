/** The replies the controllers send: a status code and a JSON body. */
module Http {
  import opened Common

  /** `{ message }`, the bare entity, or `{ message, <entity> }`. */
  datatype Body<T> = Message(message: string) | Entity(value: T) | Announce(message: string, value: T)

  datatype Response<T> = Response(status: int, body: Body<T>)

  /** The `catch` block every controller shares: a thrown message listed
      under `notFound` gives 404, one listed under `conflict` gives 400, both
      with the service's own message; anything else, and every fault raised
      below the service, gives 500 with the handler's fixed message. */
  function FailureReply<T>(f: Failure, notFound: set<string>, conflict: set<string>, fallback: string): (r: Response<T>)
    ensures r.status == 404 <==> f.Thrown? && f.message in notFound
    ensures r.status == 400 <==> f.Thrown? && f.message !in notFound && f.message in conflict
    ensures r.status == 500 <==> f.Engine? || (f.message !in notFound && f.message !in conflict)
    ensures r.status != 500 ==> r.body == Message(f.message)
    ensures r.status == 500 ==> r.body == Message(fallback)
  {
    if f.Thrown? && f.message in notFound then Response(404, Message(f.message))
    else if f.Thrown? && f.message in conflict then Response(400, Message(f.message))
    else Response(500, Message(fallback))
  }
}
