/**
 * The HTTP backend the services talk to: one shared store holding the four
 * collections, and the outcome of each request, which the model takes as an
 * input because it depends on the network.
 */
module Backend {
  import opened Wrappers
  import opened InMemoryData

  /** Whether a request reached the backend and succeeded, or failed with an error message. */
  datatype Step = Ok | Fail(message: string)

  /** The store after a request, with the request's result. */
  datatype Reply<+T> = Reply(db: Db, result: Result<T, string>)

  /** The error the in-memory backend answers a PUT with when the id in its URL is not the record's id. */
  const IdMismatchMessage: string := "Request id does not match item.id"

  /**
   * The outcome of a PUT to `api/<collection>/<id>` for a record whose id may
   * be missing. A missing id is written into the URL as the text `null`,
   * which never equals the record's own `null` id, so the backend refuses
   * the request whatever the network does; a present id leaves the outcome
   * to the request.
   */
  function PutOutcome(id: Option<int>, step: Step): (r: Step)
    ensures r.Ok? <==> id.Some? && step.Ok?
    ensures id.None? ==> r == Fail(IdMismatchMessage)
    ensures id.Some? ==> r == step
  {
    if id.None? then Fail(IdMismatchMessage) else step
  }

  /** The backend's data, shared by every component of the application. */
  class Store {
    var db: Db

    constructor (initial: Db)
      ensures db == initial
    {
      db := initial;
    }
  }
}
