/**
 * Abstract outcomes of the calls the components make into code outside the model:
 * the hosted task store and the callbacks a parent component passes in.
 * Each handler that awaits such a call takes its outcome as a parameter.
 */
module Remote {

  /** The `error` field of a task-store reply: absent (`Ok`) or present (`Err`). */
  datatype Status = Ok | Err

  /** How an awaited callback promise settles; a rejection aborts the rest of the handler. */
  datatype Settled = Resolved | Rejected

  /** The reply to a `select`: the rows, or an error. */
  datatype Fetch<T> = Fetched(data: seq<T>) | FetchErr
}
