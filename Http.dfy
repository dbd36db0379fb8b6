/** What a handler sends back, and what the SQLite store answers to the
    handlers' queries. The store itself is not modelled: its answers are
    inputs to the handlers. */
module Http {

  /** A JSON response: a success value, or `{ error: ... }` with its status. */
  datatype Response<T> = Success(status: int, value: T) | Failure(status: int, error: string)

  /** The answer to `db.get`: the first row, no row at all, or an error. */
  datatype Lookup<T> = Row(row: T) | NoRow | LookupError(message: string)

  /** The answer to `db.all` or `db.run`: a value, or an error. */
  datatype Outcome<T> = Done(value: T) | Failed(message: string)
}
