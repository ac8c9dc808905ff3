/**
 * The errors that reach the route's error handler, as the handler tells them
 * apart: ky's `TimeoutError`, ky's `HTTPError` with the response status, and
 * every other `Error` (including the aggregator's own).
 */
module Errors {

  datatype ApiError =
    | Timeout(name: string, message: string)
    | Http(status: int, name: string, message: string)
    | Other(name: string, message: string)
}
