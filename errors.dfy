/** Outcomes of the order service's handlers.

    A handler either succeeds with a value or fails with an `Error`.  An `Error`
    records both what the handler deliberately raised (`kind`) and the HTTP
    status the client finally receives (`status`): several handlers wrap their
    body in a catch-all that turns every deliberate 403/404 into a 500, and the
    model keeps both facts. */
module Errors {

  datatype Option<+T> = None | Some(value: T)

  /** The failures the handlers raise, one per raise site family. */
  datatype ErrorKind =
    | AddressRequired              // delivery order without an address
    | RestaurantNotFound
    | GeocodeNotFound              // the geocoder found no coordinates
    | GeocodeTimeout
    | GeocodeFailed                // any other geocoder failure
    | OutOfRange                   // delivery distance above the limit
    | ItemNotFound                 // a requested item has no price row
    | DiscountNotFound
    | DiscountExpired
    | NoCouriers                   // restaurant row or roster missing/empty
    | NoAvailableCourier           // no roster entry tagged "Assigned"
    | OrderNotFoundOrUnauthorized  // no order with this id owned by the caller
    | EditWindowClosed
    | NoFieldsToUpdate
    | CancelWindowClosed
    | MissingEstimate              // arithmetic on an absent delivery estimate
    | InvalidStatus
    | OrderNotFound
    | AlreadyDelivered
    | WorkerRequired
    | NotAuthorized
    | InvalidQuantity
    | CartNotFound
    | DiscountAlreadyApplied
    | DiscountCodeExists
    | NullProducts                 // an empty products map reads back from the store as null

  datatype Error = Error(kind: ErrorKind, status: int)

  datatype Result<+T> = Ok(value: T) | Fail(error: Error)

  /** What a catch-all `except Exception` around a handler body makes of an
      error raised inside it: the same kind, re-signalled as status 500. */
  function Reraised(e: Error): Error {
    Error(e.kind, 500)
  }

  /** A handler that writes one table has done what its specification `spec`
      says: on success it returns success and the table is `spec`'s new table;
      on failure it returns `spec`'s error and the table is untouched. */
  ghost predicate Commits<T, U>(spec: Result<T>, r: Result<U>, before: T, after: T) {
    match spec
    case Ok(table) => r.Ok? && after == table
    case Fail(e) => r == Fail(e) && after == before
  }
}
