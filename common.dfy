/** Values shared by every part of the news backend model: optional values,
    error-carrying results and the clock units the backend reasons in. */
module Common {

  /** A value that may be missing (Python's `None`). */
  datatype Option<T> = None | Some(value: T)

  /** The outcome of an operation that can raise: a value or an error. */
  datatype Result<T, E> = Ok(value: T) | Err(error: E)

  /** Instants are counted in microseconds, the resolution of Python's `datetime`. */
  type Instant = int

  const MICROS_PER_HOUR: int := 3_600_000_000
  const MICROS_PER_DAY: int := 24 * MICROS_PER_HOUR

  /** `timedelta(hours=24)` */
  const TWENTY_FOUR_HOURS: int := 24 * MICROS_PER_HOUR
  /** `timedelta(days=1)` */
  const ONE_DAY: int := MICROS_PER_DAY
  /** `timedelta(days=7)` */
  const SEVEN_DAYS: int := 7 * MICROS_PER_DAY

  /** HTTP status codes the handlers answer with. */
  const HTTP_200_OK: int := 200
  const HTTP_201_CREATED: int := 201
  const HTTP_204_NO_CONTENT: int := 204
  const HTTP_400_BAD_REQUEST: int := 400
  const HTTP_401_UNAUTHORIZED: int := 401
  const HTTP_403_FORBIDDEN: int := 403
  const HTTP_404_NOT_FOUND: int := 404
  /** What the client sees when a handler raises an exception it does not catch. */
  const HTTP_500_INTERNAL_SERVER_ERROR: int := 500
}
