/** Shared vocabulary of the model: identifiers, optional values, the errors the
    stores and services raise, and the result of an operation on a store. */
module Base {

  /** Identifiers are the strings produced by the UUID generator; timestamps are
      the ISO-8601 strings produced by the clock. Neither format is modelled. */
  type Id = string
  type Timestamp = string

  /** `T | null` (and, where the source spreads an object, `T | undefined`). */
  datatype Option<+T> = None | Some(value: T)

  /** `Object.assign` for one field: the patched value when the patch carries
      the field, otherwise the record's current value. */
  function Patched<T>(field: Option<T>, current: T): T
  {
    match field
    case Some(v) => v
    case None => current
  }

  /** A thrown exception: either an `HttpException` carrying a status and a code,
      or a plain `Error` that the controllers turn into a 500 response. */
  datatype Error =
    | HttpError(message: string, status: int, code: string)
    | PlainError(message: string)

  /** The value an operation returns, or the exception it throws. */
  datatype Result<+T> = Ok(value: T) | Err(error: Error)

  /** An operation on a store: the store afterwards together with its result.
      When the source throws before mutating anything, `store` is the store it
      was given. */
  datatype Step<+S, +T> = Step(store: S, result: Result<T>)

  const NotFoundStatus: int := 404
  const UnauthorizedStatus: int := 401
  const BadRequestStatus: int := 400

  const RowNotFoundCode: string := "E_ROW_NOT_FOUND"
  const UnauthorizedCode: string := "E_UNAUTHORIZED"
  const DuplicateCode: string := "E_DUPLICATE"
}
