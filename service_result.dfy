/**
 * The success/failure envelope every service operation returns. Its constructor is private in
 * the system, so a result only ever comes from `Ok` or `Fail`; `FromFactory` states what that
 * guarantees about the four fields.
 */
module ServiceResults {
  import opened Wrappers

  /** `Data` is `None` where the system holds `default` (null for the response classes). */
  datatype ServiceResult<T> = ServiceResult(
    success: bool,
    data: Option<T>,
    message: Option<string>,
    errors: Option<seq<string>>)

  /** The shapes the two factories can produce. */
  predicate FromFactory<T>(r: ServiceResult<T>) {
    if r.success then r.data.Some? && r.errors.None? else r.data.None? && r.message.Some?
  }

  /** `ServiceResult<T>.Ok(data, message)`. */
  function Ok<T>(data: T, message: Option<string>): (r: ServiceResult<T>)
    ensures r.success && r.data == Some(data) && r.message == message
    ensures r.errors == None
    ensures FromFactory(r)
  {
    ServiceResult(true, Some(data), message, None)
  }

  /** `ServiceResult<T>.Fail(message, errors)`: `errors` is kept as a copy of the sequence given, or null. */
  function Fail<T>(message: string, errors: Option<seq<string>>): (r: ServiceResult<T>)
    ensures !r.success && r.data == None && r.message == Some(message)
    ensures r.errors == errors
    ensures FromFactory(r)
  {
    ServiceResult(false, None, Some(message), errors)
  }

  /** Every result of the factory shape is the result of exactly one factory call; so success implies no error list. */
  lemma FromFactoryIsFactoryMade<T>(r: ServiceResult<T>)
    requires FromFactory(r)
    ensures r.success ==> r == Ok(r.data.value, r.message)
    ensures !r.success ==> r == Fail(r.message.value, r.errors)
    ensures r.success ==> r.errors.None?
  {
  }
}
