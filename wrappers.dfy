// Result types shared by the whole model.

module Wrappers {

  datatype Option<T> = None | Some(value: T)
  {
    predicate IsSome() { Some? }

    function GetOr(default: T): T
    {
      match this
      case None => default
      case Some(v) => v
    }
  }

  /**
   * The outcome of an operation that may throw a DLXExcecao:
   * either the normal value or the exception's numeric code and message.
   */
  datatype Outcome<T> = Ok(value: T) | Throw(code: int, message: string)
  {
    predicate IsOk() { Ok? }
  }

  /** The same exception passed on by an operation with another result type. */
  function Falha<T>(o: Outcome<()>): (r: Outcome<T>)
    requires o.Throw?
    ensures r.Throw? && r.code == o.code && r.message == o.message
  {
    Throw(o.code, o.message)
  }

  /** The code of an Error PHP raises itself (an undefined method, a division by zero): not a DLXExcecao. */
  const ERRO_PHP: int := 0

  /** The HTTP-style codes the framework throws. */
  const FORBIDDEN: int := 1403
  const NOT_FOUND: int := 1404
  const SERVER_ERROR: int := 1500
}
