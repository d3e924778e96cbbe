/**
 * Values shared by every part of the model: the undefined marker that stands
 * for pandas' NaN, the Python exception kinds the core raises, and the
 * result of an operation that may raise.
 */
module Base {

  /** `None` is pandas' NaN ("undefined"); `Some(x)` a defined value. */
  datatype Option<+T> = None | Some(value: T)

  /** `Ok(v)` is a normal return; `Err(e)` is a raised exception. */
  datatype Result<+T, +E> = Ok(value: T) | Err(error: E)

  /**
   * The exceptions the core raises or catches: those of the constructors and
   * of `run` (`KeyError` carries the missing key), and the `ImportError` of
   * the data loader's yfinance fallback.
   */
  datatype Error =
    | TypeError(message: string)
    | ValueError(message: string)
    | KeyError(message: string)
    | ImportError(message: string)

  /**
   * An argument whose Python type is checked with `isinstance`: either a value
   * of the expected kind, or something else (a list, a Series where a
   * DataFrame is expected, ...).
   */
  datatype Arg<+T> = Given(value: T) | WrongKind

  /** The value of `max(a, b)`. */
  function Max(a: real, b: real): real { if a >= b then a else b }

  /** The value of `min(a, b)`. */
  function Min(a: real, b: real): real { if a <= b then a else b }

  /** The value of `abs(x)`. */
  function Abs(x: real): real { if x < 0.0 then -x else x }
}
