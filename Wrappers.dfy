/** Small value wrappers shared by every module of the model. */
module Wrappers {

  /** A value that may be missing. */
  datatype Option<+T> = None | Some(value: T)

  /** The outcome of an operation that may fail with an error value. */
  datatype Result<+R, +E> = Success(value: R) | Failure(error: E)

  /** One key of a JSON-like mapping: missing, present and null, or present with a value.
      Python's `d.get(k)` and `d.get(k, default)` tell the first two apart. */
  datatype Field<+T> = Absent | Null | Present(value: T)

  /** `d.get(k)`: a missing key and a null value both read as None. */
  function Get<T>(f: Field<T>): Option<T>
  {
    match f
    case Present(v) => Some(v)
    case _ => None
  }

  /** `d.get(k, default)`: only a missing key reads as the default; a null stays null. */
  function GetOr<T>(f: Field<T>, default: T): Option<T>
  {
    match f
    case Absent => Some(default)
    case Null => None
    case Present(v) => Some(v)
  }

  /** `d.get(k)` stored back under a key of another mapping: the key is then always present. */
  function Stored<T>(f: Field<T>): Field<T>
  {
    if f.Absent? then Null else f
  }
}
