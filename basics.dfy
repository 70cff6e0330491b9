/** Value types shared by the whole model: optional and failing results, and
    the Python values (floats, datetimes) that the ingestion path handles. */
module Basics {

  datatype Option<+T> = None | Some(value: T)

  /** A computation that yields a value or fails with an error; usable with `:-`. */
  datatype Result<+T, +E> = Ok(value: T) | Err(error: E) {
    predicate IsFailure() {
      Err?
    }

    function PropagateFailure<U>(): Result<U, E>
      requires Err?
    {
      Err(error)
    }

    function Extract(): T
      requires Ok?
    {
      value
    }
  }

  /** A Python `float`: a finite value, an infinity or NaN. */
  datatype PyFloat = Finite(r: real) | PosInf | NegInf | NaN

  /** The wall-clock fields of a Python `datetime`. */
  datatype CivilTime = CivilTime(year: int, month: int, day: int, hour: int, minute: int, second: int, microsecond: int)

  /** The only time zone the upload attaches: Asia/Shanghai (UTC+8, no daylight saving). */
  datatype Zone = AsiaShanghai

  /** A timezone-aware `datetime`. */
  datatype DateTime = DateTime(civil: CivilTime, zone: Zone)
}
