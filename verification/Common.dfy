/** Types shared by the modules of the model. */
module Common {

  const TWO_31 := 0x8000_0000
  const TWO_32 := 0x1_0000_0000

  type Byte = b: int | 0 <= b < 256

  type Bytes = seq<Byte>

  /** A hash function. The model never looks inside it: every theorem holds for all of them. */
  type HashFn = Bytes -> Bytes

  datatype Option<+T> = None | Some(value: T)

  /** Exceptions and error returns of the program are Failure values. */
  datatype Result<+T, +E> = Success(value: T) | Failure(error: E)

  function Min(a: int, b: int): int {
    if a < b then a else b
  }

  function Last<T>(s: seq<T>): T
    requires s != []
  {
    s[|s| - 1]
  }
}
