/**
  Shared vocabulary: machine integer ranges, the engine's result codes, the
  error values the driver produces, and a small Option type.
 */
module Base {

  /** Go's `int32`. */
  type int32 = x: int | -0x8000_0000 <= x < 0x8000_0000

  /** Go's `int64`, the representation of `time.Duration` (nanoseconds). */
  type int64 = x: int | -0x8000_0000_0000_0000 <= x < 0x8000_0000_0000_0000

  datatype Option<+T> = None | Some(value: T) {
    function GetOr(default: T): (r: T) {
      match this
      case Some(v) => v
      case None => default
    }
  }

  /** Result codes of the engine's C API (sqlite3.h). */
  const SQLITE_OK: int32 := 0
  const SQLITE_BUSY: int32 := 5
  const SQLITE_LOCKED: int32 := 6
  const SQLITE_DONE: int32 := 101

  /** The reason a `context.Context` reports through `ctx.Err()`. */
  datatype CtxReason = Canceled | DeadlineExceeded

  /**
    The errors the core returns.
    - SqliteError is the package's `*Error`: an engine result code plus text.
    - ContextError is the value of `ctx.Err()`.
    - Wrapped is `fmt.Errorf("<context>: %v", cause)`.
    - HostError is any other error coming from the foreign-call layer
      (a failed allocation or string conversion, a failed open).
   */
  datatype Error =
    | SqliteError(code: int, msg: string)
    | ContextError(reason: CtxReason)
    | Wrapped(context: string, cause: Error)
    | HostError(msg: string)

  /** The outcome of one native call that either succeeds or fails with an error. */
  datatype Attempt = Ok | Fail(err: Error)

  /** A native status code together with the connection's message at that moment. */
  datatype NativeStatus = NativeStatus(rc: int32, text: string)

  /** Go's `int32(v)` conversion: keeps the low 32 bits, two's complement. */
  function ToInt32(v: int): (r: int32)
    ensures (v - r) % 0x1_0000_0000 == 0
    ensures -0x8000_0000 <= v < 0x8000_0000 ==> r == v
  {
    var low := v % 0x1_0000_0000;
    if low < 0x8000_0000 then low else low - 0x1_0000_0000
  }
}
