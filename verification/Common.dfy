/** Machine words, failures and C integer arithmetic shared by the ProcHandle model. */
module Common {

  /** An unsigned 64-bit machine word (uint64_t, unsigned long, a pointer). */
  newtype u64 = x: int | 0 <= x < 0x1_0000_0000_0000_0000

  datatype Option<T> = None | Some(value: T)

  /** The VEOException kinds thrown in ProcHandle.cpp (spawn_helper included), plus an assertion abort. */
  datatype VeoError =
    | NameTooLong        // "Too long name", ENAMETOOLONG
    | PtraceAllocFailed  // "Failled to allocate ptrace related data", from spawn_helper
    | TempFileFailed     // "failed to create temporary file.", from spawn_helper
    | RequestFailed      // "request failed", ENOSYS: a command did not complete with VEO_COMMAND_OK
    | HandleCreateFailed // "veos_handle_create failed."
    | CreationFailed     // "The creation of a VE process failed."
    | RecvFailed         // "Failed to receive data from VE"
    | InvalidVersion     // "Invalid VEORUN_VERSION"
    | AssertionAbort     // VEO_ASSERT fails and the process aborts
    | UnexpectedBlock    // "VE process requests block unexpectedly."

  datatype Result<T> = Ok(value: T) | Err(error: VeoError)

  /** The remainder of C's `%` on int, which truncates toward zero. */
  function CRem(a: int, b: int): (r: int)
    requires b > 0
    ensures a >= 0 ==> 0 <= r < b && r == a % b
    ensures a < 0 ==> -b < r <= 0 && r == -((-a) % b)
  {
    if a >= 0 then a % b else -((-a) % b)
  }

  /** The value of the low 32 bits of a word read as a C `int` (two's complement). */
  function Int32Of(w: u64): (v: int)
    ensures -0x8000_0000 <= v < 0x8000_0000
    ensures (v - w as int) % 0x1_0000_0000 == 0
  {
    var lo := w as int % 0x1_0000_0000;
    if lo < 0x8000_0000 then lo else lo - 0x1_0000_0000
  }

  /** A C integer stored in a 64-bit word, as an int64_t converts to uint64_t. */
  function WordOf(v: int): (w: u64)
    requires -0x8000_0000_0000_0000 <= v < 0x8000_0000_0000_0000
    ensures v >= 0 ==> w as int == v
    ensures v < 0 ==> w as int == v + 0x1_0000_0000_0000_0000
  {
    if v >= 0 then v as u64 else (v + 0x1_0000_0000_0000_0000) as u64
  }

  /** The signed value of a 64-bit word, as uint64_t converts to int64_t. */
  function SignedOf(w: u64): (v: int)
    ensures -0x8000_0000_0000_0000 <= v < 0x8000_0000_0000_0000
    ensures WordOf(v) == w
  {
    if w as int < 0x8000_0000_0000_0000 then w as int else w as int - 0x1_0000_0000_0000_0000
  }
}
