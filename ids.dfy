/** The fixed-width identifiers shared by the Swift and the C++ side. */
module Ids {
  /** `CGDirectDisplayID`, a 32-bit unsigned display number (Swift `UInt32`). */
  newtype DisplayID = x: int | 0 <= x < 0x1_0000_0000

  /** `kCGNullDirectDisplay`: the id that names no display. */
  const NullDisplay: DisplayID := 0

  /** `pid_t`, a 32-bit signed process id. */
  newtype Pid = x: int | -0x8000_0000 <= x < 0x8000_0000
}
