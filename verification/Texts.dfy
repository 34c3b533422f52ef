/** Offsets that may be missing, and texts put together from parts. */
module Texts {
  /** An offset from a later start; -1 stays -1. */
  function Shift(r: int, skipped: nat): int {
    if r < 0 then -1 else r + skipped
  }

  function Concat(parts: seq<string>): string {
    if parts == [] then "" else parts[0] + Concat(parts[1..])
  }
}
