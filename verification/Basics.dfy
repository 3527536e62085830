// Values every component shares.
module Basics {

  datatype Option<+T> = None | Some(value: T)

  datatype Result<+T, +E> = Ok(value: T) | Err(error: E)

  datatype Side = Buy | Sell

  datatype PositionSide = Long | Short

  const DAY_MS: nat := 86_400_000
  const MINUTE_MS: nat := 60_000

  // The UTC day a time (ms) falls on, counted from the epoch.
  function DayOf(ms: nat): nat { ms / DAY_MS }

  function Max(a: real, b: real): real { if a < b then b else a }

  function Min(a: real, b: real): real { if a < b then a else b }

  function Abs(a: real): real { if a < 0.0 then -a else a }

  // `as u64` on a finite f64: towards zero, and zero for anything negative.
  function AsU64(r: real): (n: nat)
    ensures if r < 0.0 then n == 0 else n as real <= r < n as real + 1.0
  {
    if r < 0.0 then 0 else r.Floor
  }

  function AbsDiff(a: nat, b: nat): nat { if a < b then b - a else a - b }
}
