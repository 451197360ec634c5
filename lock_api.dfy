/**
 * The public lock interface: its constants, the Java `int` that carries a
 * lease duration, and the time unit that scales it to milliseconds.
 */
module LockApi {

  /** Pool used by the name-only `lock` and `release` overloads. */
  const DEFAULT_POOL: string := "DEFAULT"

  /** Longest pool name accepted, in characters. */
  const MAX_POOL_LENGTH: nat := 64

  /** Longest lock name accepted, in characters. */
  const MAX_NAME_LENGTH: nat := 64

  /** Milliseconds in one hour, the grace period of the expiry cleaner. */
  const HOUR_MS: nat := 3_600_000

  /** A Java `int`. */
  newtype int32 = x: int | -0x8000_0000 <= x < 0x8000_0000

  /** The units of `java.util.concurrent.TimeUnit`. */
  datatype TimeUnit = Nanoseconds | Microseconds | Milliseconds | Seconds | Minutes | Hours | Days

  /** Milliseconds in one unit, for the units of a millisecond or longer. */
  function MillisPer(unit: TimeUnit): (k: nat)
    requires !unit.Nanoseconds? && !unit.Microseconds?
    ensures k >= 1
  {
    match unit
    case Milliseconds => 1
    case Seconds => 1_000
    case Minutes => 60_000
    case Hours => 3_600_000
    case Days => 86_400_000
  }

  /**
   * `unit.toMillis(d)` for a positive Java `int`: units finer than a
   * millisecond are truncated, coarser ones are multiplied. A 32-bit `d`
   * times at most 86_400_000 stays below `Long.MAX_VALUE`, so the saturation
   * of `toMillis` never applies here.
   */
  function ToMillis(d: int32, unit: TimeUnit): (ms: int)
    requires d > 0
    ensures ms >= 0
    ensures ms == 0 <==> (unit.Nanoseconds? && d < 1_000_000) || (unit.Microseconds? && d < 1_000)
    ensures unit.Nanoseconds? ==> ms * 1_000_000 <= d as int < (ms + 1) * 1_000_000
    ensures unit.Microseconds? ==> ms * 1_000 <= d as int < (ms + 1) * 1_000
    ensures !unit.Nanoseconds? && !unit.Microseconds? ==> ms >= d as int
  {
    match unit
    case Nanoseconds => d as int / 1_000_000
    case Microseconds => d as int / 1_000
    case _ => d as int * MillisPer(unit)
  }

  /** Why a call was refused with `IllegalArgumentException`. */
  datatype ArgError = NullLockDTO | BadPool | BadName | BadOwner | BadTimeout

  /** What a public operation does: return a value, or throw an invalid-argument error. */
  datatype Checked<+T> = Returned(value: T) | IllegalArgument(error: ArgError)
}
