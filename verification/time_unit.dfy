/**
 * `java.util.concurrent.TimeUnit`, as far as the client configuration uses
 * it: each unit is a number of nanoseconds, `toNanos` multiplies and
 * saturates at the `long` bounds, and converting a nanosecond count to a
 * coarser unit divides and truncates toward zero.
 */
module TimeUnits {
  import opened Java

  datatype TimeUnit = NANOSECONDS | MICROSECONDS | MILLISECONDS | SECONDS | MINUTES | HOURS | DAYS

  /** Nanoseconds in one `u`. */
  function Scale(u: TimeUnit): (r: int)
    ensures 1 <= r <= 86_400_000_000_000
    ensures r == 1 <==> u == NANOSECONDS
  {
    match u
    case NANOSECONDS => 1
    case MICROSECONDS => 1_000
    case MILLISECONDS => 1_000_000
    case SECONDS => 1_000_000_000
    case MINUTES => 60_000_000_000
    case HOURS => 3_600_000_000_000
    case DAYS => 86_400_000_000_000
  }

  /** Clamp a mathematical value into the `long` range. */
  function Saturate(x: int): (r: Int64)
  {
    if x > LONG_MAX then LONG_MAX else if x < LONG_MIN then LONG_MIN else x
  }

  /**
   * `u.toNanos(d)`: `NANOSECONDS` returns `d`; every other unit compares `d`
   * against `Long.MAX_VALUE / scale` first and answers `Long.MAX_VALUE` or
   * `Long.MIN_VALUE` when the product would leave the `long` range.
   */
  function ToNanos(d: Int64, u: TimeUnit): (r: Int64)
    ensures r == Saturate(d * Scale(u))
  {
    if u == NANOSECONDS then d
    else
      var m := Scale(u);
      var over := LONG_MAX / m;
      if d > over then LONG_MAX
      else if d < -over then LONG_MIN
      else d * m
  }

  /**
   * `u.convert(d, NANOSECONDS)`: the whole number of `u` in `d`
   * nanoseconds, truncated toward zero.
   */
  function FromNanos(d: Int64, u: TimeUnit): (r: Int64)
    ensures d >= 0 ==> 0 <= r && r * Scale(u) <= d < r * Scale(u) + Scale(u)
    ensures d < 0 ==> r <= 0 && r * Scale(u) - Scale(u) < d <= r * Scale(u)
  {
    TruncDiv(d, Scale(u))
  }

  /**
   * Converting to nanoseconds and back gives the original duration whenever
   * the nanosecond count fits in a `long`.
   */
  lemma {:induction false} FromNanosToNanos(d: Int64, u: TimeUnit)
    requires LONG_MIN <= d * Scale(u) <= LONG_MAX
    ensures ToNanos(d, u) == d * Scale(u)
    ensures FromNanos(ToNanos(d, u), u) == d
  {
    TruncDivOfMultiple(d, Scale(u));
  }

  /**
   * A duration whose nanosecond count is too large (too small) is stored as
   * `Long.MAX_VALUE` (`Long.MIN_VALUE`).
   */
  lemma ToNanosSaturates(d: Int64, u: TimeUnit)
    ensures d * Scale(u) > LONG_MAX ==> ToNanos(d, u) == LONG_MAX
    ensures d * Scale(u) < LONG_MIN ==> ToNanos(d, u) == LONG_MIN
  {
  }
}
