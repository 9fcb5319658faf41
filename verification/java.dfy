/**
 * The slice of the Java platform the model leans on: the `int` and `long`
 * ranges, the narrowing conversion `(int)`, division that truncates toward
 * zero, nullable references as `Option`, and thrown exceptions as `Result`.
 */
module Java {

  const INT_MIN: int := -0x8000_0000
  const INT_MAX: int := 0x7FFF_FFFF
  const LONG_MIN: int := -0x8000_0000_0000_0000
  const LONG_MAX: int := 0x7FFF_FFFF_FFFF_FFFF

  /** 2^32, the number of distinct `int` values. */
  const TWO_32: int := 0x1_0000_0000
  /** 2^64, the number of distinct `long` values. */
  const TWO_64: int := 0x1_0000_0000_0000_0000

  /** Values of Java's 32-bit `int`. */
  type Int32 = x: int | -0x8000_0000 <= x < 0x8000_0000

  /** Values of Java's 64-bit `long`. */
  type Int64 = x: int | -0x8000_0000_0000_0000 <= x < 0x8000_0000_0000_0000

  /** A reference that may be `null` (`None`). */
  datatype Option<T> = None | Some(value: T)

  /** A call that either returns a value or throws. */
  datatype Result<T, E> = Success(value: T) | Failure(error: E)

  /** A `java.lang.NullPointerException`, with its (nullable) detail message. */
  datatype NullPointerException = NullPointerException(message: Option<string>)

  /**
   * The narrowing conversion `(int) x`, which is also how `int` arithmetic
   * wraps around: keep the low 32 bits of the two's-complement
   * representation and read them back as a signed value.
   */
  function IntCast(x: int): (r: Int32)
    ensures (x - r) % TWO_32 == 0
    ensures INT_MIN <= x <= INT_MAX ==> r == x
  {
    var low := x % TWO_32;
    if low < 0x8000_0000 then low else low - TWO_32
  }

  /**
   * Java's `a / b` for a positive divisor: the quotient truncated toward
   * zero (Dafny's own `/` is Euclidean and rounds negative dividends down).
   */
  function TruncDiv(a: int, b: int): (r: int)
    requires b > 0
    ensures a >= 0 ==> 0 <= r && r * b <= a < r * b + b
    ensures a < 0 ==> r <= 0 && r * b - b < a <= r * b
  {
    if a >= 0 then
      DivBounds(a, b);
      a / b
    else
      DivBounds(-a, b);
      NegMul((-a) / b, b);
      -((-a) / b)
  }

  /** Euclidean division of a non-negative dividend brackets it between two multiples. */
  lemma DivBounds(n: int, b: int)
    requires n >= 0 && b > 0
    ensures 0 <= n / b && (n / b) * b <= n < (n / b) * b + b
  {
  }

  lemma NegMul(q: int, b: int)
    ensures (-q) * b == -(q * b)
  {
  }

  /**
   * Truncating division undoes multiplication by a positive divisor: the
   * bounds of `TruncDiv` leave room for one quotient only.
   */
  lemma TruncDivOfMultiple(d: int, b: int)
    requires b > 0
    ensures TruncDiv(d * b, b) == d
  {
    var q := TruncDiv(d * b, b);
    MulSub(d, q, b);
    if d * b >= 0 {
      OnlyZeroBelow(d - q, b);
    } else {
      OnlyZeroBelow(q - d, b);
      MulSub(q, d, b);
    }
  }

  lemma MulSub(x: int, y: int, b: int)
    ensures (x - y) * b == x * b - y * b
  {
  }

  /** The only multiple of a positive `b` in `[0, b)` is `0 * b`. */
  lemma OnlyZeroBelow(k: int, b: int)
    requires b > 0 && 0 <= k * b < b
    ensures k == 0
  {
    if k < 0 {
      assert k * b <= -b by { MulMono(-k, b); NegMul(k, b); }
    } else if k > 0 {
      MulMono(k, b);
    }
  }

  /** A product with a factor of at least one is at least the other factor. */
  lemma MulMono(k: int, b: int)
    requires k >= 1 && b > 0
    ensures k * b >= b
  {
  }

  /** Java's `Objects.requireNonNull(x, message)`. */
  function RequireNonNull<T>(x: Option<T>, message: Option<string>): (r: Result<T, NullPointerException>)
    ensures r.Success? <==> x.Some?
    ensures r.Success? ==> r.value == x.value
    ensures r.Failure? ==> r.error.message == message
  {
    match x
    case Some(v) => Success(v)
    case None => Failure(NullPointerException(message))
  }
}
