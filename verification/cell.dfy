/**
 * `Cell`: a grid-cell key wrapping a 64-bit `long` id. Its cell id is the
 * id narrowed to `int`, its order subtracts two such ints with wrap-around,
 * its equality compares the whole `long`, and its hash is `Long.hashCode`.
 */
module Grid {
  import opened Java

  datatype Cell = Cell(id: Int64)

  /** `getCellId()`: `(int) id`, the low 32 bits read as a signed `int`. */
  function CellId(c: Cell): (r: Int32)
    ensures (c.id - r) % TWO_32 == 0
    ensures INT_MIN <= c.id <= INT_MAX ==> r == c.id
  {
    IntCast(c.id)
  }

  /**
   * `compareTo(o)`: `o.getCellId() - getCellId()` in 32-bit arithmetic.
   * When the difference fits in an `int` it is the result unchanged, so
   * a cell with the larger cell id sorts first.
   */
  function CompareTo(c: Cell, o: Cell): (r: Int32)
    ensures ((CellId(o) - CellId(c)) - r) % TWO_32 == 0
    ensures INT_MIN <= CellId(o) - CellId(c) <= INT_MAX ==> r == CellId(o) - CellId(c)
  {
    IntCast(CellId(o) - CellId(c))
  }

  /**
   * `hashCode()`: `Long.hashCode(id)`, that is `(int)(id ^ (id >>> 32))`.
   * The cast keeps the low 32 bits of the exclusive or, which are the
   * exclusive or of the id's low word and its high word (`id >>> 32`).
   * A cell id that fits in 32 bits as an unsigned value hashes to itself;
   * a negative id of at most 32 significant bits has an all-ones high word
   * and hashes to the complement `~getCellId()`.
   */
  function HashCode(c: Cell): (r: Int32)
    ensures 0 <= c.id < TWO_32 ==> r == CellId(c)
    ensures -TWO_32 <= c.id < 0 ==> r == -1 - CellId(c)
  {
    LongHashCodeOfSmall(c.id);
    LongHashCode(c.id)
  }

  /** `Long.hashCode(x)`: the low 32 bits of the exclusive or of the two words of `x`. */
  function LongHashCode(x: Int64): Int32
  {
    IntCast(Xor(LowWord(x), HighWord(x)))
  }

  /** The low 32 bits of a `long`, unsigned. */
  function LowWord(x: Int64): nat
  {
    x % TWO_32
  }

  /** `x >>> 32`: the high 32 bits of a `long`'s two's-complement representation, unsigned. */
  function HighWord(x: Int64): nat
  {
    (x % TWO_64) / TWO_32
  }

  /**
   * A `long` that is a non-negative 32-bit word hashes to itself (its high
   * word is zero); a negative one of at most 32 significant bits hashes to
   * its complement (its high word is all ones).
   */
  lemma LongHashCodeOfSmall(x: Int64)
    ensures 0 <= x < TWO_32 ==> LongHashCode(x) == IntCast(x)
    ensures -TWO_32 <= x < 0 ==> LongHashCode(x) == -1 - IntCast(x)
  {
    if 0 <= x < TWO_32 {
      HashOfWord(x);
    } else if -TWO_32 <= x < 0 {
      HashOfNegative(x);
    }
  }

  /** High word zero: the exclusive or is the low word, which narrows back to `x`. */
  lemma HashOfWord(x: Int64)
    requires 0 <= x < TWO_32
    ensures LongHashCode(x) == IntCast(x)
  {
    NonNegativeWords(x);
    assert Xor(LowWord(x), HighWord(x)) == x;
  }

  /** High word all ones: the exclusive or complements the low word. */
  lemma HashOfNegative(x: Int64)
    requires -TWO_32 <= x < 0
    ensures LongHashCode(x) == -1 - IntCast(x)
  {
    NegativeWords(x);
    XorOnes(LowWord(x), 32);
    assert Xor(LowWord(x), HighWord(x)) == -1 - x;
    IntCastComplement(x);
  }

  /** A non-negative `long` below `2^32`: high word zero, low word `x`. */
  lemma NonNegativeWords(x: Int64)
    requires 0 <= x < TWO_32
    ensures HighWord(x) == 0 && LowWord(x) == x
  {
  }

  /** A negative `long` of at most 32 significant bits: high word all ones, low word `x + 2^32`. */
  lemma NegativeWords(x: Int64)
    requires -TWO_32 <= x < 0
    ensures HighWord(x) == Ones(32)
    ensures LowWord(x) == x + TWO_32
  {
    OnesWord();
  }

  /** Narrowing commutes with the bitwise complement `~x == -1 - x`. */
  lemma IntCastComplement(x: int)
    ensures IntCast(-1 - x) == -1 - IntCast(x)
  {
    var r := IntCast(-1 - x);
    assert (r - (-1 - IntCast(x))) % TWO_32 == 0;
  }

  /** `2^n - 1`: the word of `n` one bits. */
  function Ones(n: nat): nat
  {
    if n == 0 then 0 else 2 * Ones(n - 1) + 1
  }

  /** Thirty-two one bits make `2^32 - 1`, the high word of a small negative `long`. */
  lemma OnesWord()
    ensures Ones(32) == 0xFFFF_FFFF
  {
    assert Ones(8) == 0xFF;
    assert Ones(16) == 0xFFFF;
    assert Ones(24) == 0xFF_FFFF;
  }

  /** Bitwise exclusive or of two non-negative numbers. */
  function Xor(a: nat, b: nat): (r: nat)
    decreases a + b
  {
    if a == 0 then b
    else if b == 0 then a
    else (if a % 2 == b % 2 then 0 else 1) + 2 * Xor(a / 2, b / 2)
  }

  /** Exclusive or with a word of ones complements every bit. */
  lemma {:induction false} XorOnes(a: nat, n: nat)
    requires a <= Ones(n)
    ensures Xor(a, Ones(n)) == Ones(n) - a
  {
    if n > 0 && a > 0 {
      XorOnes(a / 2, n - 1);
    }
  }

  /** `equals(obj)` once `obj` is known to be a `Cell`: all 64 bits agree. */
  function Equals(c: Cell, o: Cell): (r: bool)
    ensures r <==> c == o
  {
    c.id == o.id
  }

  /** The argument of `equals(Object)`: null, a cell, or any other object. */
  datatype JavaObject = Null | CellObject(cell: Cell) | OtherObject

  /** What `equals(Object)` throws for an argument that is not a cell. */
  datatype EqualsError = NullDereference | ClassCast

  /**
   * `equals(Object)` casts without checking: a `null` argument passes the
   * cast and fails on the field read, any other class fails the cast.
   */
  function EqualsObject(c: Cell, obj: JavaObject): (r: Result<bool, EqualsError>)
    ensures r.Success? <==> obj.CellObject?
    ensures r.Success? ==> (r.value <==> obj.cell.id == c.id)
    ensures obj.Null? ==> r == Failure(NullDereference)
    ensures obj.OtherObject? ==> r == Failure(ClassCast)
  {
    match obj
    case Null => Failure(NullDereference)
    case CellObject(o) => Success(Equals(c, o))
    case OtherObject => Failure(ClassCast)
  }

  /** Every cell compares equal to itself. */
  lemma CompareToSelf(c: Cell)
    ensures CompareTo(c, c) == 0
  {
  }

  /**
   * Without overflow the order is the reverse of the cell ids: negative
   * exactly when the receiver's cell id is the larger one.
   */
  lemma CompareToIsDescending(c: Cell, o: Cell)
    requires INT_MIN <= CellId(o) - CellId(c) <= INT_MAX
    ensures CompareTo(c, o) < 0 <==> CellId(c) > CellId(o)
    ensures CompareTo(c, o) > 0 <==> CellId(c) < CellId(o)
  {
  }

  /** Without overflow the signs of `a.compareTo(b)` and `b.compareTo(a)` are opposite. */
  lemma CompareToAntisymmetricWithoutOverflow(a: Cell, b: Cell)
    requires INT_MIN <= CellId(b) - CellId(a) <= INT_MAX
    requires INT_MIN <= CellId(a) - CellId(b) <= INT_MAX
    ensures CompareTo(a, b) < 0 <==> CompareTo(b, a) > 0
    ensures CompareTo(a, b) == 0 <==> CompareTo(b, a) == 0
  {
  }

  /**
   * `compareTo` answers 0 exactly for cells that agree in their low 32
   * bits, whatever their upper 32 bits.
   */
  lemma CompareToZeroIffSameLowBits(a: Cell, b: Cell)
    ensures CompareTo(a, b) == 0 <==> a.id % TWO_32 == b.id % TWO_32
  {
  }

  /** `Long.hashCode` on three ids: 5 hashes to 5, -1 to 0 and `0xFFFF_FFFF` to -1. */
  lemma HashCodeExamples()
    ensures HashCode(Cell(5)) == 5
    ensures HashCode(Cell(-1)) == 0
    ensures HashCode(Cell(0xFFFF_FFFF)) == -1
  {
  }

  /** Equal cells compare as 0 and have equal hash codes. */
  lemma EqualCellsAgree(a: Cell, b: Cell)
    requires Equals(a, b)
    ensures CompareTo(a, b) == 0 && CompareTo(b, a) == 0
    ensures HashCode(a) == HashCode(b)
  {
  }

  /** `equals` is an equivalence relation. */
  lemma EqualsIsEquivalence(a: Cell, b: Cell, c: Cell)
    ensures Equals(a, a)
    ensures Equals(a, b) <==> Equals(b, a)
    ensures Equals(a, b) && Equals(b, c) ==> Equals(a, c)
  {
  }

  /** `compareTo` is inconsistent with `equals`: cells 0 and 2^32 compare as 0 but differ. */
  lemma CompareToInconsistentWithEquals()
    ensures CompareTo(Cell(0), Cell(TWO_32)) == 0
    ensures !Equals(Cell(0), Cell(TWO_32))
  {
  }

  /**
   * On overflow the sign antisymmetry of `Comparable` fails: with cell ids
   * 0 and `Integer.MIN_VALUE` each cell claims to sort before the other.
   */
  lemma CompareToAntisymmetryFails()
    ensures CompareTo(Cell(0), Cell(INT_MIN)) < 0
    ensures CompareTo(Cell(INT_MIN), Cell(0)) < 0
  {
  }

  /**
   * On overflow transitivity fails too: a sorts before b and b before c,
   * yet c sorts before a.
   */
  lemma CompareToTransitivityFails()
    ensures CompareTo(Cell(0x4000_0001), Cell(0)) < 0
    ensures CompareTo(Cell(0), Cell(-0x4000_0000)) < 0
    ensures CompareTo(Cell(0x4000_0001), Cell(-0x4000_0000)) > 0
  {
  }

  /**
   * The order `compareTo` evidently means to define, written as
   * `Integer.compare(o.getCellId(), getCellId())`: still descending, but
   * without the overflow of the subtraction.
   */
  function CompareToIntended(c: Cell, o: Cell): (r: int)
    ensures r < 0 <==> CellId(c) > CellId(o)
    ensures r > 0 <==> CellId(c) < CellId(o)
  {
    if CellId(o) < CellId(c) then -1 else if CellId(o) == CellId(c) then 0 else 1
  }

  /** The intended order agrees in sign with `compareTo` whenever the subtraction does not overflow. */
  lemma CompareToIntendedAgrees(c: Cell, o: Cell)
    requires INT_MIN <= CellId(o) - CellId(c) <= INT_MAX
    ensures CompareToIntended(c, o) < 0 <==> CompareTo(c, o) < 0
    ensures CompareToIntended(c, o) == 0 <==> CompareTo(c, o) == 0
  {
  }

  /** The intended order satisfies the `Comparable` contract for all cells. */
  lemma CompareToIntendedMeetsComparable(a: Cell, b: Cell, c: Cell)
    ensures CompareToIntended(a, b) < 0 <==> CompareToIntended(b, a) > 0
    ensures CompareToIntended(a, b) < 0 && CompareToIntended(b, c) < 0 ==> CompareToIntended(a, c) < 0
    ensures CompareToIntended(a, b) == 0 ==> CompareToIntended(a, c) == CompareToIntended(b, c)
  {
  }
}
