/** Fixed-width words as bounded integers, with the Verilog operators that are
    not plain arithmetic: bitwise logic and single-bit shifts. */
module Words {

  const TWO_31 := 0x8000_0000
  const TWO_32 := 0x1_0000_0000

  type Word = x: int | 0 <= x < 0x1_0000_0000
  type Byte = x: int | 0 <= x < 0x100
  type Reg = x: int | 0 <= x < 32
  type U2 = x: int | 0 <= x < 4
  type U3 = x: int | 0 <= x < 8
  type U4 = x: int | 0 <= x < 16
  type U7 = x: int | 0 <= x < 128

  /** Truncation to 32 bits, the effect of assigning to a 32-bit signal. */
  function Wrap(x: int): Word {
    x % TWO_32
  }

  lemma WrapSmall(x: int)
    requires 0 <= x < TWO_32
    ensures Wrap(x) == x
  {
  }

  /** The two's-complement reading of a word. */
  function Signed(w: Word): int {
    if w < TWO_31 then w else w - TWO_32
  }

  /** The sign bit. */
  predicate Negative(w: Word) {
    w >= TWO_31
  }

  function Flag(b: bool): Word {
    if b then 1 else 0
  }

  function Pow2(n: nat): (p: nat)
    ensures p > 0
  {
    if n == 0 then 1 else 2 * Pow2(n - 1)
  }

  /** Bit k of x. */
  predicate Bit(x: nat, k: nat) {
    if k == 0 then x % 2 == 1 else Bit(x / 2, k - 1)
  }

  datatype Gate = And | Or | Xor

  function Apply(g: Gate, a: bool, b: bool): bool {
    match g
    case And => a && b
    case Or => a || b
    case Xor => a != b
  }

  /** The bitwise operators `&`, `|` and `^` on the low `width` bits. */
  function Bitwise(g: Gate, a: nat, b: nat, width: nat): (r: nat)
    ensures r < Pow2(width)
  {
    if width == 0 then 0
    else Flag(Apply(g, a % 2 == 1, b % 2 == 1)) + 2 * Bitwise(g, a / 2, b / 2, width - 1)
  }

  /** `a << n` on 32 bits, one position at a time: the top bit falls off. */
  function ShiftLeft(a: Word, n: nat): Word {
    if n == 0 then a else 2 * ShiftLeft(a, n - 1) % TWO_32
  }

  /** `a >> n`, one position at a time: the bottom bit falls off. */
  function ShiftRight(a: Word, n: nat): Word {
    if n == 0 then a else ShiftRight(a, n - 1) / 2
  }

  lemma Pow2Of32()
    ensures Pow2(5) == 32
    ensures Pow2(31) == TWO_31
    ensures Pow2(32) == TWO_32
  {
    assert Pow2(5) == 32;
    assert Pow2(10) == 1024;
    assert Pow2(15) == 0x8000;
    assert Pow2(20) == 0x10_0000;
    assert Pow2(25) == 0x200_0000;
    assert Pow2(30) == 0x4000_0000;
  }

  lemma {:induction false} Pow2Add(m: nat, n: nat)
    ensures Pow2(m + n) == Pow2(m) * Pow2(n)
  {
    if m > 0 {
      Pow2Add(m - 1, n);
      assert Pow2(m + n) == 2 * Pow2(m - 1 + n);
    }
  }

  lemma MulGrows(a: nat, b: nat)
    requires b >= 1
    ensures a * b >= a
  {
  }

  /** Every bit of a bitwise operation is the gate applied to the operands' bits. */
  lemma {:induction false} BitwiseBit(g: Gate, a: nat, b: nat, width: nat, k: nat)
    requires k < width
    ensures Bit(Bitwise(g, a, b, width), k) == Apply(g, Bit(a, k), Bit(b, k))
  {
    var r := Bitwise(g, a / 2, b / 2, width - 1);
    if k > 0 {
      assert Bitwise(g, a, b, width) / 2 == r;
      BitwiseBit(g, a / 2, b / 2, width - 1, k - 1);
    }
  }

  /** Bit k of x counts 2^k. */
  lemma {:induction false} BitIsQuotient(x: nat, k: nat)
    ensures Bit(x, k) <==> x / Pow2(k) % 2 == 1
  {
    if k > 0 {
      BitIsQuotient(x / 2, k - 1);
      HalfFirst(x, Pow2(k - 1));
    }
  }

  lemma HalfFirst(x: nat, p: nat)
    requires p > 0
    ensures x / (2 * p) == x / 2 / p
  {
    var h := x / 2;
    var q := h / p;
    assert h == p * q + h % p;
    assert x == 2 * h + x % 2;
    assert 2 * p * q == 2 * (p * q);
    QuotientUnique(x, 2 * p, q, 2 * (h % p) + x % 2);
  }

  /** The bits that are set in both numbers and those set in either add up to the two; so do
      those set in one only and, twice, those set in both. */
  lemma {:induction false} GatesAdd(a: nat, b: nat, width: nat)
    requires a < Pow2(width) && b < Pow2(width)
    ensures Bitwise(And, a, b, width) + Bitwise(Or, a, b, width) == a + b
    ensures Bitwise(Xor, a, b, width) + 2 * Bitwise(And, a, b, width) == a + b
  {
    if width > 0 {
      GatesAdd(a / 2, b / 2, width - 1);
    }
  }

  /** Shifting left n places multiplies by 2^n modulo 2^32. */
  lemma {:induction false} ShiftLeftMultiplies(a: Word, n: nat)
    ensures ShiftLeft(a, n) == a * Pow2(n) % TWO_32
  {
    if n > 0 {
      ShiftLeftMultiplies(a, n - 1);
      var p := a * Pow2(n - 1);
      assert a * Pow2(n) == 2 * p;
      DoubleMod(p);
    }
  }

  lemma DoubleMod(p: nat)
    ensures 2 * (p % TWO_32) % TWO_32 == 2 * p % TWO_32
  {
    var q, r := p / TWO_32, p % TWO_32;
    var carry := if 2 * r < TWO_32 then 0 else 1;
    QuotientUnique(2 * r, TWO_32, carry, 2 * r - carry * TWO_32);
    QuotientUnique(2 * p, TWO_32, 2 * q + carry, 2 * r - carry * TWO_32);
  }

  /** Shifting right n places is the quotient by 2^n, rounded down. */
  lemma {:induction false} ShiftRightDivides(a: Word, n: nat)
    ensures ShiftRight(a, n) == a / Pow2(n)
  {
    if n > 0 {
      ShiftRightDivides(a, n - 1);
      DivTwice(a, Pow2(n - 1));
    }
  }

  lemma DivTwice(a: nat, p: nat)
    requires p > 0
    ensures a / p / 2 == a / (2 * p)
  {
    var q := a / p;
    var h := q / 2;
    assert a == p * q + a % p;
    assert q == 2 * h + q % 2;
    assert p * q == 2 * p * h + p * (q % 2);
    assert 0 <= p * (q % 2) <= p;
    QuotientUnique(a, 2 * p, h, p * (q % 2) + a % p);
  }

  /** The quotient and remainder of a division are the only ones there are. */
  lemma QuotientUnique(a: int, d: int, q: int, r: int)
    requires d > 0 && a == d * q + r && 0 <= r < d
    ensures a / d == q && a % d == r
  {
    EuclidUnique(d, q, r, a / d, a % d);
  }

  lemma EuclidUnique(d: int, q: int, r: int, q': int, r': int)
    requires d * q + r == d * q' + r' && 0 <= r < d && 0 <= r' < d
    ensures q == q' && r == r'
  {
    var k := q - q';
    assert d * k == r' - r;
    if k >= 1 {
      MulGrows(d, k);
    }
  }

  lemma MulMonotone(p: nat, x: nat, y: nat)
    requires x <= y
    ensures p * x <= p * y
  {
  }
}
