/**
 * Fixed-width unsigned integers and the bitwise operators the engine uses.
 *
 * C's `unsigned char`, `u32` and `u64` are modelled as bounded subsets of
 * `int`; every place where the C code relies on modular wrap-around calls
 * `Wrap8` or `Wrap32` explicitly. Bitwise AND and NOT are defined bit by bit,
 * so that their arithmetic meaning (clearing low bits, complementing) is
 * proved here rather than assumed.
 */
module Bits {

  const U8_MODULUS: int := 0x100
  const U32_MODULUS: int := 0x1_0000_0000
  const U64_MODULUS: int := 0x1_0000_0000_0000_0000

  /** `UINT32_MAX`, used by the texture cache as its failure sentinel. */
  const UINT32_MAX: int := U32_MODULUS - 1

  type uint8 = x: int | 0 <= x < U8_MODULUS
  type uint32 = x: int | 0 <= x < U32_MODULUS
  type uint64 = x: int | 0 <= x < U64_MODULUS

  /** Conversion of any integer to `unsigned char` (reduction modulo 256). */
  function Wrap8(x: int): (r: uint8)
    ensures 0 <= x < U8_MODULUS ==> r == x
  {
    x % U8_MODULUS
  }

  /**
   * Conversion of any integer to `u32` (reduction modulo 2^32). The results
   * of adding or subtracting two `u32`s are reduced by one subtraction or
   * addition of 2^32, which keeps the arithmetic linear for the verifier.
   */
  function Wrap32(x: int): (r: uint32)
    ensures 0 <= x < U32_MODULUS ==> r == x
  {
    if 0 <= x < U32_MODULUS then x
    else if U32_MODULUS <= x < 2 * U32_MODULUS then x - U32_MODULUS
    else if -U32_MODULUS <= x < 0 then x + U32_MODULUS
    else x % U32_MODULUS
  }

  lemma Wrap32IsModulo(x: int)
    ensures Wrap32(x) == x % U32_MODULUS
  {
    if U32_MODULUS <= x < 2 * U32_MODULUS {
      ModUnique(x, U32_MODULUS, 1, x - U32_MODULUS);
    } else if -U32_MODULUS <= x < 0 {
      ModUnique(x, U32_MODULUS, -1, x + U32_MODULUS);
    }
  }

  /** Adding in `u32` and reducing once agrees with reducing the exact sum. */
  lemma Wrap32Add(a: nat, b: nat)
    ensures Wrap32(Wrap32(a) + Wrap32(b)) == Wrap32(a + b)
  {
    Wrap32IsModulo(a);
    Wrap32IsModulo(b);
    Wrap32IsModulo(a + b);
    var s := a % U32_MODULUS + b % U32_MODULUS;
    if s < U32_MODULUS {
      ModUnique(a + b, U32_MODULUS, a / U32_MODULUS + b / U32_MODULUS, s);
    } else {
      ModUnique(a + b, U32_MODULUS, a / U32_MODULUS + b / U32_MODULUS + 1, s - U32_MODULUS);
    }
  }

  function Pow2(k: nat): (r: nat)
    ensures r >= 1
  {
    if k == 0 then 1 else 2 * Pow2(k - 1)
  }

  lemma {:induction false} Pow2Add(j: nat, k: nat)
    ensures Pow2(j + k) == Pow2(j) * Pow2(k)
    decreases j
  {
    if j > 0 {
      Pow2Add(j - 1, k);
    }
  }

  lemma Pow2Of32()
    ensures Pow2(32) == U32_MODULUS
  {
    Pow2Add(16, 16);
    Pow2Add(8, 8);
    Pow2Add(4, 4);
  }

  /**
   * Bitwise AND of two naturals, lowest bit first. The recursion runs on the
   * operands themselves, so it stops as soon as either runs out of set bits.
   */
  function And(x: nat, y: nat): nat
    decreases x
  {
    if x == 0 || y == 0 then 0
    else (if x % 2 == 1 && y % 2 == 1 then 1 else 0) + 2 * And(x / 2, y / 2)
  }

  /** Bitwise complement of the low `width` bits of `x`. */
  function Not(x: nat, width: nat): nat
    decreases width
  {
    if width == 0 then 0
    else (1 - x % 2) + 2 * Not(x / 2, width - 1)
  }

  /** C's `x & y` on two `u32` operands. */
  function AndU32(x: uint32, y: uint32): (r: uint32)
    ensures r <= x && r <= y
  {
    AndBounds(x, y);
    AndCommutes(x, y);
    AndBounds(y, x);
    And(x, y)
  }

  /** C's `~x` on a `u32` operand: every one of the 32 bits flipped. */
  function NotU32(x: uint32): (r: uint32)
    ensures r == UINT32_MAX - x
  {
    Pow2Of32();
    NotIsComplement(x, 32);
    Not(x, 32)
  }

  lemma {:induction false} AndBounds(x: nat, y: nat)
    ensures And(x, y) <= x
    decreases x
  {
    if x != 0 && y != 0 {
      AndBounds(x / 2, y / 2);
    }
  }

  lemma {:induction false} AndCommutes(x: nat, y: nat)
    ensures And(x, y) == And(y, x)
    decreases x
  {
    if x != 0 && y != 0 {
      AndCommutes(x / 2, y / 2);
    }
  }

  lemma {:induction false} NotIsComplement(x: nat, width: nat)
    requires x < Pow2(width)
    ensures Not(x, width) == Pow2(width) - 1 - x
    decreases width
  {
    if width > 0 {
      NotIsComplement(x / 2, width - 1);
    }
  }

  /** Any value AND itself is the value. */
  lemma {:induction false} AndSelf(x: nat)
    ensures And(x, x) == x
    decreases x
  {
    if x != 0 {
      AndSelf(x / 2);
    }
  }

  /** AND with all-ones keeps the value (within the width). */
  lemma {:induction false} AndOnes(x: nat, width: nat)
    requires x < Pow2(width)
    ensures And(x, Pow2(width) - 1) == x
    decreases width
  {
    if x != 0 {
      AndOnes(x / 2, width - 1);
    }
  }

  /** The remainder modulo `m` is determined by any decomposition `x == q * m + r`. */
  lemma ModUnique(x: int, m: int, q: int, r: int)
    requires m > 0 && 0 <= r < m && x == q * m + r
    ensures x % m == r && x / m == q
  {
    var d := q - x / m;
    assert d * m == x % m - r;
    if d >= 1 {
      MulAtLeast(d, m);
      assert false;
    } else if d <= -1 {
      MulAtLeast(-d, m);
      assert false;
    }
  }

  lemma MulAtLeast(d: int, m: int)
    requires d >= 1 && m > 0
    ensures d * m >= m
  {
  }

  /** Splitting off the lowest bit of a remainder modulo a power of two. */
  lemma ModPow2Split(x: nat, k: nat)
    requires k >= 1
    ensures x % Pow2(k) == x % 2 + 2 * ((x / 2) % Pow2(k - 1))
  {
    var p := Pow2(k - 1);
    var q, r := (x / 2) / p, (x / 2) % p;
    assert x / 2 == q * p + r;
    assert x == q * (2 * p) + (2 * r + x % 2);
    ModUnique(x, 2 * p, q, 2 * r + x % 2);
  }

  /**
   * AND with a mask whose low `k` bits are clear and whose other `width - k`
   * bits are set rounds `x` down to a multiple of 2^k.
   */
  lemma {:induction false} AndHighMask(x: nat, mask: nat, width: nat, k: nat)
    requires k <= width && x < Pow2(width)
    requires mask + Pow2(k) == Pow2(width)
    ensures And(x, mask) == x - x % Pow2(k)
    decreases width
  {
    if k == 0 {
      AndOnes(x, width);
    } else if x == 0 {
    } else if mask == 0 {
      ModUnique(x, Pow2(k), 0, x);
    } else {
      Pow2Add(1, k - 1);
      Pow2Add(1, width - 1);
      var half := Pow2(width - 1) - Pow2(k - 1);
      assert mask == 2 * half;
      ModUnique(mask, 2, half, 0);
      AndHighMask(x / 2, half, width - 1, k - 1);
      assert And(x, mask) == 2 * And(x / 2, half);
      ModPow2Split(x, k);
    }
  }

  /** `2^k & (2^k - 1)` is zero. */
  lemma {:induction false} AndPow2Predecessor(k: nat)
    ensures And(Pow2(k), Pow2(k) - 1) == 0
  {
    if k > 0 {
      Pow2Halves(k);
      assert (Pow2(k) - 1) / 2 == Pow2(k - 1) - 1;
      AndPow2Predecessor(k - 1);
    }
  }

  lemma Pow2Halves(k: nat)
    requires k >= 1
    ensures Pow2(k) % 2 == 0 && Pow2(k) / 2 == Pow2(k - 1)
  {
  }

  /**
   * A nonzero value that shares no bit with its predecessor is a power of two;
   * the exponent is returned.
   */
  lemma {:induction false} PowerOfTwoFromAnd(v: nat, width: nat) returns (k: nat)
    requires 0 < v < Pow2(width)
    requires And(v, v - 1) == 0
    ensures k < width && Pow2(k) == v
    decreases width
  {
    if v == 1 {
      k := 0;
    } else if v % 2 == 1 {
      // v - 1 only differs from v in the lowest bit, so the AND keeps v / 2.
      assert (v - 1) / 2 == v / 2;
      AndSelf(v / 2);
      assert false;
    } else {
      assert (v - 1) / 2 == v / 2 - 1;
      var j := PowerOfTwoFromAnd(v / 2, width - 1);
      k := j + 1;
    }
  }
}
