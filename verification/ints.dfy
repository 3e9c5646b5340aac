/** Fixed-width integers as mathematical integers.

A lane of a vector register is a bit pattern; Rust's `i16`, `i32` and `i64`
are two's-complement readings of such patterns. This module names the
unsigned pattern ranges (`U16`, `U32`, `U64`), the signed ranges (`I16`,
`I32`, `I64`), the conversions between them, wrap-around, the bitwise
operations the registers use, and the bit fields of the compile-time
immediates that control blends and permutes.
*/
module Ints {

  type U16 = x: int | 0 <= x < 0x1_0000
  type U32 = x: int | 0 <= x < 0x1_0000_0000
  type U64 = x: int | 0 <= x < 0x1_0000_0000_0000_0000
  type I16 = x: int | -0x8000 <= x < 0x8000
  type I32 = x: int | -0x8000_0000 <= x < 0x8000_0000
  type I64 = x: int | -0x8000_0000_0000_0000 <= x < 0x8000_0000_0000_0000

  /** An 8-bit immediate (`static_assert_uimm_bits!(IMM8, 8)` in the intrinsics). */
  type Imm8 = x: int | 0 <= x < 0x100
  /** A 4-bit immediate (`static_assert_uimm_bits!(IMM4, 4)`). */
  type Imm4 = x: int | 0 <= x < 0x10

  const TWO16: int := 0x1_0000
  const TWO32: int := 0x1_0000_0000
  const TWO48: int := 0x1_0000_0000_0000
  const TWO64: int := 0x1_0000_0000_0000_0000

  // ---------------------------------------------------------------------
  // Two's complement

  /** The value a 16-bit pattern denotes as an `i16`. */
  function Signed16(u: U16): (s: I16)
  {
    if u < 0x8000 then u else u - TWO16
  }

  /** The 16-bit pattern of an `i16`. */
  function Pattern16(s: I16): (u: U16)
    ensures Signed16(u) == s
  {
    s % TWO16
  }

  /** Truncation to 16 bits read as `i16`: what `n as i16` and the wrapping
      16-bit operations give. */
  function Wrap16(n: int): (s: I16)
  {
    Signed16(n % TWO16)
  }

  function Signed32(u: U32): (s: I32)
  {
    if u < 0x8000_0000 then u else u - TWO32
  }

  function Pattern32(s: I32): (u: U32)
    ensures Signed32(u) == s
  {
    s % TWO32
  }

  function Wrap32(n: int): (s: I32)
  {
    Signed32(n % TWO32)
  }

  function Signed64(u: U64): (s: I64)
  {
    if u < 0x8000_0000_0000_0000 then u else u - TWO64
  }

  function Pattern64(s: I64): (u: U64)
    ensures Signed64(u) == s
  {
    s % TWO64
  }

  function Wrap64(n: int): (s: I64)
  {
    Signed64(n % TWO64)
  }

  lemma PatternOfSigned16(u: U16)
    ensures Pattern16(Signed16(u)) == u
  {
  }

  lemma PatternOfSigned32(u: U32)
    ensures Pattern32(Signed32(u)) == u
  {
  }

  lemma PatternOfSigned64(u: U64)
    ensures Pattern64(Signed64(u)) == u
  {
  }

  /** Element-wise readings of a sequence of patterns, and back. */
  function Signed16s(l: seq<U16>): (s: seq<I16>)
    ensures |s| == |l|
  {
    seq(|l|, i requires 0 <= i < |l| => Signed16(l[i]))
  }

  function Patterns16(s: seq<I16>): (l: seq<U16>)
    ensures |l| == |s|
  {
    seq(|s|, i requires 0 <= i < |s| => Pattern16(s[i]))
  }

  function Signed32s(l: seq<U32>): (s: seq<I32>)
    ensures |s| == |l|
  {
    seq(|l|, i requires 0 <= i < |l| => Signed32(l[i]))
  }

  function Patterns32(s: seq<I32>): (l: seq<U32>)
    ensures |l| == |s|
  {
    seq(|s|, i requires 0 <= i < |s| => Pattern32(s[i]))
  }

  function Signed64s(l: seq<U64>): (s: seq<I64>)
    ensures |s| == |l|
  {
    seq(|l|, i requires 0 <= i < |l| => Signed64(l[i]))
  }

  function Patterns64(s: seq<I64>): (l: seq<U64>)
    ensures |l| == |s|
  {
    seq(|s|, i requires 0 <= i < |s| => Pattern64(s[i]))
  }

  // ---------------------------------------------------------------------
  // Bit fields

  /** 2 to the power k. */
  function Pow2(k: nat): (p: nat)
    ensures p >= 1
  {
    if k == 0 then 1 else 2 * Pow2(k - 1)
  }

  /** `x >> k`, one bit at a time. */
  function Shr(x: nat, k: nat): nat
  {
    if k == 0 then x else Shr(x / 2, k - 1)
  }

  /** Bit k of x is set: `(x >> k) & 1 == 1`. Used for the lane masks of
      the immediates and for the bits of lane patterns. */
  predicate Bit(x: nat, k: nat)
  {
    Shr(x, k) % 2 == 1
  }

  /** The 2-bit selector k of an 8-bit immediate: `(imm >> 2k) & 3`. */
  function Crumb(imm: Imm8, k: nat): (s: nat)
    requires k < 4
    ensures s < 4
  {
    Shr(imm, 2 * k) % 4
  }

  /** Shifting `2^n - 1 - x` right complements the bits of `x >> k` that
      remain. */
  lemma {:induction false} ShrComplement(x: nat, n: nat, k: nat)
    requires x < Pow2(n) && k <= n
    ensures Shr(Pow2(n) - 1 - x, k) == Pow2(n - k) - 1 - Shr(x, k)
  {
    if k > 0 {
      var p := Pow2(n - 1);
      assert (2 * p - 1 - x) / 2 == p - 1 - x / 2;
      ShrComplement(x / 2, n - 1, k - 1);
    }
  }

  /** No bit of 0 is set. */
  lemma {:induction false} ShrZero(k: nat)
    ensures Shr(0, k) == 0
  {
    if k > 0 {
      ShrZero(k - 1);
    }
  }

  /** Bit k of `2^n - 1 - x`, for k below n, is the complement of bit k of
      x. */
  lemma BitComplementN(x: nat, n: nat, k: nat)
    requires x < Pow2(n) && k < n
    ensures Bit(Pow2(n) - 1 - x, k) <==> !Bit(x, k)
  {
    var y := Pow2(n) - 1 - x;
    ShrComplement(x, n, k);
    OddComplement(Pow2(n - k - 1), Shr(x, k), Shr(y, k));
  }

  /** Bit k of `255 - imm` is the complement of bit k of imm: the mask that
      selects exactly the other lanes. */
  lemma BitComplement(imm: Imm8, k: nat)
    requires k < 8
    ensures Bit(255 - imm, k) <==> !Bit(imm, k)
  {
    Pow2Eight();
    BitComplementN(imm, 8, k);
  }

  /** Among the eight bits of an immediate, none of 0 and all of 255 are set. */
  lemma BitNoneAll(k: nat)
    requires k < 8
    ensures !Bit(0, k) && Bit(255, k)
  {
    ShrZero(k);
    BitComplement(0, k);
  }

  /** The same two facts for the four bits of a 4-bit immediate, against 15. */
  lemma BitComplement4(imm: Imm4, k: nat)
    requires k < 4
    ensures Bit(15 - imm, k) <==> !Bit(imm, k)
  {
    assert Pow2(4) == 16;
    BitComplementN(imm, 4, k);
  }

  lemma BitNoneAll4(k: nat)
    requires k < 4
    ensures !Bit(0, k) && Bit(15, k)
  {
    ShrZero(k);
    BitComplement4(0, k);
  }

  lemma Pow2Eight()
    ensures Pow2(8) == 0x100
  {
    assert Pow2(4) == 16;
  }

  /** Subtracting from an odd number flips the lowest bit. */
  lemma OddComplement(p: int, q: int, c: int)
    requires c == 2 * p - 1 - q
    ensures c % 2 == 1 <==> q % 2 != 1
  {
  }

  // ---------------------------------------------------------------------
  // Bitwise operations on n-bit patterns

  /** Bitwise AND of the low n bits of a and b. */
  function BitAnd(a: nat, b: nat, n: nat): (r: nat)
    ensures r < Pow2(n)
  {
    if n == 0 then 0
    else (if a % 2 == 1 && b % 2 == 1 then 1 else 0) + 2 * BitAnd(a / 2, b / 2, n - 1)
  }

  /** Bitwise OR of the low n bits of a and b. */
  function BitOr(a: nat, b: nat, n: nat): (r: nat)
    ensures r < Pow2(n)
  {
    if n == 0 then 0
    else (if a % 2 == 1 || b % 2 == 1 then 1 else 0) + 2 * BitOr(a / 2, b / 2, n - 1)
  }

  /** Bit k of `a & b` is set iff bit k is set in both; bit k of `a | b` iff
      it is set in either. */
  lemma {:induction false} BitAndOrBits(a: nat, b: nat, n: nat, k: nat)
    requires k < n
    ensures Bit(BitAnd(a, b, n), k) <==> Bit(a, k) && Bit(b, k)
    ensures Bit(BitOr(a, b, n), k) <==> Bit(a, k) || Bit(b, k)
  {
    if k > 0 {
      assert BitAnd(a, b, n) / 2 == BitAnd(a / 2, b / 2, n - 1);
      assert BitOr(a, b, n) / 2 == BitOr(a / 2, b / 2, n - 1);
      BitAndOrBits(a / 2, b / 2, n - 1, k - 1);
    }
  }

  /** AND and OR of an n-bit pattern with itself give the pattern back. */
  lemma {:induction false} BitAndOrSelf(a: nat, n: nat)
    requires a < Pow2(n)
    ensures BitAnd(a, a, n) == a
    ensures BitOr(a, a, n) == a
  {
    if n > 0 {
      BitAndOrSelf(a / 2, n - 1);
    }
  }

  /** Absorption: `a & (a | b) == a` and `a | (a & b) == a` on n bits. */
  lemma {:induction false} BitAbsorb(a: nat, b: nat, n: nat)
    requires a < Pow2(n)
    ensures BitAnd(a, BitOr(a, b, n), n) == a
    ensures BitOr(a, BitAnd(a, b, n), n) == a
  {
    if n > 0 {
      BitAbsorb(a / 2, b / 2, n - 1);
      assert BitOr(a, b, n) / 2 == BitOr(a / 2, b / 2, n - 1);
      assert BitAnd(a, b, n) / 2 == BitAnd(a / 2, b / 2, n - 1);
    }
  }

  /** AND and OR do not depend on operand order. */
  lemma {:induction false} BitCommute(a: nat, b: nat, n: nat)
    ensures BitAnd(a, b, n) == BitAnd(b, a, n)
    ensures BitOr(a, b, n) == BitOr(b, a, n)
  {
    if n > 0 {
      BitCommute(a / 2, b / 2, n - 1);
    }
  }

  lemma Pow2Values()
    ensures Pow2(8) == 0x100 && Pow2(16) == TWO16 && Pow2(32) == TWO32
  {
    assert Pow2(4) == 16;
    assert Pow2(8) == 0x100;
    assert Pow2(16) == TWO16 by {
      assert Pow2(12) == 0x1000;
    }
    assert Pow2(32) == TWO32 by {
      assert Pow2(24) == 0x100_0000;
    }
  }

  // ---------------------------------------------------------------------
  // Products of wrapped values

  /** The low 16 bits of a product do not depend on whether the factors are
      read as signed or unsigned 16-bit values. */
  lemma MulResidue16(ua: U16, ub: U16)
    ensures (Signed16(ua) * Signed16(ub)) % TWO16 == (ua * ub) % TWO16
  {
    var t := ua * ub;
    if ua >= 0x8000 && ub >= 0x8000 {
      assert (ua - TWO16) * (ub - TWO16) == t - TWO16 * ua - TWO16 * ub + TWO16 * TWO16;
    } else if ua >= 0x8000 {
      assert (ua - TWO16) * ub == t - TWO16 * ub;
    } else if ub >= 0x8000 {
      assert ua * (ub - TWO16) == t - TWO16 * ua;
    }
  }

  /** The same for 32-bit values. */
  lemma MulResidue32(ua: U32, ub: U32)
    ensures (Signed32(ua) * Signed32(ub)) % TWO32 == (ua * ub) % TWO32
  {
    var t := ua * ub;
    if ua >= 0x8000_0000 && ub >= 0x8000_0000 {
      assert (ua - TWO32) * (ub - TWO32) == t - TWO32 * ua - TWO32 * ub + TWO32 * TWO32;
    } else if ua >= 0x8000_0000 {
      assert (ua - TWO32) * ub == t - TWO32 * ub;
    } else if ub >= 0x8000_0000 {
      assert ua * (ub - TWO32) == t - TWO32 * ua;
    }
  }

  lemma MulMonotone(x: nat, y: nat, h: nat)
    requires x <= h
    ensures x * y <= h * y
  {
    var d: nat := h - x;
    assert h * y == x * y + d * y;
  }

  /** The product of two `i32` values fits in an `i64`. */
  lemma MulBound32(a: I32, b: I32)
    ensures -0x4000_0000_0000_0000 <= a * b <= 0x4000_0000_0000_0000
  {
    var h: nat := 0x8000_0000;
    var x: nat := if a < 0 then -(a as int) else a;
    var y: nat := if b < 0 then -(b as int) else b;
    MulMonotone(x, y, h);
    MulMonotone(y, h, h);
    assert y * h == h * y;
    assert a * b == x * y || a * b == -(x * y);
  }

  /** Adding 16-bit patterns modulo 2^16 is wrapping addition of the
      signed values they denote. */
  lemma AddWrap16(u: U16, a: U16, b: U16)
    requires u == (a + b) % TWO16
    ensures Signed16(u) == Wrap16((Signed16(a) as int) + Signed16(b))
  {
    var sa, sb := Signed16(a), Signed16(b);
    var ca, cb := (a - sa) / TWO16, (b - sb) / TWO16;
    assert a == sa + ca * TWO16 && b == sb + cb * TWO16;
    ShiftResidue16(sa + sb, ca + cb);
  }

  /** Subtracting 16-bit patterns modulo 2^16 is wrapping subtraction of
      the signed values they denote. */
  lemma SubWrap16(u: U16, a: U16, b: U16)
    requires u == (a - b) % TWO16
    ensures Signed16(u) == Wrap16((Signed16(a) as int) - Signed16(b))
  {
    var sa, sb := Signed16(a), Signed16(b);
    var ca, cb := (a - sa) / TWO16, (b - sb) / TWO16;
    assert a == sa + ca * TWO16 && b == sb + cb * TWO16;
    ShiftResidue16(sa - sb, ca - cb);
  }

  lemma ShiftResidue16(n: int, k: int)
    ensures (n + k * TWO16) % TWO16 == n % TWO16
  {
  }

  /** Wrapping subtraction undoes wrapping addition. */
  lemma WrapAddSub16(a: I16, b: I16)
    ensures Wrap16(Wrap16(a + b) - b) == a
  {
  }

  /** Adding 32-bit patterns modulo 2^32 is wrapping addition of the
      signed values they denote. */
  lemma AddWrap32(u: U32, a: U32, b: U32)
    requires u == (a + b) % TWO32
    ensures Signed32(u) == Wrap32((Signed32(a) as int) + Signed32(b))
  {
    var sa, sb := Signed32(a), Signed32(b);
    var ca, cb := (a - sa) / TWO32, (b - sb) / TWO32;
    assert a == sa + ca * TWO32 && b == sb + cb * TWO32;
    ShiftResidue32(sa + sb, ca + cb);
  }

  /** Subtracting 32-bit patterns modulo 2^32 is wrapping subtraction of
      the signed values they denote. */
  lemma SubWrap32(u: U32, a: U32, b: U32)
    requires u == (a - b) % TWO32
    ensures Signed32(u) == Wrap32((Signed32(a) as int) - Signed32(b))
  {
    var sa, sb := Signed32(a), Signed32(b);
    var ca, cb := (a - sa) / TWO32, (b - sb) / TWO32;
    assert a == sa + ca * TWO32 && b == sb + cb * TWO32;
    ShiftResidue32(sa - sb, ca - cb);
  }

  lemma ShiftResidue32(n: int, k: int)
    ensures (n + k * TWO32) % TWO32 == n % TWO32
  {
  }

  /** Wrapping subtraction undoes wrapping addition. */
  lemma WrapAddSub32(a: I32, b: I32)
    ensures Wrap32(Wrap32(a + b) - b) == a
  {
  }

  /** Adding 64-bit patterns modulo 2^64 is wrapping addition of the
      signed values they denote. */
  lemma AddWrap64(u: U64, a: U64, b: U64)
    requires u == (a + b) % TWO64
    ensures Signed64(u) == Wrap64((Signed64(a) as int) + Signed64(b))
  {
    var sa, sb := Signed64(a), Signed64(b);
    var ca, cb := (a - sa) / TWO64, (b - sb) / TWO64;
    assert a == sa + ca * TWO64 && b == sb + cb * TWO64;
    ShiftResidue64(sa + sb, ca + cb);
  }

  /** Subtracting 64-bit patterns modulo 2^64 is wrapping subtraction of
      the signed values they denote. */
  lemma SubWrap64(u: U64, a: U64, b: U64)
    requires u == (a - b) % TWO64
    ensures Signed64(u) == Wrap64((Signed64(a) as int) - Signed64(b))
  {
    var sa, sb := Signed64(a), Signed64(b);
    var ca, cb := (a - sa) / TWO64, (b - sb) / TWO64;
    assert a == sa + ca * TWO64 && b == sb + cb * TWO64;
    ShiftResidue64(sa - sb, ca - cb);
  }

  lemma ShiftResidue64(n: int, k: int)
    ensures (n + k * TWO64) % TWO64 == n % TWO64
  {
  }

  /** Wrapping subtraction undoes wrapping addition. */
  lemma WrapAddSub64(a: I64, b: I64)
    ensures Wrap64(Wrap64(a + b) - b) == a
  {
  }

  /** The low three bits of a pattern are the signed value's residue
      modulo 8. */
  lemma Low3OfSigned32(u: U32)
    ensures Signed32(u) % 8 == u % 8
  {
    assert TWO32 == 8 * 0x2000_0000;
  }

  /** The residue modulo a is the s of any `p == a * k + s` with s in
      [0, a). */
  lemma ModUnique(p: int, a: int, k: int, s: int)
    requires a > 0 && 0 <= s < a && p == a * k + s
    ensures p % a == s
  {
    var q, r := p / a, p % a;
    var d := q - k;
    assert p == a * q + r;
    assert a * q == a * k + a * d;
    if d > 0 {
      MulMonotone(1, a, d);
      assert false;
    }
  }

  /** Reducing modulo 2^64 keeps the low 32 bits. */
  lemma Low32OfMod64(p: int)
    ensures (p % TWO64) % TWO32 == p % TWO32
  {
    var r := p % TWO64;
    var k := TWO32 * (p / TWO64) + r / TWO32;
    assert r == TWO32 * (r / TWO32) + r % TWO32;
    assert p == TWO64 * (p / TWO64) + r;
    assert p == TWO32 * k + r % TWO32;
    ModUnique(p, TWO32, k, r % TWO32);
  }

  /** The selectors of 0xE4 are 0, 1, 2, 3. */
  lemma CrumbsE4(i: nat)
    requires i < 4
    ensures Crumb(0xE4, i) == i
  {
    assert Shr(0xE4, 2) == 0x39 && Shr(0xE4, 4) == 0xE && Shr(0xE4, 6) == 3;
  }

  /** The selectors of 0x1B are 3, 2, 1, 0. */
  lemma Crumbs1B(i: nat)
    requires i < 4
    ensures Crumb(0x1B, i) == 3 - i
  {
    assert Shr(0x1B, 2) == 6 && Shr(0x1B, 4) == 1 && Shr(0x1B, 6) == 0;
  }
}
