/** The lanes of a vector register, and how one register reads at two lane
widths.

A 256-bit register holds sixteen 16-bit, eight 32-bit or four 64-bit lane
patterns; a 128-bit register holds eight 16-bit lanes. The x86 registers are
little-endian: when the same bits are read at twice the lane width, lane k
of the wide reading is made of the narrow lanes 2k (low half) and 2k + 1
(high half). A raw cast between two vector types changes no bit; in this
model it is the regrouping `Join*` or `Split*`, and the two are inverse to
each other.
*/
module Lanes {
  import opened Ints

  type L16x16 = l: seq<U16> | |l| == 16 witness seq(16, _ => 0)
  type L16x8 = l: seq<U16> | |l| == 8 witness seq(8, _ => 0)
  type L32x8 = l: seq<U32> | |l| == 8 witness seq(8, _ => 0)
  type L64x4 = l: seq<U64> | |l| == 4 witness seq(4, _ => 0)

  // ---------------------------------------------------------------------
  // 16-bit and 32-bit lanes

  /** Sixteen 16-bit lanes read as eight 32-bit lanes. */
  function Join16To32(l: L16x16): (r: L32x8)
  {
    seq(8, k requires 0 <= k < 8 => l[2 * k] + TWO16 * l[2 * k + 1])
  }

  /** Eight 32-bit lanes read as sixteen 16-bit lanes. */
  function Split32To16(l: L32x8): (r: L16x16)
  {
    seq(16, j requires 0 <= j < 16 => if j % 2 == 0 then l[j / 2] % TWO16 else l[j / 2] / TWO16)
  }

  lemma SplitJoin16(l: L16x16)
    ensures Split32To16(Join16To32(l)) == l
  {
    var w := Join16To32(l);
    forall j | 0 <= j < 16
      ensures Split32To16(w)[j] == l[j]
    {
      Halves16(l[2 * (j / 2)], l[2 * (j / 2) + 1]);
    }
  }

  /** 32-bit lane k is made of the 16-bit lanes 2k (low) and 2k + 1 (high). */
  lemma Join16To32Lane(l: L16x16, k: nat)
    requires k < 8
    ensures Join16To32(l)[k] == l[2 * k] + TWO16 * l[2 * k + 1]
  {
  }

  lemma JoinSplit32(l: L32x8)
    ensures Join16To32(Split32To16(l)) == l
  {
  }

  // ---------------------------------------------------------------------
  // 32-bit and 64-bit lanes

  /** Eight 32-bit lanes read as four 64-bit lanes. */
  function Join32To64(l: L32x8): (r: L64x4)
  {
    seq(4, k requires 0 <= k < 4 => l[2 * k] + TWO32 * l[2 * k + 1])
  }

  /** Four 64-bit lanes read as eight 32-bit lanes. */
  function Split64To32(l: L64x4): (r: L32x8)
  {
    seq(8, j requires 0 <= j < 8 => if j % 2 == 0 then l[j / 2] % TWO32 else l[j / 2] / TWO32)
  }

  lemma SplitJoin32(l: L32x8)
    ensures Split64To32(Join32To64(l)) == l
  {
    var w := Join32To64(l);
    forall j | 0 <= j < 8
      ensures Split64To32(w)[j] == l[j]
    {
      Halves32(l[2 * (j / 2)], l[2 * (j / 2) + 1]);
    }
  }

  lemma JoinSplit64(l: L64x4)
    ensures Join32To64(Split64To32(l)) == l
  {
    forall k | 0 <= k < 4
      ensures Join32To64(Split64To32(l))[k] == l[k]
    {
      Split64To32Lane(l, k);
    }
  }

  /** A 64-bit value has one pair of 32-bit halves. */
  lemma HalvesUnique32(lo: U32, hi: U32, lo': U32, hi': U32)
    requires lo + TWO32 * hi == lo' + TWO32 * hi'
    ensures lo == lo' && hi == hi'
  {
    Halves32(lo, hi);
    Halves32(lo', hi');
  }

  /** The low half of joined lane k is 32-bit lane 2k. */
  lemma Join32To64Low(l: L32x8, k: nat)
    requires k < 4
    ensures Join32To64(l)[k] % TWO32 == l[2 * k]
  {
    Halves32(l[2 * k], l[2 * k + 1]);
  }

  /** Bit 1 of joined lane k is bit 1 of 32-bit lane 2k. */
  lemma Join32To64Bit1(l: L32x8, k: nat)
    requires k < 4
    ensures Bit(Join32To64(l)[k], 1) <==> Bit(l[2 * k], 1)
  {
    var a: nat, b: nat := l[2 * k], l[2 * k + 1];
    assert Shr(a + TWO32 * b, 1) == (a + TWO32 * b) / 2;
    assert Shr(a, 1) == a / 2;
    assert (a + TWO32 * b) / 2 == a / 2 + 2 * (0x4000_0000 * b);
  }

  /** 64-bit lane k is made of the 32-bit lanes 2k (low) and 2k + 1 (high). */
  lemma Split64To32Lane(l: L64x4, k: nat)
    requires k < 4
    ensures l[k] == Split64To32(l)[2 * k] + TWO32 * Split64To32(l)[2 * k + 1]
  {
  }

  // ---------------------------------------------------------------------
  // 16-bit and 64-bit lanes, through 32-bit lanes

  /** Sixteen 16-bit lanes read as four 64-bit lanes. */
  function Join16To64(l: L16x16): (r: L64x4)
  {
    Join32To64(Join16To32(l))
  }

  /** Four 64-bit lanes read as sixteen 16-bit lanes. */
  function Split64To16(l: L64x4): (r: L16x16)
  {
    Split32To16(Split64To32(l))
  }

  lemma SplitJoin16To64(l: L16x16)
    ensures Split64To16(Join16To64(l)) == l
  {
    SplitJoin32(Join16To32(l));
    SplitJoin16(l);
  }

  lemma JoinSplit64To16(l: L64x4)
    ensures Join16To64(Split64To16(l)) == l
  {
    JoinSplit32(Split64To32(l));
    JoinSplit64(l);
  }

  /** 64-bit lane k is made of the 16-bit lanes 4k to 4k + 3, lowest first. */
  lemma Join16To64Lane(l: L16x16, k: nat)
    requires k < 4
    ensures Join16To64(l)[k]
         == l[4 * k] + TWO16 * l[4 * k + 1] + TWO32 * l[4 * k + 2] + TWO48 * l[4 * k + 3]
  {
  }

  // ---------------------------------------------------------------------

  /** A pair of 16-bit halves is recovered from the 32-bit lane they make. */
  lemma Halves16(lo: U16, hi: U16)
    ensures (lo + TWO16 * hi) % TWO16 == lo
    ensures (lo + TWO16 * hi) / TWO16 == hi
  {
  }

  /** A pair of 32-bit halves is recovered from the 64-bit lane they make. */
  lemma Halves32(lo: U32, hi: U32)
    ensures (lo + TWO32 * hi) % TWO32 == lo
    ensures (lo + TWO32 * hi) / TWO32 == hi
  {
  }
}
