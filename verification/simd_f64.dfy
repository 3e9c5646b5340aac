/** `f64x4`, four `f64` lanes in a 256-bit register (src/simd_f64.rs).
    Lanes and slice elements are the bit patterns of the `f64` values. */
module SimdF64x4 {
  import opened Ints
  import opened Lanes
  import opened Outcome
  import opened Vectors
  import opened Intrinsics
  import SimdI64x4

  /** `new`: the arguments in lane order, `v1` in lane 0. */
  function New(v1: U64, v2: U64, v3: U64, v4: U64): (r: F64x4)
    ensures r.v == [v1, v2, v3, v4]
  {
    F64x4(Mm256SetPd(v4, v3, v2, v1))
  }

  /** `splat`: every lane holds v. */
  function Splat(v: U64): (r: F64x4)
    ensures forall i | 0 <= i < 4 :: r.v[i] == v
  {
    F64x4(Mm256Set1Pd(v))
  }

  /** `permute::<IMM>` (VPERMILPD): lane i stays in its 128-bit half and is
      the half's high lane when bit i of IMM is set, its low lane if not. */
  function Permute(x: F64x4, imm: Imm4): (r: F64x4)
    ensures forall i | 0 <= i < 4 :: r.v[i] == (if Bit(imm, i) then x.v[i / 2 * 2 + 1] else x.v[i / 2 * 2])
  {
    F64x4(Mm256PermutePd(x.v, imm))
  }

  /** `permute4x64::<IMM>` (VPERMPD): lane i is input lane `(IMM >> 2i) & 3`,
      across the whole register. */
  function Permute4x64(x: F64x4, imm: Imm8): (r: F64x4)
    ensures forall i | 0 <= i < 4 :: r.v[i] == x.v[Crumb(imm, i)]
  {
    F64x4(Mm256Permute4x64(x.v, imm))
  }

  /** `permute_var`: the `i32x8` index register is passed as it is to
      VPERMILPD, which reads it as four quadwords and takes bit 1 of each.
      Lane i is therefore selected by bit 1 of `i32` lane 2i of `idx`; the
      odd `i32` lanes are not read. */
  function PermuteVar(x: F64x4, idx: I32x8): (r: F64x4)
    ensures forall i | 0 <= i < 4 ::
      r.v[i] == (if Bit(idx.v[2 * i], 1) then x.v[i / 2 * 2 + 1] else x.v[i / 2 * 2])
  {
    var r := F64x4(Mm256PermutevarPd(x.v, Join32To64(idx.v)));
    forall i | 0 <= i < 4
      ensures r.v[i] == (if Bit(idx.v[2 * i], 1) then x.v[i / 2 * 2 + 1] else x.v[i / 2 * 2])
    {
      Join32To64Bit1(idx.v, i);
    }
    r
  }

  // ---------------------------------------------------------------------
  // Slices

  /** `from_slice_unchecked`: the first 4 elements. */
  function FromSliceUnchecked(a: seq<U64>): (r: F64x4)
    requires |a| >= 4
    ensures r.v == a[..4]
  {
    F64x4(Mm256Loadu64(a))
  }

  /** `from_slice`: panics when the slice has fewer than 4 elements. */
  function FromSlice(a: seq<U64>): (r: Result<F64x4>)
    ensures r.Ok? <==> |a| >= 4
    ensures !r.Ok? ==> r == Panic(SLICE_TOO_SMALL)
    ensures r.Ok? ==> r.value.v == a[..4]
  {
    if |a| < 4 then Panic(SLICE_TOO_SMALL) else Ok(FromSliceUnchecked(a))
  }

  /** `store_unchecked`: the slice afterwards. */
  function StoreUnchecked(x: F64x4, a: seq<U64>): (r: seq<U64>)
    requires |a| >= 4
    ensures |r| == |a| && r[..4] == x.v && r[4..] == a[4..]
  {
    Mm256Storeu64(a, x.v)
  }

  /** `store`: panics when the slice has fewer than 4 elements; otherwise
      the first 4 elements become the lanes and the rest are untouched. */
  function Store(x: F64x4, a: seq<U64>): (r: Result<seq<U64>>)
    ensures r.Ok? <==> |a| >= 4
    ensures !r.Ok? ==> r == Panic(SLICE_TOO_SMALL)
    ensures r.Ok? ==> |r.value| == |a| && r.value[..4] == x.v && r.value[4..] == a[4..]
  {
    if |a| < 4 then Panic(SLICE_TOO_SMALL) else Ok(StoreUnchecked(x, a))
  }

  // ---------------------------------------------------------------------
  // Reinterpreting the register

  /** `to_raw_i32`: the same 256 bits as eight `i32` lanes; f64 lane k is
      made of lanes 2k (low half) and 2k+1 (high half). */
  function ToRawI32(x: F64x4): (r: I32x8)
    ensures forall k | 0 <= k < 4 :: x.v[k] == r.v[2 * k] + TWO32 * r.v[2 * k + 1]
  {
    var r := I32x8(Split64To32(x.v));
    forall k | 0 <= k < 4
      ensures x.v[k] == r.v[2 * k] + TWO32 * r.v[2 * k + 1]
    {
      Split64To32Lane(x.v, k);
    }
    r
  }

  /** `to_raw_i64`: lane i is `f64::to_bits` of lane i read as an `i64`. */
  function ToRawI64(x: F64x4): (r: I64x4)
    ensures forall i | 0 <= i < 4 :: Pattern64(r.Values()[i]) == x.v[i]
  {
    var r := I64x4(x.v);
    forall i | 0 <= i < 4
      ensures Pattern64(r.Values()[i]) == x.v[i]
    {
      PatternOfSigned64(x.v[i]);
    }
    r
  }

  /** `to_raw_f32`: the same 256 bits as eight `f32` lanes, in the layout of
      `to_raw_i32`. */
  function ToRawF32(x: F64x4): (r: F32x8)
    ensures forall k | 0 <= k < 4 :: x.v[k] == r.v[2 * k] + TWO32 * r.v[2 * k + 1]
  {
    var r := F32x8(Split64To32(x.v));
    forall k | 0 <= k < 4
      ensures x.v[k] == r.v[2 * k] + TWO32 * r.v[2 * k + 1]
    {
      Split64To32Lane(x.v, k);
    }
    r
  }

  /** `blend::<IMM>`: lane i from `other` when bit i of IMM is set. */
  function Blend(x: F64x4, other: F64x4, imm: Imm4): (r: F64x4)
    ensures forall i | 0 <= i < 4 :: r.v[i] == (if Bit(imm, i) then other.v[i] else x.v[i])
  {
    F64x4(Mm256BlendPd(x.v, other.v, imm))
  }

  /** `extract::<INDEX>`: the bits of lane INDEX, read through the `i64`
      view. The `i64x4` type has no `extract`; its `get` is the read that
      fits the call. */
  function Extract(x: F64x4, index: nat): (r: U64)
    requires index < 4
    ensures r == x.v[index]
  {
    Pattern64(SimdI64x4.Get(ToRawI64(x), index))
  }

  // ---------------------------------------------------------------------
  // Properties relating the operations

  /** `splat(v)` is `new` with v for every argument, and `extract` reads
      v's bits at every index. */
  lemma SplatIsNew(v: U64)
    ensures Splat(v) == New(v, v, v, v)
    ensures forall k | 0 <= k < 4 :: Extract(Splat(v), k) == v
  {
    assert Splat(v).v == New(v, v, v, v).v;
  }

  /** `extract::<k-1>` after `new` returns the k-th argument's bits. */
  lemma NewThenExtract(v1: U64, v2: U64, v3: U64, v4: U64)
    ensures forall k | 0 <= k < 4 :: Extract(New(v1, v2, v3, v4), k) == [v1, v2, v3, v4][k]
  {
  }

  /** Loading what was stored gives the vector back. */
  lemma StoreThenLoad(x: F64x4, a: seq<U64>)
    requires |a| >= 4
    ensures Store(x, a).Ok? && FromSlice(Store(x, a).value) == Ok(x)
  {
  }

  /** Storing what was loaded leaves the slice as it was. */
  lemma LoadThenStore(a: seq<U64>)
    requires |a| >= 4
    ensures FromSlice(a).Ok? && Store(FromSlice(a).value, a) == Ok(a)
  {
    assert a == a[..4] + a[4..];
  }

  /** The immediate 0b1010 keeps every lane in place. */
  lemma PermuteIdentity(x: F64x4)
    ensures Permute(x, 0xA) == x
  {
    assert Shr(0xA, 1) == 5 && Shr(0xA, 2) == 2 && Shr(0xA, 3) == 1;
  }

  /** The immediate 0b0101 swaps the two lanes of each half. */
  lemma PermuteSwap(x: F64x4)
    ensures Permute(x, 0x5).v == [x.v[1], x.v[0], x.v[3], x.v[2]]
  {
    SwapBits();
  }

  /** Swapping twice restores the vector. */
  lemma PermuteSwapTwice(x: F64x4)
    ensures Permute(Permute(x, 0x5), 0x5) == x
  {
    PermuteSwap(x);
    PermuteSwap(Permute(x, 0x5));
  }

  /** The bits of 0b0101. */
  lemma SwapBits()
    ensures Bit(0x5, 0) && !Bit(0x5, 1) && Bit(0x5, 2) && !Bit(0x5, 3)
  {
    assert Shr(0x5, 1) == 2 && Shr(0x5, 2) == 1 && Shr(0x5, 3) == 0;
  }

  /** `permute_var` does what `permute` does when bit 1 of `i32` lane 2i of
      the index agrees with bit i of the immediate. */
  lemma PermuteVarAsPermute(x: F64x4, idx: I32x8, imm: Imm4)
    requires forall i | 0 <= i < 4 :: Bit(idx.v[2 * i], 1) <==> Bit(imm, i)
    ensures PermuteVar(x, idx) == Permute(x, imm)
  {
  }

  /** `permute4x64` moves the same lanes as `i64x4::permute` on the raw
      `i64` view. */
  lemma Permute4x64AsI64(x: F64x4, imm: Imm8)
    ensures ToRawI64(Permute4x64(x, imm)) == SimdI64x4.Permute(ToRawI64(x), imm)
  {
  }

  /** The immediate 0xE4 selects (0, 1, 2, 3): the identity. */
  lemma Permute4x64Identity(x: F64x4)
    ensures Permute4x64(x, 0xE4) == x
  {
    forall i | 0 <= i < 4
      ensures Permute4x64(x, 0xE4).v[i] == x.v[i]
    {
      CrumbsE4(i);
    }
  }

  /** The blend masks 0 and 15 select all of one operand, and a mask and
      its complement select the same lanes with the operands swapped. */
  lemma BlendMasks(x: F64x4, y: F64x4, imm: Imm4)
    ensures Blend(x, y, 0) == x
    ensures Blend(x, y, 15) == y
    ensures Blend(x, y, imm) == Blend(y, x, 15 - imm)
  {
    forall i | 0 <= i < 4
      ensures Blend(x, y, 0).v[i] == x.v[i] && Blend(x, y, 15).v[i] == y.v[i]
      ensures Blend(x, y, imm).v[i] == Blend(y, x, 15 - imm).v[i]
    {
      BitNoneAll4(i);
      BitComplement4(imm, i);
    }
  }
}
