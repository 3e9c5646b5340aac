/** `f32x8`, eight `f32` lanes in a 256-bit register (src/simd_f32.rs).
    Lanes and slice elements are the bit patterns of the `f32` values. */
module SimdF32x8 {
  import opened Ints
  import opened Lanes
  import opened Outcome
  import opened Vectors
  import opened Intrinsics
  import SimdI32x8
  import SimdF64x4

  /** `new`: the arguments in lane order, `v1` in lane 0. */
  function New(v1: U32, v2: U32, v3: U32, v4: U32, v5: U32, v6: U32, v7: U32, v8: U32): (r: F32x8)
    ensures r.v == [v1, v2, v3, v4, v5, v6, v7, v8]
  {
    F32x8(Mm256SetPs(v8, v7, v6, v5, v4, v3, v2, v1))
  }

  /** `splat`: every lane holds v. */
  function Splat(v: U32): (r: F32x8)
    ensures forall i | 0 <= i < 8 :: r.v[i] == v
  {
    F32x8(Mm256Set1Ps(v))
  }

  /** `permute::<IMM>` (VPERMILPS): each 128-bit half is permuted on its
      own, with the same four 2-bit selectors. */
  function Permute(x: F32x8, imm: Imm8): (r: F32x8)
    ensures forall i | 0 <= i < 4 :: r.v[i] == x.v[Crumb(imm, i)] && r.v[4 + i] == x.v[4 + Crumb(imm, i)]
  {
    var r := F32x8(Mm256PermutePs(x.v, imm));
    forall i | 0 <= i < 4
      ensures r.v[i] == x.v[Crumb(imm, i)] && r.v[4 + i] == x.v[4 + Crumb(imm, i)]
    {
      assert i / 4 == 0 && i % 4 == i;
      assert (4 + i) / 4 == 1 && (4 + i) % 4 == i;
    }
    r
  }

  /** `permute4x64::<IMM>`: through the `f64x4` view, so adjacent lane
      pairs move as units; pair i is input pair `(IMM >> 2i) & 3`. */
  function Permute4x64(x: F32x8, imm: Imm8): (r: F32x8)
    ensures forall i | 0 <= i < 4 ::
      r.v[2 * i] == x.v[2 * Crumb(imm, i)] && r.v[2 * i + 1] == x.v[2 * Crumb(imm, i) + 1]
  {
    var r := SimdF64x4.ToRawF32(SimdF64x4.Permute4x64(ToRawF64(x), imm));
    forall i | 0 <= i < 4
      ensures r.v[2 * i] == x.v[2 * Crumb(imm, i)] && r.v[2 * i + 1] == x.v[2 * Crumb(imm, i) + 1]
    {
      PairLane(x, imm, i);
    }
    r
  }

  lemma PairLane(x: F32x8, imm: Imm8, i: nat)
    requires i < 4
    ensures var r := SimdF64x4.ToRawF32(SimdF64x4.Permute4x64(ToRawF64(x), imm));
      r.v[2 * i] == x.v[2 * Crumb(imm, i)] && r.v[2 * i + 1] == x.v[2 * Crumb(imm, i) + 1]
  {
    var s := Crumb(imm, i);
    var f := ToRawF64(x);
    var q := SimdF64x4.Permute4x64(f, imm);
    var r := SimdF64x4.ToRawF32(q);
    assert q.v[i] == f.v[s] == x.v[2 * s] + TWO32 * x.v[2 * s + 1];
    assert q.v[i] == r.v[2 * i] + TWO32 * r.v[2 * i + 1];
    HalvesUnique32(r.v[2 * i], r.v[2 * i + 1], x.v[2 * s], x.v[2 * s + 1]);
  }

  /** `permute_var` (VPERMPS): lane i is the input lane chosen by the low
      three bits of `i32` lane i of `idx`, across the whole register. For a
      negative index these are its Euclidean residue modulo 8. */
  function PermuteVar(x: F32x8, idx: I32x8): (r: F32x8)
    ensures forall i | 0 <= i < 8 :: r.v[i] == x.v[idx.Values()[i] % 8]
  {
    var r := F32x8(Mm256Permutevar8x32Ps(x.v, idx.v));
    forall i | 0 <= i < 8
      ensures r.v[i] == x.v[idx.Values()[i] % 8]
    {
      Low3OfSigned32(idx.v[i]);
    }
    r
  }

  /** `unpacklo`: in each half h, `(x[4h], b[4h], x[4h+1], b[4h+1])`. */
  function Unpacklo(x: F32x8, b: F32x8): (r: F32x8)
    ensures forall h | 0 <= h < 2 ::
      r.v[4 * h .. 4 * h + 4] == [x.v[4 * h], b.v[4 * h], x.v[4 * h + 1], b.v[4 * h + 1]]
  {
    var r := F32x8(Mm256UnpackloPs(x.v, b.v));
    assert r.v[0..4] == [x.v[0], b.v[0], x.v[1], b.v[1]];
    assert r.v[4..8] == [x.v[4], b.v[4], x.v[5], b.v[5]];
    r
  }

  /** `unpackhi`: in each half h, `(x[4h+2], b[4h+2], x[4h+3], b[4h+3])`. */
  function Unpackhi(x: F32x8, b: F32x8): (r: F32x8)
    ensures forall h | 0 <= h < 2 ::
      r.v[4 * h .. 4 * h + 4] == [x.v[4 * h + 2], b.v[4 * h + 2], x.v[4 * h + 3], b.v[4 * h + 3]]
  {
    var r := F32x8(Mm256UnpackhiPs(x.v, b.v));
    assert r.v[0..4] == [x.v[2], b.v[2], x.v[3], b.v[3]];
    assert r.v[4..8] == [x.v[6], b.v[6], x.v[7], b.v[7]];
    r
  }

  /** `blend::<IMM>`: lane i from `other` when bit i of IMM is set. */
  function Blend(x: F32x8, other: F32x8, imm: Imm8): (r: F32x8)
    ensures forall i | 0 <= i < 8 :: r.v[i] == (if Bit(imm, i) then other.v[i] else x.v[i])
  {
    F32x8(Mm256BlendPs(x.v, other.v, imm))
  }

  // ---------------------------------------------------------------------
  // Slices

  /** `from_slice_unchecked`: the first 8 elements. */
  function FromSliceUnchecked(a: seq<U32>): (r: F32x8)
    requires |a| >= 8
    ensures r.v == a[..8]
  {
    F32x8(Mm256Loadu32(a))
  }

  /** `from_slice`: panics when the slice has fewer than 8 elements. */
  function FromSlice(a: seq<U32>): (r: Result<F32x8>)
    ensures r.Ok? <==> |a| >= 8
    ensures !r.Ok? ==> r == Panic(SLICE_TOO_SMALL)
    ensures r.Ok? ==> r.value.v == a[..8]
  {
    if |a| < 8 then Panic(SLICE_TOO_SMALL) else Ok(FromSliceUnchecked(a))
  }

  /** `store_unchecked`: the slice afterwards. */
  function StoreUnchecked(x: F32x8, a: seq<U32>): (r: seq<U32>)
    requires |a| >= 8
    ensures |r| == |a| && r[..8] == x.v && r[8..] == a[8..]
  {
    Mm256Storeu32(a, x.v)
  }

  /** `store`: panics when the slice has fewer than 8 elements; otherwise
      the first 8 elements become the lanes and the rest are untouched. */
  function Store(x: F32x8, a: seq<U32>): (r: Result<seq<U32>>)
    ensures r.Ok? <==> |a| >= 8
    ensures !r.Ok? ==> r == Panic(SLICE_TOO_SMALL)
    ensures r.Ok? ==> |r.value| == |a| && r.value[..8] == x.v && r.value[8..] == a[8..]
  {
    if |a| < 8 then Panic(SLICE_TOO_SMALL) else Ok(StoreUnchecked(x, a))
  }

  // ---------------------------------------------------------------------
  // Reinterpreting the register

  /** `to_raw_i32`: lane i is `f32::to_bits` of lane i read as an `i32`. */
  function ToRawI32(x: F32x8): (r: I32x8)
    ensures forall i | 0 <= i < 8 :: Pattern32(r.Values()[i]) == x.v[i]
  {
    var r := I32x8(x.v);
    forall i | 0 <= i < 8
      ensures Pattern32(r.Values()[i]) == x.v[i]
    {
      PatternOfSigned32(x.v[i]);
    }
    r
  }

  /** `to_raw_f64`: the same 256 bits as four `f64` lanes; lane k is made of
      `f32` lanes 2k (low half) and 2k+1 (high half). */
  function ToRawF64(x: F32x8): (r: F64x4)
    ensures forall k | 0 <= k < 4 :: r.v[k] == x.v[2 * k] + TWO32 * x.v[2 * k + 1]
  {
    F64x4(Join32To64(x.v))
  }

  /** `extract::<INDEX>`: the bits of lane INDEX, read through the `i32`
      view. The `i32x8` type has no `extract`; its `get` is the read that
      fits the call. */
  function Extract(x: F32x8, index: nat): (r: U32)
    requires index < 8
    ensures r == x.v[index]
  {
    Pattern32(SimdI32x8.Get(ToRawI32(x), index))
  }

  // ---------------------------------------------------------------------
  // Properties relating the operations

  /** `splat(v)` is `new` with v for every argument, and `extract` reads
      v's bits at every index. */
  lemma SplatIsNew(v: U32)
    ensures Splat(v) == New(v, v, v, v, v, v, v, v)
    ensures forall k | 0 <= k < 8 :: Extract(Splat(v), k) == v
  {
    assert Splat(v).v == New(v, v, v, v, v, v, v, v).v;
  }

  /** `extract::<k-1>` after `new` returns the k-th argument's bits. */
  lemma NewThenExtract(v1: U32, v2: U32, v3: U32, v4: U32, v5: U32, v6: U32, v7: U32, v8: U32)
    ensures forall k | 0 <= k < 8 ::
      Extract(New(v1, v2, v3, v4, v5, v6, v7, v8), k) == [v1, v2, v3, v4, v5, v6, v7, v8][k]
  {
  }

  /** Loading what was stored gives the vector back. */
  lemma StoreThenLoad(x: F32x8, a: seq<U32>)
    requires |a| >= 8
    ensures Store(x, a).Ok? && FromSlice(Store(x, a).value) == Ok(x)
  {
  }

  /** Storing what was loaded leaves the slice as it was. */
  lemma LoadThenStore(a: seq<U32>)
    requires |a| >= 8
    ensures FromSlice(a).Ok? && Store(FromSlice(a).value, a) == Ok(a)
  {
    assert a == a[..8] + a[8..];
  }

  /** The immediate 0xE4 selects (0, 1, 2, 3) in each half: the identity. */
  lemma PermuteIdentity(x: F32x8)
    ensures Permute(x, 0xE4) == x
  {
    forall j | 0 <= j < 8
      ensures Permute(x, 0xE4).v[j] == x.v[j]
    {
      CrumbsE4(j % 4);
    }
  }

  /** The immediate 0x1B reverses each half. */
  lemma PermuteReverse(x: F32x8)
    ensures var y := Permute(x, 0x1B);
      y.v[0] == x.v[3] && y.v[1] == x.v[2] && y.v[2] == x.v[1] && y.v[3] == x.v[0] &&
      y.v[4] == x.v[7] && y.v[5] == x.v[6] && y.v[6] == x.v[5] && y.v[7] == x.v[4]
  {
    ReverseLanes(x, 0);
    ReverseLanes(x, 1);
    ReverseLanes(x, 2);
    ReverseLanes(x, 3);
  }

  /** Reversing each half twice is the identity. */
  lemma PermuteReverseTwice(x: F32x8)
    ensures Permute(Permute(x, 0x1B), 0x1B) == x
  {
    var z := Permute(Permute(x, 0x1B), 0x1B);
    forall j | 0 <= j < 8
      ensures z.v[j] == x.v[j]
    {
      if j < 4 {
        ReverseLanes(x, j);
      } else {
        ReverseLanes(x, j - 4);
        assert j == 4 + (j - 4);
      }
    }
  }

  lemma ReverseLanes(x: F32x8, i: nat)
    requires i < 4
    ensures Permute(x, 0x1B).v[i] == x.v[3 - i] && Permute(x, 0x1B).v[4 + i] == x.v[7 - i]
    ensures Permute(Permute(x, 0x1B), 0x1B).v[i] == x.v[i]
    ensures Permute(Permute(x, 0x1B), 0x1B).v[4 + i] == x.v[4 + i]
  {
    Crumbs1B(i);
    Crumbs1B(3 - i);
  }

  /** The immediate 0xE4 keeps every pair in place. */
  lemma Permute4x64Identity(x: F32x8)
    ensures Permute4x64(x, 0xE4) == x
  {
    var y := Permute4x64(x, 0xE4);
    forall j | 0 <= j < 8
      ensures y.v[j] == x.v[j]
    {
      var i := j / 2;
      CrumbsE4(i);
      if j % 2 == 0 {
        assert j == 2 * i;
        assert y.v[2 * i] == x.v[2 * i];
      } else {
        assert j == 2 * i + 1;
        assert y.v[2 * i + 1] == x.v[2 * i + 1];
      }
    }
  }

  /** The index vector (0, 1, ..., 7) is the identity for `permute_var`. */
  lemma PermuteVarIdentity(x: F32x8)
    ensures PermuteVar(x, SimdI32x8.New(0, 1, 2, 3, 4, 5, 6, 7)) == x
  {
    var idx := SimdI32x8.New(0, 1, 2, 3, 4, 5, 6, 7);
    assert idx.Values() == [0, 1, 2, 3, 4, 5, 6, 7];
  }

  /** `permute_var` does what `permute` does when each index names the lane
      the immediate selects: its own half and the half's selector. */
  lemma PermuteVarAsPermute(x: F32x8, idx: I32x8, imm: Imm8)
    requires forall i | 0 <= i < 4 ::
      idx.Values()[i] % 8 == Crumb(imm, i) && idx.Values()[4 + i] % 8 == 4 + Crumb(imm, i)
    ensures PermuteVar(x, idx) == Permute(x, imm)
  {
    var p, q := PermuteVar(x, idx), Permute(x, imm);
    forall j | 0 <= j < 8
      ensures p.v[j] == q.v[j]
    {
      if j < 4 {
        assert p.v[j] == x.v[Crumb(imm, j)];
      } else {
        var i := j - 4;
        assert j == 4 + i;
        assert p.v[4 + i] == x.v[4 + Crumb(imm, i)];
      }
    }
  }

  /** `unpacklo` and `unpackhi` of the same operands together hold every
      lane of both exactly once: the original operands can be read back. */
  lemma UnpackRecovers(x: F32x8, b: F32x8)
    ensures var lo, hi := Unpacklo(x, b).v, Unpackhi(x, b).v;
      x.v == [lo[0], lo[2], hi[0], hi[2], lo[4], lo[6], hi[4], hi[6]] &&
      b.v == [lo[1], lo[3], hi[1], hi[3], lo[5], lo[7], hi[5], hi[7]]
  {
  }

  /** The blend masks 0 and 255 select all of one operand, and a mask and
      its complement select the same lanes with the operands swapped. */
  lemma BlendMasks(x: F32x8, y: F32x8, imm: Imm8)
    ensures Blend(x, y, 0) == x
    ensures Blend(x, y, 255) == y
    ensures Blend(x, y, imm) == Blend(y, x, 255 - imm)
  {
    forall i | 0 <= i < 8
      ensures Blend(x, y, 0).v[i] == x.v[i] && Blend(x, y, 255).v[i] == y.v[i]
      ensures Blend(x, y, imm).v[i] == Blend(y, x, 255 - imm).v[i]
    {
      BitNoneAll(i);
      BitComplement(imm, i);
    }
  }
}
