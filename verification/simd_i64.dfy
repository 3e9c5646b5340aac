/** `i64x4`, four `i64` lanes in a 256-bit register (src/simd_i64.rs). */
module SimdI64x4 {
  import opened Ints
  import opened Lanes
  import opened Outcome
  import opened Vectors
  import opened Intrinsics

  /** `new`: the arguments in lane order, `v1` in lane 0. */
  function New(v1: I64, v2: I64, v3: I64, v4: I64): (r: I64x4)
    ensures r.Values() == [v1, v2, v3, v4]
  {
    SignedOfPatterns64([v1, v2, v3, v4]);
    I64x4(Mm256SetEpi64x(v4, v3, v2, v1))
  }

  /** `get::<IDX>`. IDX is a 2-bit constant. */
  function Get(x: I64x4, idx: nat): (r: I64)
    requires idx < 4
    ensures r == x.Values()[idx]
  {
    Mm256ExtractEpi64(x.v, idx)
  }

  /** `set::<IDX>`: a new vector with lane IDX replaced. */
  function Set(x: I64x4, idx: nat, v: I64): (r: I64x4)
    requires idx < 4
    ensures r.Values() == x.Values()[idx := v]
  {
    I64x4(Mm256InsertEpi64(x.v, v, idx))
  }

  /** `permute::<IMM>`: lane i is input lane `(IMM >> 2i) & 3`. */
  function Permute(x: I64x4, imm: Imm8): (r: I64x4)
    ensures forall i | 0 <= i < 4 :: r.Values()[i] == x.Values()[Crumb(imm, i)]
  {
    I64x4(Mm256Permute4x64(x.v, imm))
  }

  /** `to_raw_i16`: the same 256 bits as sixteen `i16` lanes; i64 lane k is
      made of i16 lanes 4k to 4k+3, least significant first. */
  function ToRawI16(x: I64x4): (r: I16x16)
    ensures forall k | 0 <= k < 4 ::
      x.v[k] == r.v[4 * k] + TWO16 * r.v[4 * k + 1] + TWO32 * r.v[4 * k + 2] + TWO48 * r.v[4 * k + 3]
  {
    var r := I16x16(Split64To16(x.v));
    JoinSplit64To16(x.v);
    forall k | 0 <= k < 4
      ensures x.v[k] == r.v[4 * k] + TWO16 * r.v[4 * k + 1] + TWO32 * r.v[4 * k + 2] + TWO48 * r.v[4 * k + 3]
    {
      Join16To64Lane(r.v, k);
    }
    r
  }

  /** `to_raw_f32` (`_mm256_castsi256_ps`): f32 lane 2k holds the low 32
      bits of i64 lane k and lane 2k+1 its high 32 bits. */
  function ToRawF32(x: I64x4): (r: F32x8)
    ensures forall k | 0 <= k < 4 :: x.v[k] == r.v[2 * k] + TWO32 * r.v[2 * k + 1]
  {
    var r := F32x8(Split64To32(x.v));
    forall k | 0 <= k < 4
      ensures x.v[k] == r.v[2 * k] + TWO32 * r.v[2 * k + 1]
    {
      Split64To32Lane(x.v, k);
    }
    r
  }

  // ---------------------------------------------------------------------
  // Slices

  /** `store_unchecked`: the slice afterwards. The 32-byte store needs 4
      elements. */
  function StoreUnchecked(x: I64x4, a: seq<I64>): (r: seq<I64>)
    requires |a| >= 4
    ensures r == x.Values() + a[4..]
  {
    var r := Signed64s(Mm256Storeu64(Patterns64(a), x.v));
    assert r == x.Values() + a[4..];
    r
  }

  /** `store`: panics when the slice has fewer than 4 elements; otherwise
      the first 4 elements become the lanes and the rest are untouched. */
  function Store(x: I64x4, a: seq<I64>): (r: Result<seq<I64>>)
    ensures r.Ok? <==> |a| >= 4
    ensures !r.Ok? ==> r == Panic(SLICE_TOO_SMALL)
    ensures r.Ok? ==> |r.value| == |a| && r.value[..4] == x.Values() && r.value[4..] == a[4..]
  {
    if |a| < 4 then Panic(SLICE_TOO_SMALL) else Ok(StoreUnchecked(x, a))
  }

  /** Storing the same vector twice leaves the slice as storing it once. */
  lemma StoreIdempotent(x: I64x4, a: seq<I64>)
    requires |a| >= 4
    ensures Store(x, Store(x, a).value) == Store(x, a)
  {
  }

  // ---------------------------------------------------------------------
  // Arithmetic

  /** `+`: lane-wise, wrapping modulo 2^64. */
  function Add(x: I64x4, y: I64x4): (r: I64x4)
    ensures forall i | 0 <= i < 4 :: r.Values()[i] == Wrap64((x.Values()[i] as int) + y.Values()[i])
  {
    var r := I64x4(Mm256AddEpi64(x.v, y.v));
    forall i | 0 <= i < 4
      ensures r.Values()[i] == Wrap64((x.Values()[i] as int) + y.Values()[i])
    {
      AddWrap64(r.v[i], x.v[i], y.v[i]);
    }
    r
  }

  /** `-`: lane-wise, wrapping modulo 2^64. */
  function Sub(x: I64x4, y: I64x4): (r: I64x4)
    ensures forall i | 0 <= i < 4 :: r.Values()[i] == Wrap64((x.Values()[i] as int) - y.Values()[i])
  {
    var r := I64x4(Mm256SubEpi64(x.v, y.v));
    forall i | 0 <= i < 4
      ensures r.Values()[i] == Wrap64((x.Values()[i] as int) - y.Values()[i])
    {
      SubWrap64(r.v[i], x.v[i], y.v[i]);
    }
    r
  }

  /** The compound assignments store the binary operator's result. */
  function AddAssign(x: I64x4, rhs: I64x4): (r: I64x4)
    ensures r == Add(x, rhs)
  {
    I64x4(Add(x, rhs).v)
  }

  function SubAssign(x: I64x4, rhs: I64x4): (r: I64x4)
    ensures r == Sub(x, rhs)
  {
    I64x4(Sub(x, rhs).v)
  }

  // ---------------------------------------------------------------------
  // Properties relating the operations

  /** `get::<k-1>` after `new` returns the k-th argument. */
  lemma NewThenGet(v1: I64, v2: I64, v3: I64, v4: I64)
    ensures forall k | 0 <= k < 4 :: Get(New(v1, v2, v3, v4), k) == [v1, v2, v3, v4][k]
  {
  }

  /** `set` changes lane IDX to v and no other lane. */
  lemma SetThenGet(x: I64x4, idx: nat, v: I64)
    requires idx < 4
    ensures Get(Set(x, idx, v), idx) == v
    ensures forall j | 0 <= j < 4 && j != idx :: Get(Set(x, idx, v), j) == Get(x, j)
  {
  }

  /** Subtracting what was added restores every lane, overflow included. */
  lemma SubUndoesAdd(x: I64x4, y: I64x4)
    ensures Sub(Add(x, y), y) == x
  {
    var t := Add(x, y);
    var s := Sub(t, y);
    forall i | 0 <= i < 4
      ensures s.Values()[i] == x.Values()[i]
    {
      WrapAddSub64(x.Values()[i], y.Values()[i]);
    }
    EqualI64x4(s, x);
  }

  /** `+` does not depend on operand order. */
  lemma AddCommute(x: I64x4, y: I64x4)
    ensures Add(x, y) == Add(y, x)
  {
    EqualI64x4(Add(x, y), Add(y, x));
  }

  /** The immediate 0xE4 selects (0, 1, 2, 3): the identity permutation. */
  lemma PermuteIdentity(x: I64x4)
    ensures Permute(x, 0xE4) == x
  {
    forall i | 0 <= i < 4
      ensures Permute(x, 0xE4).Values()[i] == x.Values()[i]
    {
      CrumbsE4(i);
    }
    EqualI64x4(Permute(x, 0xE4), x);
  }

  /** Two permutes compose: selector i of the second picks a lane of the
      first, whose selector picks the input lane. */
  lemma PermuteCompose(x: I64x4, a: Imm8, b: Imm8)
    ensures forall i | 0 <= i < 4 :: Permute(Permute(x, a), b).Values()[i] == x.Values()[Crumb(a, Crumb(b, i))]
  {
  }

  /** The immediate 0x1B selects (3, 2, 1, 0): the lanes reversed. */
  lemma PermuteReverse(x: I64x4)
    ensures Permute(x, 0x1B).Values() == [x.Values()[3], x.Values()[2], x.Values()[1], x.Values()[0]]
  {
    Crumbs1B(0);
    Crumbs1B(1);
    Crumbs1B(2);
    Crumbs1B(3);
  }

  /** Reversing the lanes twice is the identity. */
  lemma PermuteReverseTwice(x: I64x4)
    ensures Permute(Permute(x, 0x1B), 0x1B) == x
  {
    var z := Permute(Permute(x, 0x1B), 0x1B);
    forall i | 0 <= i < 4
      ensures z.v[i] == x.v[i]
    {
      ReverseTwiceLane(x, i);
    }
  }

  lemma ReverseTwiceLane(x: I64x4, i: nat)
    requires i < 4
    ensures Permute(Permute(x, 0x1B), 0x1B).v[i] == x.v[i]
  {
    Crumbs1B(i);
    Crumbs1B(3 - i);
  }
}
