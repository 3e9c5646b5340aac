/** `i16x16`, sixteen `i16` lanes in a 256-bit register (src/simd_i16.rs). */
module SimdI16x16 {
  import opened Ints
  import opened Lanes
  import opened Outcome
  import opened Vectors
  import opened Intrinsics

  /** `new`: the arguments in lane order, `v1` in lane 0. */
  function New(v1: I16, v2: I16, v3: I16, v4: I16, v5: I16, v6: I16, v7: I16, v8: I16,
               v9: I16, v10: I16, v11: I16, v12: I16, v13: I16, v14: I16, v15: I16, v16: I16): (r: I16x16)
    ensures r.Values() == [v1, v2, v3, v4, v5, v6, v7, v8, v9, v10, v11, v12, v13, v14, v15, v16]
  {
    SignedOfPatterns16([v1, v2, v3, v4, v5, v6, v7, v8, v9, v10, v11, v12, v13, v14, v15, v16]);
    I16x16(Mm256SetEpi16(v16, v15, v14, v13, v12, v11, v10, v9, v8, v7, v6, v5, v4, v3, v2, v1))
  }

  /** `splat`: every lane holds v. */
  function Splat(v: I16): (r: I16x16)
    ensures forall i | 0 <= i < 16 :: r.Values()[i] == v
  {
    I16x16(Mm256Set1Epi16(v))
  }

  /** `get::<IDX>`: the lane, zero-extended to `i32` by the intrinsic and
      truncated back by `as i16`. IDX is a 4-bit constant. */
  function Get(x: I16x16, idx: nat): (r: I16)
    requires idx < 16
    ensures r == x.Values()[idx]
  {
    Wrap16(Mm256ExtractEpi16(x.v, idx))
  }

  /** `extract::<INDEX>`: the same lane read as `get`. */
  function Extract(x: I16x16, index: nat): (r: I16)
    requires index < 16
    ensures r == x.Values()[index]
  {
    Get(x, index)
  }

  /** `set::<IDX>`: a new vector with lane IDX replaced; x itself is a value
      and stays as it was. */
  function Set(x: I16x16, idx: nat, v: I16): (r: I16x16)
    requires idx < 16
    ensures r.Values() == x.Values()[idx := v]
  {
    I16x16(Mm256InsertEpi16(x.v, v, idx))
  }

  /** `blend::<IMM>`: lane i comes from `other` exactly when bit `i % 8` of
      IMM is set, so one 8-bit mask serves both 128-bit halves. */
  function Blend(x: I16x16, other: I16x16, imm: Imm8): (r: I16x16)
    ensures forall i | 0 <= i < 16 ::
      r.Values()[i] == if Bit(imm, i % 8) then other.Values()[i] else x.Values()[i]
  {
    I16x16(Mm256BlendEpi16(x.v, other.v, imm))
  }

  /** `to_raw_i32`: the same 256 bits as eight `i32` lanes; i32 lane k holds
      i16 lane 2k in its low half and lane 2k+1 in its high half. */
  function ToRawI32(x: I16x16): (r: I32x8)
    ensures forall k | 0 <= k < 8 :: r.v[k] == x.v[2 * k] + TWO16 * x.v[2 * k + 1]
    ensures Split32To16(r.v) == x.v
  {
    var r := I32x8(Join16To32(x.v));
    SplitJoin16(x.v);
    forall k | 0 <= k < 8
      ensures r.v[k] == x.v[2 * k] + TWO16 * x.v[2 * k + 1]
    {
      Join16To32Lane(x.v, k);
    }
    r
  }

  /** `to_raw_i64`: the same 256 bits as four `i64` lanes of four i16 lanes
      each, least significant first. */
  function ToRawI64(x: I16x16): (r: I64x4)
    ensures forall k | 0 <= k < 4 ::
      r.v[k] == x.v[4 * k] + TWO16 * x.v[4 * k + 1] + TWO32 * x.v[4 * k + 2] + TWO48 * x.v[4 * k + 3]
    ensures Split64To16(r.v) == x.v
  {
    var r := I64x4(Join16To64(x.v));
    SplitJoin16To64(x.v);
    forall k | 0 <= k < 4
      ensures r.v[k] == x.v[4 * k] + TWO16 * x.v[4 * k + 1] + TWO32 * x.v[4 * k + 2] + TWO48 * x.v[4 * k + 3]
    {
      Join16To64Lane(x.v, k);
    }
    r
  }

  // ---------------------------------------------------------------------
  // Slices

  /** `from_slice_unchecked`: the unaligned load reads 32 bytes, so the
      slice must hold 16 elements. */
  function FromSliceUnchecked(a: seq<I16>): (r: I16x16)
    requires |a| >= 16
    ensures r.Values() == a[..16]
  {
    SignedOfPatterns16(a[..16]);
    I16x16(Mm256Loadu16(Patterns16(a)))
  }

  /** `from_slice` as written: the guard rejects fewer than 8 elements, but
      the load behind it reads 16, so slices of 8 to 15 elements reach a
      load that runs past their end. */
  function FromSliceAsWritten(a: seq<I16>): (r: Result<I16x16>)
    ensures r.Panic? <==> |a| < 8
    ensures r.Panic? ==> r.message == SLICE_TOO_SMALL
    ensures r.Undefined? <==> 8 <= |a| < 16
    ensures r.Ok? ==> |a| >= 16 && r.value.Values() == a[..16]
  {
    if |a| < 8 then Panic(SLICE_TOO_SMALL)
    else if |a| < 16 then Undefined("the 32-byte load runs past the end of the slice")
    else Ok(FromSliceUnchecked(a))
  }

  /** An 8-element slice passes the guard of `from_slice` although the load
      behind it reads 16 elements. */
  lemma FromSliceGuardTooWeak()
    ensures var a: seq<I16> := seq(8, _ => 0);
      !FromSliceAsWritten(a).Panic? && FromSliceAsWritten(a).Undefined?
  {
  }

  /** `from_slice` with the guard the load needs: it panics exactly when the
      slice has fewer than 16 elements and otherwise holds its first 16. */
  function FromSlice(a: seq<I16>): (r: Result<I16x16>)
    ensures r.Ok? <==> |a| >= 16
    ensures !r.Ok? ==> r == Panic(SLICE_TOO_SMALL)
    ensures r.Ok? ==> r.value.Values() == a[..16]
  {
    if |a| < 16 then Panic(SLICE_TOO_SMALL) else Ok(FromSliceUnchecked(a))
  }

  /** `store_unchecked`: the slice afterwards. The 32-byte store needs 16
      elements. */
  function StoreUnchecked(x: I16x16, a: seq<I16>): (r: seq<I16>)
    requires |a| >= 16
    ensures r == x.Values() + a[16..]
  {
    var r := Signed16s(Mm256Storeu16(Patterns16(a), x.v));
    assert r == x.Values() + a[16..];
    r
  }

  /** `store`: panics when the slice has fewer than 16 elements; otherwise
      the first 16 elements become the lanes and the rest are untouched. */
  function Store(x: I16x16, a: seq<I16>): (r: Result<seq<I16>>)
    ensures r.Ok? <==> |a| >= 16
    ensures !r.Ok? ==> r == Panic(SLICE_TOO_SMALL)
    ensures r.Ok? ==> |r.value| == |a| && r.value[..16] == x.Values() && r.value[16..] == a[16..]
  {
    if |a| < 16 then Panic(SLICE_TOO_SMALL) else Ok(StoreUnchecked(x, a))
  }

  /** Loading what was stored gives the vector back. */
  lemma StoreThenLoad(x: I16x16, a: seq<I16>)
    requires |a| >= 16
    ensures Store(x, a).Ok? && FromSlice(Store(x, a).value) == Ok(x)
  {
    EqualI16x16(FromSlice(Store(x, a).value).value, x);
  }

  /** Storing what was loaded leaves the slice as it was. */
  lemma LoadThenStore(a: seq<I16>)
    requires |a| >= 16
    ensures FromSlice(a).Ok? && Store(FromSlice(a).value, a) == Ok(a)
  {
    assert a[..16] + a[16..] == a;
  }

  // ---------------------------------------------------------------------
  // Arithmetic and bitwise operators

  /** `*`: the low 16 bits of each lane's product, whether the factors are
      read as signed or as unsigned. */
  function Mul(x: I16x16, y: I16x16): (r: I16x16)
    ensures forall i | 0 <= i < 16 :: r.Values()[i] == Wrap16((x.Values()[i] as int) * y.Values()[i])
    ensures forall i | 0 <= i < 16 :: r.v[i] == (x.v[i] * y.v[i]) % TWO16
  {
    var r := I16x16(Mm256MulloEpi16(x.v, y.v));
    forall i | 0 <= i < 16
      ensures r.v[i] == (x.v[i] * y.v[i]) % TWO16
    {
      MulResidue16(x.v[i], y.v[i]);
    }
    r
  }

  /** `+`: lane-wise, wrapping modulo 2^16. */
  function Add(x: I16x16, y: I16x16): (r: I16x16)
    ensures forall i | 0 <= i < 16 :: r.Values()[i] == Wrap16((x.Values()[i] as int) + y.Values()[i])
  {
    var r := I16x16(Mm256AddEpi16(x.v, y.v));
    forall i | 0 <= i < 16
      ensures r.Values()[i] == Wrap16((x.Values()[i] as int) + y.Values()[i])
    {
      AddWrap16(r.v[i], x.v[i], y.v[i]);
    }
    r
  }

  /** `-`: lane-wise, wrapping modulo 2^16. */
  function Sub(x: I16x16, y: I16x16): (r: I16x16)
    ensures forall i | 0 <= i < 16 :: r.Values()[i] == Wrap16((x.Values()[i] as int) - y.Values()[i])
  {
    var r := I16x16(Mm256SubEpi16(x.v, y.v));
    forall i | 0 <= i < 16
      ensures r.Values()[i] == Wrap16((x.Values()[i] as int) - y.Values()[i])
    {
      SubWrap16(r.v[i], x.v[i], y.v[i]);
    }
    r
  }

  /** `&`: bit k of lane i is set exactly when it is set in both operands. */
  function And(x: I16x16, y: I16x16): (r: I16x16)
    ensures forall i, k | 0 <= i < 16 && 0 <= k < 16 :: Bit(r.v[i], k) <==> Bit(x.v[i], k) && Bit(y.v[i], k)
  {
    var r := I16x16(Mm256AndSi256(x.v, y.v));
    forall i, k | 0 <= i < 16 && 0 <= k < 16
      ensures Bit(r.v[i], k) <==> Bit(x.v[i], k) && Bit(y.v[i], k)
    {
      BitAndOrBits(x.v[i], y.v[i], 16, k);
    }
    r
  }

  /** `|`: bit k of lane i is set exactly when it is set in either operand. */
  function Or(x: I16x16, y: I16x16): (r: I16x16)
    ensures forall i, k | 0 <= i < 16 && 0 <= k < 16 :: Bit(r.v[i], k) <==> Bit(x.v[i], k) || Bit(y.v[i], k)
  {
    var r := I16x16(Mm256OrSi256(x.v, y.v));
    forall i, k | 0 <= i < 16 && 0 <= k < 16
      ensures Bit(r.v[i], k) <==> Bit(x.v[i], k) || Bit(y.v[i], k)
    {
      BitAndOrBits(x.v[i], y.v[i], 16, k);
    }
    r
  }

  /** The compound assignments store the binary operator's result. */
  function MulAssign(x: I16x16, rhs: I16x16): (r: I16x16)
    ensures r == Mul(x, rhs)
  {
    I16x16(Mul(x, rhs).v)
  }

  function AddAssign(x: I16x16, rhs: I16x16): (r: I16x16)
    ensures r == Add(x, rhs)
  {
    I16x16(Add(x, rhs).v)
  }

  function SubAssign(x: I16x16, rhs: I16x16): (r: I16x16)
    ensures r == Sub(x, rhs)
  {
    I16x16(Sub(x, rhs).v)
  }

  function AndAssign(x: I16x16, rhs: I16x16): (r: I16x16)
    ensures r == And(x, rhs)
  {
    I16x16(And(x, rhs).v)
  }

  function OrAssign(x: I16x16, rhs: I16x16): (r: I16x16)
    ensures r == Or(x, rhs)
  {
    I16x16(Or(x, rhs).v)
  }

  // ---------------------------------------------------------------------
  // Properties relating the operations

  /** `splat(v)` is `new` with v for every argument, and `get` reads v at
      every index. */
  lemma SplatIsNew(v: I16)
    ensures Splat(v) == New(v, v, v, v, v, v, v, v, v, v, v, v, v, v, v, v)
    ensures forall k | 0 <= k < 16 :: Get(Splat(v), k) == v
  {
    var n := New(v, v, v, v, v, v, v, v, v, v, v, v, v, v, v, v);
    forall k | 0 <= k < 16
      ensures Splat(v).Values()[k] == n.Values()[k]
    {
    }
    EqualI16x16(Splat(v), n);
  }

  /** `get::<k-1>` after `new` returns the k-th argument. */
  lemma NewThenGet(v1: I16, v2: I16, v3: I16, v4: I16, v5: I16, v6: I16, v7: I16, v8: I16,
                   v9: I16, v10: I16, v11: I16, v12: I16, v13: I16, v14: I16, v15: I16, v16: I16)
    ensures forall k | 0 <= k < 16 ::
      Get(New(v1, v2, v3, v4, v5, v6, v7, v8, v9, v10, v11, v12, v13, v14, v15, v16), k)
      == [v1, v2, v3, v4, v5, v6, v7, v8, v9, v10, v11, v12, v13, v14, v15, v16][k]
  {
  }

  /** `set` changes lane IDX to v and no other lane. */
  lemma SetThenGet(x: I16x16, idx: nat, v: I16)
    requires idx < 16
    ensures Get(Set(x, idx, v), idx) == v
    ensures forall j | 0 <= j < 16 && j != idx :: Get(Set(x, idx, v), j) == Get(x, j)
  {
  }

  /** Subtracting what was added restores every lane, overflow included. */
  lemma SubUndoesAdd(x: I16x16, y: I16x16)
    ensures Sub(Add(x, y), y) == x
  {
    var s := Sub(Add(x, y), y);
    forall i | 0 <= i < 16
      ensures s.Values()[i] == x.Values()[i]
    {
      WrapAddSub16(x.Values()[i], y.Values()[i]);
    }
    EqualI16x16(s, x);
  }

  /** `+` and `*` do not depend on operand order. */
  lemma AddMulCommute(x: I16x16, y: I16x16)
    ensures Add(x, y) == Add(y, x)
    ensures Mul(x, y) == Mul(y, x)
  {
    EqualI16x16(Add(x, y), Add(y, x));
    forall i | 0 <= i < 16
      ensures Mul(x, y).Values()[i] == Mul(y, x).Values()[i]
    {
      assert (x.Values()[i] as int) * y.Values()[i] == (y.Values()[i] as int) * x.Values()[i];
    }
    EqualI16x16(Mul(x, y), Mul(y, x));
  }

  /** A zero mask keeps `self`, an all-ones mask takes `other`, and the
      complementary mask swaps the roles. */
  lemma BlendMasks(x: I16x16, y: I16x16, imm: Imm8)
    ensures Blend(x, y, 0) == x
    ensures Blend(x, y, 0xFF) == y
    ensures Blend(x, y, imm) == Blend(y, x, 0xFF - imm)
  {
    forall i | 0 <= i < 16
      ensures Blend(x, y, 0).v[i] == x.v[i]
      ensures Blend(x, y, 0xFF).v[i] == y.v[i]
      ensures Blend(x, y, imm).v[i] == Blend(y, x, 0xFF - imm).v[i]
    {
      BitNoneAll(i % 8);
      BitComplement(imm, i % 8);
    }
  }

  /** `&` and `|` are idempotent and commutative and absorb each other. */
  lemma AndOrLaws(x: I16x16, y: I16x16)
    ensures And(x, x) == x && Or(x, x) == x
    ensures And(x, y) == And(y, x) && Or(x, y) == Or(y, x)
    ensures And(x, Or(x, y)) == x && Or(x, And(x, y)) == x
  {
    Pow2Values();
    forall i | 0 <= i < 16
      ensures And(x, x).v[i] == x.v[i] && Or(x, x).v[i] == x.v[i]
      ensures And(x, y).v[i] == And(y, x).v[i] && Or(x, y).v[i] == Or(y, x).v[i]
      ensures And(x, Or(x, y)).v[i] == x.v[i] && Or(x, And(x, y)).v[i] == x.v[i]
    {
      BitAndOrSelf(x.v[i], 16);
      BitCommute(x.v[i], y.v[i], 16);
      BitAbsorb(x.v[i], y.v[i], 16);
    }
  }
}

/** `i16x8`, eight `i16` lanes in a 128-bit register (src/simd_i16.rs). */
module SimdI16x8 {
  import opened Ints
  import opened Vectors
  import opened Intrinsics

  /** `new`: the arguments in lane order, `v1` in lane 0. */
  function New(v1: I16, v2: I16, v3: I16, v4: I16, v5: I16, v6: I16, v7: I16, v8: I16): (r: I16x8)
    ensures r.Values() == [v1, v2, v3, v4, v5, v6, v7, v8]
  {
    SignedOfPatterns16([v1, v2, v3, v4, v5, v6, v7, v8]);
    I16x8(MmSetEpi16(v8, v7, v6, v5, v4, v3, v2, v1))
  }

  /** `get::<IDX>`: the lane, zero-extended by the intrinsic and truncated
      back by `as i16`. IDX is a 3-bit constant. */
  function Get(x: I16x8, idx: nat): (r: I16)
    requires idx < 8
    ensures r == x.Values()[idx]
  {
    Wrap16(MmExtractEpi16(x.v, idx))
  }

  /** `set::<IDX>`: v is widened to `i32` and the intrinsic inserts its low
      16 bits, which are v's own pattern. */
  function Set(x: I16x8, idx: nat, v: I16): (r: I16x8)
    requires idx < 8
    ensures r.Values() == x.Values()[idx := v]
  {
    I16x8(MmInsertEpi16(x.v, v as I32, idx))
  }

  /** `*`: the low 16 bits of each lane's product, whether the factors are
      read as signed or as unsigned. */
  function Mul(x: I16x8, y: I16x8): (r: I16x8)
    ensures forall i | 0 <= i < 8 :: r.Values()[i] == Wrap16((x.Values()[i] as int) * y.Values()[i])
    ensures forall i | 0 <= i < 8 :: r.v[i] == (x.v[i] * y.v[i]) % TWO16
  {
    var r := I16x8(MmMulloEpi16(x.v, y.v));
    forall i | 0 <= i < 8
      ensures r.v[i] == (x.v[i] * y.v[i]) % TWO16
    {
      MulResidue16(x.v[i], y.v[i]);
    }
    r
  }

  /** `+`: lane-wise, wrapping modulo 2^16. */
  function Add(x: I16x8, y: I16x8): (r: I16x8)
    ensures forall i | 0 <= i < 8 :: r.Values()[i] == Wrap16((x.Values()[i] as int) + y.Values()[i])
  {
    var r := I16x8(MmAddEpi16(x.v, y.v));
    forall i | 0 <= i < 8
      ensures r.Values()[i] == Wrap16((x.Values()[i] as int) + y.Values()[i])
    {
      AddWrap16(r.v[i], x.v[i], y.v[i]);
    }
    r
  }

  /** `-`: lane-wise, wrapping modulo 2^16. */
  function Sub(x: I16x8, y: I16x8): (r: I16x8)
    ensures forall i | 0 <= i < 8 :: r.Values()[i] == Wrap16((x.Values()[i] as int) - y.Values()[i])
  {
    var r := I16x8(MmSubEpi16(x.v, y.v));
    forall i | 0 <= i < 8
      ensures r.Values()[i] == Wrap16((x.Values()[i] as int) - y.Values()[i])
    {
      SubWrap16(r.v[i], x.v[i], y.v[i]);
    }
    r
  }

  /** The compound assignments store the binary operator's result. */
  function MulAssign(x: I16x8, rhs: I16x8): (r: I16x8)
    ensures r == Mul(x, rhs)
  {
    I16x8(Mul(x, rhs).v)
  }

  function AddAssign(x: I16x8, rhs: I16x8): (r: I16x8)
    ensures r == Add(x, rhs)
  {
    I16x8(Add(x, rhs).v)
  }

  function SubAssign(x: I16x8, rhs: I16x8): (r: I16x8)
    ensures r == Sub(x, rhs)
  {
    I16x8(Sub(x, rhs).v)
  }

  /** `get::<k-1>` after `new` returns the k-th argument. */
  lemma NewThenGet(v1: I16, v2: I16, v3: I16, v4: I16, v5: I16, v6: I16, v7: I16, v8: I16)
    ensures forall k | 0 <= k < 8 ::
      Get(New(v1, v2, v3, v4, v5, v6, v7, v8), k) == [v1, v2, v3, v4, v5, v6, v7, v8][k]
  {
  }

  /** `set` changes lane IDX to v and no other lane. */
  lemma SetThenGet(x: I16x8, idx: nat, v: I16)
    requires idx < 8
    ensures Get(Set(x, idx, v), idx) == v
    ensures forall j | 0 <= j < 8 && j != idx :: Get(Set(x, idx, v), j) == Get(x, j)
  {
  }

  /** Subtracting what was added restores every lane, overflow included. */
  lemma SubUndoesAdd(x: I16x8, y: I16x8)
    ensures Sub(Add(x, y), y) == x
  {
    var s := Sub(Add(x, y), y);
    forall i | 0 <= i < 8
      ensures s.Values()[i] == x.Values()[i]
    {
      WrapAddSub16(x.Values()[i], y.Values()[i]);
    }
    EqualI16x8(s, x);
  }

  /** `+` and `*` do not depend on operand order. */
  lemma AddMulCommute(x: I16x8, y: I16x8)
    ensures Add(x, y) == Add(y, x)
    ensures Mul(x, y) == Mul(y, x)
  {
    EqualI16x8(Add(x, y), Add(y, x));
    forall i | 0 <= i < 8
      ensures Mul(x, y).Values()[i] == Mul(y, x).Values()[i]
    {
      assert (x.Values()[i] as int) * y.Values()[i] == (y.Values()[i] as int) * x.Values()[i];
    }
    EqualI16x8(Mul(x, y), Mul(y, x));
  }
}
