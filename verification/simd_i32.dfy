/** `i32x8`, eight `i32` lanes in a 256-bit register (src/simd_i32.rs). */
module SimdI32x8 {
  import opened Ints
  import opened Lanes
  import opened Vectors
  import opened Intrinsics

  /** `new`: the arguments in lane order, `v1` in lane 0. */
  function New(v1: I32, v2: I32, v3: I32, v4: I32, v5: I32, v6: I32, v7: I32, v8: I32): (r: I32x8)
    ensures r.Values() == [v1, v2, v3, v4, v5, v6, v7, v8]
  {
    SignedOfPatterns32([v1, v2, v3, v4, v5, v6, v7, v8]);
    I32x8(Mm256SetEpi32(v8, v7, v6, v5, v4, v3, v2, v1))
  }

  /** `get::<IDX>`. IDX is a 3-bit constant. */
  function Get(x: I32x8, idx: nat): (r: I32)
    requires idx < 8
    ensures r == x.Values()[idx]
  {
    Mm256ExtractEpi32(x.v, idx)
  }

  /** `set::<IDX>`: a new vector with lane IDX replaced. */
  function Set(x: I32x8, idx: nat, v: I32): (r: I32x8)
    requires idx < 8
    ensures r.Values() == x.Values()[idx := v]
  {
    I32x8(Mm256InsertEpi32(x.v, v, idx))
  }

  /** `to_raw_f32` (`_mm256_castsi256_ps`): the same bits, lane for lane,
      as `f32` patterns; the lane value is the pattern of the `i32`. */
  function ToRawF32(x: I32x8): (r: F32x8)
    ensures forall i | 0 <= i < 8 :: r.v[i] == Pattern32(x.Values()[i])
  {
    var r := F32x8(x.v);
    forall i | 0 <= i < 8
      ensures r.v[i] == Pattern32(x.Values()[i])
    {
      PatternOfSigned32(x.v[i]);
    }
    r
  }

  /** `*` as written: `_mm256_mul_epi32` (VPMULDQ) on the register read as
      four quadwords. The 64 bits made of result lanes 2k and 2k+1 hold the
      full signed product of lanes 2k of the operands; their odd lanes are
      not read. */
  function MulWidenEven(x: I32x8, y: I32x8): (r: I32x8)
    ensures forall k | 0 <= k < 4 ::
      Signed64(r.v[2 * k] + TWO32 * r.v[2 * k + 1]) == (x.Values()[2 * k] as int) * y.Values()[2 * k]
  {
    var r := I32x8(Split64To32(Mm256MulEpi32(Join32To64(x.v), Join32To64(y.v))));
    forall k | 0 <= k < 4
      ensures Signed64(r.v[2 * k] + TWO32 * r.v[2 * k + 1]) == (x.Values()[2 * k] as int) * y.Values()[2 * k]
    {
      WidenLane(x, y, k);
    }
    r
  }

  /** Quadword k of VPMULDQ on the regrouped operands is the pattern of the
      product of their lanes 2k. */
  lemma WidenLane(x: I32x8, y: I32x8, k: nat)
    requires k < 4
    ensures var m := Mm256MulEpi32(Join32To64(x.v), Join32To64(y.v));
      m[k] == ((x.Values()[2 * k] as int) * y.Values()[2 * k]) % TWO64
    ensures var r := Split64To32(Mm256MulEpi32(Join32To64(x.v), Join32To64(y.v)));
      Signed64(r[2 * k] + TWO32 * r[2 * k + 1]) == (x.Values()[2 * k] as int) * y.Values()[2 * k]
  {
    var m := Mm256MulEpi32(Join32To64(x.v), Join32To64(y.v));
    var a, b := x.Values()[2 * k], y.Values()[2 * k];
    Join32To64Low(x.v, k);
    Join32To64Low(y.v, k);
    assert m[k] == (a * b) % TWO64;
    MulBound32(a, b);
    var n: I64 := a * b;
    assert Signed64(m[k]) == n;
    Split64To32Lane(m, k);
  }

  /** `*` as evidently intended: `_mm256_mullo_epi32` (VPMULLD), the low 32
      bits of each lane's product, whether the factors are read as signed
      or as unsigned. */
  function Mul(x: I32x8, y: I32x8): (r: I32x8)
    ensures forall i | 0 <= i < 8 :: r.Values()[i] == Wrap32((x.Values()[i] as int) * y.Values()[i])
    ensures forall i | 0 <= i < 8 :: r.v[i] == (x.v[i] * y.v[i]) % TWO32
  {
    var r := I32x8(Mm256MulloEpi32(x.v, y.v));
    forall i | 0 <= i < 8
      ensures r.v[i] == (x.v[i] * y.v[i]) % TWO32
    {
      MulResidue32(x.v[i], y.v[i]);
    }
    r
  }

  /** `+`: lane-wise, wrapping modulo 2^32. */
  function Add(x: I32x8, y: I32x8): (r: I32x8)
    ensures forall i | 0 <= i < 8 :: r.Values()[i] == Wrap32((x.Values()[i] as int) + y.Values()[i])
  {
    var r := I32x8(Mm256AddEpi32(x.v, y.v));
    forall i | 0 <= i < 8
      ensures r.Values()[i] == Wrap32((x.Values()[i] as int) + y.Values()[i])
    {
      AddWrap32(r.v[i], x.v[i], y.v[i]);
    }
    r
  }

  /** `-`: lane-wise, wrapping modulo 2^32. */
  function Sub(x: I32x8, y: I32x8): (r: I32x8)
    ensures forall i | 0 <= i < 8 :: r.Values()[i] == Wrap32((x.Values()[i] as int) - y.Values()[i])
  {
    var r := I32x8(Mm256SubEpi32(x.v, y.v));
    forall i | 0 <= i < 8
      ensures r.Values()[i] == Wrap32((x.Values()[i] as int) - y.Values()[i])
    {
      SubWrap32(r.v[i], x.v[i], y.v[i]);
    }
    r
  }

  /** `*=` as written stores the result of the `*` as written, so it
      inherits the widening multiply. */
  function MulAssignAsWritten(x: I32x8, rhs: I32x8): (r: I32x8)
    ensures r == MulWidenEven(x, rhs)
  {
    I32x8(MulWidenEven(x, rhs).v)
  }

  /** The compound assignments store the binary operator's result; `*=` is
      given here with the corrected `*`. */
  function MulAssign(x: I32x8, rhs: I32x8): (r: I32x8)
    ensures r == Mul(x, rhs)
  {
    I32x8(Mul(x, rhs).v)
  }

  function AddAssign(x: I32x8, rhs: I32x8): (r: I32x8)
    ensures r == Add(x, rhs)
  {
    I32x8(Add(x, rhs).v)
  }

  function SubAssign(x: I32x8, rhs: I32x8): (r: I32x8)
    ensures r == Sub(x, rhs)
  {
    I32x8(Sub(x, rhs).v)
  }

  // ---------------------------------------------------------------------
  // Properties relating the operations

  /** `get::<k-1>` after `new` returns the k-th argument. */
  lemma NewThenGet(v1: I32, v2: I32, v3: I32, v4: I32, v5: I32, v6: I32, v7: I32, v8: I32)
    ensures forall k | 0 <= k < 8 ::
      Get(New(v1, v2, v3, v4, v5, v6, v7, v8), k) == [v1, v2, v3, v4, v5, v6, v7, v8][k]
  {
  }

  /** `set` changes lane IDX to v and no other lane. */
  lemma SetThenGet(x: I32x8, idx: nat, v: I32)
    requires idx < 8
    ensures Get(Set(x, idx, v), idx) == v
    ensures forall j | 0 <= j < 8 && j != idx :: Get(Set(x, idx, v), j) == Get(x, j)
  {
  }

  /** Subtracting what was added restores every lane, overflow included. */
  lemma SubUndoesAdd(x: I32x8, y: I32x8)
    ensures Sub(Add(x, y), y) == x
  {
    var s := Sub(Add(x, y), y);
    forall i | 0 <= i < 8
      ensures s.Values()[i] == x.Values()[i]
    {
      WrapAddSub32(x.Values()[i], y.Values()[i]);
    }
    EqualI32x8(s, x);
  }

  /** `+` and the lane-wise `*` do not depend on operand order. */
  lemma AddMulCommute(x: I32x8, y: I32x8)
    ensures Add(x, y) == Add(y, x)
    ensures Mul(x, y) == Mul(y, x)
  {
    EqualI32x8(Add(x, y), Add(y, x));
    forall i | 0 <= i < 8
      ensures Mul(x, y).Values()[i] == Mul(y, x).Values()[i]
    {
      assert (x.Values()[i] as int) * y.Values()[i] == (y.Values()[i] as int) * x.Values()[i];
    }
    EqualI32x8(Mul(x, y), Mul(y, x));
  }

  /** The widening `*` reads only the even lanes of its operands. */
  lemma MulWidenEvenIgnoresOddLanes(x: I32x8, y: I32x8, x': I32x8, y': I32x8)
    requires forall k | 0 <= k < 4 :: x.Values()[2 * k] == x'.Values()[2 * k]
    requires forall k | 0 <= k < 4 :: y.Values()[2 * k] == y'.Values()[2 * k]
    ensures MulWidenEven(x, y) == MulWidenEven(x', y')
  {
    var m := Mm256MulEpi32(Join32To64(x.v), Join32To64(y.v));
    var m' := Mm256MulEpi32(Join32To64(x'.v), Join32To64(y'.v));
    forall k | 0 <= k < 4
      ensures m[k] == m'[k]
    {
      WidenLane(x, y, k);
      WidenLane(x', y', k);
    }
    assert m == m';
  }

  /** The low 32 bits of each widened product are the lane-wise product of
      the even lanes: the two multiplications agree exactly there. */
  lemma MulWidenEvenLowHalf(x: I32x8, y: I32x8)
    ensures forall k | 0 <= k < 4 :: MulWidenEven(x, y).v[2 * k] == Mul(x, y).v[2 * k]
  {
    forall k | 0 <= k < 4
      ensures MulWidenEven(x, y).v[2 * k] == Mul(x, y).v[2 * k]
    {
      LowHalfLane(x, y, k);
    }
  }

  lemma LowHalfLane(x: I32x8, y: I32x8, k: nat)
    requires k < 4
    ensures MulWidenEven(x, y).v[2 * k] == Mul(x, y).v[2 * k]
  {
    var n := (x.Values()[2 * k] as int) * y.Values()[2 * k];
    var m := Mm256MulEpi32(Join32To64(x.v), Join32To64(y.v));
    var p := Mul(x, y).v[2 * k];
    WidenLane(x, y, k);
    assert MulWidenEven(x, y).v[2 * k] == m[k] % TWO32;
    Low32OfMod64(n);
    assert Signed32(p) == Wrap32(n);
    PatternOfSigned32(p);
    PatternOfSigned32(n % TWO32);
    assert p == n % TWO32;
  }

  /** On `new(2, 2, 2, 2, 2, 2, 2, 2)` squared, the `*` as written leaves
      lane 1 at 0 (the high half of 4), where a lane-wise product has 4. */
  lemma MulWidenEvenIsNotLaneWise()
    ensures var t := New(2, 2, 2, 2, 2, 2, 2, 2);
      Get(MulWidenEven(t, t), 1) == 0 && Get(Mul(t, t), 1) == 4
  {
    WidenTwos();
    MulTwos();
  }

  /** `t *= t` as written on the all-2 vector leaves 0 in lane 1, where the
      corrected `*=` leaves 4. */
  lemma MulAssignAsWrittenIsNotLaneWise()
    ensures var t := New(2, 2, 2, 2, 2, 2, 2, 2);
      Get(MulAssignAsWritten(t, t), 1) == 0 && Get(MulAssign(t, t), 1) == 4
  {
    WidenTwos();
    MulTwos();
  }

  lemma WidenTwos()
    ensures Get(MulWidenEven(New(2, 2, 2, 2, 2, 2, 2, 2), New(2, 2, 2, 2, 2, 2, 2, 2)), 1) == 0
  {
    var t := New(2, 2, 2, 2, 2, 2, 2, 2);
    assert t.Values()[0] == 2;
    WidenSmallProduct(t, t, 0);
  }

  /** A product of lanes 2k that fits in 32 bits and is not negative leaves
      the high result lane 2k+1 at zero. */
  lemma WidenSmallProduct(x: I32x8, y: I32x8, k: nat)
    requires k < 4
    requires 0 <= (x.Values()[2 * k] as int) * y.Values()[2 * k] < TWO32
    ensures MulWidenEven(x, y).v[2 * k + 1] == 0
  {
    var m := Mm256MulEpi32(Join32To64(x.v), Join32To64(y.v));
    WidenLane(x, y, k);
    assert MulWidenEven(x, y).v[2 * k + 1] == m[k] / TWO32;
  }

  lemma MulTwos()
    ensures Get(Mul(New(2, 2, 2, 2, 2, 2, 2, 2), New(2, 2, 2, 2, 2, 2, 2, 2)), 1) == 4
  {
    var t := New(2, 2, 2, 2, 2, 2, 2, 2);
    assert t.Values()[1] == 2;
    assert Mul(t, t).Values()[1] == Wrap32(4) == 4;
  }
}
