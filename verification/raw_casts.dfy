/** The `to_raw_*` casts between the six types change no bit: a cast and
    its reverse give back the same register, and any two chains of casts
    between the same two types agree. */
module RawCasts {
  import opened Lanes
  import opened Vectors
  import SimdI16x16
  import SimdI32x8
  import SimdI64x4
  import SimdF32x8
  import SimdF64x4

  /** `i64x4::to_raw_i16` and `i16x16::to_raw_i64` undo each other. */
  lemma I64ThroughI16(x: I64x4)
    ensures SimdI16x16.ToRawI64(SimdI64x4.ToRawI16(x)) == x
  {
    JoinSplit64To16(x.v);
  }

  lemma I16ThroughI64(x: I16x16)
    ensures SimdI64x4.ToRawI16(SimdI16x16.ToRawI64(x)) == x
  {
    SplitJoin16To64(x.v);
  }

  /** `i32x8::to_raw_f32` and `f32x8::to_raw_i32` undo each other. */
  lemma I32ThroughF32(x: I32x8)
    ensures SimdF32x8.ToRawI32(SimdI32x8.ToRawF32(x)) == x
  {
  }

  lemma F32ThroughI32(x: F32x8)
    ensures SimdI32x8.ToRawF32(SimdF32x8.ToRawI32(x)) == x
  {
  }

  /** `f32x8::to_raw_f64` and `f64x4::to_raw_f32` undo each other. */
  lemma F32ThroughF64(x: F32x8)
    ensures SimdF64x4.ToRawF32(SimdF32x8.ToRawF64(x)) == x
  {
    SplitJoin32(x.v);
  }

  lemma F64ThroughF32(x: F64x4)
    ensures SimdF32x8.ToRawF64(SimdF64x4.ToRawF32(x)) == x
  {
    JoinSplit64(x.v);
  }

  /** `f64x4::to_raw_i64` loses no bit: through `i64x4::to_raw_f32` it
      gives what `f64x4::to_raw_f32` gives, and back to `f64x4` the input. */
  lemma F64ThroughI64(x: F64x4)
    ensures SimdI64x4.ToRawF32(SimdF64x4.ToRawI64(x)) == SimdF64x4.ToRawF32(x)
    ensures SimdF32x8.ToRawF64(SimdI64x4.ToRawF32(SimdF64x4.ToRawI64(x))) == x
  {
    JoinSplit64(x.v);
  }

  /** `i64x4::to_raw_f32` then `f32x8::to_raw_f64` and `f64x4::to_raw_i64`
      give the `i64x4` back. */
  lemma I64ThroughF32F64(x: I64x4)
    ensures SimdF64x4.ToRawI64(SimdF32x8.ToRawF64(SimdI64x4.ToRawF32(x))) == x
  {
    JoinSplit64(x.v);
  }

  /** `f64x4::to_raw_i32` loses no bit: through `i32x8::to_raw_f32` it gives
      what `f64x4::to_raw_f32` gives. */
  lemma F64ThroughI32(x: F64x4)
    ensures SimdI32x8.ToRawF32(SimdF64x4.ToRawI32(x)) == SimdF64x4.ToRawF32(x)
  {
  }

  /** From `i16x16` to `i64x4` in one cast or through `i32x8`, `f32x8` and
      `f64x4`: the same vector. */
  lemma I16ToI64Chains(x: I16x16)
    ensures SimdF64x4.ToRawI64(SimdF32x8.ToRawF64(SimdI32x8.ToRawF32(SimdI16x16.ToRawI32(x))))
      == SimdI16x16.ToRawI64(x)
  {
  }
}
