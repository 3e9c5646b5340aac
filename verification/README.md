# simple-simd lane model

A Dafny model of the SIMD wrapper types of the Rust crate simple-simd:
`i16x16` and `i16x8` (src/simd_i16.rs), `i32x8` (src/simd_i32.rs), `i64x4`
(src/simd_i64.rs), `f32x8` (src/simd_f32.rs) and `f64x4` (src/simd_f64.rs).
Each Rust type wraps one AVX/AVX2 register, and most methods call one x86
intrinsic. The exceptions:

- `i16x16::to_raw_i32`, `i16x16::to_raw_i64` and `i64x4::to_raw_i16`
  (src/simd_i16.rs:70, src/simd_i16.rs:73, src/simd_i64.rs:43) are plain
  `.into()` conversions that call no intrinsic.
- `f32x8::permute4x64` (src/simd_f32.rs:30) chains `to_raw_f64`,
  `f64x4::permute4x64` and `to_raw_f32`.
- `f32x8::extract` and `f64x4::extract` (src/simd_f32.rs:128,
  src/simd_f64.rs:89) go through a raw integer cast and a lane read.

The model states what each method does to the lanes, with the
intrinsics written out after the operation sections of the Intel 64 and
IA-32 Architectures Software Developer's Manual, volume 2.

## How the model is built

- `ints.dfy` (module `Ints`): lane patterns `U16`/`U32`/`U64` and their
  two's-complement readings `I16`/`I32`/`I64` as bounded integers. It also
  holds wrap-around (`Wrap16/32/64`), the immediate types `Imm8` and `Imm4`
  (`static_assert_uimm_bits!` in the intrinsics), bit selection (`Bit`,
  `Crumb`) and bitwise AND/OR on n-bit patterns.
- `lanes.dfy` (module `Lanes`): fixed-length lane sequences (`L16x16`,
  `L16x8`, `L32x8`, `L64x4`). It also defines the little-endian regroupings
  between widths (`Join16To32`/`Split32To16`, `Join32To64`/`Split64To32`,
  `Join16To64`/`Split64To16`) and proves that they undo each other.
- `vectors.dfy` (module `Vectors`): one datatype per Rust type, holding the
  register's lanes at the type's own width.
  - The integer types are read through `Values()`, the lanes as signed Rust
    integers.
  - `F32x8` and `F64x4` hold the IEEE-754 bit patterns of their lanes
    (`f32::to_bits`, `f64::to_bits`). Every float method modelled here moves
    bits without computing on them.
- `intrinsics.dfy` (module `Intrinsics`): the intrinsics the wrappers call,
  one function each, on lane sequences.
- `outcome.dfy` (module `Outcome`): `Result`, which separates a returned
  value (`Ok`), a Rust `panic!` (`Panic`, with its message) and a memory
  access outside the slice (`Undefined`).
- `simd_i16.dfy`, `simd_i32.dfy`, `simd_i64.dfy`, `simd_f32.dfy`,
  `simd_f64.dfy`: the wrapper types, one module per Rust type. Each has its
  methods, operators and the lemmas relating them.
- `raw_casts.dfy` (module `RawCasts`): the `to_raw_*` casts across types.

### Lane patterns are bounded integers

Lanes are patterns in `0 .. 2^n`, not Dafny bit-vectors.
- A 256-bit register cast to another lane width is modelled as regrouping
  the same bits, least significant lane first.
- Signedness enters only where the Rust type or the instruction reads a
  lane as signed: `Signed16/32/64`, and `Wrap16/32/64` for wrap-around.
- Bit-vector to integer conversions were too expensive for the verifier at
  this model's size. Bounded integers keep every statement in linear or
  modular integer arithmetic.

### Notes on the source

- The `i32x8` `*` operator is `_mm256_mul_epi32` (VPMULDQ). That
  instruction multiplies lanes 0, 2, 4 and 6 into four 64-bit products. It
  is not a lane-wise multiply (see Findings).
- `f32x8::extract` (src/simd_f32.rs:128) calls `extract` on an `i32x8`. That
  type has no `extract` method, and `i64x4` has none either for
  `f64x4::extract` (src/simd_f64.rs:89). As written, those two methods do
  not compile. The model reads the lane through the existing `get`, which
  is the call that fits. Rust rejects this mistake at compile time, so it
  is not listed as a finding.
- src/lib.rs declares only the f32, f64 and i32 modules. The i16 and i64
  types are modelled anyway.

## Model

| member | source | states |
|---|---|---|
| SimdI16x16.New | src/simd_i16.rs:17-38 | argument vk lands in lane k-1, although the intrinsic takes its arguments highest lane first |
| SimdI16x16.Splat | src/simd_i16.rs:41 | every lane holds the argument |
| SimdI16x16.SplatIsNew | src/simd_i16.rs:41 | `splat(v)` equals `new` with v in all 16 arguments, and `get` reads v at every index |
| SimdI16x16.Get | src/simd_i16.rs:64 | the zero-extended extract, truncated by `as i16`, is the signed lane value |
| SimdI16x16.Extract | src/simd_i16.rs:91 | reads the same lane value as `get` |
| SimdI16x16.Set | src/simd_i16.rs:67 | the result is the input with lane IDX replaced, as a sequence update |
| SimdI16x16.Blend | src/simd_i16.rs:59-61 | lane i comes from `other` exactly when bit i mod 8 of IMM is set, so one 8-bit mask serves both halves |
| SimdI16x16.ToRawI32 | src/simd_i16.rs:70 | i32 lane k is i16 lane 2k plus 2^16 times lane 2k+1, and splitting it again gives the i16 lanes back |
| SimdI16x16.ToRawI64 | src/simd_i16.rs:73 | i64 lane k is i16 lanes 4k..4k+3, least significant first, and splitting it gives them back |
| SimdI16x16.FromSliceUnchecked | src/simd_i16.rs:53-56 | the 32-byte load needs 16 elements and yields the first 16 |
| SimdI16x16.FromSliceAsWritten | src/simd_i16.rs:44-56 | panics exactly below 8 elements; for 8 to 15 elements the load runs past the slice |
| SimdI16x16.FromSliceGuardTooWeak | src/simd_i16.rs:45 | an 8-element slice passes the guard and reaches the out-of-bounds load |
| SimdI16x16.FromSlice | src/simd_i16.rs:44-56 | corrected guard: Ok exactly when the slice has 16 elements or more, with its first 16 as lanes; otherwise the "Slice too small!" panic |
| SimdI16x16.StoreUnchecked | src/simd_i16.rs:85-88 | the slice afterwards is the 16 lanes followed by its untouched tail |
| SimdI16x16.Store | src/simd_i16.rs:76-82 | panics exactly below 16 elements; otherwise the first 16 elements are the lanes, the rest are unchanged and the length is kept |
| SimdI16x16.StoreThenLoad | src/simd_i16.rs:44-82 | loading from a slice the vector was stored into gives the vector back |
| SimdI16x16.LoadThenStore | src/simd_i16.rs:44-82 | storing a loaded vector into the same slice leaves the slice unchanged |
| SimdI16x16.Mul | src/simd_i16.rs:104-109 | each lane is the signed product wrapped to 16 bits, and equally the low 16 bits of the unsigned product of the patterns |
| SimdI16x16.Add | src/simd_i16.rs:116-121 | lane-wise sum, wrapped modulo 2^16 |
| SimdI16x16.Sub | src/simd_i16.rs:128-133 | lane-wise difference, wrapped modulo 2^16 |
| SimdI16x16.And | src/simd_i16.rs:140-145 | bit k of lane i is set exactly when it is set in both operands |
| SimdI16x16.Or | src/simd_i16.rs:152-157 | bit k of lane i is set exactly when it is set in either operand |
| SimdI16x16.MulAssign | src/simd_i16.rs:111-114 | `*=` stores the result of `*` |
| SimdI16x16.AddAssign | src/simd_i16.rs:123-126 | `+=` stores the result of `+` |
| SimdI16x16.SubAssign | src/simd_i16.rs:135-138 | `-=` stores the result of `-` |
| SimdI16x16.AndAssign | src/simd_i16.rs:147-150 | `&=` stores the result of `&` |
| SimdI16x16.OrAssign | src/simd_i16.rs:159-162 | `\|=` stores the result of `\|` |
| SimdI16x16.NewThenGet | src/simd_i16.rs:17-38 | `get::<k-1>` after `new` returns the k-th argument |
| SimdI16x16.SetThenGet | src/simd_i16.rs:64-67 | after `set::<IDX>(v)`, lane IDX reads v and every other lane reads as before |
| SimdI16x16.SubUndoesAdd | src/simd_i16.rs:116-133 | `(x + y) - y == x` for all vectors, overflow included |
| SimdI16x16.AddMulCommute | src/simd_i16.rs:104-121 | `+` and `*` are commutative |
| SimdI16x16.BlendMasks | src/simd_i16.rs:59-61 | mask 0 keeps `self`, mask 0xFF takes `other`, and the complementary mask swaps the operands |
| SimdI16x16.AndOrLaws | src/simd_i16.rs:140-157 | `&` and `\|` are idempotent and commutative and absorb each other |
| SimdI16x8.New | src/simd_i16.rs:172-176 | argument vk lands in lane k-1 |
| SimdI16x8.Get | src/simd_i16.rs:179 | reads the signed lane value |
| SimdI16x8.Set | src/simd_i16.rs:182 | the value, widened to i32 for the intrinsic, replaces lane IDX only |
| SimdI16x8.Mul | src/simd_i16.rs:195-200 | lane-wise product wrapped to 16 bits |
| SimdI16x8.Add | src/simd_i16.rs:207-212 | lane-wise sum wrapped to 16 bits |
| SimdI16x8.Sub | src/simd_i16.rs:219-224 | lane-wise difference wrapped to 16 bits |
| SimdI16x8.MulAssign | src/simd_i16.rs:202-205 | `*=` stores the result of `*` |
| SimdI16x8.AddAssign | src/simd_i16.rs:214-217 | `+=` stores the result of `+` |
| SimdI16x8.SubAssign | src/simd_i16.rs:226-229 | `-=` stores the result of `-` |
| SimdI16x8.NewThenGet | src/simd_i16.rs:172-179 | `get::<k-1>` after `new` returns the k-th argument |
| SimdI16x8.SetThenGet | src/simd_i16.rs:179-182 | `set` changes lane IDX and no other |
| SimdI16x8.SubUndoesAdd | src/simd_i16.rs:207-224 | `(x + y) - y == x` |
| SimdI16x8.AddMulCommute | src/simd_i16.rs:195-212 | `+` and `*` are commutative |
| SimdI32x8.New | src/simd_i32.rs:17-21 | argument vk lands in lane k-1 |
| SimdI32x8.Get | src/simd_i32.rs:24 | reads the signed lane value |
| SimdI32x8.Set | src/simd_i32.rs:27 | replaces lane IDX only |
| SimdI32x8.ToRawF32 | src/simd_i32.rs:30 | f32 lane i holds the 32-bit pattern of i32 lane i |
| SimdI32x8.MulWidenEven | src/simd_i32.rs:46-51 | `*` as written: lanes 2k and 2k+1 of the result form the full 64-bit signed product of the operands' lanes 2k |
| SimdI32x8.MulWidenEvenIgnoresOddLanes | src/simd_i32.rs:50 | the `*` as written depends only on the even lanes of its operands |
| SimdI32x8.MulWidenEvenLowHalf | src/simd_i32.rs:50 | the even result lanes of the `*` as written equal those of the lane-wise product |
| SimdI32x8.MulWidenEvenIsNotLaneWise | src/simd_i32.rs:50 | squaring the all-2 vector gives 0 in lane 1 with the `*` as written and 4 with a lane-wise product |
| SimdI32x8.Mul | src/simd_i32.rs:46-51 | corrected `*`: each lane is the product wrapped to 32 bits |
| SimdI32x8.Add | src/simd_i32.rs:58-63 | lane-wise sum wrapped modulo 2^32 |
| SimdI32x8.Sub | src/simd_i32.rs:70-75 | lane-wise difference wrapped modulo 2^32 |
| SimdI32x8.MulAssignAsWritten | src/simd_i32.rs:53-56 | `*=` as written stores the result of the widening `*`, so it inherits its defect |
| SimdI32x8.MulAssignAsWrittenIsNotLaneWise | src/simd_i32.rs:55 | `t *= t` on the all-2 vector leaves 0 in lane 1 as written and 4 when corrected |
| SimdI32x8.MulAssign | src/simd_i32.rs:53-56 | `*=` stores the result of the corrected `*` |
| SimdI32x8.AddAssign | src/simd_i32.rs:65-68 | `+=` stores the result of `+` |
| SimdI32x8.SubAssign | src/simd_i32.rs:77-80 | `-=` stores the result of `-` |
| SimdI32x8.NewThenGet | src/simd_i32.rs:17-24 | `get::<k-1>` after `new` returns the k-th argument |
| SimdI32x8.SetThenGet | src/simd_i32.rs:24-27 | `set` changes lane IDX and no other |
| SimdI32x8.SubUndoesAdd | src/simd_i32.rs:58-75 | `(x + y) - y == x` |
| SimdI32x8.AddMulCommute | src/simd_i32.rs:46-63 | `+` and the lane-wise `*` are commutative |
| SimdI64x4.New | src/simd_i64.rs:17-21 | argument vk lands in lane k-1 |
| SimdI64x4.Get | src/simd_i64.rs:24 | reads the signed lane value |
| SimdI64x4.Set | src/simd_i64.rs:27 | replaces lane IDX only |
| SimdI64x4.Permute | src/simd_i64.rs:30 | lane i is input lane `(IMM >> 2i) & 3` |
| SimdI64x4.ToRawI16 | src/simd_i64.rs:43 | i64 lane k is made of i16 lanes 4k..4k+3, least significant first |
| SimdI64x4.ToRawF32 | src/simd_i64.rs:46 | f32 lane 2k holds the low 32 bits of i64 lane k and lane 2k+1 the high 32 bits |
| SimdI64x4.StoreUnchecked | src/simd_i64.rs:58-61 | the slice afterwards is the 4 lanes followed by its untouched tail |
| SimdI64x4.Store | src/simd_i64.rs:49-55 | panics exactly below 4 elements; otherwise writes the 4 lanes, keeps the rest and the length |
| SimdI64x4.StoreIdempotent | src/simd_i64.rs:49-55 | storing twice leaves the slice as storing once |
| SimdI64x4.Add | src/simd_i64.rs:74-79 | lane-wise sum wrapped modulo 2^64 |
| SimdI64x4.Sub | src/simd_i64.rs:86-91 | lane-wise difference wrapped modulo 2^64 |
| SimdI64x4.AddAssign | src/simd_i64.rs:81-84 | `+=` stores the result of `+` |
| SimdI64x4.SubAssign | src/simd_i64.rs:93-96 | `-=` stores the result of `-` |
| SimdI64x4.NewThenGet | src/simd_i64.rs:17-24 | `get::<k-1>` after `new` returns the k-th argument |
| SimdI64x4.SetThenGet | src/simd_i64.rs:24-27 | `set` changes lane IDX and no other |
| SimdI64x4.SubUndoesAdd | src/simd_i64.rs:74-91 | `(x + y) - y == x` |
| SimdI64x4.AddCommute | src/simd_i64.rs:74-79 | `+` is commutative |
| SimdI64x4.PermuteIdentity | src/simd_i64.rs:30 | IMM 0xE4 returns the input |
| SimdI64x4.PermuteCompose | src/simd_i64.rs:30 | two permutes select through both selector lists in turn |
| SimdI64x4.PermuteReverse | src/simd_i64.rs:30 | IMM 0x1B reverses the lanes |
| SimdI64x4.PermuteReverseTwice | src/simd_i64.rs:30 | reversing twice returns the input |
| SimdF32x8.New | src/simd_f32.rs:17-21 | argument vk's bits land in lane k-1 |
| SimdF32x8.Splat | src/simd_f32.rs:24 | every lane holds the argument's bits |
| SimdF32x8.SplatIsNew | src/simd_f32.rs:24 | `splat(v)` equals `new` with v in all 8 arguments, and `extract` reads v's bits at every index |
| SimdF32x8.Permute | src/simd_f32.rs:27 | each 128-bit half is permuted on its own by the same four 2-bit selectors |
| SimdF32x8.Permute4x64 | src/simd_f32.rs:30 | through the f64 view, lane pairs (2i, 2i+1) come from pair `(IMM >> 2i) & 3` as units |
| SimdF32x8.PermuteVar | src/simd_f32.rs:33 | lane i is the input lane named by the low three bits of index lane i, across halves |
| SimdF32x8.Unpacklo | src/simd_f32.rs:36 | each half h is `(a[4h], b[4h], a[4h+1], b[4h+1])` |
| SimdF32x8.Unpackhi | src/simd_f32.rs:39 | each half h is `(a[4h+2], b[4h+2], a[4h+3], b[4h+3])` |
| SimdF32x8.Blend | src/simd_f32.rs:79-81 | lane i comes from `other` exactly when bit i of IMM is set |
| SimdF32x8.FromSliceUnchecked | src/simd_f32.rs:51-54 | the load yields the first 8 elements |
| SimdF32x8.FromSlice | src/simd_f32.rs:42-48 | panics exactly below 8 elements; otherwise holds the first 8 |
| SimdF32x8.StoreUnchecked | src/simd_f32.rs:93-96 | the first 8 elements become the lanes; the tail and the length are kept |
| SimdF32x8.Store | src/simd_f32.rs:84-90 | panics exactly below 8 elements; otherwise as the unchecked store |
| SimdF32x8.ToRawI32 | src/simd_f32.rs:67 | i32 lane i has the bits of f32 lane i |
| SimdF32x8.ToRawF64 | src/simd_f32.rs:76 | f64 lane k is f32 lane 2k (low half) and lane 2k+1 (high half) |
| SimdF32x8.Extract | src/simd_f32.rs:128 | returns exactly the bits of lane INDEX, NaN payloads included |
| SimdF32x8.NewThenExtract | src/simd_f32.rs:17-21 | `extract::<k-1>` after `new` returns the k-th argument's bits |
| SimdF32x8.StoreThenLoad | src/simd_f32.rs:42-90 | loading what was stored gives the vector back |
| SimdF32x8.LoadThenStore | src/simd_f32.rs:42-90 | storing what was loaded leaves the slice unchanged |
| SimdF32x8.PermuteIdentity | src/simd_f32.rs:27 | IMM 0xE4 returns the input |
| SimdF32x8.PermuteReverse | src/simd_f32.rs:27 | IMM 0x1B reverses each half |
| SimdF32x8.PermuteReverseTwice | src/simd_f32.rs:27 | reversing each half twice returns the input |
| SimdF32x8.Permute4x64Identity | src/simd_f32.rs:30 | IMM 0xE4 returns the input |
| SimdF32x8.PermuteVarIdentity | src/simd_f32.rs:33 | the index vector (0, 1, ..., 7) returns the input |
| SimdF32x8.PermuteVarAsPermute | src/simd_f32.rs:27-33 | an index vector that names, in each half, the lanes the immediate selects gives the same result as `permute` |
| SimdF32x8.UnpackRecovers | src/simd_f32.rs:36-39 | `unpacklo` and `unpackhi` together hold every lane of both operands once, and both operands can be read back from them |
| SimdF32x8.BlendMasks | src/simd_f32.rs:79-81 | mask 0 keeps `self`, 0xFF takes `other`, and the complementary mask swaps the operands |
| SimdF64x4.New | src/simd_f64.rs:17-21 | argument vk's bits land in lane k-1 |
| SimdF64x4.Splat | src/simd_f64.rs:24 | every lane holds the argument's bits |
| SimdF64x4.SplatIsNew | src/simd_f64.rs:24 | `splat(v)` equals `new` with v in all 4 arguments, and `extract` reads v's bits at every index |
| SimdF64x4.Permute | src/simd_f64.rs:27 | lane i stays in its 128-bit half and is the half's high lane exactly when bit i of IMM is set |
| SimdF64x4.Permute4x64 | src/simd_f64.rs:30 | lane i is input lane `(IMM >> 2i) & 3` |
| SimdF64x4.PermuteVar | src/simd_f64.rs:33 | lane i stays in its half and is selected by bit 1 of i32 lane 2i of the index, whose odd lanes are not read |
| SimdF64x4.FromSliceUnchecked | src/simd_f64.rs:45-48 | the load yields the first 4 elements |
| SimdF64x4.FromSlice | src/simd_f64.rs:36-42 | panics exactly below 4 elements; otherwise holds the first 4 |
| SimdF64x4.StoreUnchecked | src/simd_f64.rs:74-77 | the first 4 elements become the lanes; the tail and the length are kept |
| SimdF64x4.Store | src/simd_f64.rs:65-71 | panics exactly below 4 elements; otherwise as the unchecked store |
| SimdF64x4.ToRawI32 | src/simd_f64.rs:51 | f64 lane k is i32 lane 2k (low half) and lane 2k+1 (high half) |
| SimdF64x4.ToRawI64 | src/simd_f64.rs:54 | i64 lane i has the bits of f64 lane i |
| SimdF64x4.ToRawF32 | src/simd_f64.rs:57 | f64 lane k is f32 lane 2k (low half) and lane 2k+1 (high half) |
| SimdF64x4.Blend | src/simd_f64.rs:60-62 | lane i comes from `other` exactly when bit i of IMM is set |
| SimdF64x4.Extract | src/simd_f64.rs:89 | returns exactly the bits of lane INDEX |
| SimdF64x4.NewThenExtract | src/simd_f64.rs:17-21 | `extract::<k-1>` after `new` returns the k-th argument's bits |
| SimdF64x4.StoreThenLoad | src/simd_f64.rs:36-71 | loading what was stored gives the vector back |
| SimdF64x4.LoadThenStore | src/simd_f64.rs:36-71 | storing what was loaded leaves the slice unchanged |
| SimdF64x4.PermuteIdentity | src/simd_f64.rs:27 | IMM 0b1010 returns the input |
| SimdF64x4.PermuteSwap | src/simd_f64.rs:27 | IMM 0b0101 swaps the two lanes of each 128-bit half |
| SimdF64x4.PermuteSwapTwice | src/simd_f64.rs:27 | permuting twice with IMM 0b0101 returns the input |
| SimdF64x4.PermuteVarAsPermute | src/simd_f64.rs:27-33 | with bit 1 of index lane 2i equal to bit i of IMM, `permute_var` gives the result of `permute` |
| SimdF64x4.Permute4x64AsI64 | src/simd_f64.rs:30 | on the raw i64 view, `permute4x64` moves lanes as `i64x4::permute` does |
| SimdF64x4.Permute4x64Identity | src/simd_f64.rs:30 | IMM 0xE4 returns the input |
| SimdF64x4.BlendMasks | src/simd_f64.rs:60-62 | mask 0 keeps `self`, 15 takes `other`, and the complementary mask swaps the operands |
| RawCasts.I64ThroughI16 | src/simd_i64.rs:43 | `to_raw_i16` then `i16x16::to_raw_i64` returns the input |
| RawCasts.I16ThroughI64 | src/simd_i16.rs:73 | `to_raw_i64` then `i64x4::to_raw_i16` returns the input |
| RawCasts.I32ThroughF32 | src/simd_i32.rs:30 | `to_raw_f32` then `f32x8::to_raw_i32` returns the input |
| RawCasts.F32ThroughI32 | src/simd_f32.rs:67 | `to_raw_i32` then `i32x8::to_raw_f32` returns the input |
| RawCasts.F32ThroughF64 | src/simd_f32.rs:76 | `to_raw_f64` then `f64x4::to_raw_f32` returns the input |
| RawCasts.F64ThroughF32 | src/simd_f64.rs:57 | `to_raw_f32` then `f32x8::to_raw_f64` returns the input |
| RawCasts.F64ThroughI64 | src/simd_f64.rs:54 | `to_raw_i64` keeps every bit: through `i64x4::to_raw_f32` it agrees with `to_raw_f32` and leads back to the input |
| RawCasts.I64ThroughF32F64 | src/simd_i64.rs:46 | `to_raw_f32`, `to_raw_f64`, `to_raw_i64` returns the input |
| RawCasts.F64ThroughI32 | src/simd_f64.rs:51 | `to_raw_i32` then `i32x8::to_raw_f32` agrees with `to_raw_f32` |
| RawCasts.I16ToI64Chains | src/simd_i16.rs:70-73 | the direct `to_raw_i64` agrees with the chain through i32x8, f32x8 and f64x4 |

## Left out

- Float arithmetic is not modelled because it depends on IEEE-754 rounding and NaN rules. This covers:
  - `+`, `-`, `*` and their assignments on `f32x8` and `f64x4`;
  - `mul_add`, `min`, `max`, `hadd`, `sum`, `floor` and `trunc`;
  - `i32x8::to_f32`.
- `gather_ptr` and `gather_unchecked` (`f32x8`, `i64x4`) read memory at computed addresses through a raw pointer. There is no slice contract beyond the caller's promise.
- The pointer forms `from_ptr`, `store_ptr` and `storeu2_ptr` have no pointer model. `from_ptr` and `store_ptr` are modelled only through the slice forms that call them, on the elements from the pointer on. `storeu2_ptr` writes through two unrelated pointers and is not modelled.
- The `From` conversions between the wrapper types and the raw `__m256i`, `__m128i`, `__m256` and `__m256d` types are identity wrappers. The model's datatype constructor and `.v` field play their part.
- The inline, zero-cost and single-instruction promises concern the generated code and cannot be stated here.
- The `unsafe` functions' obligation that the slice or pointer is valid for the access appears only as a length precondition.
- Mutation of `self` by the compound assignments is modelled as returning the new value.

## Findings

| source | as written | input that shows it | evidently intended | confidence | as-written member | corrected member |
|---|---|---|---|---|---|---|
| src/simd_i16.rs:45 | `from_slice` panics only when the slice has fewer than 8 elements, then loads 16 elements (32 bytes) | a slice of 8 `i16` zeros passes the guard and the load reads 8 elements past its end | panic unless the slice holds at least 16 elements | not executed | SimdI16x16.FromSliceAsWritten | SimdI16x16.FromSlice |
| src/simd_i32.rs:50 | `*` on `i32x8` calls `_mm256_mul_epi32`, which multiplies lanes 0, 2, 4, 6 into 64-bit products spread over lane pairs | `new(2, 2, 2, 2, 2, 2, 2, 2) * new(2, 2, 2, 2, 2, 2, 2, 2)` has 0 in lane 1 instead of 4 | a lane-wise product like the `i16` types' `*`, i.e. `_mm256_mullo_epi32` | not executed | SimdI32x8.MulWidenEven | SimdI32x8.Mul |
| src/simd_i32.rs:55 | `*=` on `i32x8` stores the result of the `*` above, so it inherits the widening multiply | `t *= t` with `t = new(2, 2, 2, 2, 2, 2, 2, 2)` leaves 0 in lane 1 instead of 4 | a lane-wise `*=`, the corrected `*` stored back | not executed | SimdI32x8.MulAssignAsWritten | SimdI32x8.MulAssign |
