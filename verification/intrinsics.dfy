/** The x86 intrinsics the wrapper types call, on the lanes of a register.

Each function follows the operation section of the instruction it compiles
to in the Intel 64 and IA-32 Architectures Software Developer's Manual,
volume 2 (the instruction is named in each comment). A register is given at
the lane width the instruction works on; a caller that holds it at another
width regroups it with `Lanes.Join*` and `Lanes.Split*`, which changes no
bit. Signed instructions read lanes with `Signed*`. Float lanes are moved as
bit patterns: none of the float intrinsics modelled here computes on a
value.
*/
module Intrinsics {
  import opened Ints
  import opened Lanes

  // ---------------------------------------------------------------------
  // Building registers. The `set` intrinsics list lanes from the highest
  // down: their last argument becomes lane 0.

  /** `_mm256_set_epi16` */
  function Mm256SetEpi16(e15: I16, e14: I16, e13: I16, e12: I16, e11: I16, e10: I16, e9: I16, e8: I16,
                         e7: I16, e6: I16, e5: I16, e4: I16, e3: I16, e2: I16, e1: I16, e0: I16): L16x16
  {
    Patterns16([e0, e1, e2, e3, e4, e5, e6, e7, e8, e9, e10, e11, e12, e13, e14, e15])
  }

  /** `_mm256_set1_epi16` (VPBROADCASTW) */
  function Mm256Set1Epi16(a: I16): L16x16
  {
    seq(16, _ => Pattern16(a))
  }

  /** `_mm_set_epi16` */
  function MmSetEpi16(e7: I16, e6: I16, e5: I16, e4: I16, e3: I16, e2: I16, e1: I16, e0: I16): L16x8
  {
    Patterns16([e0, e1, e2, e3, e4, e5, e6, e7])
  }

  /** `_mm256_set_epi32` */
  function Mm256SetEpi32(e7: I32, e6: I32, e5: I32, e4: I32, e3: I32, e2: I32, e1: I32, e0: I32): L32x8
  {
    Patterns32([e0, e1, e2, e3, e4, e5, e6, e7])
  }

  /** `_mm256_set_epi64x` */
  function Mm256SetEpi64x(e3: I64, e2: I64, e1: I64, e0: I64): L64x4
  {
    Patterns64([e0, e1, e2, e3])
  }

  /** `_mm256_set_ps`, on the bit patterns of the eight `f32` arguments. */
  function Mm256SetPs(e7: U32, e6: U32, e5: U32, e4: U32, e3: U32, e2: U32, e1: U32, e0: U32): L32x8
  {
    [e0, e1, e2, e3, e4, e5, e6, e7]
  }

  /** `_mm256_set1_ps` (VBROADCASTSS) */
  function Mm256Set1Ps(a: U32): L32x8
  {
    seq(8, _ => a)
  }

  /** `_mm256_set_pd` */
  function Mm256SetPd(e3: U64, e2: U64, e1: U64, e0: U64): L64x4
  {
    [e0, e1, e2, e3]
  }

  /** `_mm256_set1_pd` (VBROADCASTSD) */
  function Mm256Set1Pd(a: U64): L64x4
  {
    seq(4, _ => a)
  }

  // ---------------------------------------------------------------------
  // Memory. `mem` is the memory from the pointer on, as the patterns of
  // the slice elements stored there; the unaligned load and store
  // (VMOVDQU, VMOVUPS, VMOVUPD) read, respectively write, the 32 bytes
  // there, that is the first 256 / n elements of n bits.

  /** `_mm256_loadu_si256` through an `i16` pointer. */
  function Mm256Loadu16(mem: seq<U16>): L16x16
    requires |mem| >= 16
  {
    mem[..16]
  }

  /** `_mm256_loadu_ps` */
  function Mm256Loadu32(mem: seq<U32>): L32x8
    requires |mem| >= 8
  {
    mem[..8]
  }

  /** `_mm256_loadu_pd` */
  function Mm256Loadu64(mem: seq<U64>): L64x4
    requires |mem| >= 4
  {
    mem[..4]
  }

  /** `_mm256_storeu_si256` through an `i16` pointer: the memory afterwards. */
  function Mm256Storeu16(mem: seq<U16>, a: L16x16): seq<U16>
    requires |mem| >= 16
  {
    a + mem[16..]
  }

  /** `_mm256_storeu_ps`, and `_mm256_storeu_si256` through an `i32`
      pointer: the memory afterwards. */
  function Mm256Storeu32(mem: seq<U32>, a: L32x8): seq<U32>
    requires |mem| >= 8
  {
    a + mem[8..]
  }

  /** `_mm256_storeu_pd`, and `_mm256_storeu_si256` through an `i64`
      pointer: the memory afterwards. */
  function Mm256Storeu64(mem: seq<U64>, a: L64x4): seq<U64>
    requires |mem| >= 4
  {
    a + mem[4..]
  }

  // ---------------------------------------------------------------------
  // Single lanes

  /** `_mm256_extract_epi16` (VPEXTRW): the lane zero-extended to `i32`. */
  function Mm256ExtractEpi16(a: L16x16, index: nat): U16
    requires index < 16
  {
    a[index]
  }

  /** `_mm256_insert_epi16` */
  function Mm256InsertEpi16(a: L16x16, i: I16, index: nat): L16x16
    requires index < 16
  {
    a[index := Pattern16(i)]
  }

  /** `_mm_extract_epi16` (PEXTRW): the lane zero-extended to `i32`. */
  function MmExtractEpi16(a: L16x8, index: nat): U16
    requires index < 8
  {
    a[index]
  }

  /** `_mm_insert_epi16` (PINSRW): the low 16 bits of the `i32` operand. */
  function MmInsertEpi16(a: L16x8, i: I32, index: nat): L16x8
    requires index < 8
  {
    a[index := i % TWO16]
  }

  /** `_mm256_extract_epi32` */
  function Mm256ExtractEpi32(a: L32x8, index: nat): I32
    requires index < 8
  {
    Signed32(a[index])
  }

  /** `_mm256_insert_epi32` */
  function Mm256InsertEpi32(a: L32x8, i: I32, index: nat): L32x8
    requires index < 8
  {
    a[index := Pattern32(i)]
  }

  /** `_mm256_extract_epi64` */
  function Mm256ExtractEpi64(a: L64x4, index: nat): I64
    requires index < 4
  {
    Signed64(a[index])
  }

  /** `_mm256_insert_epi64` */
  function Mm256InsertEpi64(a: L64x4, i: I64, index: nat): L64x4
    requires index < 4
  {
    a[index := Pattern64(i)]
  }

  // ---------------------------------------------------------------------
  // Integer arithmetic: add, sub and the low half of mul wrap around.

  /** `_mm256_add_epi16` (VPADDW) */
  function Mm256AddEpi16(a: L16x16, b: L16x16): L16x16
  {
    seq(16, j requires 0 <= j < 16 => (a[j] + b[j]) % TWO16)
  }

  /** `_mm256_sub_epi16` (VPSUBW) */
  function Mm256SubEpi16(a: L16x16, b: L16x16): L16x16
  {
    seq(16, j requires 0 <= j < 16 => (a[j] - b[j]) % TWO16)
  }

  /** `_mm256_mullo_epi16` (VPMULLW): the low 16 bits of the signed product. */
  function Mm256MulloEpi16(a: L16x16, b: L16x16): L16x16
  {
    seq(16, j requires 0 <= j < 16 => (Signed16(a[j]) * Signed16(b[j])) % TWO16)
  }

  /** `_mm_add_epi16` (PADDW) */
  function MmAddEpi16(a: L16x8, b: L16x8): L16x8
  {
    seq(8, j requires 0 <= j < 8 => (a[j] + b[j]) % TWO16)
  }

  /** `_mm_sub_epi16` (PSUBW) */
  function MmSubEpi16(a: L16x8, b: L16x8): L16x8
  {
    seq(8, j requires 0 <= j < 8 => (a[j] - b[j]) % TWO16)
  }

  /** `_mm_mullo_epi16` (PMULLW) */
  function MmMulloEpi16(a: L16x8, b: L16x8): L16x8
  {
    seq(8, j requires 0 <= j < 8 => (Signed16(a[j]) * Signed16(b[j])) % TWO16)
  }

  /** `_mm256_add_epi32` (VPADDD) */
  function Mm256AddEpi32(a: L32x8, b: L32x8): L32x8
  {
    seq(8, j requires 0 <= j < 8 => (a[j] + b[j]) % TWO32)
  }

  /** `_mm256_sub_epi32` (VPSUBD) */
  function Mm256SubEpi32(a: L32x8, b: L32x8): L32x8
  {
    seq(8, j requires 0 <= j < 8 => (a[j] - b[j]) % TWO32)
  }

  /** `_mm256_mul_epi32` (VPMULDQ): each 64-bit lane receives the full signed
      product of the low doublewords of the two 64-bit source lanes; the high
      doublewords are not read. */
  function Mm256MulEpi32(a: L64x4, b: L64x4): L64x4
  {
    seq(4, k requires 0 <= k < 4 => (Signed32(a[k] % TWO32) * Signed32(b[k] % TWO32)) % TWO64)
  }

  /** `_mm256_mullo_epi32` (VPMULLD): the low 32 bits of each lane's signed
      product. */
  function Mm256MulloEpi32(a: L32x8, b: L32x8): L32x8
  {
    seq(8, j requires 0 <= j < 8 => (Signed32(a[j]) * Signed32(b[j])) % TWO32)
  }

  /** `_mm256_add_epi64` (VPADDQ) */
  function Mm256AddEpi64(a: L64x4, b: L64x4): L64x4
  {
    seq(4, k requires 0 <= k < 4 => (a[k] + b[k]) % TWO64)
  }

  /** `_mm256_sub_epi64` (VPSUBQ) */
  function Mm256SubEpi64(a: L64x4, b: L64x4): L64x4
  {
    seq(4, k requires 0 <= k < 4 => (a[k] - b[k]) % TWO64)
  }

  /** `_mm256_and_si256` (VPAND). The instruction is bitwise, so the result
      is the same at every lane width; it is given here on 16-bit lanes. */
  function Mm256AndSi256(a: L16x16, b: L16x16): L16x16
  {
    Pow2Values();
    seq(16, j requires 0 <= j < 16 => BitAnd(a[j], b[j], 16))
  }

  /** `_mm256_or_si256` (VPOR), on 16-bit lanes. */
  function Mm256OrSi256(a: L16x16, b: L16x16): L16x16
  {
    Pow2Values();
    seq(16, j requires 0 <= j < 16 => BitOr(a[j], b[j], 16))
  }

  // ---------------------------------------------------------------------
  // Blends and permutes

  /** `_mm256_blend_epi16` (VPBLENDW): word j of each 128-bit half comes
      from b when bit j of the immediate is set. */
  function Mm256BlendEpi16(a: L16x16, b: L16x16, imm: Imm8): L16x16
  {
    seq(16, j requires 0 <= j < 16 => if Bit(imm, j % 8) then b[j] else a[j])
  }

  /** `_mm256_blend_ps` (VBLENDPS) */
  function Mm256BlendPs(a: L32x8, b: L32x8, imm: Imm8): L32x8
  {
    seq(8, j requires 0 <= j < 8 => if Bit(imm, j) then b[j] else a[j])
  }

  /** `_mm256_blend_pd` (VBLENDPD) */
  function Mm256BlendPd(a: L64x4, b: L64x4, imm: Imm4): L64x4
  {
    seq(4, k requires 0 <= k < 4 => if Bit(imm, k) then b[k] else a[k])
  }

  /** `_mm256_permute4x64_epi64` and `_mm256_permute4x64_pd` (VPERMQ,
      VPERMPD): quadword i is source quadword `imm[2i+1:2i]`. */
  function Mm256Permute4x64(a: L64x4, imm: Imm8): L64x4
  {
    seq(4, i requires 0 <= i < 4 => a[Crumb(imm, i)])
  }

  /** `_mm256_permute_ps` (VPERMILPS with an immediate): within each
      128-bit half, doubleword i is the half's doubleword `imm[2i+1:2i]`. */
  function Mm256PermutePs(a: L32x8, imm: Imm8): L32x8
  {
    seq(8, i requires 0 <= i < 8 => a[4 * (i / 4) + Crumb(imm, i % 4)])
  }

  /** `_mm256_permutevar8x32_ps` (VPERMPS): doubleword i is the source
      doubleword selected by the low three bits of index lane i. */
  function Mm256Permutevar8x32Ps(a: L32x8, idx: L32x8): L32x8
  {
    seq(8, i requires 0 <= i < 8 => a[idx[i] % 8])
  }

  /** `_mm256_unpacklo_ps` (VUNPCKLPS): interleaves the low two doublewords
      of each 128-bit half. */
  function Mm256UnpackloPs(a: L32x8, b: L32x8): L32x8
  {
    [a[0], b[0], a[1], b[1], a[4], b[4], a[5], b[5]]
  }

  /** `_mm256_unpackhi_ps` (VUNPCKHPS): interleaves the high two
      doublewords of each 128-bit half. */
  function Mm256UnpackhiPs(a: L32x8, b: L32x8): L32x8
  {
    [a[2], b[2], a[3], b[3], a[6], b[6], a[7], b[7]]
  }

  /** `_mm256_permute_pd` (VPERMILPD with an immediate): quadword i is the
      high quadword of its 128-bit half when bit i is set, else the low one. */
  function Mm256PermutePd(a: L64x4, imm: Imm4): L64x4
  {
    seq(4, i requires 0 <= i < 4 => a[2 * (i / 2) + (if Bit(imm, i) then 1 else 0)])
  }

  /** `_mm256_permutevar_pd` (VPERMILPD with a register): as the immediate
      form, with bit 1 of control quadword i in place of bit i. */
  function Mm256PermutevarPd(a: L64x4, b: L64x4): L64x4
  {
    seq(4, i requires 0 <= i < 4 => a[2 * (i / 2) + (if Bit(b[i], 1) then 1 else 0)])
  }
}
