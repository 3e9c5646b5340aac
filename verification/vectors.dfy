/** The six vector types, each a register of lanes.

Every type wraps one register (`v`), as each Rust struct wraps one
`__m256i`, `__m128i`, `__m256` or `__m256d`. The register is kept as its
lane bit patterns at the type's own lane width. The integer types are read
through `Values()`, the lanes as signed Rust integers; the float types hold
the IEEE-754 bit patterns of their lanes (`f32::to_bits`, `f64::to_bits`),
because every float operation in this model moves lanes without computing
on them.
*/
module Vectors {
  import opened Ints
  import opened Lanes

  /** `i16x16`: sixteen `i16` lanes in a 256-bit register. */
  datatype I16x16 = I16x16(v: L16x16) {
    function Values(): (s: seq<I16>)
      ensures |s| == 16
    {
      Signed16s(v)
    }
  }

  /** `i16x8`: eight `i16` lanes in a 128-bit register. */
  datatype I16x8 = I16x8(v: L16x8) {
    function Values(): (s: seq<I16>)
      ensures |s| == 8
    {
      Signed16s(v)
    }
  }

  /** `i32x8`: eight `i32` lanes in a 256-bit register. */
  datatype I32x8 = I32x8(v: L32x8) {
    function Values(): (s: seq<I32>)
      ensures |s| == 8
    {
      Signed32s(v)
    }
  }

  /** `i64x4`: four `i64` lanes in a 256-bit register. */
  datatype I64x4 = I64x4(v: L64x4) {
    function Values(): (s: seq<I64>)
      ensures |s| == 4
    {
      Signed64s(v)
    }
  }

  /** `f32x8`: eight `f32` lanes (their bit patterns) in a 256-bit register. */
  datatype F32x8 = F32x8(v: L32x8)

  /** `f64x4`: four `f64` lanes (their bit patterns) in a 256-bit register. */
  datatype F64x4 = F64x4(v: L64x4)

  // ---------------------------------------------------------------------
  // An integer vector is determined by its values

  lemma EqualI16x16(x: I16x16, y: I16x16)
    requires x.Values() == y.Values()
    ensures x == y
  {
    forall i | 0 <= i < 16
      ensures x.v[i] == y.v[i]
    {
      PatternOfSigned16(x.v[i]);
      PatternOfSigned16(y.v[i]);
      assert Signed16(x.v[i]) == x.Values()[i];
    }
  }

  lemma EqualI16x8(x: I16x8, y: I16x8)
    requires x.Values() == y.Values()
    ensures x == y
  {
    forall i | 0 <= i < 8
      ensures x.v[i] == y.v[i]
    {
      PatternOfSigned16(x.v[i]);
      PatternOfSigned16(y.v[i]);
      assert Signed16(x.v[i]) == x.Values()[i];
    }
  }

  lemma EqualI32x8(x: I32x8, y: I32x8)
    requires x.Values() == y.Values()
    ensures x == y
  {
    forall i | 0 <= i < 8
      ensures x.v[i] == y.v[i]
    {
      PatternOfSigned32(x.v[i]);
      PatternOfSigned32(y.v[i]);
      assert Signed32(x.v[i]) == x.Values()[i];
    }
  }

  lemma EqualI64x4(x: I64x4, y: I64x4)
    requires x.Values() == y.Values()
    ensures x == y
  {
    forall i | 0 <= i < 4
      ensures x.v[i] == y.v[i]
    {
      PatternOfSigned64(x.v[i]);
      PatternOfSigned64(y.v[i]);
      assert Signed64(x.v[i]) == x.Values()[i];
    }
  }

  /** Reading the patterns of a slice back as signed values gives the slice. */
  lemma SignedOfPatterns16(a: seq<I16>)
    ensures Signed16s(Patterns16(a)) == a
  {
  }

  lemma SignedOfPatterns32(a: seq<I32>)
    ensures Signed32s(Patterns32(a)) == a
  {
  }

  lemma SignedOfPatterns64(a: seq<I64>)
    ensures Signed64s(Patterns64(a)) == a
  {
  }
}
