/** Outcomes of the bounds-checked slice operations. */
module Outcome {

  /** `Ok` carries the result; `Panic` is a Rust `panic!` with its message;
      `Undefined` marks a call whose unchecked memory access would run past
      the end of the slice, which is undefined behaviour in Rust. */
  datatype Result<T> = Ok(value: T) | Panic(message: string) | Undefined(reason: string)

  /** The message every checked load and store panics with. */
  const SLICE_TOO_SMALL: string := "Slice too small!"
}
