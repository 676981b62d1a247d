/** Integer widths and the small result types shared by every model. */
module Prelude {
  const U64_MAX: int := 0xFFFF_FFFF_FFFF_FFFF
  const U32_MAX: int := 0xFFFF_FFFF
  const I64_MAX: int := 0x7FFF_FFFF_FFFF_FFFF

  type u64 = n: int | 0 <= n <= U64_MAX
  type u32 = n: int | 0 <= n <= U32_MAX

  /** Usable with `:-`, like the source's `?`. */
  datatype Result<+T, +E> = Ok(value: T) | Err(error: E) {
    predicate IsFailure() { Err? }

    function PropagateFailure<U>(): Result<U, E>
      requires Err?
    {
      Err(error)
    }

    function Extract(): T
      requires Ok?
    {
      value
    }
  }

  datatype Option<+T> = None | Some(value: T) {
    function OkOr<E>(error: E): Result<T, E> {
      if Some? then Ok(value) else Err(error)
    }
  }

  function Min(a: int, b: int): int { if a <= b then a else b }
  function Max(a: int, b: int): int { if a <= b then b else a }

  /** `u64::saturating_add` / `u32::saturating_add`, with the width's maximum made explicit. */
  function SatAdd(a: int, b: int, max: int): int { Min(a + b, max) }

  /** `saturating_sub` on an unsigned width. */
  function SatSub(a: int, b: int): int { Max(a - b, 0) }
}
