/** Shared result types and byte strings. */
module Outcomes {

  datatype Option<+T> = None | Some(value: T)

  datatype Result<+T, +E> = Ok(value: T) | Err(error: E)

  newtype byte = b: int | 0 <= b < 256

  type Bytes = seq<byte>

  /** The last element of `s`, or `otherwise` when there is none. */
  function LastOr<T>(otherwise: T, s: seq<T>): T {
    if s == [] then otherwise else s[|s| - 1]
  }

  lemma LastOrConcat<T>(otherwise: T, a: seq<T>, b: seq<T>)
    ensures LastOr(otherwise, a + b) == LastOr(LastOr(otherwise, a), b)
  {
  }

  /** Appending two pieces one after the other is appending both. */
  lemma AppendTwice<T>(otherwise: T, before: seq<T>, a: seq<T>, b: seq<T>)
    ensures (before + a) + b == before + (a + b)
    ensures LastOr(otherwise, a + b) == LastOr(LastOr(otherwise, a), b)
  {
  }
}
