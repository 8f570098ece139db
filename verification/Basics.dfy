/** Types shared by every component of the model. */
module Basics {
  datatype Option<+T> = None | Some(value: T)

  /** A fallible call: the source's `Result<T, MirageError>` without the error text. */
  datatype Result<+T> = Ok(value: T) | Err

  newtype byte = b: int | 0 <= b < 0x100

  type Bytes = seq<byte>

  /** A 32-byte content hash. The all-zero hash stands for "no page" in sidecar records. */
  type PageHash = int

  const ZERO_HASH: PageHash := 0

  const U32_MAX: nat := 0xffff_ffff
  const U64_MAX: nat := 0xffff_ffff_ffff_ffff
  const I64_MAX: nat := 0x7fff_ffff_ffff_ffff

  function Min(a: int, b: int): int { if a < b then a else b }

  function Max(a: int, b: int): int { if a < b then b else a }

  function Zeros(n: nat): (z: Bytes)
    ensures |z| == n && forall k :: 0 <= k < n ==> z[k] == 0
  {
    seq(n, _ => 0)
  }
}
