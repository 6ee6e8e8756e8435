/** Shared vocabulary: optional values, error results, bytes and Go strings. */
module Basics {

  datatype Option<+T> = None | Some(value: T)

  datatype Result<+T, +E> = Ok(value: T) | Err(error: E) {
    predicate IsFailure() {
      Err?
    }

    function PropagateFailure<U>(): Result<U, E>
      requires Err?
    {
      Err(error)
    }

    function Extract(): T
      requires Ok?
    {
      value
    }
  }

  /** A Go byte, and a Go string or []byte as an immutable byte sequence. */
  type byte = x: int | 0 <= x < 256
  type Bytes = seq<byte>

  const MAX_INT64: int := 0x7fff_ffff_ffff_ffff

  type int32 = x: int | -0x8000_0000 <= x < 0x8000_0000
  type uint32 = x: int | 0 <= x < 0x1_0000_0000
  type int64 = x: int | -0x8000_0000_0000_0000 <= x <= 0x7fff_ffff_ffff_ffff
  type uint64 = x: int | 0 <= x < 0x1_0000_0000_0000_0000

  /** 256 to the power k. */
  function Pow256(k: nat): (p: nat)
    ensures p >= 1
    ensures k > 0 ==> p >= 256
  {
    if k == 0 then 1 else 256 * Pow256(k - 1)
  }

  /** All entries of a sequence differ. */
  ghost predicate NoDup<T>(xs: seq<T>) {
    forall i, j :: 0 <= i < j < |xs| ==> xs[i] != xs[j]
  }

  lemma HasMember<T>(s: seq<T>)
    ensures s != [] ==> s[0] in s
  {
  }
}
