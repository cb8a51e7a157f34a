/** Bytes, and the outcome codes of capnp_kinds.h. */
module Bytes {

  type byte = b: int | 0 <= b < 256

  /** CAPNP_OK and the CAPNP_ERR_* codes. */
  datatype Code = OK | ErrBounds | ErrKind | ErrDepth | ErrTraversal | ErrAlloc
                | ErrFraming | ErrPacked | ErrArg | ErrSegment

  function Zeros(n: nat): (s: seq<byte>)
    ensures |s| == n && forall i :: 0 <= i < n ==> s[i] == 0
  {
    seq(n, _ => 0)
  }
}
