// Block moves between byte buffers, with the overlap rules of Go's built-in copy.
module Memory {
  import opened Bytes

  /** Copies n bytes from src[s..] to dst[d..]; the two regions may overlap. */
  method Move(dst: array<byte>, d: nat, src: array<byte>, s: nat, n: nat)
    requires d + n <= dst.Length && s + n <= src.Length
    modifies dst
    ensures forall k :: d <= k < d + n ==> dst[k] == old(src[s + (k - d)])
    ensures forall k :: 0 <= k < dst.Length && !(d <= k < d + n) ==> dst[k] == old(dst[k])
  {
    forall k | 0 <= k < n {
      dst[d + k] := src[s + k];
    }
  }

  /** Writes the bytes bs at position d. */
  method Put(dst: array<byte>, d: nat, bs: seq<byte>)
    requires d + |bs| <= dst.Length
    modifies dst
    ensures forall k :: d <= k < d + |bs| ==> dst[k] == bs[k - d]
    ensures forall k :: 0 <= k < dst.Length && !(d <= k < d + |bs|) ==> dst[k] == old(dst[k])
  {
    forall k | 0 <= k < |bs| {
      dst[d + k] := bs[k];
    }
  }
}
