/** Byte arrays filled piece by piece. */
module Buffers {
  import opened Bytes

  method FromSeq(s: bytes) returns (a: array<byte>)
    ensures fresh(a) && a[..] == s
  {
    a := new byte[|s|];
    forall i | 0 <= i < |s| { a[i] := s[i]; }
  }

  /** `memcpy(dst + at, src, n)` */
  method Copy(src: bytes, dst: array<byte>, at: nat)
    requires at + |src| <= dst.Length
    modifies dst
    ensures dst[at..at + |src|] == src
    ensures dst[..at] == old(dst[..at]) && dst[at + |src|..] == old(dst[at + |src|..])
  {
    forall i | 0 <= i < |src| { dst[at + i] := src[i]; }
  }
}
