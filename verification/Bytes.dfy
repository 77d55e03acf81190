/** Bytes, little-endian words and the one in-place write every other module needs. */
module Bytes {

  type byte = x: int | 0 <= x < 0x100
  type u16 = x: int | 0 <= x < 0x1_0000
  type u32 = x: int | 0 <= x < 0x1_0000_0000

  datatype Option<+T> = None | Some(value: T)

  function Zeros(n: nat): seq<byte> {
    seq(n, _ => 0)
  }

  /** dst with src written over it from position at on. */
  function Blit(dst: seq<byte>, at: nat, src: seq<byte>): (r: seq<byte>)
    requires at + |src| <= |dst|
  {
    dst[..at] + src + dst[at + |src|..]
  }

  lemma BlitReads(dst: seq<byte>, at: nat, src: seq<byte>, lo: nat, hi: nat)
    requires at + |src| <= |dst| && lo <= hi <= |dst|
    ensures |Blit(dst, at, src)| == |dst|
    ensures hi <= at || at + |src| <= lo ==> Blit(dst, at, src)[lo..hi] == dst[lo..hi]
    ensures lo == at && hi == at + |src| ==> Blit(dst, at, src)[lo..hi] == src
  {
  }

  lemma BlitAt(dst: seq<byte>, at: nat, src: seq<byte>)
    requires at + |src| <= |dst|
    ensures |Blit(dst, at, src)| == |dst|
    ensures forall i | 0 <= i < |dst| :: Blit(dst, at, src)[i] == if at <= i < at + |src| then src[i - at] else dst[i]
  {
  }

  function Le16(b: seq<byte>): (r: u16)
    requires |b| == 2
  {
    b[0] as int + 0x100 * b[1] as int
  }

  function Le32(b: seq<byte>): (r: u32)
    requires |b| == 4
  {
    b[0] as int + 0x100 * b[1] as int + 0x1_0000 * b[2] as int + 0x100_0000 * b[3] as int
  }

  function Bytes16(x: u16): (r: seq<byte>)
    ensures |r| == 2
  {
    [x % 0x100, x / 0x100]
  }

  function Bytes32(x: u32): (r: seq<byte>)
    ensures |r| == 4
  {
    [x % 0x100, x / 0x100 % 0x100, x / 0x1_0000 % 0x100, x / 0x100_0000]
  }

  lemma Bytes16RoundTrip(x: u16)
    ensures Le16(Bytes16(x)) == x
  {
  }

  lemma Bytes32RoundTrip(x: u32)
    ensures Le32(Bytes32(x)) == x
  {
    assert x / 0x1_0000 == x / 0x100 / 0x100;
    assert x / 0x100_0000 == x / 0x1_0000 / 0x100;
  }
}
