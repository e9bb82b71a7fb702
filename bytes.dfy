/**
 * Machine integers and byte-order helpers shared by the firmware model.
 * The controller is a little-endian Cortex-M3; multi-byte fields of the
 * packed structures are stored low byte first unless stated otherwise.
 */
module Bytes {

  type byte = x: int | 0 <= x < 0x100
  type u16 = x: int | 0 <= x < 0x1_0000
  type u32 = x: int | 0 <= x < 0x1_0000_0000

  /** The modulus of 32-bit wrap-around. */
  const U32: nat := 0x1_0000_0000

  /** A CRC-16 routine over a byte string. Its polynomial lives in a header
   *  outside the model, so every user takes it as a parameter. */
  type Crc16 = seq<byte> -> u16

  datatype Option<T> = None | Some(value: T)

  function Lo(x: u16): byte { x % 0x100 }
  function Hi(x: u16): byte { x / 0x100 }

  /** The two bytes of a 16-bit value in memory order (low byte first). */
  function LE16(x: u16): (r: seq<byte>)
    ensures |r| == 2
  {
    [Lo(x), Hi(x)]
  }

  /** A 16-bit value read from memory at offset i (low byte first). */
  function ReadLE16(s: seq<byte>, i: nat): u16
    requires i + 2 <= |s|
  {
    s[i] as int + 0x100 * s[i + 1] as int
  }

  /** A 16-bit value stored high byte first, as the radio module writes it. */
  function ReadBE16(s: seq<byte>, i: nat): u16
    requires i + 2 <= |s|
  {
    s[i] as int * 0x100 + s[i + 1] as int
  }

  /** A 32-bit unsigned increment: the largest value wraps to zero. */
  function Inc32(x: u32): u32
  {
    if x == 0xFFFF_FFFF then 0 else x + 1
  }

  /** The increment is addition of one modulo 2^32. */
  lemma Inc32Wraps(x: u32)
    ensures Inc32(x) == (x + 1) % U32
  {
  }

  /** The four bytes of a 32-bit value in memory order. */
  function LE32(x: u32): (r: seq<byte>)
    ensures |r| == 4
  {
    [x % 0x100, (x / 0x100) % 0x100, (x / 0x1_0000) % 0x100, x / 0x100_0000]
  }

  /** Byte swap of a 16-bit quantity (the result of `__REVSH` kept to 16 bits). */
  function Swap16(x: u16): (r: u16)
    ensures Lo(r) == Hi(x) && Hi(r) == Lo(x)
  {
    Lo(x) as int * 0x100 + Hi(x) as int
  }

  lemma ReadLE16Inverse(x: u16, pre: seq<byte>, post: seq<byte>)
    ensures ReadLE16(pre + LE16(x) + post, |pre|) == x
  {
    var s := pre + LE16(x) + post;
    assert s[|pre|] == Lo(x) && s[|pre| + 1] == Hi(x);
  }

  lemma LE16Injective(x: u16, y: u16)
    requires LE16(x) == LE16(y)
    ensures x == y
  {
    assert Lo(x) == LE16(x)[0] == LE16(y)[0] == Lo(y);
    assert Hi(x) == LE16(x)[1] == LE16(y)[1] == Hi(y);
  }

  /** The bytes of a value put together high byte first. */
  lemma Compose16(hi: byte, lo: byte)
    ensures Lo(hi * 0x100 + lo) == lo && Hi(hi * 0x100 + lo) == hi
  {
  }

  lemma Swap16Involution(x: u16)
    ensures Swap16(Swap16(x)) == x
  {
  }

  /** `n` zero bytes, the effect of `memset( p, 0, n )`. */
  function Zeros(n: nat): (r: seq<byte>)
    ensures |r| == n && forall i :: 0 <= i < n ==> r[i] == 0
  {
    seq(n, _ => 0)
  }
}
