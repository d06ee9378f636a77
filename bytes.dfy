/** Octets and the few operations on byte sequences that the codecs and the buffer share. */
module Bytes {

  /** One octet of an ArrayBuffer. */
  type byte = x: int | 0 <= x < 0x100

  /** `n` zero bytes: what a freshly allocated ArrayBuffer holds. */
  function Zeros(n: nat): (r: seq<byte>)
    ensures |r| == n
    ensures forall i :: 0 <= i < n ==> r[i] == 0
  {
    seq(n, _ => 0)
  }

  /** `n` copies of `b`: what `Uint8Array.fill` leaves in an array of that size. */
  function Repeat(b: byte, n: nat): (r: seq<byte>)
    ensures |r| == n
    ensures forall i :: 0 <= i < n ==> r[i] == b
  {
    seq(n, _ => b)
  }

  /** `st` with the bytes starting at `off` replaced by `bs`; every other byte as before. */
  function Overwrite(st: seq<byte>, off: nat, bs: seq<byte>): (r: seq<byte>)
    requires off + |bs| <= |st|
    ensures |r| == |st|
    ensures forall i :: 0 <= i < |st| ==> r[i] == if off <= i < off + |bs| then bs[i - off] else st[i]
  {
    st[..off] + bs + st[off + |bs|..]
  }

  /** The bytes of `st` from `off`, at most `len` of them, cut at the end of `st`; empty for an offset outside `st`. */
  function Window(st: seq<byte>, off: int, len: nat): (r: seq<byte>)
    ensures |r| <= len
    ensures 0 <= off && off + len <= |st| ==> r == st[off..off + len]
    ensures forall i :: 0 <= i < |r| ==> 0 <= off && off + i < |st| && r[i] == st[off + i]
  {
    if off < 0 || off >= |st| then []
    else if off + len <= |st| then st[off..off + len]
    else st[off..]
  }

  /** The byte a Uint8Array or DataView stores for the number `x` (ToUint8: reduction modulo 256). */
  function ToUint8(x: int): (r: byte)
    ensures (r - x) % 0x100 == 0
  {
    x % 0x100
  }

  function Min(a: int, b: int): (r: int) { if a <= b then a else b }

  function Max(a: int, b: int): (r: int) { if a >= b then a else b }
}
