/** Bytes, sectors and the memory primitives the kernel's C code leans on. */
module Bytes {

  type byte = x: int | 0 <= x < 0x100
  type u16 = x: int | 0 <= x < 0x1_0000
  type u32 = x: int | 0 <= x < 0x1_0000_0000

  type Sector = s: seq<byte> | |s| == 512 witness seq(512, i => 0)

  function Zeros(n: nat): (s: seq<byte>)
    ensures |s| == n && forall i | 0 <= i < n :: s[i] == 0
  {
    seq(n, i => 0)
  }

  /** `s` with the bytes from `off` replaced by `x`; the length does not change. */
  function Splice(s: seq<byte>, off: nat, x: seq<byte>): (r: seq<byte>)
    requires off + |x| <= |s|
    ensures |r| == |s|
    ensures forall i | 0 <= i < |s| :: r[i] == if off <= i < off + |x| then x[i - off] else s[i]
  {
    seq(|s|, i requires 0 <= i < |s| => if off <= i < off + |x| then x[i - off] else s[i])
  }

  /** `s` with `x` written at `off`, growing as a file does. */
  function Overwrite(s: seq<byte>, off: nat, x: seq<byte>): (r: seq<byte>)
    requires off <= |s|
    ensures |r| == if off + |x| <= |s| then |s| else off + |x|
    ensures forall i | 0 <= i < |r| :: r[i] == if off <= i < off + |x| then x[i - off] else s[i]
  {
    seq(if off + |x| <= |s| then |s| else off + |x|,
        i requires 0 <= i < |s| || off <= i < off + |x| => if off <= i < off + |x| then x[i - off] else s[i])
  }

  method Memcpy(dst: array<byte>, off: nat, src: seq<byte>)
    requires off + |src| <= dst.Length
    modifies dst
    ensures dst[..] == Splice(old(dst[..]), off, src)
  {
    var i := 0;
    while i < |src|
      invariant 0 <= i <= |src|
      invariant dst[..] == Splice(old(dst[..]), off, src[..i])
    {
      dst[off + i] := src[i];
      i := i + 1;
      assert src[..i] == src[..i - 1] + [src[i - 1]];
    }
    assert src[..i] == src;
  }

  method Memset(dst: array<byte>, off: nat, v: byte, n: nat)
    requires off + n <= dst.Length
    modifies dst
    ensures forall j | 0 <= j < dst.Length :: dst[j] == if off <= j < off + n then v else old(dst[j])
  {
    var i := 0;
    while i < n
      invariant 0 <= i <= n
      invariant forall j | 0 <= j < dst.Length :: dst[j] == if off <= j < off + i then v else old(dst[j])
    {
      dst[off + i] := v;
      i := i + 1;
    }
  }

  // ---- little-endian integers ----

  function Le16(x: u16): (b: seq<byte>)
    ensures |b| == 2 && Get16(b, 0) == x
  {
    [x % 0x100, x / 0x100]
  }

  function Le32(x: u32): (b: seq<byte>)
    ensures |b| == 4 && Get32(b, 0) == x
  {
    var x1 := x / 0x100;
    var x2 := x1 / 0x100;
    var x3 := x2 / 0x100;
    [x % 0x100, x1 % 0x100, x2 % 0x100, x3]
  }

  function Get16(b: seq<byte>, i: nat): u16
    requires i + 2 <= |b|
  {
    b[i] as int + 0x100 * (b[i + 1] as int)
  }

  function Get32(b: seq<byte>, i: nat): u32
    requires i + 4 <= |b|
  {
    b[i] as int + 0x100 * (b[i + 1] as int) + 0x1_0000 * (b[i + 2] as int) + 0x100_0000 * (b[i + 3] as int)
  }
}
