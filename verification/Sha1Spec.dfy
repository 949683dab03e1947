// SHA-1 as FIPS 180-4 defines it: padding (5.1.1), parsing (5.2.1), initial value (5.3.1)
// and hash computation (6.1.2).
module Sha1Spec {
  import opened Bits32
  import opened Utf

  datatype State = State(a: bv32, b: bv32, c: bv32, d: bv32, e: bv32)

  const IV := State(0x67452301, 0xEFCDAB89, 0x98BADCFE, 0x10325476, 0xC3D2E1F0)

  function Word(b0: Byte, b1: Byte, b2: Byte, b3: Byte): bv32 {
    (((b0 * 256 + b1) * 256 + b2) * 256 + b3) as bv32
  }

  // The message schedule of 6.1.2, step 1.
  function W(block: seq<Byte>, t: nat): bv32
    requires |block| == 64 && t < 80
  {
    if t < 16 then
      Word(block[4 * t], block[4 * t + 1], block[4 * t + 2], block[4 * t + 3])
    else
      RotL(Xor4(W(block, t - 3), W(block, t - 8), W(block, t - 14), W(block, t - 16)), 1)
  }

  // Section 4.1.1.
  function F(t: nat, x: bv32, y: bv32, z: bv32): bv32 {
    if t < 20 then Ch(x, y, z)
    else if t < 40 then Parity(x, y, z)
    else if t < 60 then Maj(x, y, z)
    else Parity(x, y, z)
  }

  // Section 4.2.1.
  function K(t: nat): bv32 {
    if t < 20 then 0x5A827999
    else if t < 40 then 0x6ED9EBA1
    else if t < 60 then 0x8F1BBCDC
    else 0xCA62C1D6
  }

  function Round(s: State, t: nat, w: bv32): State {
    var temp := Add32(Add32(Add32(Add32(RotL(s.a, 5), F(t, s.b, s.c, s.d)), s.e), K(t)), w);
    State(temp, s.a, RotL(s.b, 30), s.c, s.d)
  }

  function Rounds(s: State, block: seq<Byte>, t: nat): State
    requires |block| == 64 && t <= 80
  {
    if t == 0 then s else Round(Rounds(s, block, t - 1), t - 1, W(block, t - 1))
  }

  function AddStates(s: State, r: State): State {
    State(Add32(s.a, r.a), Add32(s.b, r.b), Add32(s.c, r.c), Add32(s.d, r.d), Add32(s.e, r.e))
  }

  function Compress(s: State, block: seq<Byte>): State
    requires |block| == 64
  {
    AddStates(s, Rounds(s, block, 80))
  }

  // 6.1.2: the blocks are processed in order.
  function HashBlocks(m: seq<Byte>): State
    requires |m| % 64 == 0
  {
    if m == [] then IV else Compress(HashBlocks(m[..|m| - 64]), m[|m| - 64..])
  }

  function Zeros(n: nat): seq<Byte> {
    seq(n, _ => 0)
  }

  // 5.1.1: the least k with |m| + 1 + k = 56 modulo 64 (counting bytes).
  function PadZeros(len: nat): (k: nat)
    ensures (len + 1 + k) % 64 == 56 && k < 64
  {
    (119 - len % 64) % 64
  }

  // The bit length as a 64-bit big-endian number.
  function Length64(bits: nat): seq<Byte> {
    [bits / 0x100000000000000 % 256, bits / 0x1000000000000 % 256, bits / 0x10000000000 % 256, bits / 0x100000000 % 256,
     bits / 0x1000000 % 256, bits / 0x10000 % 256, bits / 0x100 % 256, bits % 256]
  }

  function Pad(m: seq<Byte>): (p: seq<Byte>)
    ensures |p| % 64 == 0
  {
    var k := PadZeros(|m|);
    assert (|m| + 1 + k + 8) % 64 == 0;
    m + [0x80] + Zeros(k) + Length64(8 * |m|)
  }

  function Sha1(m: seq<Byte>): State {
    HashBlocks(Pad(m))
  }
}
