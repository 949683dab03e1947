// Operations on 32-bit words: those of FIPS 180-4 (sections 3.2 and 4.1.1), and the forms in
// which the hasher writes them.
module Bits32 {

  // Addition modulo 2^32.
  function Add32(x: bv32, y: bv32): bv32 { x + y }

  function Xor4(w: bv32, x: bv32, y: bv32, z: bv32): bv32 { w ^ x ^ y ^ z }

  function RotL(x: bv32, n: bv32): bv32
    requires 0 < n < 32
  {
    (x << n) | (x >> (32 - n))
  }

  function Ch(x: bv32, y: bv32, z: bv32): bv32 { (x & y) ^ (!x & z) }

  function Parity(x: bv32, y: bv32, z: bv32): bv32 { x ^ y ^ z }

  function Maj(x: bv32, y: bv32, z: bv32): bv32 { (x & y) ^ (x & z) ^ (y & z) }

  // leftRotate; called with the distances 1, 5 and 30 only.
  function LeftRotate(value: bv32, bits: bv32): bv32
    requires bits == 1 || bits == 5 || bits == 30
  {
    var delta := 32 - bits;
    var mask := !((1 << delta) - 1);
    (value << bits) | ((mask & value) >> delta)
  }

  lemma LeftRotateIsRotL(value: bv32, bits: bv32)
    requires bits == 1 || bits == 5 || bits == 30
    ensures LeftRotate(value, bits) == RotL(value, bits)
  {
    if bits == 1 {
    } else if bits == 5 {
    } else {
    }
  }

  // The selection and majority functions as _step writes them.
  function Choose(b: bv32, c: bv32, d: bv32): bv32 { (b & c) | (!b & d) }

  function Majority(b: bv32, c: bv32, d: bv32): bv32 { (b & c) | (b & d) | (c & d) }

  lemma DisjointOr(b: bv32, c: bv32, d: bv32)
    ensures (b & c) | (!b & d) == (b & c) ^ (!b & d)
  {
  }

  lemma ThreeWayOr(b: bv32, c: bv32, d: bv32)
    ensures (b & c) | (b & d) | (c & d) == (b & c) ^ (b & d) ^ (c & d)
  {
  }

  lemma ChooseIsCh(b: bv32, c: bv32, d: bv32)
    ensures Choose(b, c, d) == Ch(b, c, d)
  {
    DisjointOr(b, c, d);
  }

  lemma MajorityIsMaj(b: bv32, c: bv32, d: bv32)
    ensures Majority(b, c, d) == Maj(b, c, d)
  {
    ThreeWayOr(b, c, d);
  }
}
