// The streaming hasher: one object fed with pieces of a UTF-16 string.
// A word that the source keeps as a JavaScript number but uses only through 32-bit
// operators is modelled by its residue, a bv32.
module StringSha1 {
  import opened Bits32
  import opened CodeUnits
  import opened Utf
  import opened Sha1Spec
  import Hex

  const BLOCK_SIZE := 64

  function HexState(s: State): string {
    Hex.ToHexString(s.a) + Hex.ToHexString(s.b) + Hex.ToHexString(s.c) + Hex.ToHexString(s.d) + Hex.ToHexString(s.e)
  }

  lemma FiveWords(a: string, b: string, c: string, d: string, e: string)
    requires |a| == |b| == |c| == |d| == |e| == 8
    ensures var x := a + b + c + d + e;
      |x| == 40 && x[0..8] == a && x[8..16] == b && x[16..24] == c && x[24..32] == d && x[32..40] == e
  {
  }

  lemma HexStateRoundTrip(s: State)
    ensures var x := HexState(s);
      && |x| == 40
      && Hex.Parse(x[0..8]) == s.a as nat && Hex.Parse(x[8..16]) == s.b as nat && Hex.Parse(x[16..24]) == s.c as nat
      && Hex.Parse(x[24..32]) == s.d as nat && Hex.Parse(x[32..40]) == s.e as nat
  {
    var x := HexState(s);
    Hex.HexRoundTrip(s.a);
    Hex.HexRoundTrip(s.b);
    Hex.HexRoundTrip(s.c);
    Hex.HexRoundTrip(s.d);
    Hex.HexRoundTrip(s.e);
    FiveWords(Hex.ToHexString(s.a), Hex.ToHexString(s.b), Hex.ToHexString(s.c), Hex.ToHexString(s.d), Hex.ToHexString(s.e));
  }

  // The printed digest determines the chaining value.
  lemma HexStateInjective(s: State, t: State)
    requires HexState(s) == HexState(t)
    ensures s == t
  {
    HexStateRoundTrip(s);
    HexStateRoundTrip(t);
    Hex.WordIsBounded(s.a); Hex.WordIsBounded(t.a);
    Hex.WordIsBounded(s.b); Hex.WordIsBounded(t.b);
    Hex.WordIsBounded(s.c); Hex.WordIsBounded(t.c);
    Hex.WordIsBounded(s.d); Hex.WordIsBounded(t.d);
    Hex.WordIsBounded(s.e); Hex.WordIsBounded(t.e);
  }

  // The text without a trailing high surrogate, which waits for its second half.
  function Settled(text: seq<CodeUnit>): seq<CodeUnit> {
    if EndsHigh(text) then text[..|text| - 1] else text
  }

  function Waiting(text: seq<CodeUnit>): seq<CodeUnit> {
    if EndsHigh(text) then [text[|text| - 1]] else []
  }

  lemma WaitingIsNonZero(text: seq<CodeUnit>)
    requires EndsHigh(text)
    ensures text[|text| - 1] != 0
  {
  }

  // A waiting surrogate that never gets its second half counts as U+FFFD.
  lemma SettledMessage(text: seq<CodeUnit>)
    ensures Message(text) == Message(Settled(text)) + if EndsHigh(text) then EncodePoint(REPLACEMENT) else []
  {
    var t, h := Settled(text), Waiting(text);
    assert text == t + h;
    if EndsHigh(text) {
      assert IsHighSurrogate(h[0]) && !StartsLow(h);
      ScalarsConcat(t, h);
      assert Scalars(h) == [REPLACEMENT] + Scalars(h[1..]) == [REPLACEMENT];
      Utf8Concat(Scalars(t), [REPLACEMENT]);
      Utf8One(REPLACEMENT);
    }
  }

  lemma Utf8One(cp: CodePoint)
    ensures Utf8([cp]) == EncodePoint(cp)
  {
    assert [cp][1..] == [];
    assert Utf8([cp]) == EncodePoint(cp) + Utf8([]);
  }

  // Text that follows a settled prefix is encoded on its own.
  lemma MessageConcat(a: seq<CodeUnit>, b: seq<CodeUnit>)
    requires !(EndsHigh(a) && StartsLow(b))
    ensures Message(a + b) == Message(a) + Message(b)
  {
    ScalarsConcat(a, b);
    Utf8Concat(Scalars(a), Scalars(b));
  }

  // A unit on its own, and a surrogate pair, as update encodes them.
  lemma MessageOne(c: CodeUnit)
    ensures Message([c]) == EncodePoint(if IsHighSurrogate(c) || IsLowSurrogate(c) then REPLACEMENT else c)
  {
    var cp := if IsHighSurrogate(c) || IsLowSurrogate(c) then REPLACEMENT else c;
    assert [c][1..] == [];
    assert Scalars([c]) == [cp] + Scalars([]) == [cp];
    Utf8One(cp);
  }

  lemma MessagePair(high: CodeUnit, low: CodeUnit)
    requires IsHighSurrogate(high) && IsLowSurrogate(low)
    ensures Message([high, low]) == EncodePoint(ComputeCodePoint(high, low))
  {
    var cp := ComputeCodePoint(high, low);
    assert [high, low][1..] == [low] && [high, low][2..] == [];
    assert Scalars([high, low]) == [cp] + Scalars([]) == [cp];
    Utf8One(cp);
  }

  // No surrogate pair straddles the point between t + v[..i] and v[i..].
  predicate Clean(t: seq<CodeUnit>, v: seq<CodeUnit>, i: nat)
    requires i < |v|
  {
    !(EndsHigh(t + v[..i]) && IsLowSurrogate(v[i]))
  }

  // One unit of v is encoded alone unless it starts a pair.
  lemma ConsumeOne(t: seq<CodeUnit>, v: seq<CodeUnit>, i: nat)
    requires i < |v| && Clean(t, v, i)
    requires !(IsHighSurrogate(v[i]) && i + 1 < |v| && IsLowSurrogate(v[i + 1]))
    ensures Message(t + v[..i + 1]) == Message(t + v[..i])
      + EncodePoint(if IsHighSurrogate(v[i]) || IsLowSurrogate(v[i]) then REPLACEMENT else v[i])
    ensures i + 1 < |v| ==> Clean(t, v, i + 1)
  {
    assert t + v[..i + 1] == (t + v[..i]) + [v[i]];
    MessageConcat(t + v[..i], [v[i]]);
    MessageOne(v[i]);
  }

  lemma ConsumeTwo(t: seq<CodeUnit>, v: seq<CodeUnit>, i: nat)
    requires i + 1 < |v| && Clean(t, v, i)
    requires IsHighSurrogate(v[i]) && IsLowSurrogate(v[i + 1])
    ensures Message(t + v[..i + 2]) == Message(t + v[..i]) + EncodePoint(ComputeCodePoint(v[i], v[i + 1]))
    ensures i + 2 < |v| ==> Clean(t, v, i + 2)
  {
    assert t + v[..i + 2] == (t + v[..i]) + [v[i], v[i + 1]];
    MessageConcat(t + v[..i], [v[i], v[i + 1]]);
    MessagePair(v[i], v[i + 1]);
    assert (t + v[..i + 2])[|t| + i + 1] == v[i + 1];
  }

  // Where an update starts: the waiting surrogate joins the new piece.
  lemma Resume(text: seq<CodeUnit>, str: seq<CodeUnit>, leftover: CodeUnit, v: seq<CodeUnit>)
    requires str != [] && leftover == (if EndsHigh(text) then text[|text| - 1] else 0)
    requires v == (if leftover != 0 then [leftover] else []) + str
    ensures Settled(text) + v == text + str
    ensures Clean(Settled(text), v, 0)
    ensures Settled(text) + v[..0] == Settled(text)
  {
  }

  // Where an update ends.
  lemma Suspend(t: seq<CodeUnit>, v: seq<CodeUnit>)
    requires v != []
    ensures IsHighSurrogate(v[|v| - 1]) ==>
      EndsHigh(t + v) && (t + v)[|t + v| - 1] == v[|v| - 1] && Settled(t + v) == t + v[..|v| - 1]
    ensures !IsHighSurrogate(v[|v| - 1]) ==> !EndsHigh(t + v) && Settled(t + v) == t + v[..|v|]
  {
    assert v[..|v|] == v;
  }

  function BigEndian32(v: nat): seq<Byte> {
    [v / 0x1000000 % 256, v / 0x10000 % 256, v / 0x100 % 256, v % 256]
  }

  lemma HighBytes(n: nat)
    ensures n / 0x100000000 / 0x100 == n / 0x10000000000
    ensures n / 0x100000000 / 0x10000 == n / 0x1000000000000
    ensures n / 0x100000000 / 0x1000000 == n / 0x100000000000000
  {
  }

  lemma LowByte0(q: nat, r: nat)
    ensures (0x100000000 * q + r) % 0x100 == r % 0x100
  {
    assert 0x100000000 * q + r == 0x100 * (0x1000000 * q) + r;
  }

  lemma LowByte1(n: nat)
    ensures n % 0x100000000 / 0x100 % 0x100 == n / 0x100 % 0x100 && n % 0x100000000 % 0x100 == n % 0x100
  {
    LowByte0(n / 0x100000000, n % 0x100000000);
    assert n / 0x100 == n / 0x100000000 * 0x1000000 + n % 0x100000000 / 0x100;
  }

  lemma LowByte2(n: nat)
    ensures n % 0x100000000 / 0x10000 % 0x100 == n / 0x10000 % 0x100
  {
    assert n / 0x10000 == n / 0x100000000 * 0x10000 + n % 0x100000000 / 0x10000;
  }

  lemma LowByte3(n: nat)
    ensures n % 0x100000000 / 0x1000000 % 0x100 == n / 0x1000000 % 0x100
  {
    assert n / 0x1000000 == n / 0x100000000 * 0x100 + n % 0x100000000 / 0x1000000;
  }

  // The two stores of the length field write the 64-bit number.
  lemma LengthField(bits: nat)
    ensures BigEndian32(bits / 0x100000000) + BigEndian32(bits % 0x100000000) == Length64(bits)
  {
    HighBytes(bits);
    LowByte1(bits);
    LowByte2(bits);
    LowByte3(bits);
  }

  // The final blocks: one when the length field still fits behind the 0x80, else two.
  lemma PadOneBlock(m: seq<Byte>, len: nat)
    requires len <= |m| && (|m| - len) % 64 == 0 && len <= 55
    ensures Pad(m) == m[..|m| - len] + (m[|m| - len..] + [0x80] + Zeros(55 - len) + Length64(8 * |m|))
  {
    assert |m| % 64 == len;
    assert m == m[..|m| - len] + m[|m| - len..];
  }

  lemma PadTwoBlocks(m: seq<Byte>, len: nat)
    requires len <= |m| && (|m| - len) % 64 == 0 && 56 <= len < 64
    ensures Pad(m) == m[..|m| - len] + (m[|m| - len..] + [0x80] + Zeros(63 - len)) + (Zeros(56) + Length64(8 * |m|))
  {
    assert |m| % 64 == len;
    assert m == m[..|m| - len] + m[|m| - len..];
    assert Zeros(PadZeros(|m|)) == Zeros(63 - len) + Zeros(56);
  }

  lemma HashBlocksStep(m: seq<Byte>, block: seq<Byte>)
    requires |m| % 64 == 0 && |block| == 64
    ensures HashBlocks(m + block) == Compress(HashBlocks(m), block)
  {
    var all := m + block;
    assert all[..|all| - 64] == m && all[|all| - 64..] == block;
  }

  // The whole schedule of a block.
  ghost function Words(block: seq<Byte>): (ws: seq<bv32>)
    requires |block| == 64
    ensures |ws| == 80 && forall t :: 0 <= t < 80 ==> ws[t] == W(block, t)
  {
    seq(80, t requires 0 <= t < 80 => W(block, t))
  }

  lemma WordAt(block: seq<Byte>, t: nat)
    requires |block| == 64 && t < 80
    ensures t < 16 ==> Words(block)[t] == Word(block[4 * t], block[4 * t + 1], block[4 * t + 2], block[4 * t + 3])
    ensures var ws := Words(block);
      t >= 16 ==> ws[t] == RotL(Xor4(ws[t - 3], ws[t - 8], ws[t - 14], ws[t - 16]), 1)
  {
  }

  lemma RoundsStep(s: State, block: seq<Byte>, t: nat)
    requires |block| == 64 && t < 80
    ensures Rounds(s, block, t + 1) == Round(Rounds(s, block, t), t, Words(block)[t])
  {
  }

  // The message in front of and behind the first block of the buffer.
  lemma FlushParts(m: seq<Byte>, done: nat, stored: seq<Byte>, len: nat)
    requires 64 <= len <= |stored| && done + len == |m| && m[done..] == stored[..len]
    ensures m[..done + 64] == m[..done] + stored[..64] && m[done + 64..] == stored[64..len]
  {
    var t := m[done..];
    assert m[..done + 64] == m[..done] + t[..64] && m[done + 64..] == t[64..];
  }

  class Sha1 {
    // The schedule of the step in progress; shared by all objects in the source, where every
    // step fills it before reading it.
    const bigBlock: array<bv32>
    const buff: array<Byte>
    var h0: bv32
    var h1: bv32
    var h2: bv32
    var h3: bv32
    var h4: bv32
    var buffLen: nat
    var totalLen: nat
    var leftoverHighSurrogate: CodeUnit
    var finished: bool
    ghost var text: seq<CodeUnit>

    ghost predicate Shape()
      reads this
    {
      buff.Length == BLOCK_SIZE + 3 && bigBlock.Length == 80
    }

    function Chaining(): State
      reads this
    {
      State(h0, h1, h2, h3, h4)
    }

    // The object has hashed the first totalLen bytes of m and buffers the other len.
    ghost predicate Holds(m: seq<Byte>, len: nat)
      reads this, buff
    {
      && Shape()
      && totalLen % 64 == 0 && totalLen + len == |m|
      && len <= 67
      && buff[..len] == m[totalLen..]
      && Chaining() == HashBlocks(m[..totalLen])
    }

    // Everything fed so far is accounted for, except a high surrogate that waits for its pair.
    ghost predicate Live()
      reads this, buff
    {
      && !finished
      && buffLen < 64 && Holds(Message(Settled(text)), buffLen)
      && leftoverHighSurrogate == (if EndsHigh(text) then text[|text| - 1] else 0)
    }

    constructor ()
      ensures Valid() && Live() && !finished && text == [] && fresh(buff) && fresh(bigBlock)
    {
      h0, h1, h2, h3, h4 := 0x67452301, 0xEFCDAB89, 0x98BADCFE, 0x10325476, 0xC3D2E1F0;
      buff := new Byte[BLOCK_SIZE + 3](_ => 0);
      bigBlock := new bv32[80](_ => 0);
      buffLen := 0;
      totalLen := 0;
      leftoverHighSurrogate := 0;
      finished := false;
      text := [];
    }

    // _step, lines 278-284: the message schedule.
    method FillBigBlock()
      requires Shape()
      modifies bigBlock
      ensures bigBlock[..] == Words(buff[..64])
    {
      hide RotL, LeftRotate, Word, W, Words, Xor4;
      ghost var block := buff[..64];
      ghost var ws := Words(block);
      for j := 0 to 16
        invariant forall i :: 0 <= i < j ==> bigBlock[i] == ws[i]
      {
        WordAt(block, j);
        bigBlock[j] := Word(buff[4 * j], buff[4 * j + 1], buff[4 * j + 2], buff[4 * j + 3]);
      }
      for j := 16 to 80
        invariant forall i :: 0 <= i < j ==> bigBlock[i] == ws[i]
      {
        WordAt(block, j);
        var x := Xor4(bigBlock[j - 3], bigBlock[j - 8], bigBlock[j - 14], bigBlock[j - 16]);
        LeftRotateIsRotL(x, 1);
        bigBlock[j] := LeftRotate(x, 1);
      }
    }

    // _step, lines 296-308.
    method Selection(j: nat, b: bv32, c: bv32, d: bv32) returns (f: bv32, k: bv32)
      requires j < 80
      ensures f == F(j, b, c, d) && k == K(j)
    {
      hide Ch, Maj, Parity, Choose, Majority;
      if j < 20 {
        f, k := Choose(b, c, d), 0x5A827999;
        ChooseIsCh(b, c, d);
      } else if j < 40 {
        f, k := Parity(b, c, d), 0x6ED9EBA1;
      } else if j < 60 {
        f, k := Majority(b, c, d), 0x8F1BBCDC;
        MajorityIsMaj(b, c, d);
      } else {
        f, k := Parity(b, c, d), 0xCA62C1D6;
      }
    }

    // _step
    method Step()
      requires Shape()
      modifies this`h0, this`h1, this`h2, this`h3, this`h4, bigBlock
      ensures Chaining() == Compress(old(Chaining()), buff[..64])
    {
      hide RotL, F, K, LeftRotate, Add32;
      ghost var block := buff[..64];
      ghost var start := Chaining();
      FillBigBlock();
      var a, b, c, d, e := h0, h1, h2, h3, h4;
      for j := 0 to 80
        invariant State(a, b, c, d, e) == Rounds(start, block, j)
        invariant Chaining() == start && bigBlock[..] == Words(block)
      {
        var f, k := Selection(j, b, c, d);
        var temp := Add32(Add32(Add32(Add32(LeftRotate(a, 5), f), e), k), bigBlock[j]);
        RoundsStep(start, block, j);
        LeftRotateIsRotL(a, 5);
        LeftRotateIsRotL(b, 30);
        assert bigBlock[j] == bigBlock[..][j] == Words(block)[j];
        assert State(temp, a, LeftRotate(b, 30), c, d) == Round(State(a, b, c, d, e), j, Words(block)[j]);
        e, d, c, b, a := d, c, LeftRotate(b, 30), a, temp;
      }
      h0, h1, h2, h3, h4 := Add32(h0, a), Add32(h1, b), Add32(h2, c), Add32(h3, d), Add32(h4, e);
    }

    // A store into a typed array: out of range it has no effect.
    method Store(i: nat, b: Byte)
      requires Shape()
      modifies buff
      ensures buff[..] == if i < 67 then old(buff[..])[i := b] else old(buff[..])
    {
      if i < buff.Length {
        buff[i] := b;
      }
    }

    // _push, lines 212-226: on a live object no store is out of range.
    method StorePoint(len: nat, codePoint: CodePoint) returns (r: nat)
      requires Shape() && len <= 64
      modifies buff
      ensures r == len + |EncodePoint(codePoint)|
      ensures r <= 67 ==> buff[..r] == old(buff[..])[..len] + EncodePoint(codePoint)
    {
      r := len;
      if codePoint < 0x80 {
        Store(r, codePoint);
        r := r + 1;
      } else if codePoint < 0x800 {
        Store(r, 0xC0 + codePoint / 64);
        Store(r + 1, 0x80 + codePoint % 64);
        r := r + 2;
      } else if codePoint < 0x10000 {
        Store(r, 0xE0 + codePoint / 64 / 64);
        Store(r + 1, 0x80 + codePoint / 64 % 64);
        Store(r + 2, 0x80 + codePoint % 64);
        r := r + 3;
      } else {
        Store(r, 0xF0 + codePoint / 64 / 64 / 64);
        Store(r + 1, 0x80 + codePoint / 64 / 64 % 64);
        Store(r + 2, 0x80 + codePoint / 64 % 64);
        Store(r + 3, 0x80 + codePoint % 64);
        r := r + 4;
      }
      assert r <= 67 ==> buff[..r] == buff[..][..r];
    }

    // _push, lines 228-236.
    method Flush(len: nat, ghost m: seq<Byte>) returns (r: nat)
      requires Shape() && BLOCK_SIZE <= len
      modifies this`h0, this`h1, this`h2, this`h3, this`h4, this`totalLen, buff, bigBlock
      ensures r == len - BLOCK_SIZE
      ensures old(Holds(m, len)) ==> Holds(m, r)
    {
      hide HashBlocks, Compress;
      ghost var live, done, stored := Holds(m, len), totalLen, buff[..];
      assert stored[..64] == buff[..64];
      if live {
        FlushParts(m, done, stored, len);
        HashBlocksStep(m[..done], stored[..64]);
      }
      Step();
      r := len - BLOCK_SIZE;
      totalLen := totalLen + BLOCK_SIZE;
      buff[0] := buff[BLOCK_SIZE];
      buff[1] := buff[BLOCK_SIZE + 1];
      buff[2] := buff[BLOCK_SIZE + 2];
      if live {
        assert buff[..r] == stored[64..64 + r];
      }
    }

    // _push: the bytes of the code point join the message.
    method Push(len: nat, codePoint: CodePoint, ghost m: seq<Byte>) returns (r: nat)
      requires Shape() && len <= 64
      modifies this`h0, this`h1, this`h2, this`h3, this`h4, this`totalLen, buff, bigBlock
      ensures r <= 64
      ensures old(Holds(m, len)) && len < 64 ==> r < 64 && Holds(m + EncodePoint(codePoint), r)
    {
      ghost var m' := m + EncodePoint(codePoint);
      ghost var live := Holds(m, len) && len < 64;
      if live {
        assert m'[..totalLen] == m[..totalLen] && m'[totalLen..] == buff[..len] + EncodePoint(codePoint);
        assert buff[..][..len] == buff[..len];
      }
      r := StorePoint(len, codePoint);
      assert live ==> Holds(m', r);
      if r >= BLOCK_SIZE {
        r := Flush(r, m');
      }
    }

    ghost predicate Valid()
      reads this, buff
    {
      Shape() && buffLen <= 64 && (!finished ==> Live())
    }

    // The first i units after the settled text t are encoded.
    ghost predicate Consumed(t: seq<CodeUnit>, v: seq<CodeUnit>, i: nat, len: nat)
      requires i <= |v|
      reads this, buff
    {
      len < 64 && Holds(Message(t + v[..i]), len) && (i < |v| ==> Clean(t, v, i))
    }

    // The body of the loop of update; over when offset reaches the end of the piece or the last
    // unit of the piece is a high surrogate.
    method UpdateStep(str: seq<CodeUnit>, len: nat, charCode: CodeUnit, offset: int,
                      ghost t: seq<CodeUnit>, ghost v: seq<CodeUnit>) returns (len': nat, offset': int, leftover: CodeUnit)
      requires Shape() && len <= 64 && |str| <= |v| <= |str| + 1 && v[|v| - |str|..] == str
      requires |str| - |v| <= offset < |str| && v[offset + |v| - |str|] == charCode
      modifies this`h0, this`h1, this`h2, this`h3, this`h4, this`totalLen, buff, bigBlock
      ensures len' <= 64 && offset < offset' <= |str|
      ensures leftover != 0 ==> offset' == |str| == offset + 1 && IsHighSurrogate(charCode) && leftover == charCode
      ensures leftover == 0 && offset' == |str| ==> !IsHighSurrogate(v[|v| - 1])
      ensures old(Consumed(t, v, offset + |v| - |str|, len)) ==>
        Consumed(t, v, (if leftover != 0 then offset else offset') + |v| - |str|, len')
    {
      hide Message, HashBlocks, ComputeCodePoint, EncodePoint, Clean;
      ghost var i := offset + |v| - |str|;
      assert forall k :: |v| - |str| <= k < |v| ==> v[k] == str[k - (|v| - |str|)];
      leftover, offset', len' := 0, offset, len;
      var codePoint: CodePoint := charCode;
      if IsHighSurrogate(charCode) {
        if offset + 1 < |str| {
          var nextCharCode := str[offset + 1];
          if IsLowSurrogate(nextCharCode) {
            offset' := offset' + 1;
            codePoint := ComputeCodePoint(charCode, nextCharCode);
          } else {
            codePoint := REPLACEMENT;
          }
        } else {
          leftover := charCode;
          offset' := offset + 1;
          return;
        }
      } else if IsLowSurrogate(charCode) {
        codePoint := REPLACEMENT;
      }
      if Consumed(t, v, i, len) {
        if offset' == offset {
          ConsumeOne(t, v, i);
        } else {
          ConsumeTwo(t, v, i);
        }
      }
      len' := Push(len, codePoint, Message(t + v[..i]));
      offset' := offset' + 1;
    }

    // The loop of update.
    method UpdateLoop(str: seq<CodeUnit>, ghost t: seq<CodeUnit>, ghost v: seq<CodeUnit>) returns (len: nat, leftover: CodeUnit)
      requires Shape() && buffLen <= 64 && str != []
      requires v == (if leftoverHighSurrogate != 0 then [leftoverHighSurrogate] else []) + str
      modifies this`h0, this`h1, this`h2, this`h3, this`h4, this`totalLen, buff, bigBlock
      ensures len <= 64
      ensures if leftover != 0 then IsHighSurrogate(leftover) && leftover == v[|v| - 1] else !IsHighSurrogate(v[|v| - 1])
      ensures old(Consumed(t, v, 0, buffLen)) ==> Consumed(t, v, if leftover != 0 then |v| - 1 else |v|, len)
    {
      hide Consumed, IsHighSurrogate, IsLowSurrogate;
      ghost var live := Consumed(t, v, 0, buffLen);
      ghost var base := |v| - |str|;
      var charCode: CodeUnit;
      var offset: int;
      len, leftover := buffLen, leftoverHighSurrogate;
      if leftover != 0 {
        charCode, offset, leftover := leftover, -1, 0;
      } else {
        charCode, offset := str[0], 0;
      }
      while true
        invariant len <= 64 && -base <= offset < |str| && charCode == v[offset + base] && leftover == 0
        invariant live ==> Consumed(t, v, offset + base, len)
        decreases |str| - offset
      {
        len, offset, leftover := UpdateStep(str, len, charCode, offset, t, v);
        if leftover != 0 || offset == |str| {
          break;
        }
        charCode := str[offset];
      }
    }

    // update
    method Update(str: seq<CodeUnit>)
      requires Valid()
      modifies this, buff, bigBlock
      ensures Valid() && finished == old(finished)
      ensures !finished ==> text == old(text) + str
    {
      hide Message, IsHighSurrogate, IsLowSurrogate, HashBlocks, Settled, EndsHigh, Clean;
      if |str| == 0 {
        assert old(text) + str == old(text);
        return;
      }
      ghost var t := Settled(text);
      ghost var v := (if leftoverHighSurrogate != 0 then [leftoverHighSurrogate] else []) + str;
      if !finished {
        Resume(text, str, leftoverHighSurrogate, v);
      }
      var len, leftover := UpdateLoop(str, t, v);
      Suspend(t, v);
      buffLen := len;
      leftoverHighSurrogate := leftover;
      text := text + str;
      assert !finished ==> text == t + v;
    }

    // A big-endian store into the buffer.
    method SetUint32(i: nat, value: nat)
      requires Shape() && i + 4 <= 67
      modifies buff
      ensures buff[..] == old(buff[..i]) + BigEndian32(value) + old(buff[i + 4..])
    {
      buff[i] := value / 0x1000000 % 256;
      buff[i + 1] := value / 0x10000 % 256;
      buff[i + 2] := value / 0x100 % 256;
      buff[i + 3] := value % 256;
    }

    // TypedArray.fill(0) from an index on.
    method FillZero(from: nat)
      requires Shape() && from <= 67
      modifies buff
      ensures buff[..] == old(buff[..from]) + Zeros(67 - from)
    {
      for i := from to 67
        invariant buff[..from] == old(buff[..from])
        invariant forall k :: from <= k < i ==> buff[k] == 0
      {
        buff[i] := 0;
      }
    }

    // _wrapUp, lines 266-271: the length field completes the last block.
    method FinishBlock(ghost done: seq<Byte>, ghost front: seq<Byte>)
      requires Shape() && |done| % 64 == 0 && Chaining() == HashBlocks(done)
      requires |front| == 56 && buff[..56] == front
      modifies this`h0, this`h1, this`h2, this`h3, this`h4, buff, bigBlock
      ensures Chaining() == HashBlocks(done + (front + Length64(8 * totalLen)))
    {
      var ml := 8 * totalLen;
      SetUint32(56, ml / 0x100000000);
      SetUint32(60, ml % 0x100000000);
      LengthField(ml);
      assert buff[..64] == buff[..][..64] == front + Length64(ml);
      HashBlocksStep(done, buff[..64]);
      Step();
    }

    // _wrapUp
    method WrapUp(ghost m: seq<Byte>)
      requires buffLen < 64 && totalLen == |m| && buffLen <= |m| && (|m| - buffLen) % 64 == 0
      requires Shape() && buff[..buffLen] == m[|m| - buffLen..]
      requires Chaining() == HashBlocks(m[..|m| - buffLen])
      modifies this`h0, this`h1, this`h2, this`h3, this`h4, this`buffLen, buff, bigBlock
      ensures buffLen <= 64 && Chaining() == Sha1Spec.Sha1(m)
    {
      hide Pad, Length64, HashBlocks, Compress;
      ghost var len, done, tail := buffLen, m[..|m| - buffLen], m[|m| - buffLen..];
      buff[buffLen] := 0x80;
      buffLen := buffLen + 1;
      assert buff[..buffLen] == tail + [0x80];
      FillZero(buffLen);
      assert buff[..64] == buff[..][..64] == tail + [0x80] + Zeros(63 - len);
      if buffLen > 56 {
        HashBlocksStep(done, buff[..64]);
        Step();
        FillZero(0);
        assert buff[..56] == buff[..][..56] == Zeros(56);
        PadTwoBlocks(m, len);
        FinishBlock(done + (tail + [0x80] + Zeros(63 - len)), Zeros(56));
      } else {
        assert buff[..56] == buff[..64][..56] == tail + [0x80] + Zeros(55 - len);
        PadOneBlock(m, len);
        FinishBlock(done, tail + [0x80] + Zeros(55 - len));
      }
    }

    // digest: the bit length is exact only below 2^53, where the source computes it.
    method Digest() returns (s: string)
      requires Valid()
      modifies this, buff, bigBlock
      ensures Valid() && finished && s == HexState(Chaining()) && text == old(text)
      ensures !old(finished) && 8 * |Message(text)| < 0x20_0000_0000_0000 ==> s == HexState(Sha1Spec.Sha1(Message(text)))
      ensures old(finished) ==> Chaining() == old(Chaining())
    {
      hide Message, IsHighSurrogate, HashBlocks, Sha1Spec.Sha1, HexState;
      if !finished {
        finished := true;
        ghost var m := Message(Settled(text));
        SettledMessage(text);
        if EndsHigh(text) {
          WaitingIsNonZero(text);
        }
        if leftoverHighSurrogate != 0 {
          leftoverHighSurrogate := 0;
          buffLen := Push(buffLen, REPLACEMENT, m);
          m := m + EncodePoint(REPLACEMENT);
        }
        totalLen := totalLen + buffLen;
        WrapUp(m);
      }
      s := HexState(Chaining());
    }
  }

  // The pieces of a text in order.
  function Joined(pieces: seq<seq<CodeUnit>>): seq<CodeUnit> {
    if pieces == [] then [] else Joined(pieces[..|pieces| - 1]) + pieces[|pieces| - 1]
  }

  lemma NothingJoined(pieces: seq<seq<CodeUnit>>)
    ensures Joined(pieces[..0]) == []
  {
  }

  lemma JoinedNext(pieces: seq<seq<CodeUnit>>, i: nat)
    requires i < |pieces|
    ensures Joined(pieces[..i + 1]) == Joined(pieces[..i]) + pieces[i]
  {
    assert pieces[..i + 1][..i] == pieces[..i];
  }

  // Feeding a text in any pieces, even cut inside a surrogate pair, gives the digest of the whole.
  method HashPieces(pieces: seq<seq<CodeUnit>>) returns (s: string)
    requires 8 * |Message(Joined(pieces))| < 0x20_0000_0000_0000
    ensures s == HexState(Sha1Spec.Sha1(Message(Joined(pieces))))
  {
    hide *;
    var sha := new Sha1();
    NothingJoined(pieces);
    for i := 0 to |pieces|
      invariant sha.Valid() && !sha.finished && sha.text == Joined(pieces[..i])
      invariant fresh(sha) && fresh(sha.buff) && fresh(sha.bigBlock)
    {
      sha.Update(pieces[i]);
      JoinedNext(pieces, i);
    }
    assert pieces[..|pieces|] == pieces;
    s := sha.Digest();
  }

  // hashAsync on a short string.
  method HashShort(input: seq<CodeUnit>) returns (s: string)
    requires |input| < 250
    ensures s == HexState(Sha1Spec.Sha1(Message(input)))
  {
    var sha := new Sha1();
    sha.Update(input);
    MessageLength(input);
    assert [] + input == input;
    s := sha.Digest();
  }
}
