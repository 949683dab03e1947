// Hexadecimal output of a 32-bit word: Number.toString(16) followed by padStart.
module Hex {

  function Digit(n: nat): char
    requires n < 16
  {
    "0123456789abcdef"[n]
  }

  function DigitValue(c: char): nat {
    if '0' <= c <= '9' then (c - '0') as nat
    else if 'a' <= c <= 'f' then (c - 'a') as nat + 10
    else 0
  }

  /** toString(16): no leading zero, "0" for zero. */
  function ToString16(n: nat): (s: string)
    ensures s != []
  {
    if n < 16 then [Digit(n)] else ToString16(n / 16) + [Digit(n % 16)]
  }

  function PadStart(s: string, len: nat): string {
    if |s| >= len then s else seq(len - |s|, _ => '0') + s
  }

  function ToHexString(value: bv32): string {
    PadStart(ToString16(value as nat), 8)
  }

  function Pow16(k: nat): nat {
    if k == 0 then 1 else 16 * Pow16(k - 1)
  }

  /** Reads a string of hexadecimal digits, the last one the least significant. */
  function Parse(s: string): nat {
    if s == [] then 0 else Parse(s[..|s| - 1]) * 16 + DigitValue(s[|s| - 1])
  }

  lemma {:induction false} ToString16Width(n: nat, k: nat)
    requires k > 0 && n < Pow16(k)
    ensures |ToString16(n)| <= k
  {
    if n >= 16 {
      ToString16Width(n / 16, k - 1);
    }
  }

  lemma DigitBack(d: nat)
    requires d < 16
    ensures DigitValue(Digit(d)) == d
  {
  }

  lemma {:induction false} ParseToString16(n: nat)
    ensures Parse(ToString16(n)) == n
  {
    DigitBack(n % 16);
    hide Digit, DigitValue;
    var s := ToString16(n);
    if n >= 16 {
      ParseToString16(n / 16);
      assert s[..|s| - 1] == ToString16(n / 16);
    } else {
      assert s[..0] == [];
    }
  }

  lemma {:induction false} ParseZeros(k: nat, s: string)
    ensures Parse(seq(k, _ => '0') + s) == Parse(s)
    decreases |s|, k
  {
    var z := seq(k, _ => '0');
    if s != [] {
      assert (z + s)[..|z + s| - 1] == z + s[..|s| - 1];
      ParseZeros(k, s[..|s| - 1]);
    } else if k > 0 {
      assert (z + s)[..k - 1] == seq(k - 1, _ => '0') + "";
      ParseZeros(k - 1, "");
    } else {
      assert z + s == s;
    }
  }

  lemma WordIsBounded(v: bv32)
    ensures v as nat < 0x1_0000_0000 && (v as nat) as bv32 == v
  {
  }

  // A 32-bit word is printed as eight digits that read back as the word.
  lemma HexRoundTrip(v: bv32)
    ensures |ToHexString(v)| == 8
    ensures Parse(ToHexString(v)) == v as nat
  {
    WordIsBounded(v);
    assert Pow16(4) == 0x10000;
    assert Pow16(8) == 0x1_0000_0000;
    ToString16Width(v as nat, 8);
    ParseToString16(v as nat);
    ParseZeros(8 - |ToString16(v as nat)|, ToString16(v as nat));
  }
}
