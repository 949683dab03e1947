// binaryIndexOf (buffer.ts): the Boyer-Moore-Horspool search over bytes.
module BinaryIndexOf {

  type Byte = x: int | 0 <= x < 256

  /** The needle occurs at position p. */
  predicate MatchesAt(haystack: seq<Byte>, needle: seq<Byte>, p: int) {
    0 <= p && p + |needle| <= |haystack| && haystack[p..p + |needle|] == needle
  }

  /** r is the least match at or after offset, or -1 if there is none. */
  ghost predicate IsIndexOf(haystack: seq<Byte>, needle: seq<Byte>, offset: nat, r: int) {
    if r == -1 then forall p :: offset <= p ==> !MatchesAt(haystack, needle, p)
    else offset <= r && MatchesAt(haystack, needle, r) && forall p :: offset <= p < r ==> !MatchesAt(haystack, needle, p)
  }

  // One past the last occurrence of c in the needle.
  function AfterLast(needle: seq<Byte>, c: Byte): (r: nat)
    ensures r <= |needle| && (r > 0 ==> needle[r - 1] == c)
    ensures forall k :: r <= k < |needle| ==> needle[k] != c
  {
    if needle == [] then 0
    else if needle[|needle| - 1] == c then |needle|
    else AfterLast(needle[..|needle| - 1], c)
  }

  // A shift is safe for byte c when it does not exceed the distance from the last c to the end of
  // the needle. The table stores distances modulo 256, which can only make them smaller.
  ghost predicate SafeShifts(table: seq<Byte>, needle: seq<Byte>) {
    |table| == 256 && forall c :: 0 <= c < 256 ==> table[c] <= |needle| - AfterLast(needle, c)
  }

  // No match starts at p if the byte it would put on position i differs.
  lemma Mismatch(haystack: seq<Byte>, needle: seq<Byte>, p: int, k: nat)
    requires 0 <= p && k < |needle| && p + k < |haystack| && haystack[p + k] != needle[k]
    ensures !MatchesAt(haystack, needle, p)
  {
    assert p + |needle| <= |haystack| ==> haystack[p..p + |needle|][k] == haystack[p + k];
  }

  // Where the needle would begin that is compared from its end on, j being the position in it that is next.
  function Start(needle: seq<Byte>, offset: nat, i: int, j: int): int {
    if j < |needle| then i - j else offset
  }

  // After a mismatch of needle[j] at position i no alignment up to the next one can match.
  lemma Skipped(haystack: seq<Byte>, needle: seq<Byte>, i: nat, j: nat, shift: nat, p: int)
    requires j < |needle| && j <= i < |haystack| && haystack[i] != needle[j]
    requires shift <= |needle| - AfterLast(needle, haystack[i])
    requires i - j <= p && (p == i - j || p + |needle| - 1 < i + shift)
    ensures !MatchesAt(haystack, needle, p)
  {
    var k := i - p;
    if p == i - j {
      Mismatch(haystack, needle, p, j);
    } else {
      assert AfterLast(needle, haystack[i]) <= k || k < 0;
      if 0 <= k < |needle| {
        Mismatch(haystack, needle, p, k);
      }
    }
  }

  // The table of lines 224-228, filled in a shared Uint8Array.
  method FillTable(table: array<Byte>, needle: seq<Byte>)
    requires table.Length == 256 && |needle| > 0
    modifies table
    ensures SafeShifts(table[..], needle)
  {
    for c := 0 to 256
      invariant forall d :: 0 <= d < c ==> table[d] == |needle| % 256
    {
      table[c] := |needle| % 256;
    }
    assert forall c :: 0 <= c < 256 ==> AfterLast(needle[..0], c) == 0;
    for i := 0 to |needle|
      invariant forall c :: 0 <= c < 256 ==> table[c] <= |needle| - AfterLast(needle[..i], c)
    {
      var n := needle[..i + 1];
      assert n[..i] == needle[..i];
      table[needle[i]] := (|needle| - i - 1) % 256;
      assert forall c :: 0 <= c < 256 && c != needle[i] ==> AfterLast(n, c) == AfterLast(needle[..i], c);
    }
    assert needle[..|needle|] == needle;
  }

  // Uint8Array.indexOf of a single byte.
  method IndexOfByte(haystack: seq<Byte>, b: Byte, offset: nat) returns (r: int)
    ensures IsIndexOf(haystack, [b], offset, r)
  {
    var i := offset;
    while i < |haystack|
      invariant offset <= i
      invariant forall p :: offset <= p < i ==> !MatchesAt(haystack, [b], p)
    {
      if haystack[i] == b {
        assert haystack[i..i + 1] == [b];
        return i;
      }
      Mismatch(haystack, [b], i, 0);
      i := i + 1;
    }
    return -1;
  }

  method BinaryIndexOf(haystack: seq<Byte>, needle: seq<Byte>, offset: nat, table: array<Byte>) returns (result: int)
    requires table.Length == 256
    modifies table
    ensures needle == [] ==> result == 0
    ensures needle != [] ==> IsIndexOf(haystack, needle, offset, result)
  {
    if |needle| == 0 {
      return 0;
    }
    if |needle| == 1 {
      assert needle == [needle[0]];
      result := IndexOfByte(haystack, needle[0], offset);
      return;
    }
    if |needle| > |haystack| - offset {
      return -1;
    }
    FillTable(table, needle);
    var i := offset + |needle| - 1;
    var j := i;
    result := -1;
    while i < |haystack|
      // behind the needle there is undefined, which no byte equals: with an offset the first round is a mismatch
      invariant 0 <= j && (j >= |needle| ==> i == offset + |needle| - 1)
      invariant offset <= Start(needle, offset, i, j)
      invariant i < |haystack| ==> Start(needle, offset, i, j) + |needle| <= |haystack|
      invariant forall k :: j < k < |needle| && i - j + k < |haystack| ==> haystack[i - j + k] == needle[k]
      invariant forall p :: offset <= p < Start(needle, offset, i, j) ==> !MatchesAt(haystack, needle, p)
      invariant SafeShifts(table[..], needle)
      decreases j >= |needle|, |haystack| - Start(needle, offset, i, j), j
    {
      if j < |needle| && haystack[i] == needle[j] {
        if j == 0 {
          assert haystack[i..i + |needle|] == needle;
          result := i;
          return;
        }
        i := i - 1;
        j := j - 1;
      } else {
        var step: int := if |needle| - j > table[haystack[i]] then |needle| - j else table[haystack[i]];
        assert table[..][haystack[i]] == table[haystack[i]];
        forall p | Start(needle, offset, i, j) <= p < i + step - (|needle| - 1) ensures !MatchesAt(haystack, needle, p) {
          Skipped(haystack, needle, i, if j < |needle| then j else |needle| - 1, table[haystack[i]], p);
        }
        i := i + step;
        j := |needle| - 1;
      }
    }
  }
}
