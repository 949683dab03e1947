// scoreFuzzy, doScoreFuzzy and computeCharScore (fuzzyScorer.ts): the table of the best scores
// of query prefixes in target prefixes, and the walk back over the matches.
module FuzzyScorer {
  import opened CodeUnits

  const NO_MATCH := 0
  const SLASH: CodeUnit := 0x2F
  const BACKSLASH: CodeUnit := 0x5C

  /** The arguments of one call, with the lower-case forms given. */
  datatype Input = Input(query: seq<CodeUnit>, queryLower: seq<CodeUnit>, target: seq<CodeUnit>, targetLower: seq<CodeUnit>,
                         allowNonContiguousMatches: bool)
  {
    ghost predicate Valid() {
      |queryLower| == |query| && |targetLower| == |target|
    }

    ghost predicate Matches(q: nat, t: nat) {
      Valid() && q < |query| && t < |target| && ConsiderAsEqual(queryLower[q], targetLower[t])
    }

    /** String.startsWith at a position. */
    predicate StartsAt(t: nat) {
      t + |queryLower| <= |targetLower| && targetLower[t..t + |queryLower|] == queryLower
    }

    // Where the first unit of the query may match.
    predicate MayStart(t: nat) {
      allowNonContiguousMatches || StartsAt(t)
    }

    /** e places the first n query units, in order, on equal target units before position `limit`. */
    ghost predicate Embeds(e: seq<nat>, n: nat, limit: int) {
      && Valid() && |e| == n && n <= |query|
      && (forall i :: 0 <= i < n ==> Matches(i, e[i]) && e[i] < limit)
      && (forall i, j :: 0 <= i < j < n ==> e[i] < e[j])
      && (n > 0 ==> MayStart(e[0]))
    }
  }

  predicate ConsiderAsEqual(a: CodeUnit, b: CodeUnit) {
    a == b || ((a == SLASH || a == BACKSLASH) && (b == SLASH || b == BACKSLASH))
  }

  function ScoreSeparatorAtPos(code: CodeUnit): nat {
    if code == SLASH || code == BACKSLASH then 5
    else if code in {0x5F, 0x2D, 0x2E, 0x20, 0x27, 0x22, 0x3A} then 4
    else 0
  }

  predicate IsUpper(code: CodeUnit) {
    0x41 <= code <= 0x5A
  }

  function Min(a: nat, b: nat): nat { if a < b then a else b }

  function Max(a: int, b: int): int { if a < b then b else a }

  function ComputeCharScore(x: Input, q: nat, t: nat, matchesSequenceLength: nat): (score: nat)
    requires x.Valid() && q < |x.query| && t < |x.target|
    ensures score > 0 <==> x.Matches(q, t)
  {
    if !ConsiderAsEqual(x.queryLower[q], x.targetLower[t]) then 0
    else
      var sequence := if matchesSequenceLength > 0
                      then Min(matchesSequenceLength, 3) * 6 + Max(0, matchesSequenceLength - 3) * 3 else 0;
      var same := if x.query[q] == x.target[t] then 1 else 0;
      var place :=
        if t == 0 then 8
        else
          var separatorBonus := ScoreSeparatorAtPos(x.target[t - 1]);
          if separatorBonus > 0 then separatorBonus
          else if IsUpper(x.target[t]) && matchesSequenceLength == 0 then 2
          else 0;
      1 + sequence + same + place
  }

  datatype Cell = Cell(score: nat, matches: nat)

  // Lines 49-62: one cell from its left and its diagonal neighbour.
  function NextCell(x: Input, q: nat, t: nat, left: nat, diag: Cell): Cell
    requires x.Valid() && q < |x.query| && t < |x.target|
  {
    var score := if diag.score == 0 && q > 0 then 0 else ComputeCharScore(x, q, t, diag.matches);
    if score > 0 && diag.score + score >= left && (q > 0 || x.MayStart(t)) then
      Cell(diag.score + score, diag.matches + 1)
    else
      Cell(left, NO_MATCH)
  }

  ghost function CellAt(x: Input, q: nat, t: nat): Cell
    requires x.Valid() && q < |x.query| && t < |x.target|
    decreases q, t
  {
    NextCell(x, q, t,
             if t > 0 then CellAt(x, q, t - 1).score else 0,
             if q > 0 && t > 0 then CellAt(x, q - 1, t - 1) else Cell(0, 0))
  }

  // The best score of the first n query units in the first m target units.
  ghost function ScoreOf(x: Input, n: nat, m: nat): nat
    requires x.Valid() && 0 < n <= |x.query| && m <= |x.target|
  {
    if m == 0 then 0 else CellAt(x, n - 1, m - 1).score
  }

  lemma {:induction false} ScoreGrows(x: Input, q: nat, t: nat, t': nat)
    requires x.Valid() && q < |x.query| && t <= t' < |x.target|
    ensures CellAt(x, q, t).score <= CellAt(x, q, t').score
    decreases t'
  {
    if t < t' {
      ScoreGrows(x, q, t, t' - 1);
    }
  }

  // A positive cell is a match, or a positive cell to the left.
  lemma PositiveCell(x: Input, q: nat, t: nat)
    requires x.Valid() && q < |x.query| && t < |x.target|
    ensures CellAt(x, q, t).score > 0 <==>
      (t > 0 && CellAt(x, q, t - 1).score > 0)
      || (x.Matches(q, t) && if q == 0 then x.MayStart(t) else t > 0 && CellAt(x, q - 1, t - 1).score > 0)
    ensures CellAt(x, q, t).matches != NO_MATCH ==>
      CellAt(x, q, t).score > 0 && x.Matches(q, t) && if q == 0 then x.MayStart(t) else t > 0 && CellAt(x, q - 1, t - 1).score > 0
    ensures CellAt(x, q, t).matches == NO_MATCH ==> CellAt(x, q, t).score == if t > 0 then CellAt(x, q, t - 1).score else 0
  {
  }

  lemma EmbeddingGrows(x: Input, d: seq<nat>, n: nat, m: nat)
    requires n > 1 && m > 0 && x.Embeds(d, n - 1, m - 1) && x.Matches(n - 1, m - 1)
    ensures x.Embeds(d + [m - 1], n, m)
  {
    var e := d + [m - 1];
    forall i | 0 <= i < n ensures x.Matches(i, e[i]) && e[i] < m {
      if i < n - 1 {
        assert x.Matches(i, d[i]);
      }
    }
  }

  lemma {:induction false} PositiveEmbeds(x: Input, n: nat, m: nat) returns (e: seq<nat>)
    requires x.Valid() && 0 < n <= |x.query| && m <= |x.target| && ScoreOf(x, n, m) > 0
    ensures x.Embeds(e, n, m)
    decreases n, m
  {
    PositiveCell(x, n - 1, m - 1);
    if m > 1 && ScoreOf(x, n, m - 1) > 0 {
      e := PositiveEmbeds(x, n, m - 1);
    } else if n == 1 {
      e := [m - 1];
    } else {
      var d := PositiveEmbeds(x, n - 1, m - 1);
      e := d + [m - 1];
      EmbeddingGrows(x, d, n, m);
    }
  }

  lemma {:induction false} EmbeddingIsPositive(x: Input, e: seq<nat>, n: nat, m: nat)
    requires 0 < n && m <= |x.target| && x.Embeds(e, n, m)
    ensures ScoreOf(x, n, m) > 0
    decreases n
  {
    hide CellAt;
    var t := e[n - 1];
    assert x.Matches(n - 1, t);
    if n > 1 {
      EmbeddingPrefix(x, e, n, m);
      EmbeddingIsPositive(x, e[..n - 1], n - 1, t);
    }
    PositiveCell(x, n - 1, t);
    ScoreGrows(x, n - 1, t, m - 1);
  }

  lemma EmbeddingPrefix(x: Input, e: seq<nat>, n: nat, m: nat)
    requires 1 < n && x.Embeds(e, n, m)
    ensures x.Embeds(e[..n - 1], n - 1, e[n - 1]) && e[n - 1] > 0
  {
    var d := e[..n - 1];
    forall i | 0 <= i < n - 1 ensures x.Matches(i, d[i]) && d[i] < e[n - 1] {
      assert x.Matches(i, e[i]);
    }
    assert d[0] < e[n - 1];
  }

  /** The score is positive exactly when the query embeds in the target. */
  lemma PositiveIffEmbeds(x: Input, n: nat, m: nat)
    requires x.Valid() && 0 < n <= |x.query| && m <= |x.target|
    ensures ScoreOf(x, n, m) > 0 <==> exists e :: x.Embeds(e, n, m)
  {
    if ScoreOf(x, n, m) > 0 {
      var e := PositiveEmbeds(x, n, m);
    }
    if e :| x.Embeds(e, n, m) {
      EmbeddingIsPositive(x, e, n, m);
    }
  }

  // With contiguous matches demanded, the query must occur as a whole.
  lemma ContiguousIffOccurs(x: Input)
    requires x.Valid() && |x.query| > 0 && !x.allowNonContiguousMatches
    ensures (exists e :: x.Embeds(e, |x.query|, |x.target|)) <==> exists t: nat :: x.StartsAt(t)
  {
    if e :| x.Embeds(e, |x.query|, |x.target|) {
      assert x.StartsAt(e[0]);
    }
    if t: nat :| x.StartsAt(t) {
      var e := seq(|x.query|, i requires 0 <= i < |x.query| => t + i);
      forall i | 0 <= i < |e| ensures x.Matches(i, e[i]) && e[i] < |x.target| {
        assert x.targetLower[t..t + |x.queryLower|][i] == x.queryLower[i];
      }
      assert x.Embeds(e, |x.query|, |x.target|);
    }
  }

  ghost predicate Filled(x: Input, scores: seq<nat>, matches: seq<nat>, q: nat, t: nat)
    requires x.Valid() && q < |x.query| && t < |x.target|
  {
    var k := q * |x.target| + t;
    k < |scores| && k < |matches| && Cell(scores[k], matches[k]) == CellAt(x, q, t)
  }

  // Reads in row q happen before the end of the table.
  lemma Appended(x: Input, scores: seq<nat>, matches: seq<nat>, q: nat, t: nat, c: Cell)
    requires x.Valid() && q < |x.query| && t < |x.target| && c == CellAt(x, q, t)
    requires |scores| == |matches| == q * |x.target| + t
    requires forall q', t' :: 0 <= q' <= q && 0 <= t' < |x.target| && (q' < q || t' < t) ==> Filled(x, scores, matches, q', t')
    ensures forall q', t' :: 0 <= q' <= q && 0 <= t' < |x.target| && (q' < q || t' <= t) ==>
      Filled(x, scores + [c.score], matches + [c.matches], q', t')
  {
    forall q', t' | 0 <= q' <= q && 0 <= t' < |x.target| && (q' < q || t' <= t)
      ensures Filled(x, scores + [c.score], matches + [c.matches], q', t')
    {
      if q' < q || t' < t {
        assert Filled(x, scores, matches, q', t');
      }
    }
  }

  // The two cells that the next one is computed from.
  lemma Neighbours(x: Input, scores: seq<nat>, matches: seq<nat>, q: nat, t: nat)
    requires x.Valid() && q < |x.query| && t < |x.target| && |scores| == |matches| == q * |x.target| + t
    requires forall q', t' :: 0 <= q' <= q && 0 <= t' < |x.target| && (q' < q || t' < t) ==> Filled(x, scores, matches, q', t')
    ensures t > 0 ==> scores[q * |x.target| + t - 1] == CellAt(x, q, t - 1).score
    ensures q > 0 && t > 0 ==> var k := q * |x.target| - |x.target| + t - 1;
      0 <= k < |scores| && Cell(scores[k], matches[k]) == CellAt(x, q - 1, t - 1)
  {
    hide CellAt;
    if t > 0 {
      assert Filled(x, scores, matches, q, t - 1);
      if q > 0 {
        assert Filled(x, scores, matches, q - 1, t - 1);
        assert (q - 1) * |x.target| == q * |x.target| - |x.target|;
      }
    }
  }

  lemma FilledAt(x: Input, scores: seq<nat>, matches: seq<nat>, q: nat, t: nat)
    requires x.Valid() && q < |x.query| && t < |x.target| && Filled(x, scores, matches, q, t)
    ensures var k := q * |x.target| + t;
      0 <= k < |scores| && k < |matches| && Cell(scores[k], matches[k]) == CellAt(x, q, t)
    ensures q == |x.query| - 1 && t == |x.target| - 1 ==> q * |x.target| + t == |x.query| * |x.target| - 1
  {
    hide CellAt;
    assert (q + 1) * |x.target| == q * |x.target| + |x.target|;
  }

  // Everything up to row q, column t has been written.
  ghost predicate FilledTo(x: Input, scores: seq<nat>, matches: seq<nat>, q: nat, t: nat)
    requires x.Valid() && q <= |x.query|
  {
    && |scores| == |matches| == q * |x.target| + t
    && forall q', t' :: 0 <= q' <= q && 0 <= t' < |x.target| && (q' < q || (q < |x.query| && t' < t)) ==> Filled(x, scores, matches, q', t')
  }

  lemma NextRow(x: Input, scores: seq<nat>, matches: seq<nat>, q: nat)
    requires x.Valid() && q < |x.query| && FilledTo(x, scores, matches, q, |x.target|)
    ensures FilledTo(x, scores, matches, q + 1, 0)
  {
    assert (q + 1) * |x.target| == q * |x.target| + |x.target|;
  }

  // Lines 44-62: one cell.
  method FillCell(x: Input, queryIndex: nat, targetIndex: nat, scores: seq<nat>, matches: seq<nat>)
    returns (scores': seq<nat>, matches': seq<nat>)
    requires x.Valid() && queryIndex < |x.query| && targetIndex < |x.target|
    requires FilledTo(x, scores, matches, queryIndex, targetIndex)
    ensures FilledTo(x, scores', matches', queryIndex, targetIndex + 1)
  {
    hide CellAt, Filled, ComputeCharScore;
    var queryIndexOffset := queryIndex * |x.target|;
    var queryIndexPreviousOffset := queryIndexOffset - |x.target|;
    var currentIndex := queryIndexOffset + targetIndex;
    var leftIndex := currentIndex - 1;
    var diagIndex := queryIndexPreviousOffset + targetIndex - 1;
    Neighbours(x, scores, matches, queryIndex, targetIndex);
    var leftScore := if targetIndex > 0 then scores[leftIndex] else 0;
    var diagScore := if queryIndex > 0 && targetIndex > 0 then scores[diagIndex] else 0;
    var matchesSequenceLength := if queryIndex > 0 && targetIndex > 0 then matches[diagIndex] else 0;
    ghost var c := CellAt(x, queryIndex, targetIndex);
    CellUnfold(x, queryIndex, targetIndex, leftScore, Cell(diagScore, matchesSequenceLength));
    var score := if diagScore == 0 && queryIndex > 0 then 0
                 else ComputeCharScore(x, queryIndex, targetIndex, matchesSequenceLength);
    var isValidScore := score > 0 && diagScore + score >= leftScore;
    if isValidScore && (x.allowNonContiguousMatches || queryIndex > 0 || x.StartsAt(targetIndex)) {
      matches' := matches + [matchesSequenceLength + 1];
      scores' := scores + [diagScore + score];
    } else {
      matches' := matches + [NO_MATCH];
      scores' := scores + [leftScore];
    }
    assert scores' == scores + [c.score] && matches' == matches + [c.matches];
    Appended(x, scores, matches, queryIndex, targetIndex, c);
  }

  method DoScoreFuzzy(x: Input) returns (score: nat, positions: seq<nat>)
    requires x.Valid() && 0 < |x.query| && 0 < |x.target|
    ensures score == ScoreOf(x, |x.query|, |x.target|)
    ensures score > 0 ==> x.Embeds(positions, |x.query|, |x.target|)
    ensures score == 0 ==> positions == []
  {
    hide CellAt, Input.Embeds, Filled, FilledTo;
    var queryLength, targetLength := |x.query|, |x.target|;
    var scores: seq<nat>, matches: seq<nat> := [], [];
    NothingFilled(x);
    for queryIndex := 0 to queryLength
      invariant FilledTo(x, scores, matches, queryIndex, 0)
    {
      for targetIndex := 0 to targetLength
        invariant FilledTo(x, scores, matches, queryIndex, targetIndex)
      {
        scores, matches := FillCell(x, queryIndex, targetIndex, scores, matches);
      }
      NextRow(x, scores, matches, queryIndex);
    }
    AllFilled(x, scores, matches);
    FilledAt(x, scores, matches, queryLength - 1, targetLength - 1);
    score := scores[queryLength * targetLength - 1];
    positions := CollectPositions(x, scores, matches);
  }

  lemma NothingFilled(x: Input)
    requires x.Valid()
    ensures FilledTo(x, [], [], 0, 0)
  {
  }

  lemma AllFilled(x: Input, scores: seq<nat>, matches: seq<nat>)
    requires x.Valid() && FilledTo(x, scores, matches, |x.query|, 0)
    ensures forall q, t :: 0 <= q < |x.query| && 0 <= t < |x.target| ==> Filled(x, scores, matches, q, t)
  {
  }

  lemma CellUnfold(x: Input, q: nat, t: nat, left: nat, diag: Cell)
    requires x.Valid() && q < |x.query| && t < |x.target|
    requires left == if t > 0 then CellAt(x, q, t - 1).score else 0
    requires diag == if q > 0 && t > 0 then CellAt(x, q - 1, t - 1) else Cell(0, 0)
    ensures CellAt(x, q, t) == NextCell(x, q, t, left, diag)
  {
  }

  // The query units after the q-th are placed at `placed`, the first of them after position t.
  ghost predicate Placed(x: Input, q: int, t: int, placed: seq<nat>) {
    && x.Valid() && -1 <= q < |x.query| && |placed| == |x.query| - 1 - q
    && (forall i :: 0 <= i < |placed| ==> x.Matches(q + 1 + i, placed[i]) && placed[i] > t)
    && (forall i, j :: 0 <= i < j < |placed| ==> placed[i] < placed[j])
  }

  function Reverse(s: seq<nat>): (r: seq<nat>)
    ensures |r| == |s| && forall i :: 0 <= i < |s| ==> r[i] == s[|s| - 1 - i]
  {
    if s == [] then [] else Reverse(s[1..]) + [s[0]]
  }

  lemma {:induction false} ReverseSnoc(s: seq<nat>, v: nat)
    ensures Reverse(s + [v]) == [v] + Reverse(s)
  {
  }

  // Lines 65-80: the walk back.
  method CollectPositions(x: Input, scores: seq<nat>, matches: seq<nat>) returns (positions: seq<nat>)
    requires x.Valid() && 0 < |x.query| && 0 < |x.target|
    requires forall q, t :: 0 <= q < |x.query| && 0 <= t < |x.target| ==> Filled(x, scores, matches, q, t)
    ensures ScoreOf(x, |x.query|, |x.target|) > 0 ==> x.Embeds(positions, |x.query|, |x.target|)
    ensures ScoreOf(x, |x.query|, |x.target|) == 0 ==> positions == []
  {
    hide CellAt, Reverse, Filled, Placed, Input.Embeds;
    positions := [];
    PlacedNone(x);
    var queryIndex: int, targetIndex: int := |x.query| - 1, |x.target| - 1;
    ghost var positive := ScoreOf(x, |x.query|, |x.target|) > 0;
    while queryIndex >= 0 && targetIndex >= 0
      invariant -1 <= queryIndex < |x.query| && -1 <= targetIndex < |x.target|
      invariant positive && queryIndex >= 0 ==> ScoreOf(x, queryIndex + 1, targetIndex + 1) > 0
      invariant positive ==> |positions| == |x.query| - 1 - queryIndex && Placed(x, queryIndex, targetIndex, Reverse(positions))
      invariant positive && queryIndex == -1 ==> x.MayStart(Reverse(positions)[0])
      invariant !positive ==> positions == [] && queryIndex == |x.query| - 1
      decreases targetIndex
    {
      FilledAt(x, scores, matches, queryIndex, targetIndex);
      PositiveCell(x, queryIndex, targetIndex);
      var match_ := matches[queryIndex * |x.target| + targetIndex];
      if match_ == NO_MATCH {
        PlacedLess(x, queryIndex, targetIndex, Reverse(positions));
        targetIndex := targetIndex - 1;
      } else {
        if !positive {
          ScoreGrows(x, queryIndex, targetIndex, |x.target| - 1);
          assert false;
        }
        PlacedMore(x, queryIndex, targetIndex, Reverse(positions));
        ReverseSnoc(positions, targetIndex);
        positions := positions + [targetIndex];
        queryIndex := queryIndex - 1;
        targetIndex := targetIndex - 1;
      }
    }
    if positive {
      PlacedAll(x, targetIndex, Reverse(positions));
    }
    positions := Reverse(positions);
  }

  lemma PlacedMore(x: Input, q: nat, t: nat, placed: seq<nat>)
    requires Placed(x, q, t, placed) && x.Matches(q, t)
    ensures Placed(x, q - 1, t - 1, [t] + placed)
  {
    var p := [t] + placed;
    forall i | 0 <= i < |p| ensures x.Matches(q - 1 + 1 + i, p[i]) && p[i] > t - 1 {
      if i > 0 {
        assert x.Matches(q + 1 + (i - 1), placed[i - 1]);
      }
    }
  }

  lemma PlacedNone(x: Input)
    requires x.Valid()
    ensures Placed(x, |x.query| - 1, |x.target| - 1, []) && Reverse([]) == []
  {
  }

  lemma PlacedLess(x: Input, q: int, t: int, placed: seq<nat>)
    ensures Placed(x, q, t, placed) ==> Placed(x, q, t - 1, placed)
  {
  }

  lemma PlacedAll(x: Input, t: int, placed: seq<nat>)
    requires Placed(x, -1, t, placed) && 0 < |x.query| && x.MayStart(placed[0])
    ensures x.Embeds(placed, |x.query|, |x.target|)
  {
    forall i | 0 <= i < |x.query| ensures x.Matches(i, placed[i]) && placed[i] < |x.target| {
      assert x.Matches(-1 + 1 + i, placed[i]);
    }
  }

  // scoreFuzzy
  method ScoreFuzzy(x: Input) returns (score: nat, positions: seq<nat>)
    requires x.Valid()
    ensures score > 0 <==> x.query != [] && exists e :: x.Embeds(e, |x.query|, |x.target|)
    ensures score > 0 ==> x.Embeds(positions, |x.query|, |x.target|)
    ensures score == 0 ==> positions == []
  {
    hide CellAt;
    if |x.target| == 0 || |x.query| == 0 {
      if |x.query| > 0 {
        NowhereToStart(x);
      }
      return 0, [];
    }
    if |x.target| < |x.query| {
      forall e ensures !x.Embeds(e, |x.query|, |x.target|) {
        NoRoom(x, e, |x.query| - 1);
      }
      return 0, [];
    }
    score, positions := DoScoreFuzzy(x);
    PositiveIffEmbeds(x, |x.query|, |x.target|);
  }

  lemma NowhereToStart(x: Input)
    requires x.target == [] && x.query != []
    ensures forall e :: !x.Embeds(e, |x.query|, 0)
  {
    forall e ensures !x.Embeds(e, |x.query|, 0) {
      NoRoom(x, e, |x.query| - 1);
    }
  }

  lemma {:induction false} EmbeddingSpreads(x: Input, e: seq<nat>, i: nat)
    requires i < |e| && x.Embeds(e, |x.query|, |x.target|)
    ensures i <= e[i] < |x.target|
  {
    assert x.Matches(i, e[i]);
    if i > 0 {
      EmbeddingSpreads(x, e, i - 1);
    }
  }

  // A query longer than the target embeds nowhere.
  lemma NoRoom(x: Input, e: seq<nat>, last: nat)
    requires |x.target| <= last && last == |x.query| - 1
    ensures !x.Embeds(e, |x.query|, |x.target|)
  {
    if x.Embeds(e, |x.query|, |x.target|) {
      EmbeddingSpreads(x, e, last);
    }
  }
}
