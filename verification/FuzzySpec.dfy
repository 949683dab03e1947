// The alignment problem behind fuzzyScore (filters.ts): where each pattern unit can match,
// the cells of the scoring band, and the walk back over the arrows.
module FuzzySpec {
  import opened CodeUnits
  import opened Wrappers

  datatype Arrow = Unset | Diag | Left | LeftLeft

  datatype Cell = Cell(score: int, diag: nat, arrow: Arrow)

  /** The arguments of one call, both lengths cut at 128. */
  datatype Problem = Problem(pattern: seq<CodeUnit>, patternLow: seq<CodeUnit>, patternStart: nat, patternLen: nat,
                             word: seq<CodeUnit>, wordLow: seq<CodeUnit>, wordStart: nat, wordLen: nat)
  {
    ghost predicate Valid() {
      && |pattern| == |patternLow| && |word| == |wordLow|
      && patternStart < patternLen <= |pattern|
      && wordStart < wordLen <= |word|
    }

    // The greedy match from the left: the position of pattern unit p, or wordLen.
    function Min(p: nat): (w: nat)
      requires Valid() && patternStart <= p < patternLen
      ensures w <= wordLen && (w < wordLen ==> wordLow[w] == patternLow[p])
    {
      FirstAt(wordLow, patternLow[p], MinFrom(p), wordLen)
    }

    function MinFrom(p: nat): nat
      requires Valid() && patternStart <= p < patternLen
      decreases p, 0
    {
      if p == patternStart then wordStart else FirstAt(wordLow, patternLow[p - 1], MinFrom(p - 1), wordLen) + 1
    }

    // The greedy match from the right: the position of pattern unit p, or wordStart - 1.
    function Max(p: nat): (w: int)
      requires Valid() && patternStart <= p < patternLen
      ensures wordStart - 1 <= w < wordLen && (w >= wordStart ==> wordLow[w] == patternLow[p])
    {
      LastAt(wordLow, patternLow[p], wordStart, MaxTo(p))
    }

    function MaxTo(p: nat): (limit: int)
      requires Valid() && patternStart <= p < patternLen
      ensures wordStart - 1 <= limit <= wordLen
      decreases patternLen - p
    {
      if p == patternLen - 1 then wordLen else LastAt(wordLow, patternLow[p + 1], wordStart, MaxTo(p + 1))
    }

    ghost predicate Solvable() {
      Valid() && Min(patternLen - 1) < wordLen
    }

    // Where row p of the table is filled: from its leftmost match up to the rightmost match of the next row.
    ghost predicate InBand(p: nat, w: int)
    {
      Valid() && patternStart <= p < patternLen && Min(p) <= w < MaxTo(p)
    }

    ghost predicate Matches(p: nat, w: nat) {
      Valid() && patternStart <= p < patternLen && wordStart <= w < wordLen && patternLow[p] == wordLow[w]
    }

    /** e places the pattern units, in order, on equal word units. */
    ghost predicate Embeds(e: seq<nat>) {
      && Valid()
      && |e| == patternLen - patternStart
      && (forall i :: 0 <= i < |e| ==> Matches(patternStart + i, e[i]))
      && (forall i, j :: 0 <= i < j < |e| ==> e[i] < e[j])
    }
  }

  function FirstAt(s: seq<CodeUnit>, c: CodeUnit, from: nat, limit: nat): (r: nat)
    requires limit <= |s|
    ensures r <= limit && (r < limit ==> from <= r && s[r] == c)
    ensures forall i :: from <= i < r ==> s[i] != c
    decreases limit - from
  {
    if from >= limit then limit else if s[from] == c then from else FirstAt(s, c, from + 1, limit)
  }

  function LastAt(s: seq<CodeUnit>, c: CodeUnit, from: nat, limit: int): (r: int)
    requires limit <= |s|
    ensures from - 1 <= r && (r >= from ==> r < limit && s[r] == c)
    ensures forall i :: r < i < limit ==> s[i] != c
    decreases limit - from
  {
    if limit <= from then from - 1 else if s[limit - 1] == c then limit - 1 else LastAt(s, c, from, limit - 1)
  }

  // ---- every embedding lies between the two greedy ones

  lemma {:induction false} EmbeddingAboveMin(q: Problem, e: seq<nat>, i: nat)
    requires q.Embeds(e) && i < |e|
    ensures q.Min(q.patternStart + i) <= e[i]
  {
    assert q.Matches(q.patternStart + i, e[i]);
    if i > 0 {
      EmbeddingAboveMin(q, e, i - 1);
    }
  }

  lemma {:induction false} EmbeddingBelowMax(q: Problem, e: seq<nat>, i: nat)
    requires q.Embeds(e) && i < |e|
    ensures e[i] <= q.Max(q.patternStart + i)
    decreases |e| - i
  {
    assert q.Matches(q.patternStart + i, e[i]);
    if i + 1 < |e| {
      EmbeddingBelowMax(q, e, i + 1);
    }
  }

  lemma {:induction false} MinIncreases(q: Problem, p: nat)
    requires q.Valid() && q.patternStart <= p < q.patternLen
    ensures q.wordStart <= q.Min(p)
    ensures p > q.patternStart && q.Min(p) < q.wordLen ==> q.Min(p - 1) < q.Min(p)
    decreases p
  {
    if p > q.patternStart {
      MinIncreases(q, p - 1);
    }
  }

  lemma {:induction false} MinFound(q: Problem, p: nat)
    requires q.Solvable() && q.patternStart <= p < q.patternLen
    ensures q.Matches(p, q.Min(p))
    decreases q.patternLen - p
  {
    MinIncreases(q, p);
    if p + 1 < q.patternLen {
      MinFound(q, p + 1);
      MinIncreases(q, p + 1);
    }
  }

  lemma {:induction false} MinStrict(q: Problem, p: nat, p': nat)
    requires q.Solvable() && q.patternStart <= p < p' < q.patternLen
    ensures q.Min(p) < q.Min(p')
    decreases p'
  {
    hide Problem.Min, Problem.Max, Problem.Embeds;
    MinFound(q, p');
    MinIncreases(q, p');
    if p < p' - 1 {
      MinStrict(q, p, p' - 1);
    }
  }

  ghost function Leftmost(q: Problem): (e: seq<nat>)
    requires q.Valid()
    ensures |e| == q.patternLen - q.patternStart
    ensures forall i :: 0 <= i < |e| ==> e[i] == q.Min(q.patternStart + i)
  {
    seq<nat>(q.patternLen - q.patternStart, i requires 0 <= i < q.patternLen - q.patternStart => q.Min(q.patternStart + i))
  }

  lemma LeftmostEmbeds(q: Problem)
    requires q.Solvable()
    ensures q.Embeds(Leftmost(q))
  {
    hide FirstAt, Problem.MinFrom;
    var e := Leftmost(q);
    forall i | 0 <= i < |e| ensures q.Matches(q.patternStart + i, e[i]) {
      MinFound(q, q.patternStart + i);
    }
    forall i, j | 0 <= i < j < |e| ensures e[i] < e[j] {
      MinStrict(q, q.patternStart + i, q.patternStart + j);
    }
  }

  /** The greedy test decides whether the pattern is a subsequence of the word. */
  lemma SolvableIffEmbeds(q: Problem)
    requires q.Valid()
    ensures q.Solvable() <==> exists e :: q.Embeds(e)
  {
    if q.Solvable() {
      LeftmostEmbeds(q);
    }
    if e :| q.Embeds(e) {
      EmbeddingAboveMin(q, e, |e| - 1);
    }
  }

  // The band of a row is not empty, starts at a match, and steps up to the band of the next row.
  lemma Band(q: Problem, p: nat)
    requires q.Solvable() && q.patternStart <= p < q.patternLen
    ensures q.wordStart <= q.Min(p) <= q.Max(p) < q.MaxTo(p) <= q.wordLen
    ensures q.Matches(p, q.Min(p))
    ensures p > q.patternStart ==> q.Min(p - 1) < q.Min(p) && q.MaxTo(p - 1) == q.Max(p)
  {
    hide FirstAt, LastAt, Problem.MinFrom, Problem.Embeds;
    LeftmostEmbeds(q);
    EmbeddingBelowMax(q, Leftmost(q), p - q.patternStart);
    MinFound(q, p);
    if p > q.patternStart {
      MinStrict(q, p - 1, p);
    }
  }

  // A match inside the band is not to the right of the rightmost one.
  lemma MatchInBand(q: Problem, p: nat, w: nat)
    requires q.Solvable() && q.InBand(p, w) && q.patternLow[p] == q.wordLow[w]
    ensures w <= q.Max(p) && q.Matches(p, w)
  {
    Band(q, p);
  }

  // One row up and one column left of a possible match is inside the band.
  lemma DiagonalInBand(q: Problem, p: nat, w: nat)
    requires q.Solvable() && q.InBand(p, w) && w <= q.Max(p) && p > q.patternStart
    ensures w > 0 && q.InBand(p - 1, w - 1)
  {
    Band(q, p);
  }

  // ---- the score of one match (doScore)

  const SEPARATORS: set<CodeUnit> :=
    {0x5F, 0x2D, 0x2E, 0x20, 0x2F, 0x5C, 0x27, 0x22, 0x3A, 0x24, 0x3C, 0x3E, 0x28, 0x29, 0x5B, 0x5D, 0x7B, 0x7D}

  predicate IsSeparatorAtPos(value: seq<CodeUnit>, index: int) {
    0 <= index < |value| && value[index] in SEPARATORS
  }

  predicate IsWhitespaceAtPos(value: seq<CodeUnit>, index: int) {
    0 <= index < |value| && (value[index] == 0x20 || value[index] == 0x09)
  }

  predicate IsUpperCaseAtPos(pos: nat, word: seq<CodeUnit>, wordLow: seq<CodeUnit>)
    requires pos < |word| && pos < |wordLow|
  {
    word[pos] != wordLow[pos]
  }

  datatype Base = Base(score: int, isGapLocation: bool)

  // Lines 295-307.
  function BaseScore(q: Problem, p: nat, w: nat): Base
    requires q.Matches(p, w)
  {
    var same := if q.pattern[p] == q.word[w] then 7 else 5;
    if w == p - q.patternStart then
      Base(same, false)
    else if IsUpperCaseAtPos(w, q.word, q.wordLow) && (w == 0 || !IsUpperCaseAtPos(w - 1, q.word, q.wordLow)) then
      Base(same, true)
    else if IsSeparatorAtPos(q.wordLow, w) && (w == 0 || !IsSeparatorAtPos(q.wordLow, w - 1)) then
      Base(5, false)
    else if IsSeparatorAtPos(q.wordLow, w - 1) || IsWhitespaceAtPos(q.wordLow, w - 1) then
      Base(5, true)
    else
      Base(1, false)
  }

  // A first match that is more than a weak one.
  predicate Strong(q: Problem, p: nat, w: nat)
    requires q.Matches(p, w)
  {
    BaseScore(q, p, w).score > 1 && p == q.patternStart
  }

  function MatchScore(q: Problem, p: nat, w: nat, newMatchStart: bool): (s: int)
    requires q.Matches(p, w)
    ensures -10 < s < 10
  {
    var base := BaseScore(q, p, w);
    var gap := base.isGapLocation || IsUpperCaseAtPos(w, q.word, q.wordLow)
               || IsSeparatorAtPos(q.wordLow, w - 1) || IsWhitespaceAtPos(q.wordLow, w - 1);
    var first :=
      if p == q.patternStart then (if w > q.wordStart then (if gap then -3 else -5) else 0)
      else if newMatchStart then (if gap then 2 else 0)
      else (if gap then 0 else 1);
    base.score + first + (if w + 1 == q.wordLen then (if gap then -3 else -5) else 0)
  }

  // ---- the table

  // Lines 199-218: two columns left, one column left, or diagonally, ties in favour of the left.
  function Best(q: Problem, p: nat, w: nat, column: nat, canComeDiag: bool, above: Cell, left: Cell, leftLeft: Cell): Cell
    requires canComeDiag ==> q.Matches(p, w)
  {
    var diagScore := if canComeDiag then MatchScore(q, p, w, above.diag == 0) + above.score else 0;
    var leftScore := left.score + Penalty(left);
    var leftLeftScore := leftLeft.score + Penalty(leftLeft);
    if column > 1 && left.diag > 0 && leftLeftScore >= leftScore && (!canComeDiag || leftLeftScore >= diagScore) then
      Cell(leftLeftScore, 0, LeftLeft)
    else if column > 0 && (!canComeDiag || leftScore >= diagScore) then
      Cell(leftScore, 0, Left)
    else
      Cell(diagScore, above.diag + 1, Diag)
  }

  // Where the arrow of a cell can point; a diagonal one is a match.
  lemma BestArrow(q: Problem, p: nat, w: nat, column: nat, canComeDiag: bool, above: Cell, left: Cell, leftLeft: Cell)
    requires canComeDiag ==> q.Matches(p, w)
    requires column == 0 ==> canComeDiag
    ensures var cell := Best(q, p, w, column, canComeDiag, above, left, leftLeft);
      && (cell.arrow == LeftLeft ==> column > 1) && (cell.arrow == Left ==> column > 0)
      && (cell.arrow == Diag <==> cell.diag > 0) && (cell.arrow == Diag ==> canComeDiag) && cell.arrow != Unset
  {
    hide MatchScore, Problem.Matches;
  }

  const NO_CELL := Cell(0, 0, Unset)

  /** What a call leaves at row p, column w of the three tables; it depends on the arguments only. */
  ghost function CellAt(q: Problem, p: nat, w: nat): (cell: Cell)
    requires q.Solvable() && q.InBand(p, w)
    ensures cell.arrow == LeftLeft ==> w > q.Min(p) + 1
    ensures cell.arrow == Left ==> w > q.Min(p)
    ensures cell.arrow == Diag <==> cell.diag > 0
    ensures cell.arrow == Diag ==> q.Matches(p, w)
    ensures cell.arrow != Unset
    decreases p, w, 1
  {
    hide Problem.Min, Problem.Max, Problem.MaxTo, Problem.Embeds, Best, Strong;
    Band(q, p);
    var canComeDiag := w <= q.Max(p) && q.patternLow[p] == q.wordLow[w];
    var above := Above(q, p, w);
    var left := if w > q.Min(p) then CellAt(q, p, w - 1) else NO_CELL;
    var leftLeft := if w > q.Min(p) + 1 then CellAt(q, p, w - 2) else NO_CELL;
    BestArrow(q, p, w, w - q.Min(p), canComeDiag, above, left, leftLeft);
    Best(q, p, w, w - q.Min(p), canComeDiag, above, left, leftLeft)
  }

  // The cell a diagonal step comes from; row 0 of the tables is never written and stays 0.
  ghost function Above(q: Problem, p: nat, w: nat): Cell
    requires q.Solvable() && q.InBand(p, w)
    decreases p, w, 0
  {
    if p == q.patternStart || w > q.Max(p) then NO_CELL
    else
      DiagonalInBand(q, p, w);
      CellAt(q, p - 1, w - 1)
  }

  lemma CellUnfold(q: Problem, p: nat, w: nat)
    requires q.Solvable() && q.InBand(p, w)
    ensures w <= q.Max(p) && q.patternLow[p] == q.wordLow[w] ==> q.Matches(p, w)
    ensures CellAt(q, p, w) == Best(q, p, w, w - q.Min(p), w <= q.Max(p) && q.patternLow[p] == q.wordLow[w], Above(q, p, w),
                                    if w > q.Min(p) then CellAt(q, p, w - 1) else NO_CELL,
                                    if w > q.Min(p) + 1 then CellAt(q, p, w - 2) else NO_CELL)
    ensures p == q.patternStart ==> Above(q, p, w) == NO_CELL
    ensures p > q.patternStart && w <= q.Max(p) ==> w > 0 && q.InBand(p - 1, w - 1) && Above(q, p, w) == CellAt(q, p - 1, w - 1)
  {
    hide Best, Problem.Min, Problem.Max, Problem.Embeds;
    Band(q, p);
    if p > q.patternStart && w <= q.Max(p) {
      DiagonalInBand(q, p, w);
    }
  }

  function Penalty(c: Cell): int {
    if c.diag > 0 then -5 else 0
  }

  // ---- the walk back

  // Follows the left arrows of row p.
  ghost function DiagColumn(q: Problem, p: nat, w: nat): (d: nat)
    requires q.Solvable() && q.InBand(p, w)
    ensures d <= w && q.InBand(p, d) && CellAt(q, p, d).arrow == Diag
  {
    match CellAt(q, p, w).arrow
    case LeftLeft => DiagColumn(q, p, w - 2)
    case Left => DiagColumn(q, p, w - 1)
    case _ => w
  }

  // Lines 246-253: the column taken in row p when the walk arrives at column w.
  ghost function Taken(q: Problem, p: nat, w: nat, backwardsDiagLength: nat): nat
    requires q.Solvable() && q.InBand(p, w)
  {
    var d := DiagColumn(q, p, w);
    Band(q, p);
    if backwardsDiagLength > 1 && q.patternLow[p] == q.wordLow[w]
       && !IsUpperCaseAtPos(d, q.word, q.wordLow) && backwardsDiagLength + 1 > CellAt(q, p, d).diag
    then w else d
  }

  // Whether by arrow or by override, the column taken is a true match from which the walk can go on.
  lemma TakenMatches(q: Problem, p: nat, w: nat, backwardsDiagLength: nat)
    requires q.Solvable() && q.InBand(p, w)
    ensures var d := Taken(q, p, w, backwardsDiagLength);
      && d <= w && q.Matches(p, d) && q.InBand(p, d)
      && (p > q.patternStart ==> d > 0 && q.InBand(p - 1, d - 1))
  {
    var d := Taken(q, p, w, backwardsDiagLength);
    Band(q, p);
    MatchInBand(q, p, d);
    if p > q.patternStart {
      DiagonalInBand(q, p, d);
    }
  }

  /** The positions pushed by the walk from row p and column w, relative to wordStart, last pattern unit first. */
  ghost function Walk(q: Problem, p: nat, w: nat, backwardsDiagLength: nat): (r: seq<nat>)
    requires q.Solvable() && q.InBand(p, w)
    ensures |r| > 0
    decreases p
  {
    hide Taken, CellAt, Problem.InBand, Problem.Min, Problem.Max, Problem.MaxTo, Problem.Embeds;
    TakenMatches(q, p, w, backwardsDiagLength);
    var d := Taken(q, p, w, backwardsDiagLength);
    [d - q.wordStart] +
    if p == q.patternStart then [] else Walk(q, p - 1, d - 1, if d == w then backwardsDiagLength + 1 else 1)
  }

  /** One strictly decreasing, truly matching position per pattern unit up to p. */
  ghost predicate WalksBack(q: Problem, p: nat, r: seq<nat>) {
    && q.Valid() && q.patternStart <= p < q.patternLen
    && |r| == p - q.patternStart + 1
    && (forall i :: 0 <= i < |r| ==> q.Matches(p - i, q.wordStart + r[i]))
    && (forall i, j :: 0 <= i < j < |r| ==> r[i] > r[j])
  }

  lemma WalkOne(q: Problem, p: nat, d: nat, rest: seq<nat>)
    requires q.Matches(p, d)
    requires if p == q.patternStart then rest == [] else WalksBack(q, p - 1, rest) && q.wordStart + rest[0] < d
    ensures WalksBack(q, p, [d - q.wordStart] + rest)
  {
    var r := [d - q.wordStart] + rest;
    forall i | 0 <= i < |r| ensures q.Matches(p - i, q.wordStart + r[i]) {
      if i > 0 {
        assert q.Matches(p - 1 - (i - 1), q.wordStart + rest[i - 1]);
      }
    }
  }

  lemma {:induction false} WalkEmbeds(q: Problem, p: nat, w: nat, backwardsDiagLength: nat)
    requires q.Solvable() && q.InBand(p, w)
    ensures WalksBack(q, p, Walk(q, p, w, backwardsDiagLength))
    ensures q.wordStart + Walk(q, p, w, backwardsDiagLength)[0] <= w
    decreases p
  {
    hide Taken, WalksBack, CellAt, Problem.InBand, Problem.Solvable, Problem.Matches, Problem.Valid, Problem.Min, Problem.Max, Problem.MaxTo, Problem.Embeds;
    TakenMatches(q, p, w, backwardsDiagLength);
    var d := Taken(q, p, w, backwardsDiagLength);
    if p == q.patternStart {
      WalkOne(q, p, d, []);
    } else {
      var b := if d == w then backwardsDiagLength + 1 else 1;
      WalkEmbeds(q, p - 1, d - 1, b);
      WalkOne(q, p, d, Walk(q, p - 1, d - 1, b));
    }
  }

  // ---- the result

  datatype Score = Score(score: int, wordStart: nat, matches: seq<nat>)

  ghost predicate HasStrongFirstMatch(q: Problem)
    requires q.Valid()
  {
    exists w :: q.Min(q.patternStart) <= w <= q.Max(q.patternStart) && q.Matches(q.patternStart, w) && Strong(q, q.patternStart, w)
  }

  lemma LastCellInBand(q: Problem)
    requires q.Solvable()
    ensures q.InBand(q.patternLen - 1, q.wordLen - 1)
  {
    Band(q, q.patternLen - 1);
  }

  /** The answer for a solvable problem. */
  ghost function Answer(q: Problem, boostFullMatch: bool): Score
    requires q.Solvable()
  {
    LastCellInBand(q);
    var walk := Walk(q, q.patternLen - 1, q.wordLen - 1, 0);
    var maxMatchColumn := walk[0] + 1;
    Score(CellAt(q, q.patternLen - 1, q.wordLen - 1).score
               + (if q.wordLen - q.wordStart == q.patternLen && boostFullMatch then 2 else 0)
               - (maxMatchColumn - q.patternLen),
               q.wordStart, walk)
  }

  // The positions in the word, first pattern unit first.
  ghost function Placed(q: Problem, r: seq<nat>): (e: seq<nat>)
    ensures |e| == |r| && forall i :: 0 <= i < |r| ==> e[i] == q.wordStart + r[|r| - 1 - i]
  {
    if r == [] then [] else Placed(q, r[1..]) + [q.wordStart + r[0]]
  }

  lemma WalkedBackEmbeds(q: Problem, r: seq<nat>)
    requires q.Valid() && WalksBack(q, q.patternLen - 1, r)
    ensures q.Embeds(Placed(q, r))
  {
    var e := Placed(q, r);
    forall i | 0 <= i < |e| ensures q.Matches(q.patternStart + i, e[i]) {
      var k := |r| - 1 - i;
      assert q.Matches(q.patternLen - 1 - k, q.wordStart + r[k]);
    }
  }

  /** Every answer is an embedding of the whole pattern, listed from its last unit back. */
  lemma AnswerEmbeds(q: Problem, boostFullMatch: bool)
    requires q.Solvable()
    ensures WalksBack(q, q.patternLen - 1, Answer(q, boostFullMatch).matches)
    ensures q.Embeds(Placed(q, Answer(q, boostFullMatch).matches))
  {
    hide WalksBack, CellAt, Problem.InBand, Problem.Embeds, Walk;
    LastCellInBand(q);
    WalkEmbeds(q, q.patternLen - 1, q.wordLen - 1, 0);
    WalkedBackEmbeds(q, Answer(q, boostFullMatch).matches);
  }
}
