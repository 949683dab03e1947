// What a score of fuzzyScore is made of: the points of a match by the kind of its place, the cost of a gap,
// and which first matches are strong.
module FuzzyPoints {
  import opened CodeUnits
  import opened Wrappers
  import opened FuzzySpec

  // ---- kinds of place, read off the word itself

  predicate Upper(q: Problem, w: int)
    requires |q.word| == |q.wordLow|
  {
    0 <= w < |q.word| && q.word[w] != q.wordLow[w]
  }

  predicate Separator(q: Problem, w: int) {
    && 0 <= w < |q.wordLow|
    && q.wordLow[w] in {'_' as int, '-' as int, '.' as int, ' ' as int, '/' as int, '\\' as int, '\'' as int, '"' as int, ':' as int,
                        '$' as int, '<' as int, '>' as int, '(' as int, ')' as int, '[' as int, ']' as int, '{' as int, '}' as int}
  }

  predicate Blank(q: Problem, w: int) {
    0 <= w < |q.wordLow| && (q.wordLow[w] == ' ' as int || q.wordLow[w] == '\t' as int)
  }

  // An upper-case unit that is not behind another one.
  predicate Hump(q: Problem, w: int)
    requires |q.word| == |q.wordLow|
  {
    Upper(q, w) && !Upper(q, w - 1)
  }

  predicate FirstSeparator(q: Problem, w: int) {
    Separator(q, w) && !Separator(q, w - 1)
  }

  predicate BehindSeparator(q: Problem, w: int) {
    Separator(q, w - 1) || Blank(q, w - 1)
  }

  // The pattern unit stands where it would stand in a common prefix.
  predicate Aligned(q: Problem, p: int, w: int) {
    w == p - q.patternStart
  }

  ghost predicate StrongPlace(q: Problem, p: int, w: int)
    requires |q.word| == |q.wordLow|
  {
    Aligned(q, p, w) || Hump(q, w) || FirstSeparator(q, w) || BehindSeparator(q, w)
  }

  // Where a gap costs less and a new run is worth something.
  ghost predicate GapPlace(q: Problem, w: int)
    requires |q.word| == |q.wordLow|
  {
    Upper(q, w) || BehindSeparator(q, w)
  }

  /** Seven or five at an aligned place or a hump, as the case is equal or not; five at or behind a separator; one elsewhere. */
  ghost function PlacePoints(q: Problem, p: nat, w: nat): int
    requires q.Matches(p, w)
  {
    if Aligned(q, p, w) || Hump(q, w) then (if q.pattern[p] == q.word[w] then 7 else 5)
    else if FirstSeparator(q, w) || BehindSeparator(q, w) then 5
    else 1
  }

  /** A late first match costs three or five, a new run earns two or nothing, going on with one nothing or one. */
  ghost function RunPoints(q: Problem, p: nat, w: nat, newRun: bool): int
    requires q.Matches(p, w)
  {
    if p == q.patternStart then (if w == q.wordStart then 0 else if GapPlace(q, w) then -3 else -5)
    else if newRun then (if GapPlace(q, w) then 2 else 0)
    else (if GapPlace(q, w) then 0 else 1)
  }

  /** A match of the last unit costs three or five. */
  ghost function EndPoints(q: Problem, w: nat): int
    requires |q.word| == |q.wordLow|
  {
    if w + 1 != q.wordLen then 0 else if GapPlace(q, w) then -3 else -5
  }

  ghost function Points(q: Problem, p: nat, w: nat, newRun: bool): int
    requires q.Matches(p, w)
  {
    PlacePoints(q, p, w) + RunPoints(q, p, w, newRun) + EndPoints(q, w)
  }

  lemma PlacesAgree(q: Problem, w: int)
    requires q.Valid()
    ensures IsSeparatorAtPos(q.wordLow, w) <==> Separator(q, w)
    ensures IsWhitespaceAtPos(q.wordLow, w) <==> Blank(q, w)
    ensures 0 <= w < |q.word| ==> (IsUpperCaseAtPos(w, q.word, q.wordLow) <==> Upper(q, w))
  {
  }

  lemma PointsOfMatch(q: Problem, p: nat, w: nat, newRun: bool)
    requires q.Matches(p, w)
    ensures MatchScore(q, p, w, newRun) == Points(q, p, w, newRun)
    ensures Strong(q, p, w) <==> p == q.patternStart && StrongPlace(q, p, w)
  {
    hide IsSeparatorAtPos, IsWhitespaceAtPos, IsUpperCaseAtPos, Separator, Blank, Upper;
    PlacesAgree(q, w);
    PlacesAgree(q, w - 1);
    NothingInFront(q);
  }

  lemma NothingInFront(q: Problem)
    requires q.Valid()
    ensures !Upper(q, -1) && !Separator(q, -1) && !Blank(q, -1)
  {
  }

  /** The pattern is a subsequence of the word and can, if need be, begin at a strong place. */
  ghost predicate BeginsWell(q: Problem, weak: bool) {
    exists e :: q.Embeds(e) && (weak || StrongPlace(q, q.patternStart, e[0]))
  }

  /** A call succeeds with a strong first match exactly if some embedding begins at a strong place. */
  lemma StrongExactly(q: Problem)
    requires q.Solvable()
    ensures HasStrongFirstMatch(q) <==> exists e :: q.Embeds(e) && StrongPlace(q, q.patternStart, e[0])
  {
    hide Strong, StrongPlace, Problem.Min, Problem.Max, Problem.MaxTo;
    var s := q.patternStart;
    Band(q, s);
    if HasStrongFirstMatch(q) {
      var w :| q.Min(s) <= w <= q.Max(s) && q.Matches(s, w) && Strong(q, s, w);
      PointsOfMatch(q, s, w, false);
      var e := BeginningAt(q, w);
      BeginningEmbeds(q, w);
      assert q.Embeds(e) && StrongPlace(q, s, e[0]);
    }
    if e :| q.Embeds(e) && StrongPlace(q, s, e[0]) {
      EmbeddingAboveMin(q, e, 0);
      EmbeddingBelowMax(q, e, 0);
      PointsOfMatch(q, s, e[0], false);
      assert Strong(q, s, e[0]);
    }
  }

  // Any match of the first unit up to the rightmost one begins an embedding: the rest is matched from the right.
  ghost function BeginningAt(q: Problem, w: nat): (e: seq<nat>)
    requires q.Solvable()
    ensures |e| == q.patternLen - q.patternStart && e[0] == w
    ensures forall i :: 0 < i < |e| ==> e[i] == AtRight(q, q.patternStart + i)
  {
    var n := q.patternLen - q.patternStart;
    seq<nat>(n, i requires 0 <= i < n => AtRight(q, q.patternStart + i))[0 := w]
  }

  lemma BeginningEmbeds(q: Problem, w: nat)
    requires q.Solvable() && w <= q.Max(q.patternStart) && q.Matches(q.patternStart, w)
    ensures q.Embeds(BeginningAt(q, w))
  {
    hide Problem.Min, Problem.Max, Problem.MaxTo;
    var e := BeginningAt(q, w);
    forall i | 0 <= i < |e| ensures q.Matches(q.patternStart + i, e[i]) {
      if i > 0 {
        RightMatches(q, q.patternStart + i);
      }
    }
    forall i, j | 0 <= i < j < |e| ensures e[i] < e[j] {
      RightIncreases(q, q.patternStart + i, q.patternStart + j);
    }
  }

  ghost function AtRight(q: Problem, p: nat): (w: nat)
    requires q.Solvable() && q.patternStart <= p < q.patternLen
    ensures w == q.Max(p)
  {
    Band(q, p);
    q.Max(p)
  }

  lemma RightMatches(q: Problem, p: nat)
    requires q.Solvable() && q.patternStart <= p < q.patternLen
    ensures q.Matches(p, AtRight(q, p))
  {
    Band(q, p);
  }

  lemma {:induction false} RightIncreases(q: Problem, p: nat, p': nat)
    requires q.Solvable() && q.patternStart <= p < p' < q.patternLen
    ensures q.Max(p) < q.Max(p')
    decreases p'
  {
    hide Problem.Min, Problem.Max, Problem.MaxTo, Problem.Embeds;
    Band(q, p' - 1);
    Band(q, p');
    if p < p' - 1 {
      RightIncreases(q, p, p' - 1);
    }
  }

  // ---- the table in these terms

  // A match that a diagonal step can take.
  ghost predicate Takes(q: Problem, p: nat, w: nat)
    requires q.Valid() && q.patternStart <= p < q.patternLen
  {
    w <= q.Max(p) && q.Matches(p, w)
  }

  // What is in front of a match: the cell of the unit before, or nothing at the first unit.
  ghost function Front(q: Problem, p: nat, w: nat): Cell
    requires q.Solvable() && q.InBand(p, w) && Takes(q, p, w)
  {
    if p == q.patternStart then Cell(0, 0, Unset)
    else
      DiagonalInBand(q, p, w);
      CellAt(q, p - 1, w - 1)
  }

  // Leaving a match behind by a gap costs five.
  ghost function GapCost(c: Cell): int {
    if c.arrow == Diag then 5 else 0
  }

  lemma FrontIsAbove(q: Problem, p: nat, w: nat)
    requires q.Solvable() && q.InBand(p, w) && Takes(q, p, w)
    ensures Front(q, p, w) == Above(q, p, w)
    ensures Front(q, p, w).arrow == Diag <==> Front(q, p, w).diag > 0
    ensures MatchScore(q, p, w, Front(q, p, w).diag == 0) == Points(q, p, w, Front(q, p, w).arrow != Diag)
  {
    hide Problem.Min, Problem.Max, Problem.MaxTo, Problem.Embeds, MatchScore, Points;
    CellUnfold(q, p, w);
    PointsOfMatch(q, p, w, Front(q, p, w).diag == 0);
  }

  /** Where the score of a cell comes from. */
  lemma CellPoints(q: Problem, p: nat, w: nat)
    requires q.Solvable() && q.InBand(p, w)
    ensures var cell := CellAt(q, p, w);
      && (cell.arrow == Diag ==>
            && Takes(q, p, w) && var front := Front(q, p, w);
            cell.score == front.score + Points(q, p, w, front.arrow != Diag))
      && (cell.arrow == Left ==> w > q.Min(p) && cell.score == CellAt(q, p, w - 1).score - GapCost(CellAt(q, p, w - 1)))
      && (cell.arrow == LeftLeft ==>
            && w > q.Min(p) + 1 && CellAt(q, p, w - 1).arrow == Diag
            && cell.score == CellAt(q, p, w - 2).score - GapCost(CellAt(q, p, w - 2)))
  {
    hide Problem.Min, Problem.Max, Problem.MaxTo, Problem.Embeds, MatchScore, Points, Above, Front;
    Band(q, p);
    CellUnfold(q, p, w);
    if Takes(q, p, w) {
      FrontIsAbove(q, p, w);
    }
  }

  /** A cell is as good as each of its neighbours allows, and a match is taken only if no gap is as good. */
  lemma CellIsBest(q: Problem, p: nat, w: nat)
    requires q.Solvable() && q.InBand(p, w)
    ensures var cell := CellAt(q, p, w);
      && (Takes(q, p, w) ==> var front := Front(q, p, w); cell.score >= front.score + Points(q, p, w, front.arrow != Diag))
      && (w > q.Min(p) ==>
            && var left := CellAt(q, p, w - 1); var stay := left.score - GapCost(left);
            cell.score >= stay && (cell.arrow == Diag ==> cell.score > stay))
      && (w > q.Min(p) + 1 && CellAt(q, p, w - 1).arrow == Diag ==>
            && var leftLeft := CellAt(q, p, w - 2); var skip := leftLeft.score - GapCost(leftLeft);
            cell.score >= skip && (cell.arrow == Diag || cell.arrow == Left ==> cell.score > skip))
  {
    hide Problem.Min, Problem.Max, Problem.MaxTo, Problem.Embeds, MatchScore, Points, Above, Front;
    Band(q, p);
    CellUnfold(q, p, w);
    if Takes(q, p, w) {
      FrontIsAbove(q, p, w);
    }
  }

  /** The answer: the score of the last cell, less the columns that the last match is too far right, and two more for a full match. */
  lemma AnswerPoints(q: Problem, boostFullMatch: bool)
    requires q.Solvable()
    ensures q.InBand(q.patternLen - 1, q.wordLen - 1)
    ensures var a := Answer(q, boostFullMatch);
      && a.matches != []
      && a.score == CellAt(q, q.patternLen - 1, q.wordLen - 1).score
                      - (a.matches[0] + 1 - q.patternLen)
                      + (if boostFullMatch && q.wordLen - q.wordStart == q.patternLen then 2 else 0)
  {
    hide CellAt, Walk;
    LastCellInBand(q);
  }

  // ---- patterns of one unit

  // The match that the arrows lead to, and five off if it is not the cell's own.
  lemma {:induction false} OneUnitCell(q: Problem, w: nat)
    requires q.Solvable() && q.patternLen == q.patternStart + 1 && q.InBand(q.patternStart, w)
    ensures var d := DiagColumn(q, q.patternStart, w);
      q.Matches(q.patternStart, d) && CellAt(q, q.patternStart, w).score == Points(q, q.patternStart, d, true) - (if d < w then 5 else 0)
  {
    hide Problem.Min, Problem.Max, Problem.MaxTo, Problem.Embeds, CellAt, PlacePoints, GapPlace, EndPoints;
    var p := q.patternStart;
    ArrowsInBand(q, p, w);
    CellPoints(q, p, w);
    match CellAt(q, p, w).arrow
    case LeftLeft => OneUnitCell(q, w - 2);
    case Left => OneUnitCell(q, w - 1);
    case _ =>
  }

  lemma ArrowsInBand(q: Problem, p: nat, w: nat)
    requires q.Solvable() && q.InBand(p, w)
    ensures CellAt(q, p, w).arrow == LeftLeft ==> w >= 2 && q.InBand(p, w - 2) && DiagColumn(q, p, w) == DiagColumn(q, p, w - 2)
    ensures CellAt(q, p, w).arrow == Left ==> w >= 1 && q.InBand(p, w - 1) && DiagColumn(q, p, w) == DiagColumn(q, p, w - 1)
    ensures CellAt(q, p, w).arrow == Diag ==> DiagColumn(q, p, w) == w
  {
    hide CellAt, Problem.Min, Problem.Max, Problem.MaxTo, Problem.Embeds;
  }

  /** One unit: the points of the match found, less five for a rest of the word, less how far right it is. */
  lemma OneUnit(q: Problem, boostFullMatch: bool)
    requires q.Solvable() && q.patternLen == q.patternStart + 1
    ensures var a := Answer(q, boostFullMatch);
      |a.matches| == 1 &&
      var w := q.wordStart + a.matches[0];
      && q.Matches(q.patternStart, w)
      && a.score == Points(q, q.patternStart, w, true)
                    - (if w + 1 < q.wordLen then 5 else 0)
                    - (a.matches[0] + 1 - q.patternLen)
                    + (if boostFullMatch && q.wordLen - q.wordStart == q.patternLen then 2 else 0)
  {
    hide CellAt, DiagColumn, Points, Problem.Min, Problem.Max, Problem.MaxTo, Problem.Embeds;
    LastCellInBand(q);
    OneUnitCell(q, q.wordLen - 1);
    AnswerPoints(q, boostFullMatch);
    Band(q, q.patternStart);
  }

  // ---- two words

  // b in fooBar
  const FOO_BAR := Problem([0x62], [0x62], 0, 1, [0x66, 0x6F, 0x6F, 0x42, 0x61, 0x72], [0x66, 0x6F, 0x6F, 0x62, 0x61, 0x72], 0, 6)

  lemma OnlyHump()
    ensures var q := FOO_BAR;
      q.Embeds([3]) && q.Matches(0, 3) && StrongPlace(q, 0, 3) && Points(q, 0, 3, true) == 2 && forall w :: q.Matches(0, w) ==> w == 3
  {
    hide Problem.Min, Problem.Max, Problem.MaxTo;
  }

  /** The hump of fooBar is a strong first match, worth -6. */
  lemma HumpOfFooBar()
    ensures FOO_BAR.Solvable() && HasStrongFirstMatch(FOO_BAR)
    ensures Answer(FOO_BAR, true) == Score(-6, 0, [3])
  {
    hide HasStrongFirstMatch, StrongPlace, Points, CellAt, Walk, Problem.Min, Problem.Max, Problem.MaxTo, Problem.Embeds;
    var q := FOO_BAR;
    OnlyHump();
    SolvableIffEmbeds(q);
    assert StrongPlace(q, 0, [3][0]);
    StrongExactly(q);
    OneUnit(q, true);
    assert Answer(q, true).matches == [3];
  }

  // b in aB_bx
  const TWO_BS := Problem([0x62], [0x62], 0, 1, [0x61, 0x42, 0x5F, 0x62, 0x78], [0x61, 0x62, 0x5F, 0x62, 0x78], 0, 5)

  lemma TwoPlaces()
    ensures var q := TWO_BS;
      && q.Solvable() && q.Min(0) == 1 && q.Max(0) == 3 && q.MaxTo(0) == 5 && Takes(q, 0, 1) && Takes(q, 0, 3) && !q.Matches(0, 2)
      && Points(q, 0, 1, true) == 2 && Points(q, 0, 3, true) == 2
  {
    var q := TWO_BS;
    assert q.Valid() && q.Embeds([1]);
    SolvableIffEmbeds(q);
  }

  lemma TwoCells()
    ensures var q := TWO_BS;
      && q.Solvable() && q.InBand(0, 1) && q.InBand(0, 2) && q.InBand(0, 4)
      && CellAt(q, 0, 1).arrow == Diag && CellAt(q, 0, 2).arrow == Left && CellAt(q, 0, 4).arrow == LeftLeft
  {
    hide CellAt, Points, Problem.Min, Problem.Max, Problem.MaxTo, Problem.Embeds;
    TwoPlaces();
    var q := TWO_BS;
    CellPoints(q, 0, 1);
    CellPoints(q, 0, 2);
    CellPoints(q, 0, 3);
    CellIsBest(q, 0, 3);
    CellPoints(q, 0, 4);
    CellIsBest(q, 0, 4);
  }

  /** The hump and the place behind the separator are worth the same; the first of them wins. */
  lemma FirstOfTwo()
    ensures TWO_BS.Solvable() && Answer(TWO_BS, true).matches == [1]
  {
    hide CellAt, Problem.Min, Problem.Max, Problem.MaxTo, Problem.Embeds;
    var q := TWO_BS;
    TwoCells();
    LastCellInBand(q);
    ArrowsInBand(q, 0, 4);
    ArrowsInBand(q, 0, 2);
    ArrowsInBand(q, 0, 1);
  }
}
