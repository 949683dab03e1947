// fuzzyScore, isPatternInWord, fillInMaxWordMatchPos, createMatches and matchesFuzzy2 (filters.ts).
module FuzzyMatcher {
  import opened CodeUnits
  import opened FuzzyPoints
  import opened FuzzySpec
  import opened Wrappers

  const MAX_LEN := 128
  const MIN_SAFE_INTEGER := -0x1F_FFFF_FFFF_FFFF

  datatype Options = Options(firstMatchCanBeWeak: bool, boostFullMatch: bool)

  datatype Match = Match(start: nat, end: nat)

  function Cut(length: nat): nat {
    if length > MAX_LEN then MAX_LEN else length
  }

  function ToProblem(pattern: seq<CodeUnit>, patternLow: seq<CodeUnit>, patternStart: nat,
                     word: seq<CodeUnit>, wordLow: seq<CodeUnit>, wordStart: nat): Problem {
    Problem(pattern, patternLow, patternStart, Cut(|pattern|), word, wordLow, wordStart, Cut(|word|))
  }

  // doScore: the source reports a mismatch as Number.MIN_SAFE_INTEGER.
  function DoScore(q: Problem, p: nat, w: nat, newMatchStart: bool): int
    requires q.Valid() && q.patternStart <= p < q.patternLen && q.wordStart <= w < q.wordLen
  {
    if q.patternLow[p] != q.wordLow[w] then MIN_SAFE_INTEGER else MatchScore(q, p, w, newMatchStart)
  }

  /** The module-level tables of filters.ts, shared by all calls and never cleared. */
  class Matcher {
    const minWordMatchPos: array<int>
    const maxWordMatchPos: array<int>
    const diag: array2<nat>
    const table: array2<int>
    const arrows: array2<Arrow>

    // Row 0 is never written; nothing else is known about what earlier calls have left.
    ghost predicate Valid()
      reads diag, table
    {
      && minWordMatchPos.Length == 2 * MAX_LEN + 1 && maxWordMatchPos.Length == 2 * MAX_LEN + 1
      && minWordMatchPos != maxWordMatchPos
      && diag.Length0 == diag.Length1 == table.Length0 == table.Length1 == arrows.Length0 == arrows.Length1 == MAX_LEN + 1
      && diag as object != table
      && forall c :: 0 <= c <= MAX_LEN ==> diag[0, c] == 0 && table[0, c] == 0
    }

    constructor ()
      ensures Valid()
      ensures fresh(minWordMatchPos) && fresh(maxWordMatchPos) && fresh(diag) && fresh(table) && fresh(arrows)
    {
      minWordMatchPos := new int[2 * MAX_LEN + 1](_ => 0);
      maxWordMatchPos := new int[2 * MAX_LEN + 1](_ => 0);
      diag := new nat[MAX_LEN + 1, MAX_LEN + 1]((_, _) => 0);
      table := new int[MAX_LEN + 1, MAX_LEN + 1]((_, _) => 0);
      arrows := new Arrow[MAX_LEN + 1, MAX_LEN + 1]((_, _) => Unset);
    }

    // isPatternInWord, filling the leftmost positions
    method IsPatternInWord(q: Problem) returns (found: bool)
      requires Valid() && q.Valid() && q.patternLen <= MAX_LEN
      modifies minWordMatchPos
      ensures found <==> q.Solvable()
      ensures found ==> forall p :: q.patternStart <= p < q.patternLen ==> minWordMatchPos[p] == q.Min(p)
    {
      hide Problem.Min, Problem.MinFrom, FirstAt;
      var patternPos, wordPos := q.patternStart, q.wordStart;
      MinStart(q);
      while patternPos < q.patternLen && wordPos < q.wordLen
        invariant q.patternStart <= patternPos <= q.patternLen && q.wordStart <= wordPos <= q.wordLen
        invariant patternPos < q.patternLen ==>
          q.Min(patternPos) == FirstAt(q.wordLow, q.patternLow[patternPos], wordPos, q.wordLen)
        invariant patternPos == q.patternLen ==> q.Min(q.patternLen - 1) < q.wordLen
        invariant forall p :: q.patternStart <= p < patternPos ==> minWordMatchPos[p] == q.Min(p)
        decreases q.wordLen - wordPos
      {
        MinStep(q, patternPos, wordPos);
        if q.patternLow[patternPos] == q.wordLow[wordPos] {
          minWordMatchPos[patternPos] := wordPos;
          patternPos := patternPos + 1;
        }
        wordPos := wordPos + 1;
      }
      if patternPos < q.patternLen {
        assert q.Min(patternPos) == q.wordLen by {
          MinEnd(q, patternPos);
        }
        NotFoundLater(q, patternPos, q.patternLen - 1);
      }
      found := patternPos == q.patternLen;
    }

    // fillInMaxWordMatchPos
    method FillInMaxWordMatchPos(q: Problem)
      requires Valid() && q.Solvable() && q.patternLen <= MAX_LEN
      modifies maxWordMatchPos
      ensures forall p :: q.patternStart <= p < q.patternLen ==> maxWordMatchPos[p] == q.Max(p)
    {
      hide Problem.Max, Problem.Min, LastAt;
      var patternPos: int, wordPos: int := q.patternLen - 1, q.wordLen - 1;
      MaxStart(q);
      while patternPos >= q.patternStart && wordPos >= q.wordStart
        invariant q.patternStart - 1 <= patternPos < q.patternLen && q.wordStart - 1 <= wordPos < q.wordLen
        invariant patternPos >= q.patternStart ==>
          q.Max(patternPos) == LastAt(q.wordLow, q.patternLow[patternPos], q.wordStart, wordPos + 1)
        invariant forall p :: patternPos < p < q.patternLen ==> maxWordMatchPos[p] == q.Max(p)
        decreases wordPos
      {
        MaxStep(q, patternPos, wordPos);
        if q.patternLow[patternPos] == q.wordLow[wordPos] {
          maxWordMatchPos[patternPos] := wordPos;
          patternPos := patternPos - 1;
        }
        wordPos := wordPos - 1;
      }
      if patternPos >= q.patternStart {
        Band(q, patternPos);
        assert false;
      }
    }

    // Position w of row p of the three tables holds what CellAt says.
    ghost predicate Filled(q: Problem, p: nat, w: nat)
      requires q.InBand(p, w) && q.Solvable() && Valid() && q.patternLen <= MAX_LEN && q.wordLen <= MAX_LEN
      reads diag, table, arrows
    {
      Band(q, p);
      var row, column := p - q.patternStart + 1, w - q.wordStart + 1;
      Cell(table[row, column], diag[row, column], arrows[row, column]) == CellAt(q, p, w)
    }

    ghost predicate Ready(q: Problem)
      reads diag, table, minWordMatchPos, maxWordMatchPos
    {
      && Valid() && q.Solvable() && q.patternLen <= MAX_LEN && q.wordLen <= MAX_LEN
      && forall p :: q.patternStart <= p < q.patternLen ==>
        minWordMatchPos[p] == q.Min(p) && maxWordMatchPos[p] == q.Max(p)
    }

    lemma ReadyFacts(q: Problem)
      requires Ready(q)
      ensures q.Solvable() && Valid() && q.patternLen <= MAX_LEN && q.wordLen <= MAX_LEN
    {
    }

    // What one round of the inner loop reads has been written in this call.
    ghost predicate Reachable(q: Problem, p: nat, w: nat)
      requires q.InBand(p, w) && Ready(q)
      reads diag, table, arrows, minWordMatchPos, maxWordMatchPos
    {
      && (p > q.patternStart && w <= q.Max(p) ==> w > 0 && FilledInBand(q, p - 1, w - 1))
      && (w > q.Min(p) ==> FilledInBand(q, p, w - 1))
      && (w > q.Min(p) + 1 ==> FilledInBand(q, p, w - 2))
    }

    ghost predicate FilledInBand(q: Problem, p: nat, w: int)
      requires Ready(q)
      reads diag, table, arrows, minWordMatchPos, maxWordMatchPos
    {
      hide Filled, Ready, Problem.Min, Problem.Max, Problem.MaxTo, Problem.Embeds, CellAt;
      assert q.Solvable() && Valid() && q.patternLen <= MAX_LEN && q.wordLen <= MAX_LEN by { ReadyFacts(q); }
      w >= 0 && q.InBand(p, w) && Filled(q, p, w)
    }

    // What the tables hold next to a cell that is about to be filled.
    lemma Neighbours(q: Problem, p: nat, w: nat)
      requires q.InBand(p, w) && Ready(q) && Reachable(q, p, w)
      ensures var row, column := p - q.patternStart + 1, w - q.wordStart + 1;
        && 1 <= row <= MAX_LEN && 1 <= column <= MAX_LEN && q.Solvable()
        && (w <= q.Max(p) ==> var above := Above(q, p, w); table[row - 1, column - 1] == above.score && diag[row - 1, column - 1] == above.diag)
        && (w > q.Min(p) ==>
          column > 1 && var left := CellAt(q, p, w - 1); table[row, column - 1] == left.score && diag[row, column - 1] == left.diag)
        && (w > q.Min(p) + 1 ==>
          column > 2 && var leftLeft := CellAt(q, p, w - 2); table[row, column - 2] == leftLeft.score && diag[row, column - 2] == leftLeft.diag)
    {
      hide Best, CellAt, Above, MatchScore, Strong, Problem.Solvable, Problem.Embeds, Problem.Min, Problem.Max;
      Band(q, p);
      CellUnfold(q, p, w);
    }

    lemma FilledBy(q: Problem, p: nat, w: nat)
      requires q.InBand(p, w) && q.Solvable() && Valid() && q.patternLen <= MAX_LEN && q.wordLen <= MAX_LEN
      requires var row, column := p - q.patternStart + 1, w - q.wordStart + 1;
        1 <= row <= MAX_LEN && 1 <= column <= MAX_LEN && Cell(table[row, column], diag[row, column], arrows[row, column]) == CellAt(q, p, w)
      ensures Filled(q, p, w)
    {
      hide CellAt, Problem.Solvable, Problem.Embeds, Problem.Min, Problem.Max, Problem.MaxTo;
    }

    lemma CellFilled(q: Problem, p: nat, w: nat)
      requires Ready(q) && q.InBand(p, w) && RowFilled(q, p)
      ensures q.patternStart <= p && q.wordStart <= w
      ensures p - q.patternStart + 1 <= MAX_LEN && w - q.wordStart + 1 <= MAX_LEN && q.Solvable()
      ensures diag[p - q.patternStart + 1, w - q.wordStart + 1] == CellAt(q, p, w).diag
    {
      hide CellAt, Problem.Solvable, Problem.Embeds, Problem.Min, Problem.Max, Problem.MaxTo, Problem.InBand;
      InTables(q, p, w);
      assert Filled(q, p, w);
    }

    lemma DiagFilled(q: Problem, p: nat, w: nat)
      requires Ready(q) && q.InBand(p, w) && RowFilled(q, p)
      ensures var d := DiagColumn(q, p, w);
        q.wordStart <= d <= w < q.wordLen && diag[p - q.patternStart + 1, d - q.wordStart + 1] == CellAt(q, p, d).diag
    {
      hide CellAt, DiagColumn, Problem.Solvable, Problem.Embeds, Problem.Min, Problem.Max, Problem.MaxTo, Problem.InBand, Problem.Valid, RowFilled;
      InTables(q, p, w);
      CellFilled(q, p, DiagColumn(q, p, w));
    }

    // The body of the inner loop; its last branch, the throw, is dead.
    method FillCell(q: Problem, p: nat, wordPos: nat, hasStrongFirstMatch: bool) returns (strong: bool)
      requires q.InBand(p, wordPos) && Ready(q) && Reachable(q, p, wordPos)
      modifies diag, table, arrows
      ensures Valid() && Filled(q, p, wordPos)
      ensures forall r, c :: 0 <= r <= MAX_LEN && 0 <= c <= MAX_LEN && (r != p - q.patternStart + 1 || c != wordPos - q.wordStart + 1) ==>
        table[r, c] == old(table[r, c]) && diag[r, c] == old(diag[r, c]) && arrows[r, c] == old(arrows[r, c])
      ensures strong <==> hasStrongFirstMatch || (wordPos <= q.Max(p) && q.Matches(p, wordPos) && Strong(q, p, wordPos))
    {
      hide Best, CellAt, Above, MatchScore, Strong, Problem.Solvable, Problem.Embeds, Problem.Min, Problem.Max, Problem.MaxTo, Reachable, Filled;
      Band(q, p);
      Neighbours(q, p, wordPos);
      var row, column := p - q.patternStart + 1, wordPos - q.wordStart + 1;
      var minMatchPos, maxMatchPos := minWordMatchPos[p], maxWordMatchPos[p];
      ghost var canDiag := wordPos <= maxMatchPos && q.patternLow[p] == q.wordLow[wordPos];
      ghost var above := Above(q, p, wordPos);
      ghost var left := if wordPos > minMatchPos then CellAt(q, p, wordPos - 1) else NO_CELL;
      ghost var leftLeft := if wordPos > minMatchPos + 1 then CellAt(q, p, wordPos - 2) else NO_CELL;
      CellUnfold(q, p, wordPos);
      var score := MIN_SAFE_INTEGER;
      var canComeDiag := false;
      strong := hasStrongFirstMatch;
      if wordPos <= maxMatchPos {
        score := DoScore(q, p, wordPos, diag[row - 1, column - 1] == 0);
        strong := strong || (q.patternLow[p] == q.wordLow[wordPos] && Strong(q, p, wordPos));
      }
      var diagScore := 0;
      if score != MIN_SAFE_INTEGER {
        canComeDiag := true;
        diagScore := score + table[row - 1, column - 1];
      }
      assert canComeDiag == canDiag;
      var canComeLeft := wordPos > minMatchPos;
      var leftScore := if canComeLeft then table[row, column - 1] + (if diag[row, column - 1] > 0 then -5 else 0) else 0;
      var canComeLeftLeft := wordPos > minMatchPos + 1 && diag[row, column - 1] > 0;
      var leftLeftScore := if canComeLeftLeft then table[row, column - 2] + (if diag[row, column - 2] > 0 then -5 else 0) else 0;
      ghost var cell := Best(q, p, wordPos, wordPos - minMatchPos, canDiag, above, left, leftLeft);
      WriteCell(row, column, canComeDiag, diagScore, canComeLeft, leftScore, canComeLeftLeft, leftLeftScore);
      BestIsDecided(q, p, wordPos, wordPos - minMatchPos, canDiag, above, left, leftLeft);
      assert cell == Cell(table[row, column], diag[row, column], arrows[row, column]);
      FilledBy(q, p, wordPos);
    }

    ghost predicate RowFilled(q: Problem, p: nat)
      requires Ready(q)
      reads diag, table, arrows, minWordMatchPos, maxWordMatchPos
    {
      forall w :: q.InBand(p, w) ==> Filled(q, p, w)
    }

    // One round of the inner loop, with what it keeps.
    method FillStep(q: Problem, p: nat, wordPos: nat, hasStrongFirstMatch: bool) returns (strong: bool)
      requires q.InBand(p, wordPos) && Ready(q) && Reachable(q, p, wordPos)
      requires forall w :: q.InBand(p, w) && w < wordPos ==> Filled(q, p, w)
      modifies diag, table, arrows
      ensures Ready(q)
      ensures forall w :: q.InBand(p, w) && w <= wordPos ==> Filled(q, p, w)
      ensures forall p' :: q.patternStart <= p' < p && old(RowFilled(q, p')) ==> RowFilled(q, p')
      ensures strong <==> hasStrongFirstMatch || (wordPos <= q.Max(p) && q.Matches(p, wordPos) && Strong(q, p, wordPos))
    {
      hide CellAt, Strong, Problem.Min, Problem.Max, Problem.Embeds, Problem.Solvable;
      strong := FillCell(q, p, wordPos, hasStrongFirstMatch);
      forall w | q.InBand(p, w) && w <= wordPos ensures Filled(q, p, w) {
        Band(q, p);
        if w < wordPos {
          assert old(Filled(q, p, w));
        }
      }
      forall p' | q.patternStart <= p' < p && old(RowFilled(q, p')) ensures RowFilled(q, p') {
        Band(q, p');
        assert old(RowFilled(q, p'));
        forall w | q.InBand(p', w) ensures Filled(q, p', w) {
          assert old(Filled(q, p', w));
        }
      }
    }

    // One round of the outer loop.
    method FillRow(q: Problem, p: nat, hasStrongFirstMatch: bool) returns (strong: bool)
      requires Ready(q) && q.patternStart <= p < q.patternLen
      requires p > q.patternStart ==> RowFilled(q, p - 1)
      modifies diag, table, arrows
      ensures Ready(q) && RowFilled(q, p)
      ensures forall p' :: q.patternStart <= p' < p && old(RowFilled(q, p')) ==> RowFilled(q, p')
      ensures strong <==>
        hasStrongFirstMatch || exists w :: q.Min(p) <= w <= q.Max(p) && q.Matches(p, w) && Strong(q, p, w)
    {
      hide CellAt, Strong, Problem.Min, Problem.Max, Problem.Embeds, Problem.Solvable;
      Band(q, p);
      var wordPos := minWordMatchPos[p];
      var nextMaxMatchPos := if p + 1 < q.patternLen then maxWordMatchPos[p + 1] else q.wordLen;
      NextMax(q, p);
      strong := hasStrongFirstMatch;
      while wordPos < nextMaxMatchPos
        invariant q.Min(p) <= wordPos <= nextMaxMatchPos
        invariant Ready(q)
        invariant forall w :: q.InBand(p, w) && w < wordPos ==> Filled(q, p, w)
        invariant forall p' :: q.patternStart <= p' < p && old(RowFilled(q, p')) ==> RowFilled(q, p')
        invariant strong <==>
          hasStrongFirstMatch || exists w :: q.Min(p) <= w < wordPos && w <= q.Max(p) && q.Matches(p, w) && Strong(q, p, w)
      {
        if p > q.patternStart && wordPos <= q.Max(p) {
          DiagonalInBand(q, p, wordPos);
        }
        strong := FillStep(q, p, wordPos, strong);
        wordPos := wordPos + 1;
      }
    }

    // Lines 234-244: follows the left arrows of a row.
    method FollowArrows(q: Problem, row: nat, column: nat, ghost p: nat, ghost w: nat) returns (diagColumn: nat)
      requires p == q.patternStart + row - 1 && w == q.wordStart + column - 1
      requires Ready(q) && q.InBand(p, w) && RowFilled(q, p)
      ensures diagColumn == DiagColumn(q, p, w) - q.wordStart + 1
    {
      hide CellAt, DiagColumn, Problem.Min, Problem.Max, Problem.MaxTo, Problem.Embeds, Problem.Solvable, Problem.InBand;
      InTables(q, p, w);
      ghost var v := w;
      diagColumn := column;
      while true
        invariant q.InBand(p, v) && q.wordStart <= v < q.wordLen
        invariant diagColumn == v - q.wordStart + 1 && DiagColumn(q, p, v) == DiagColumn(q, p, w)
        decreases diagColumn
      {
        assert Filled(q, p, v);
        ArrowStep(q, p, v);
        var arrow := arrows[row, diagColumn];
        if arrow == LeftLeft {
          v := v - 2;
          diagColumn := diagColumn - 2;
        } else if arrow == Left {
          v := v - 1;
          diagColumn := diagColumn - 1;
        } else {
          break;
        }
        if diagColumn < 1 {
          break;
        }
      }
    }

    // Lines 229-263
    method WalkBack(q: Problem) returns (matches: seq<nat>, maxMatchColumn: nat)
      requires Ready(q) && forall p :: q.patternStart <= p < q.patternLen ==> RowFilled(q, p)
      requires q.InBand(q.patternLen - 1, q.wordLen - 1)
      ensures matches == Walk(q, q.patternLen - 1, q.wordLen - 1, 0)
      ensures maxMatchColumn == matches[0] + 1
    {
      hide CellAt, Walk, Taken, DiagColumn, Problem.Min, Problem.Max, Problem.MaxTo, Problem.Embeds, Problem.Solvable, Problem.Matches,
        RowFilled;
      var row, column := q.patternLen - q.patternStart, q.wordLen - q.wordStart;
      var backwardsDiagLength := 0;
      matches, maxMatchColumn := [], 0;
      ghost var all := Walk(q, q.patternLen - 1, q.wordLen - 1, 0);
      ghost var rest := all;
      while row >= 1
        invariant 0 <= row <= q.patternLen - q.patternStart
        invariant row >= 1 ==>
          && column >= 1 && q.InBand(q.patternStart + row - 1, q.wordStart + column - 1)
          && rest == Walk(q, q.patternStart + row - 1, q.wordStart + column - 1, backwardsDiagLength)
        invariant row == 0 ==> rest == []
        invariant all == matches + rest
        invariant if matches == [] then maxMatchColumn == 0 && row >= 1 else maxMatchColumn == matches[0] + 1
      {
        ghost var p, w := q.patternStart + row - 1, q.wordStart + column - 1;
        InTables(q, p, w);
        assert RowFilled(q, p);
        var diagColumn := FollowArrows(q, row, column, p, w);
        DiagFilled(q, p, w);
        TakenUnfold(q, p, w, backwardsDiagLength);
        if backwardsDiagLength > 1
           && q.patternLow[q.patternStart + row - 1] == q.wordLow[q.wordStart + column - 1]
           && !IsUpperCaseAtPos(diagColumn + q.wordStart - 1, q.word, q.wordLow)
           && backwardsDiagLength + 1 > diag[row, diagColumn] {
          diagColumn := column;
        }
        assert diagColumn + q.wordStart - 1 == Taken(q, p, w, backwardsDiagLength);
        WalkUnfold(q, p, w, backwardsDiagLength);
        assert matches + rest == matches + [diagColumn - 1] + rest[1..];
        rest := rest[1..];
        backwardsDiagLength := if diagColumn == column then backwardsDiagLength + 1 else 1;
        if maxMatchColumn == 0 {
          maxMatchColumn := diagColumn;
        }
        row := row - 1;
        column := diagColumn - 1;
        matches := matches + [column];
      }
    }

    // fuzzyScore
    method FuzzyScore(pattern: seq<CodeUnit>, patternLow: seq<CodeUnit>, patternStart: nat,
                      word: seq<CodeUnit>, wordLow: seq<CodeUnit>, wordStart: nat, options: Options) returns (r: Option<Score>)
      requires Valid() && |pattern| == |patternLow| && |word| == |wordLow|
      modifies minWordMatchPos, maxWordMatchPos, diag, table, arrows
      ensures Valid()
      ensures var q := ToProblem(pattern, patternLow, patternStart, word, wordLow, wordStart);
        r == if q.Solvable() && (HasStrongFirstMatch(q) || options.firstMatchCanBeWeak)
             then Some(Answer(q, options.boostFullMatch)) else None
      ensures var q := ToProblem(pattern, patternLow, patternStart, word, wordLow, wordStart);
        r.Some? <==> BeginsWell(q, options.firstMatchCanBeWeak)
    {
      hide BeginsWell, CellAt, Walk, Problem.Min, Problem.Max, Problem.Embeds, Problem.Matches, Strong;
      var q := ToProblem(pattern, patternLow, patternStart, word, wordLow, wordStart);
      AnsweredExactly(q, options.firstMatchCanBeWeak);
      if patternStart >= q.patternLen || wordStart >= q.wordLen {
        return None;
      }
      if q.patternLen - patternStart > q.wordLen - wordStart {
        TooLong(q);
        return None;
      }
      var found := IsPatternInWord(q);
      if !found {
        return None;
      }
      FillInMaxWordMatchPos(q);
      assert Ready(q);
      var hasStrongFirstMatch := false;
      for p := patternStart to q.patternLen
        invariant Ready(q)
        invariant forall p' :: patternStart <= p' < p ==> RowFilled(q, p')
        invariant hasStrongFirstMatch <==> p > patternStart && HasStrongFirstMatch(q)
      {
        var strong := FillRow(q, p, hasStrongFirstMatch);
        if p > patternStart {
          OnlyFirstIsStrong(q, p);
        }
        hasStrongFirstMatch := strong;
      }
      if !hasStrongFirstMatch && !options.firstMatchCanBeWeak {
        return None;
      }
      LastCellInBand(q);
      assert Filled(q, q.patternLen - 1, q.wordLen - 1) by {
        assert RowFilled(q, q.patternLen - 1);
      }
      var score := table[q.patternLen - patternStart, q.wordLen - wordStart];
      var matches, maxMatchColumn := WalkBack(q);
      if q.wordLen - wordStart == q.patternLen && options.boostFullMatch {
        score := score + 2;
      }
      score := score - (maxMatchColumn - q.patternLen);
      r := Some(Score(score, wordStart, matches));
    }

    // matchesFuzzy2, with the lower-case forms given
    method MatchesFuzzy2(pattern: seq<CodeUnit>, patternLow: seq<CodeUnit>, word: seq<CodeUnit>, wordLow: seq<CodeUnit>)
      returns (r: Option<seq<Match>>)
      requires Valid() && |pattern| == |patternLow| && |word| == |wordLow|
      modifies minWordMatchPos, maxWordMatchPos, diag, table, arrows
      ensures Valid()
      ensures var q := ToProblem(pattern, patternLow, 0, word, wordLow, 0);
        && (r.Some? <==> exists e :: q.Embeds(e))
        && (r.Some? ==> q.Solvable() && Separate(r.value) && Covers(r.value, Placed(q, Answer(q, true).matches)))
        && (r.Some? ==> exists e :: q.Embeds(e) && Separate(r.value) && Covers(r.value, e))
    {
      hide *;
      var q := ToProblem(pattern, patternLow, 0, word, wordLow, 0);
      var score := FuzzyScore(pattern, patternLow, 0, word, wordLow, 0, Options(true, true));
      SolvableExactly(q);
      if score.None? {
        return None;
      }
      AnswerFacts(q, true);
      var matches := CreateMatches(score);
      CoversPlaced(q, score.value, matches);
      assert q.Embeds(Placed(q, score.value.matches)) && Separate(matches) && Covers(matches, Placed(q, score.value.matches));
      r := Some(matches);
    }

    // Lines 204-218; the last branch, the throw, is dead.
    method WriteCell(row: nat, column: nat, canComeDiag: bool, diagScore: int, canComeLeft: bool, leftScore: int,
                     canComeLeftLeft: bool, leftLeftScore: int)
      requires Valid() && 1 <= row <= MAX_LEN && 1 <= column <= MAX_LEN && (canComeLeft || canComeDiag)
      modifies diag, table, arrows
      ensures Valid()
      ensures Cell(table[row, column], diag[row, column], arrows[row, column]) ==
        Decided(old(diag[row - 1, column - 1]), canComeDiag, diagScore, canComeLeft, leftScore, canComeLeftLeft, leftLeftScore)
      ensures forall r, c :: 0 <= r <= MAX_LEN && 0 <= c <= MAX_LEN && (r != row || c != column) ==>
        table[r, c] == old(table[r, c]) && diag[r, c] == old(diag[r, c]) && arrows[r, c] == old(arrows[r, c])
    {
      if canComeLeftLeft && (!canComeLeft || leftLeftScore >= leftScore) && (!canComeDiag || leftLeftScore >= diagScore) {
        table[row, column] := leftLeftScore;
        arrows[row, column] := LeftLeft;
        diag[row, column] := 0;
      } else if canComeLeft && (!canComeDiag || leftScore >= diagScore) {
        table[row, column] := leftScore;
        arrows[row, column] := Left;
        diag[row, column] := 0;
      } else if canComeDiag {
        table[row, column] := diagScore;
        arrows[row, column] := Diag;
        diag[row, column] := diag[row - 1, column - 1] + 1;
      } else {
        assert false;
      }
    }
  }

  lemma InTables(q: Problem, p: nat, w: nat)
    requires q.Solvable() && q.InBand(p, w)
    ensures q.wordStart <= w < q.wordLen && q.patternStart <= p < q.patternLen
  {
    hide Problem.Min, Problem.MaxTo, Problem.Embeds, Problem.Solvable;
    Band(q, p);
  }

  // A left arrow leads to a cell of the band with the same diagonal column; any other one ends the search.
  lemma ArrowStep(q: Problem, p: nat, v: nat)
    requires q.Solvable() && q.InBand(p, v)
    ensures var arrow := CellAt(q, p, v).arrow;
      && (arrow == LeftLeft ==> v - 2 >= q.wordStart && q.InBand(p, v - 2) && DiagColumn(q, p, v) == DiagColumn(q, p, v - 2))
      && (arrow == Left ==> v - 1 >= q.wordStart && q.InBand(p, v - 1) && DiagColumn(q, p, v) == DiagColumn(q, p, v - 1))
      && (arrow != LeftLeft && arrow != Left ==> DiagColumn(q, p, v) == v)
  {
    hide CellAt, Problem.Min, Problem.Max, Problem.MaxTo, Problem.Embeds, Problem.Solvable;
    Band(q, p);
  }

  lemma NextMax(q: Problem, p: nat)
    requires q.Solvable() && q.patternStart <= p < q.patternLen
    ensures q.MaxTo(p) == if p + 1 < q.patternLen then q.Max(p + 1) else q.wordLen
  {
  }

  lemma TakenUnfold(q: Problem, p: nat, w: nat, backwardsDiagLength: nat)
    requires q.Solvable() && q.InBand(p, w)
    ensures var d := DiagColumn(q, p, w);
      && q.wordStart <= d <= w < q.wordLen && q.InBand(p, d)
      && Taken(q, p, w, backwardsDiagLength) ==
         if backwardsDiagLength > 1 && q.patternLow[p] == q.wordLow[w]
            && !IsUpperCaseAtPos(d, q.word, q.wordLow) && backwardsDiagLength + 1 > CellAt(q, p, d).diag
         then w else d
  {
    hide CellAt, Problem.Min, Problem.Max, Problem.MaxTo, Problem.Embeds;
    Band(q, p);
  }

  lemma WalkUnfold(q: Problem, p: nat, w: nat, backwardsDiagLength: nat)
    requires q.Solvable() && q.InBand(p, w)
    ensures var d, r := Taken(q, p, w, backwardsDiagLength), Walk(q, p, w, backwardsDiagLength);
      && d >= q.wordStart && r[0] == d - q.wordStart
      && (p == q.patternStart ==> r[1..] == [])
      && (p > q.patternStart ==>
            && d > q.wordStart && q.InBand(p - 1, d - 1)
            && r[1..] == Walk(q, p - 1, d - 1, if d == w then backwardsDiagLength + 1 else 1))
  {
    hide Taken, CellAt, Problem.Min, Problem.Max, Problem.MaxTo, Problem.Embeds;
    TakenMatches(q, p, w, backwardsDiagLength);
    if p > q.patternStart {
      Band(q, p - 1);
    }
  }

  lemma OnlyFirstIsStrong(q: Problem, p: nat)
    requires q.Valid() && q.patternStart < p < q.patternLen
    ensures forall w :: q.Matches(p, w) ==> !Strong(q, p, w)
  {
  }

  // A pattern longer than the word is no subsequence of it.
  lemma TooLong(q: Problem)
    requires q.Valid() && q.patternLen - q.patternStart > q.wordLen - q.wordStart
    ensures !q.Solvable()
  {
    if q.Solvable() {
      MinSpread(q, q.patternLen - 1);
    }
  }

  lemma {:induction false} MinSpread(q: Problem, p: nat)
    requires q.Solvable() && q.patternStart <= p < q.patternLen
    ensures q.Min(p) - q.wordStart >= p - q.patternStart
    decreases p
  {
    if p > q.patternStart {
      MinSpread(q, p - 1);
      MinStrict(q, p - 1, p);
    }
  }

  // ---- highlighting

  /** Ranges in order, none empty, no two overlapping or touching. */
  ghost predicate Separate(ms: seq<Match>) {
    && (forall i :: 0 <= i < |ms| ==> ms[i].start < ms[i].end)
    && (forall i, j :: 0 <= i < j < |ms| ==> ms[i].end < ms[j].start)
  }

  ghost predicate InRange(ms: seq<Match>, x: int) {
    exists i :: 0 <= i < |ms| && ms[i].start <= x < ms[i].end
  }

  ghost predicate Covers(ms: seq<Match>, positions: seq<nat>) {
    forall x: int :: InRange(ms, x) <==> x in positions
  }

  ghost predicate Decreasing(r: seq<nat>) {
    forall i, j :: 0 <= i < j < |r| ==> r[i] > r[j]
  }

  // createMatches
  method CreateMatches(score: Option<Score>) returns (res: seq<Match>)
    requires score.Some? ==> Decreasing(score.value.matches)
    ensures score.None? ==> res == []
    ensures Separate(res)
    ensures score.Some? ==>
      forall x: int :: InRange(res, x) <==> exists i :: 0 <= i < |score.value.matches| && x == score.value.matches[i] + score.value.wordStart
  {
    if score.None? {
      return [];
    }
    var matches, wordPos := score.value.matches, score.value.wordStart;
    res := [];
    var i := |matches|;
    while i > 0
      invariant 0 <= i <= |matches|
      invariant Separate(res)
      invariant forall k :: 0 <= k < |res| ==> res[k].end <= if i < |matches| then matches[i] + wordPos + 1 else 0
      invariant forall x: int :: InRange(res, x) <==> exists j :: i <= j < |matches| && x == matches[j] + wordPos
    {
      i := i - 1;
      var pos := matches[i] + wordPos;
      ghost var before := res;
      if res != [] && res[|res| - 1].end == pos {
        res := res[|res| - 1 := res[|res| - 1].(end := pos + 1)];
        Extended(before, pos, res);
      } else {
        res := res + [Match(pos, pos + 1)];
        Appended(before, pos, res);
      }
    }
  }

  lemma Extended(before: seq<Match>, pos: nat, after: seq<Match>)
    requires Separate(before) && before != [] && before[|before| - 1].end == pos
    requires after == before[|before| - 1 := before[|before| - 1].(end := pos + 1)]
    ensures Separate(after)
    ensures forall x: int :: InRange(after, x) <==> InRange(before, x) || x == pos
  {
    forall x: int ensures InRange(after, x) <==> InRange(before, x) || x == pos {
      if InRange(before, x) {
        var i :| 0 <= i < |before| && before[i].start <= x < before[i].end;
        assert after[i].start <= x < after[i].end;
      }
      if x == pos {
        assert after[|after| - 1].start <= x < after[|after| - 1].end;
      }
      if InRange(after, x) {
        var i :| 0 <= i < |after| && after[i].start <= x < after[i].end;
        assert x == pos || before[i].start <= x < before[i].end;
      }
    }
  }

  lemma Appended(before: seq<Match>, pos: nat, after: seq<Match>)
    requires Separate(before) && forall k :: 0 <= k < |before| ==> before[k].end < pos
    requires after == before + [Match(pos, pos + 1)]
    ensures Separate(after)
    ensures forall x: int :: InRange(after, x) <==> InRange(before, x) || x == pos
  {
    forall x: int ensures InRange(after, x) <==> InRange(before, x) || x == pos {
      if InRange(before, x) {
        var i :| 0 <= i < |before| && before[i].start <= x < before[i].end;
        assert after[i].start <= x < after[i].end;
      }
      if x == pos {
        assert after[|after| - 1].start <= x < after[|after| - 1].end;
      }
    }
  }

  lemma AnswerDecreases(q: Problem, score: Score)
    requires q.Valid() && WalksBack(q, q.patternLen - 1, score.matches)
    ensures Decreasing(score.matches)
  {
  }

  lemma AnswerFacts(q: Problem, boostFullMatch: bool)
    requires q.Solvable()
    ensures var s := Answer(q, boostFullMatch);
      s.wordStart == q.wordStart && Decreasing(s.matches) && q.Embeds(Placed(q, s.matches))
  {
    hide Placed, Walk, CellAt, WalksBack, Problem.Matches, Problem.Min, Problem.Embeds, Decreasing, Strong;
    AnswerEmbeds(q, boostFullMatch);
    AnswerDecreases(q, Answer(q, boostFullMatch));
  }

  lemma AnsweredExactly(q: Problem, weak: bool)
    ensures q.Solvable() && (HasStrongFirstMatch(q) || weak) <==> BeginsWell(q, weak)
  {
    hide StrongPlace, HasStrongFirstMatch, Problem.Matches, Problem.Min;
    SolvableExactly(q);
    if q.Solvable() {
      StrongExactly(q);
    }
  }

  lemma SolvableExactly(q: Problem)
    ensures q.Solvable() <==> exists e :: q.Embeds(e)
  {
    hide Problem.Matches, Problem.Min;
    if q.Valid() {
      SolvableIffEmbeds(q);
    }
  }

  lemma CoversPlaced(q: Problem, score: Score, ms: seq<Match>)
    requires score.wordStart == q.wordStart
    requires forall x: int :: InRange(ms, x) <==> exists i :: 0 <= i < |score.matches| && x == score.matches[i] + score.wordStart
    ensures Covers(ms, Placed(q, score.matches))
  {
    var e := Placed(q, score.matches);
    forall x: int ensures InRange(ms, x) <==> x in e {
      if InRange(ms, x) {
        var i :| 0 <= i < |score.matches| && x == score.matches[i] + score.wordStart;
        assert e[|e| - 1 - i] == x;
      }
      if x in e {
        var i :| 0 <= i < |e| && e[i] == x;
        assert x == score.matches[|e| - 1 - i] + score.wordStart;
      }
    }
  }

  // The three possible cells, in order of preference.
  ghost function Decided(aboveDiag: nat, canComeDiag: bool, diagScore: int, canComeLeft: bool, leftScore: int,
                         canComeLeftLeft: bool, leftLeftScore: int): Cell {
    if canComeLeftLeft && (!canComeLeft || leftLeftScore >= leftScore) && (!canComeDiag || leftLeftScore >= diagScore) then
      Cell(leftLeftScore, 0, LeftLeft)
    else if canComeLeft && (!canComeDiag || leftScore >= diagScore) then
      Cell(leftScore, 0, Left)
    else
      Cell(diagScore, aboveDiag + 1, Diag)
  }

  lemma BestIsDecided(q: Problem, p: nat, w: nat, column: nat, canComeDiag: bool, above: Cell, left: Cell, leftLeft: Cell)
    requires canComeDiag ==> q.Matches(p, w)
    requires column == 0 ==> canComeDiag
    ensures Best(q, p, w, column, canComeDiag, above, left, leftLeft) ==
      Decided(above.diag, canComeDiag, if canComeDiag then MatchScore(q, p, w, above.diag == 0) + above.score else 0,
              column > 0, if column > 0 then left.score + Penalty(left) else 0,
              column > 1 && left.diag > 0, if column > 1 && left.diag > 0 then leftLeft.score + Penalty(leftLeft) else 0)
  {
  }

  lemma MinStart(q: Problem)
    requires q.Valid()
    ensures q.Min(q.patternStart) == FirstAt(q.wordLow, q.patternLow[q.patternStart], q.wordStart, q.wordLen)
  {
  }

  lemma MinStep(q: Problem, p: nat, w: nat)
    requires q.Valid() && q.patternStart <= p < q.patternLen && w < q.wordLen
    requires q.Min(p) == FirstAt(q.wordLow, q.patternLow[p], w, q.wordLen)
    ensures q.patternLow[p] != q.wordLow[w] ==> q.Min(p) == FirstAt(q.wordLow, q.patternLow[p], w + 1, q.wordLen)
    ensures q.patternLow[p] == q.wordLow[w] ==> q.Min(p) == w
    ensures q.patternLow[p] == q.wordLow[w] && p + 1 < q.patternLen ==>
      q.Min(p + 1) == FirstAt(q.wordLow, q.patternLow[p + 1], w + 1, q.wordLen)
  {
  }

  lemma MinEnd(q: Problem, p: nat)
    requires q.Valid() && q.patternStart <= p < q.patternLen
    requires q.Min(p) == FirstAt(q.wordLow, q.patternLow[p], q.wordLen, q.wordLen)
    ensures q.Min(p) == q.wordLen
  {
  }

  lemma MaxStart(q: Problem)
    requires q.Valid()
    ensures q.Max(q.patternLen - 1) == LastAt(q.wordLow, q.patternLow[q.patternLen - 1], q.wordStart, q.wordLen)
  {
  }

  lemma MaxStep(q: Problem, p: nat, w: nat)
    requires q.Valid() && q.patternStart <= p < q.patternLen && q.wordStart <= w < q.wordLen
    requires q.Max(p) == LastAt(q.wordLow, q.patternLow[p], q.wordStart, w + 1)
    ensures q.patternLow[p] != q.wordLow[w] ==> q.Max(p) == LastAt(q.wordLow, q.patternLow[p], q.wordStart, w)
    ensures q.patternLow[p] == q.wordLow[w] ==> q.Max(p) == w
    ensures q.patternLow[p] == q.wordLow[w] && p > q.patternStart ==>
      q.Max(p - 1) == LastAt(q.wordLow, q.patternLow[p - 1], q.wordStart, w)
  {
  }

  lemma {:induction false} NotFoundLater(q: Problem, p: nat, p': nat)
    requires q.Valid() && q.patternStart <= p <= p' < q.patternLen && q.Min(p) == q.wordLen
    ensures q.Min(p') == q.wordLen
    decreases p'
  {
    if p < p' {
      NotFoundLater(q, p, p' - 1);
    }
  }
}
