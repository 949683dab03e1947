// What the score of scoreFuzzy is made of.
module FuzzyScorerPoints {
  import opened CodeUnits
  import opened FuzzyScorer

  predicate PathSeparator(c: int) {
    c == '/' as int || c == '\\' as int
  }

  predicate WordSeparator(c: int) {
    || c == '_' as int || c == '-' as int || c == '.' as int || c == ' ' as int || c == '\'' as int || c == '"' as int
    || c == ':' as int
  }

  /** A run of matches earns six for each of its first three, and three for each one more. */
  function RunPoints(run: nat): nat {
    if run <= 3 then 6 * run else 18 + 3 * (run - 3)
  }

  /** Eight at the start, five behind a path separator, four behind another one, two at a capital that is not in a run. */
  function PlacePoints(x: Input, t: nat, run: nat): nat
    requires t < |x.target|
  {
    if t == 0 then 8
    else if PathSeparator(x.target[t - 1]) then 5
    else if WordSeparator(x.target[t - 1]) then 4
    else if 'A' as int <= x.target[t] <= 'Z' as int && run == 0 then 2
    else 0
  }

  /** One for the match, one more for the same case, and what its run and its place earn. */
  function Points(x: Input, q: nat, t: nat, run: nat): nat
    requires x.Valid() && q < |x.query| && t < |x.target|
  {
    1 + (if x.query[q] == x.target[t] then 1 else 0) + RunPoints(run) + PlacePoints(x, t, run)
  }

  lemma CharPoints(x: Input, q: nat, t: nat, run: nat)
    requires x.Valid() && q < |x.query| && t < |x.target|
    ensures x.Matches(q, t) <==>
      x.queryLower[q] == x.targetLower[t] || (PathSeparator(x.queryLower[q]) && PathSeparator(x.targetLower[t]))
    ensures ComputeCharScore(x, q, t, run) == if x.Matches(q, t) then Points(x, q, t, run) else 0
  {
  }

  // What is up and left of a cell, and what is left of it.
  ghost function Diagonal(x: Input, q: nat, t: nat): Cell
    requires x.Valid() && q < |x.query| && t < |x.target|
  {
    if q > 0 && t > 0 then CellAt(x, q - 1, t - 1) else Cell(0, 0)
  }

  ghost function LeftScore(x: Input, q: nat, t: nat): nat
    requires x.Valid() && q < |x.query| && t < |x.target|
  {
    if t > 0 then CellAt(x, q, t - 1).score else 0
  }

  // The units up to q can end with a match at t.
  ghost predicate Possible(x: Input, q: nat, t: nat)
    requires x.Valid() && q < |x.query| && t < |x.target|
  {
    x.Matches(q, t) && if q == 0 then x.MayStart(t) else Diagonal(x, q, t).score > 0
  }

  /** A match is taken where it is at least as good as what is to the left, and then prolongs the run in front of it. */
  lemma CellPoints(x: Input, q: nat, t: nat)
    requires x.Valid() && q < |x.query| && t < |x.target|
    ensures var diagonal, left := Diagonal(x, q, t), LeftScore(x, q, t);
      var taken := diagonal.score + Points(x, q, t, diagonal.matches);
      CellAt(x, q, t) == if Possible(x, q, t) && taken >= left then Cell(taken, diagonal.matches + 1) else Cell(left, 0)
  {
    hide Points;
    CharPoints(x, q, t, Diagonal(x, q, t).matches);
  }

  /** A query of one unit scores what the best of its matches earns. */
  lemma {:induction false} OneUnit(x: Input, m: nat)
    requires x.Valid() && |x.query| == 1 && m <= |x.target|
    ensures forall t :: 0 <= t < m && Possible(x, 0, t) ==> ScoreOf(x, 1, m) >= Points(x, 0, t, 0)
    ensures ScoreOf(x, 1, m) > 0 ==> exists t :: 0 <= t < m && Possible(x, 0, t) && ScoreOf(x, 1, m) == Points(x, 0, t, 0)
    decreases m
  {
    hide CellAt, Points, Possible;
    if m > 0 {
      OneUnit(x, m - 1);
      CellPoints(x, 0, m - 1);
    }
  }
}
