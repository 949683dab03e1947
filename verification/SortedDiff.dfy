// sortedDiff and delta (arrays.ts).
module SortedDiff {

  datatype Splice<T> = Splice(start: nat, deleteCount: nat, toInsert: seq<T>)

  function EndOf<T>(splices: seq<Splice<T>>): nat {
    if splices == [] then 0 else splices[|splices| - 1].start + splices[|splices| - 1].deleteCount
  }

  // In range and in order.
  ghost predicate InOrder<T>(b: seq<T>, splices: seq<Splice<T>>)
    decreases |splices|
  {
    if splices == [] then true
    else
      var init, s := splices[..|splices| - 1], splices[|splices| - 1];
      s.start + s.deleteCount <= |b| && EndOf(init) <= s.start && InOrder(b[..s.start], init)
  }

  /** The effect of splices on an array: the last one first, so that positions stay valid. */
  ghost function Apply<T>(b: seq<T>, splices: seq<Splice<T>>): seq<T>
    requires InOrder(b, splices)
    decreases |splices|
  {
    if splices == [] then b
    else
      var s := splices[|splices| - 1];
      Apply(b[..s.start], splices[..|splices| - 1]) + s.toInsert + b[s.start + s.deleteCount..]
  }

  ghost function Removed<T>(b: seq<T>, splices: seq<Splice<T>>): seq<T>
    requires InOrder(b, splices)
    decreases |splices|
  {
    if splices == [] then []
    else
      var s := splices[|splices| - 1];
      Removed(b[..s.start], splices[..|splices| - 1]) + b[s.start..s.start + s.deleteCount]
  }

  ghost function Added<T>(splices: seq<Splice<T>>): seq<T> {
    if splices == [] then [] else Added(splices[..|splices| - 1]) + splices[|splices| - 1].toInsert
  }

  // No splice is empty and no two touch.
  ghost predicate Merged<T>(splices: seq<Splice<T>>) {
    && (forall i :: 0 <= i < |splices| ==> splices[i].deleteCount > 0 || splices[i].toInsert != [])
    && (forall i, j :: 0 <= i < |splices| - 1 && j == i + 1 ==> splices[i].start + splices[i].deleteCount < splices[j].start)
  }

  /** Equal element by element as far as the comparison can tell. */
  ghost predicate Agree<T>(xs: seq<T>, ys: seq<T>, compare: (T, T) -> int) {
    |xs| == |ys| && forall i :: 0 <= i < |xs| ==> xs[i] == ys[i] || compare(xs[i], ys[i]) == 0
  }

  ghost predicate TotalOrder<T(!new)>(compare: (T, T) -> int) {
    && (forall x, y :: compare(x, y) == 0 <==> x == y)
    && (forall x, y :: compare(x, y) < 0 <==> compare(y, x) > 0)
    && (forall x, y, z :: compare(x, y) < 0 && compare(y, z) < 0 ==> compare(x, z) < 0)
  }

  ghost predicate Sorted<T>(xs: seq<T>, compare: (T, T) -> int) {
    forall i, j :: 0 <= i < j < |xs| ==> compare(xs[i], xs[j]) <= 0
  }

  // More elements behind the last splice change nothing but the tail.
  lemma {:induction false} InOrderTail<T>(b: seq<T>, b': seq<T>, splices: seq<Splice<T>>)
    requires b <= b' && InOrder(b, splices)
    ensures InOrder(b', splices) && EndOf(splices) <= |b|
    ensures Apply(b', splices) == Apply(b, splices) + b'[|b|..]
    ensures Removed(b', splices) == Removed(b, splices)
  {
    if splices != [] {
      var s := splices[|splices| - 1];
      assert b'[..s.start] == b[..s.start];
      assert b'[s.start + s.deleteCount..] == b[s.start + s.deleteCount..] + b'[|b|..];
      assert b'[s.start..s.start + s.deleteCount] == b[s.start..s.start + s.deleteCount];
    }
  }

  // The four recursive readings of a list of splices, at its last splice.
  lemma LastSplice<T>(b: seq<T>, init: seq<Splice<T>>, s: Splice<T>)
    ensures var r := init + [s];
      && (InOrder(b, r) <==> s.start + s.deleteCount <= |b| && EndOf(init) <= s.start && InOrder(b[..s.start], init))
      && Added(r) == Added(init) + s.toInsert
      && (InOrder(b, r) ==>
        && Apply(b, r) == Apply(b[..s.start], init) + s.toInsert + b[s.start + s.deleteCount..]
        && Removed(b, r) == Removed(b[..s.start], init) + b[s.start..s.start + s.deleteCount])
  {
    var r := init + [s];
    assert r[..|r| - 1] == init && r[|r| - 1] == s;
  }

  // The same where the last splice reaches the end.
  lemma SpliceAtEnd<T>(b: seq<T>, init: seq<Splice<T>>, s: Splice<T>)
    requires s.start + s.deleteCount == |b|
    ensures var r := init + [s];
      && (InOrder(b, r) <==> EndOf(init) <= s.start && InOrder(b[..s.start], init))
      && Added(r) == Added(init) + s.toInsert
      && (InOrder(b, r) ==>
        && Apply(b, r) == Apply(b[..s.start], init) + s.toInsert
        && Removed(b, r) == Removed(b[..s.start], init) + b[s.start..])
  {
    hide InOrder, Apply, Removed, Added;
    LastSplice(b, init, s);
    assert b[s.start + s.deleteCount..] == [];
  }

  lemma SpliceExtended<T>(b: seq<T>, b': seq<T>, init: seq<Splice<T>>, s: Splice<T>, n: nat, xs: seq<T>)
    requires b <= b' && |b| + n == |b'| && s.start + s.deleteCount == |b| && InOrder(b, init + [s])
    ensures var r := init + [Splice(s.start, s.deleteCount + n, s.toInsert + xs)];
      && InOrder(b', r) && Apply(b', r) == Apply(b, init + [s]) + xs
      && Removed(b', r) == Removed(b, init + [s]) + b'[|b|..] && Added(r) == Added(init + [s]) + xs
  {
    hide InOrder, Apply, Removed, Added, EndOf;
    SpliceAtEnd(b, init, s);
    SpliceAtEnd(b', init, Splice(s.start, s.deleteCount + n, s.toInsert + xs));
    PrefixParts(b, b', s.start);
    Regroup(Apply(b[..s.start], init), s.toInsert, xs);
    Regroup(Removed(b[..s.start], init), b[s.start..], b'[|b|..]);
    Regroup(Added(init), s.toInsert, xs);
  }

  lemma PrefixParts<T>(b: seq<T>, b': seq<T>, i: nat)
    requires b <= b' && i <= |b|
    ensures b'[..i] == b[..i] && b'[i..] == b[i..] + b'[|b|..]
  {
  }

  lemma Regroup<T>(xs: seq<T>, ys: seq<T>, zs: seq<T>)
    ensures xs + (ys + zs) == xs + ys + zs
  {
  }

  lemma Halves<T>(b: seq<T>, t: seq<T>)
    ensures (b + t)[..|b|] == b && (b + t)[|b|..|b| + |t|] == t && (b + t)[|b| + |t|..] == []
  {
  }

  lemma SpliceBehind<T>(b: seq<T>, t: seq<T>, result: seq<Splice<T>>, s: Splice<T>)
    requires InOrder(b, result) && s.start == |b| && s.deleteCount == |t|
    ensures var r := result + [s];
      && InOrder(b + t, r) && Apply(b + t, r) == Apply(b, result) + s.toInsert
      && Removed(b + t, r) == Removed(b, result) + t && Added(r) == Added(result) + s.toInsert
  {
    hide *;
    InOrderTail(b, b, result);
    LastSplice(b + t, result, s);
    Halves(b, t);
    var done := Apply(b, result) + s.toInsert;
    assert done + [] == done;
  }

  lemma SpliceAdded<T>(b: seq<T>, b': seq<T>, result: seq<Splice<T>>, s: Splice<T>)
    requires b <= b' && InOrder(b, result) && |b| == s.start && s.start + s.deleteCount == |b'|
    ensures var r := result + [s];
      && InOrder(b', r) && Apply(b', r) == Apply(b, result) + s.toInsert
      && Removed(b', r) == Removed(b, result) + b'[|b|..] && Added(r) == Added(result) + s.toInsert
  {
    hide *;
    var t := b'[|b|..];
    assert b' == b + t;
    SpliceBehind(b, t, result, s);
  }

  lemma MergedGrows<T>(result: seq<Splice<T>>, s: Splice<T>)
    requires Merged(result) && (s.deleteCount > 0 || s.toInsert != []) && (result != [] ==> EndOf(result) < s.start)
    ensures Merged(result + [s])
  {
  }

  lemma MergedExtends<T>(init: seq<Splice<T>>, s: Splice<T>, n: nat, xs: seq<T>)
    requires Merged(init + [s])
    ensures Merged(init + [Splice(s.start, s.deleteCount + n, s.toInsert + xs)])
  {
    var q, r := init + [s], init + [Splice(s.start, s.deleteCount + n, s.toInsert + xs)];
    forall i | 0 <= i < |r| ensures r[i].deleteCount > 0 || r[i].toInsert != [] {
      assert q[i].deleteCount > 0 || q[i].toInsert != [];
    }
    forall i, j | 0 <= i < |r| - 1 && j == i + 1 ensures r[i].start + r[i].deleteCount < r[j].start {
      assert q[i].start + q[i].deleteCount < q[j].start;
    }
  }

  // pushSplice
  method PushSplice<T>(result: seq<Splice<T>>, start: nat, deleteCount: nat, toInsert: seq<T>, ghost before: seq<T>)
    returns (r: seq<Splice<T>>)
    requires start + deleteCount <= |before| && Merged(result) && InOrder(before[..start], result)
    ensures Merged(r) && InOrder(before[..start + deleteCount], r)
    ensures Apply(before[..start + deleteCount], r) == Apply(before[..start], result) + toInsert
    ensures Removed(before[..start + deleteCount], r) == Removed(before[..start], result) + before[start..start + deleteCount]
    ensures Added(r) == Added(result) + toInsert
  {
    hide InOrder, Apply, Removed, Added, Merged;
    ghost var b, b' := before[..start], before[..start + deleteCount];
    assert b'[|b|..] == before[start..start + deleteCount];
    InOrderTail(b, b, result);
    if deleteCount == 0 && |toInsert| == 0 {
      assert b == b';
      r := result;
    } else if |result| > 0 && result[|result| - 1].start + result[|result| - 1].deleteCount == start {
      var latest := result[|result| - 1];
      var init := result[..|result| - 1];
      assert result == init + [latest];
      r := init + [Splice(latest.start, latest.deleteCount + deleteCount, latest.toInsert + toInsert)];
      SpliceExtended(b, b', init, latest, deleteCount, toInsert);
      MergedExtends(init, latest, deleteCount, toInsert);
    } else {
      r := result + [Splice(start, deleteCount, toInsert)];
      SpliceAdded(b, b', result, Splice(start, deleteCount, toInsert));
      MergedGrows(result, Splice(start, deleteCount, toInsert));
    }
  }

  // Every element of xs comes before everything from position i of ys on.
  ghost predicate Before<T(!new)>(xs: seq<T>, ys: seq<T>, i: nat, compare: (T, T) -> int) {
    forall x, j :: x in xs && i <= j < |ys| ==> compare(x, ys[j]) < 0
  }

  ghost predicate Disjoint<T(!new)>(xs: seq<T>, ys: seq<T>) {
    forall x :: x in xs ==> x !in ys
  }

  // On sorted arrays, b elements of before and a of after being done: what was kept is the same
  // on both sides, and nothing removed or added can still occur.
  ghost predicate Parted<T(!new)>(before: seq<T>, after: seq<T>, compare: (T, T) -> int, removed: seq<T>, added: seq<T>, b: nat, a: nat)
    requires b <= |before| && a <= |after|
  {
    && multiset(before[..b]) + multiset(added) == multiset(after[..a]) + multiset(removed)
    && Disjoint(removed, added)
    && Before(removed, after, a, compare)
    && Before(added, before, b, compare)
  }

  ghost predicate Ordered<T(!new)>(before: seq<T>, after: seq<T>, compare: (T, T) -> int) {
    TotalOrder(compare) && Sorted(before, compare) && Sorted(after, compare)
  }

  lemma OneLonger<T>(xs: seq<T>, i: nat)
    requires i < |xs|
    ensures multiset(xs[..i + 1]) == multiset(xs[..i]) + multiset{xs[i]}
  {
    assert xs[..i + 1] == xs[..i] + [xs[i]];
  }

  lemma BeforeShrinks<T(!new)>(xs: seq<T>, ys: seq<T>, i: nat, compare: (T, T) -> int)
    requires Before(xs, ys, i, compare)
    ensures Before(xs, ys, i + 1, compare)
  {
  }

  // An element smaller than ys[i] may join those that come before it.
  lemma BeforeGrows<T(!new)>(xs: seq<T>, ys: seq<T>, i: nat, compare: (T, T) -> int, x: T)
    requires TotalOrder(compare) && Sorted(ys, compare) && i < |ys| && compare(x, ys[i]) < 0
    requires Before(xs, ys, i, compare)
    ensures Before(xs + [x], ys, i, compare)
  {
    forall z, j | z in xs + [x] && i <= j < |ys| ensures compare(z, ys[j]) < 0 {
      if z !in xs && i < j {
        assert compare(ys[i], ys[j]) <= 0;
      }
    }
  }

  // Nothing that comes before position i of ys occurs there.
  lemma NotIn<T(!new)>(xs: seq<T>, ys: seq<T>, i: nat, j: nat, compare: (T, T) -> int)
    requires TotalOrder(compare) && i <= j < |ys| && Before(xs, ys, i, compare)
    ensures ys[j] !in xs
  {
    assert compare(ys[j], ys[j]) == 0;
  }

  lemma OneMoreOnLeft<T>(xs: multiset<T>, ys: multiset<T>, x: T)
    ensures (xs + multiset{x}) + ys == (xs + ys) + multiset{x}
  {
  }

  lemma PartedKept<T(!new)>(before: seq<T>, after: seq<T>, compare: (T, T) -> int, removed: seq<T>, added: seq<T>, b: nat, a: nat)
    requires b < |before| && a < |after| && Ordered(before, after, compare) && compare(before[b], after[a]) == 0
    requires Parted(before, after, compare, removed, added, b, a)
    ensures Parted(before, after, compare, removed, added, b + 1, a + 1)
  {
    assert before[b] == after[a];
    hide Before, Disjoint, Ordered;
    OneLonger(before, b);
    OneLonger(after, a);
    BeforeShrinks(removed, after, a, compare);
    BeforeShrinks(added, before, b, compare);
    OneMoreOnLeft(multiset(before[..b]), multiset(added), before[b]);
    OneMoreOnLeft(multiset(after[..a]), multiset(removed), after[a]);
  }

  lemma PartedRemoved<T(!new)>(before: seq<T>, after: seq<T>, compare: (T, T) -> int, removed: seq<T>, added: seq<T>, b: nat, a: nat)
    requires b < |before| && a < |after| && Ordered(before, after, compare) && compare(before[b], after[a]) < 0
    requires Parted(before, after, compare, removed, added, b, a)
    ensures Parted(before, after, compare, removed + [before[b]], added, b + 1, a)
  {
    OneLonger(before, b);
    OneMoreOnLeft(multiset(before[..b]), multiset(added), before[b]);
    assert multiset(removed + [before[b]]) == multiset(removed) + multiset{before[b]};
    NotIn(added, before, b, b, compare);
    assert Disjoint(removed + [before[b]], added);
    hide Before, Disjoint, TotalOrder, Sorted;
    BeforeShrinks(added, before, b, compare);
    BeforeGrows(removed, after, a, compare, before[b]);
  }

  lemma PartedAdded<T(!new)>(before: seq<T>, after: seq<T>, compare: (T, T) -> int, removed: seq<T>, added: seq<T>, b: nat, a: nat)
    requires b < |before| && a < |after| && Ordered(before, after, compare) && compare(before[b], after[a]) > 0
    requires Parted(before, after, compare, removed, added, b, a)
    ensures Parted(before, after, compare, removed, added + [after[a]], b, a + 1)
  {
    OneLonger(after, a);
    OneMoreOnLeft(multiset(after[..a]), multiset(removed), after[a]);
    assert multiset(added + [after[a]]) == multiset(added) + multiset{after[a]};
    NotIn(removed, after, a, a, compare);
    assert Disjoint(removed, added + [after[a]]);
    assert compare(after[a], before[b]) < 0;
    hide Before, Disjoint, TotalOrder, Sorted;
    BeforeShrinks(removed, after, a, compare);
    BeforeGrows(added, before, b, compare, after[a]);
  }

  lemma EndsDisjoint<T(!new)>(before: seq<T>, after: seq<T>, compare: (T, T) -> int, removed: seq<T>, added: seq<T>, b: nat, a: nat)
    requires b <= |before| && a <= |after| && (b == |before| || a == |after|) && Ordered(before, after, compare)
    requires Parted(before, after, compare, removed, added, b, a)
    ensures Disjoint(removed + before[b..], added + after[a..])
  {
    TailDisjoint(removed, after, a, compare);
    TailDisjoint(added, before, b, compare);
  }

  lemma TailDisjoint<T(!new)>(xs: seq<T>, ys: seq<T>, i: nat, compare: (T, T) -> int)
    requires TotalOrder(compare) && i <= |ys| && Before(xs, ys, i, compare)
    ensures Disjoint(xs, ys[i..])
  {
    forall j | i <= j < |ys| ensures ys[j] !in xs {
      NotIn(xs, ys, i, j, compare);
    }
  }

  // One array is used up: the rest of the other is removed or added.
  lemma PartedEnds<T(!new)>(before: seq<T>, after: seq<T>, compare: (T, T) -> int, removed: seq<T>, added: seq<T>, b: nat, a: nat)
    requires b <= |before| && a <= |after| && (b == |before| || a == |after|) && Ordered(before, after, compare)
    requires Parted(before, after, compare, removed, added, b, a)
    ensures multiset(removed + before[b..]) == multiset(before) - multiset(after)
    ensures multiset(added + after[a..]) == multiset(after) - multiset(before)
  {
    EndsDisjoint(before, after, compare, removed, added, b, a);
    hide Ordered, Before, Disjoint;
    assert before == before[..b] + before[b..] && after == after[..a] + after[a..];
    BothSides(before[..b], before[b..], removed, after[..a], after[a..], added);
    InNeither(removed + before[b..], added + after[a..]);
    TwoDifferences(multiset(before), multiset(after), multiset(removed + before[b..]), multiset(added + after[a..]));
  }

  lemma BothSides<T>(b: seq<T>, b': seq<T>, removed: seq<T>, a: seq<T>, a': seq<T>, added: seq<T>)
    requires multiset(b) + multiset(added) == multiset(a) + multiset(removed)
    ensures multiset(b + b') + multiset(added + a') == multiset(a + a') + multiset(removed + b')
  {
    calc {
      multiset(b + b') + multiset(added + a');
      (multiset(b) + multiset(added)) + (multiset(b') + multiset(a'));
      (multiset(a) + multiset(removed)) + (multiset(b') + multiset(a'));
      multiset(a + a') + multiset(removed + b');
    }
  }

  lemma InNeither<T(!new)>(xs: seq<T>, ys: seq<T>)
    requires Disjoint(xs, ys)
    ensures forall x :: x in multiset(xs) ==> x !in multiset(ys)
  {
    forall x | x in multiset(xs) ensures x !in multiset(ys) {
      assert x in xs;
      assert x !in ys;
    }
  }

  lemma TwoDifferences<T>(before: multiset<T>, after: multiset<T>, removed: multiset<T>, added: multiset<T>)
    requires before + added == after + removed && forall x :: x in removed ==> x !in added
    ensures removed == before - after && added == after - before
  {
    forall x: T ensures removed[x] == (before - after)[x] && added[x] == (after - before)[x] {
      assert before[x] + added[x] == (before + added)[x] == (after + removed)[x] == after[x] + removed[x];
      assert x in removed ==> x !in added;
    }
  }

  method SortedDiff<T(!new)>(before: seq<T>, after: seq<T>, compare: (T, T) -> int) returns (result: seq<Splice<T>>)
    ensures Merged(result) && InOrder(before, result)
    ensures Agree(Apply(before, result), after, compare)
    ensures Ordered(before, after, compare) ==>
      && multiset(Removed(before, result)) == multiset(before) - multiset(after)
      && multiset(Added(result)) == multiset(after) - multiset(before)
  {
    hide Merged, InOrder, Apply, Removed, Added, Ordered, Parted;
    result := [];
    var b, a := 0, 0;
    NothingDone(before, after, compare);
    ghost var applied: seq<T>, removed: seq<T>, added: seq<T> := [], [], [];
    while true
      invariant b <= |before| && a <= |after| && Merged(result) && InOrder(before[..b], result)
      invariant applied == Apply(before[..b], result) && removed == Removed(before[..b], result) && added == Added(result)
      invariant Agree(applied, after[..a], compare)
      invariant Ordered(before, after, compare) ==> Parted(before, after, compare, removed, added, b, a)
      decreases |before| - b + |after| - a
    {
      if b == |before| || a == |after| {
        if Ordered(before, after, compare) {
          PartedEnds(before, after, compare, removed, added, b, a);
        }
        if b == |before| {
          result := PushSplice(result, b, 0, after[a..], before);
        } else {
          result := PushSplice(result, b, |before| - b, [], before);
        }
        assert before[..|before|] == before && after[..a] + after[a..] == after;
        assert b == |before| ==> removed + before[b..b] == removed + before[b..];
        assert b != |before| ==> added + [] == added + after[a..] && applied + [] == applied && before[b..|before|] == before[b..];
        return;
      }
      var n := compare(before[b], after[a]);
      assert before[..b + 1] == before[..b] + [before[b]] && after[..a + 1] == after[..a] + [after[a]];
      if n == 0 {
        InOrderTail(before[..b], before[..b + 1], result);
        if Ordered(before, after, compare) {
          PartedKept(before, after, compare, removed, added, b, a);
        }
        applied := applied + [before[b]];
        b := b + 1;
        a := a + 1;
      } else if n < 0 {
        if Ordered(before, after, compare) {
          PartedRemoved(before, after, compare, removed, added, b, a);
        }
        result := PushSplice(result, b, 1, [], before);
        assert applied + [] == applied && added + [] == added && before[b..b + 1] == [before[b]];
        removed := removed + [before[b]];
        b := b + 1;
      } else {
        if Ordered(before, after, compare) {
          PartedAdded(before, after, compare, removed, added, b, a);
        }
        result := PushSplice(result, b, 0, [after[a]], before);
        assert removed + before[b..b] == removed;
        applied, added := applied + [after[a]], added + [after[a]];
        a := a + 1;
      }
    }
  }

  lemma NothingDone<T(!new)>(before: seq<T>, after: seq<T>, compare: (T, T) -> int)
    ensures var none: seq<Splice<T>> := [];
      && Merged(none) && InOrder(before[..0], none) && Apply(before[..0], none) == [] && Removed(before[..0], none) == []
      && Added(none) == [] && Parted(before, after, compare, [], [], 0, 0)
  {
  }

  /** Where ties are equal, applying the diff gives exactly the other array. */
  lemma DiffApplies<T(!new)>(before: seq<T>, after: seq<T>, compare: (T, T) -> int, result: seq<Splice<T>>)
    requires InOrder(before, result) && Agree(Apply(before, result), after, compare)
    requires forall x, y :: compare(x, y) == 0 ==> x == y
    ensures Apply(before, result) == after
  {
  }

  method Delta<T(!new)>(before: seq<T>, after: seq<T>, compare: (T, T) -> int) returns (removed: seq<T>, added: seq<T>)
    ensures Ordered(before, after, compare) ==>
      && multiset(removed) == multiset(before) - multiset(after)
      && multiset(added) == multiset(after) - multiset(before)
  {
    hide Merged, Apply, Agree, Ordered;
    var splices := SortedDiff(before, after, compare);
    removed, added := [], [];
    for i := 0 to |splices|
      invariant InOrder(before, splices[..i])
      invariant removed == Removed(before, splices[..i]) && added == Added(splices[..i])
    {
      var splice := splices[i];
      OneMore(before, splices, i);
      removed := removed + before[splice.start..splice.start + splice.deleteCount];
      added := added + splice.toInsert;
    }
    assert splices[..|splices|] == splices;
  }

  lemma OneMore<T>(b: seq<T>, splices: seq<Splice<T>>, i: nat)
    requires InOrder(b, splices) && i < |splices|
    ensures InOrder(b, splices[..i]) && InOrder(b, splices[..i + 1]) && splices[i].start + splices[i].deleteCount <= |b|
    ensures Removed(b, splices[..i + 1]) == Removed(b, splices[..i]) + b[splices[i].start..splices[i].start + splices[i].deleteCount]
    ensures Added(splices[..i + 1]) == Added(splices[..i]) + splices[i].toInsert
  {
    hide *;
    InOrderPrefix(b, splices, i);
    InOrderPrefix(b, splices, i + 1);
    PrefixNext(splices, i);
    OneMoreOf(b, splices[..i], splices[i]);
  }

  lemma PrefixNext<T>(s: seq<T>, i: nat)
    requires i < |s|
    ensures s[..i + 1] == s[..i] + [s[i]]
  {
  }

  lemma OneMoreOf<T>(b: seq<T>, init: seq<Splice<T>>, s: Splice<T>)
    requires InOrder(b, init + [s]) && InOrder(b, init)
    ensures s.start + s.deleteCount <= |b| && Removed(b, init + [s]) == Removed(b, init) + b[s.start..s.start + s.deleteCount]
    ensures Added(init + [s]) == Added(init) + s.toInsert
  {
    hide *;
    LastSplice(b, init, s);
    assert b[..s.start] <= b;
    InOrderTail(b[..s.start], b, init);
  }

  lemma {:induction false} InOrderPrefix<T>(b: seq<T>, splices: seq<Splice<T>>, i: nat)
    requires InOrder(b, splices) && i <= |splices|
    ensures InOrder(b, splices[..i])
    decreases |splices|
  {
    if i < |splices| {
      var s := splices[|splices| - 1];
      InOrderPrefix(b[..s.start], splices[..|splices| - 1], i);
      assert splices[..|splices| - 1][..i] == splices[..i];
      InOrderTail(b[..s.start], b, splices[..i]);
    } else {
      assert splices[..i] == splices;
    }
  }
}
