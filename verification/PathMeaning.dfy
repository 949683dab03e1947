// Where a path leads: changing directory one segment at a time, and that normalize and resolve keep it.
module PathMeaning {
  import opened CodeUnits
  import opened PathSpec

  // A directory is the list of the names that lead to it from the root.
  type Directory = seq<Text>

  /** One step: nothing and a dot stay, two dots go up, but not above the root, and a name goes down. */
  function Move(dir: Directory, segment: Text): Directory {
    if segment == [] || segment == ['.' as int] then dir
    else if segment == ['.' as int, '.' as int] then if dir == [] then [] else dir[..|dir| - 1]
    else dir + [segment]
  }

  function Walk(dir: Directory, segments: seq<Text>): Directory
    decreases |segments|
  {
    if segments == [] then dir else Walk(Move(dir, segments[0]), segments[1..])
  }

  function FirstSlash(s: Text): (i: nat)
    ensures i <= |s| && (i < |s| ==> s[i] == '/' as int) && forall k :: 0 <= k < i ==> s[k] != '/' as int
  {
    if s == [] || s[0] == '/' as int then 0 else 1 + FirstSlash(s[1..])
  }

  /** What stands between the slashes. */
  function Segments(s: Text): seq<Text>
    decreases |s|
  {
    var i := FirstSlash(s);
    if i == |s| then [s] else [s[..i]] + Segments(s[i + 1..])
  }

  predicate FromRoot(path: Text) {
    path != [] && path[0] == '/' as int
  }

  /** The directory or file that a path stands for in a directory. */
  function Leads(dir: Directory, path: Text): Directory {
    Walk(if FromRoot(path) then [] else dir, Segments(path))
  }

  /** One path after the other. */
  function LeadsAll(dir: Directory, paths: seq<Text>): Directory
    decreases |paths|
  {
    if paths == [] then dir else Leads(LeadsAll(dir, paths[..|paths| - 1]), paths[|paths| - 1])
  }

  lemma {:induction false} SegmentsAreSplit(s: Text)
    ensures Segments(s) == Split(s)
    decreases |s|
  {
    hide Split;
    var i := FirstSlash(s);
    if i == |s| {
      SplitOne(s);
    } else {
      SegmentsAreSplit(s[i + 1..]);
      SplitOne(s[..i]);
      SplitConcat(s[..i], s[i + 1..]);
      assert s == s[..i] + [SLASH] + s[i + 1..];
    }
  }

  lemma {:induction false} WalkConcat(dir: Directory, a: seq<Text>, b: seq<Text>)
    ensures Walk(dir, a + b) == Walk(Walk(dir, a), b)
    decreases |a|
  {
    hide Move;
    if a == [] {
      assert a + b == b;
    } else {
      assert (a + b)[0] == a[0] && (a + b)[1..] == a[1..] + b;
      WalkConcat(Move(dir, a[0]), a[1..], b);
    }
  }

  lemma WalkOne(dir: Directory, segment: Text)
    ensures Walk(dir, [segment]) == Move(dir, segment)
  {
    assert [segment][1..] == [];
  }

  lemma WalkLast(dir: Directory, stack: seq<Text>)
    requires stack != []
    ensures Walk(dir, stack) == Move(Walk(dir, stack[..|stack| - 1]), stack[|stack| - 1])
  {
    var front, last := stack[..|stack| - 1], stack[|stack| - 1];
    assert stack == front + [last];
    WalkConcat(dir, front, [last]);
    WalkOne(Walk(dir, front), last);
  }

  // A reduction step goes the same way.
  lemma StepWalks(dir: Directory, stack: seq<Text>, segment: Text, above: bool)
    requires Canonical(stack, above) && (above || dir == [])
    ensures Walk(dir, Step(stack, segment, above)) == Move(Walk(dir, stack), segment)
  {
    hide Walk;
    var r := Step(stack, segment, above);
    if r == stack + [segment] {
      assert r[..|r| - 1] == stack && r[|r| - 1] == segment;
      WalkLast(dir, r);
    } else if segment == PARENT {
      if stack != [] {
        WalkLast(dir, stack);
        assert Plain(stack[|stack| - 1]);
        TakenBack(Walk(dir, stack[..|stack| - 1]), stack[|stack| - 1]);
      } else {
        WalkNothing(dir);
      }
    }
  }

  lemma WalkNothing(dir: Directory)
    ensures Walk(dir, []) == dir
  {
  }

  lemma TakenBack(dir: Directory, name: Text)
    requires Plain(name) && name != PARENT
    ensures Move(Move(dir, name), PARENT) == dir
  {
  }

  lemma {:induction false} ReduceWalks(dir: Directory, ps: seq<Text>, above: bool)
    requires (above || dir == []) && forall i :: 0 <= i < |ps| ==> SLASH !in ps[i]
    ensures Walk(dir, Reduce([], ps, above)) == Walk(dir, ps)
    decreases |ps|
  {
    hide Walk, Step, Move;
    WalkNothing(dir);
    if ps != [] {
      var n := |ps| - 1;
      ReduceWalks(dir, ps[..n], above);
      ReduceCanonical([], ps[..n], above);
      StepWalks(dir, Reduce([], ps[..n], above), ps[n], above);
      WalkLast(dir, ps);
    }
  }

  // Empty segments at the ends lead nowhere.
  lemma WalkEmptyEnds(dir: Directory, ps: seq<Text>)
    ensures Walk(dir, [[]] + ps) == Walk(dir, ps) && Walk(dir, ps + [[]]) == Walk(dir, ps)
  {
    WalkConcat(dir, [[]], ps);
    WalkOne(dir, []);
    WalkConcat(dir, ps, [[]]);
    WalkOne(Walk(dir, ps), []);
  }

  lemma JoinWalks(dir: Directory, stack: seq<Text>, root: Text, tail: Text)
    requires PlainSegments(stack) && stack != [] && root in {[], [SLASH]} && tail in {[], [SLASH]}
    ensures Walk(dir, Split(root + Join(stack) + tail)) == Walk(dir, stack)
  {
    hide Split, Join, Walk;
    SplitJoin(stack);
    var u := root + Join(stack);
    if root == [] {
      assert u == Join(stack);
    } else {
      SplitEnds(Join(stack));
      WalkEmptyEnds(dir, stack);
    }
    if tail == [] {
      assert u + tail == u;
    } else {
      SplitEnds(u);
      WalkEmptyEnds(dir, Split(u));
    }
  }

  lemma ShortWalks(dir: Directory)
    ensures Walk(dir, Split([])) == dir && Walk(dir, Split(CURRENT)) == dir
    ensures Walk(dir, Split([SLASH])) == dir && Walk(dir, Split([DOT, SLASH])) == dir
  {
    SplitEnds([]);
    SplitOne(CURRENT);
    SplitEnds(CURRENT);
    SplitEmpty();
    assert [SLASH] + [] == [SLASH] && CURRENT + [SLASH] == [DOT, SLASH];
    hide Split, Walk;
    WalkOne(dir, []);
    WalkOne(dir, CURRENT);
    WalkEmptyEnds(dir, [[]]);
    WalkEmptyEnds(dir, [CURRENT]);
  }

  /** A normalized path leads where the path leads, from every directory; but for the root it begins and ends in a slash just as the path. */
  lemma NormalLeads(dir: Directory, path: Text)
    ensures Leads(dir, Normal(path)) == Leads(dir, path)
    ensures FromRoot(Normal(path)) <==> FromRoot(path)
    ensures Normal(path) != ['/' as int] ==>
      (path != [] && path[|path| - 1] == '/' as int <==> Normal(path) != [] && Normal(path)[|Normal(path)| - 1] == '/' as int)
  {
    hide Walk, Split, Join, Reduce;
    var above := !IsAbsolute(path);
    var start := if above then dir else [];
    var stack := Reduce([], Split(path), above);
    SegmentsAreSplit(path);
    SegmentsAreSplit(Normal(path));
    SplitHasNoSlash(path);
    ReduceWalks(start, Split(path), above);
    ReducedPath(path, above);
    ShortWalks(start);
    EmptyJoin();
    WalkNothing(start);
    if path != [] && stack != [] {
      JoinEnds(stack);
      var root: Text, tail: Text := if above then [] else [SLASH], if path[|path| - 1] == SLASH then [SLASH] else [];
      assert Normal(path) == root + Join(stack) + tail;
      JoinWalks(start, stack, root, tail);
    }
  }

  lemma EmptyJoin()
    ensures Join([]) == []
  {
  }

  lemma {:induction false} BaseLeads(paths: seq<Text>, cwd: Text)
    requires IsAbsolute(cwd)
    ensures Walk([], Pieces(Base(paths, cwd))) == LeadsAll(Leads([], cwd), paths)
    decreases |paths|
  {
    hide Walk, Split;
    if paths == [] {
      SegmentsAreSplit(cwd);
      OnePiece(cwd);
    } else {
      var front, last := paths[..|paths| - 1], paths[|paths| - 1];
      BaseLeads(front, cwd);
      SegmentsAreSplit(last);
      if last == [] {
        ShortWalks(LeadsAll(Leads([], cwd), front));
      } else if IsAbsolute(last) {
        OnePiece(last);
      } else {
        var b := Base(front, cwd);
        assert (b + [last])[..|b|] == b;
        WalkConcat([], Pieces(b), Split(last));
      }
    }
  }

  lemma OnePiece(path: Text)
    ensures Pieces([path]) == Split(path)
  {
    hide Split;
    assert [path][..0] == [];
    assert Pieces([]) + Split(path) == Split(path);
  }

  /** Resolving paths is changing directory to one after the other, from the working directory on. */
  lemma ResolvedLeads(dir: Directory, paths: seq<Text>, cwd: Text)
    requires FromRoot(cwd)
    ensures FromRoot(Resolved(paths, cwd)) && Leads(dir, Resolved(paths, cwd)) == LeadsAll(Leads([], cwd), paths)
  {
    hide Walk, Split, Join, Reduce, Base, Pieces, LeadsAll;
    ResolvedCanonical(paths, cwd);
    var stack := ResolvedStack(paths, cwd);
    BaseIsAbsolute(paths, cwd);
    PiecesHaveNoSlash(Base(paths, cwd));
    ReduceWalks([], Pieces(Base(paths, cwd)), false);
    BaseLeads(paths, cwd);
    SegmentsAreSplit(Resolved(paths, cwd));
    assert Walk([], stack) == LeadsAll(Leads([], cwd), paths);
    assert FromRoot(Resolved(paths, cwd));
    if stack == [] {
      EmptyJoin();
      ShortWalks([]);
      WalkNothing([]);
      assert Resolved(paths, cwd) == [SLASH] + [] == [SLASH];
      assert Leads(dir, Resolved(paths, cwd)) == [];
    } else {
      JoinWalks([], stack, [SLASH], []);
      assert Resolved(paths, cwd) == [SLASH] + Join(stack) + [];
    }
  }
}
