// normalizeString and posix.normalize, resolve and relative (path.ts) as the source runs them:
// one pass over the characters, with a result string in place of the stack.
module Path {
  import opened CodeUnits
  import opened PathSpec

  // Array.prototype.lastIndexOf for one character.
  function LastIndexOf(s: Text, c: CodeUnit): (r: int)
    ensures -1 <= r < |s| && (r >= 0 ==> s[r] == c) && forall i :: r < i < |s| ==> s[i] != c
  {
    if s == [] then -1 else if s[|s| - 1] == c then |s| - 1 else LastIndexOf(s[..|s| - 1], c)
  }

  // The length of the top segment, 0 for the empty stack.
  function TopLength(stack: seq<Text>): nat {
    if stack == [] then 0 else |stack[|stack| - 1]|
  }

  lemma {:induction false} JoinLastSlash(stack: seq<Text>)
    requires PlainSegments(stack) && stack != []
    ensures LastIndexOf(Join(stack), SLASH) == |Join(stack)| - 1 - TopLength(stack)
    ensures |stack| == 1 ==> |Join(stack)| == TopLength(stack)
    ensures |stack| > 1 ==> |Join(stack)| > 1 + TopLength(stack)
    ensures |stack| > 1 ==> Join(stack)[..|Join(stack)| - 1 - TopLength(stack)] == Join(stack[..|stack| - 1])
    ensures Join(stack)[|Join(stack)| - TopLength(stack)..] == stack[|stack| - 1]
  {
    var top := stack[|stack| - 1];
    var s := Join(stack);
    if |stack| > 1 {
      JoinEnds(stack[..|stack| - 1]);
      assert s[|s| - 1 - |top|] == SLASH;
    }
    assert forall i :: |s| - |top| <= i < |s| ==> s[i] == top[i - (|s| - |top|)];
  }

  // Lines 118-145: a ".." segment. `popped` tells that the source continues with the next character.
  method ParentSegment(res: Text, lastSegmentLength: nat, allowAboveRoot: bool, ghost stack: seq<Text>)
    returns (res': Text, lastSegmentLength': nat, ghost stack': seq<Text>)
    requires PlainSegments(stack) && res == Join(stack) && lastSegmentLength == TopLength(stack)
    ensures stack' == Step(stack, PARENT, allowAboveRoot)
    ensures PlainSegments(stack') && res' == Join(stack') && lastSegmentLength' == TopLength(stack')
  {
    hide Join, LastIndexOf;
    res', lastSegmentLength', stack' := res, lastSegmentLength, Step(stack, PARENT, allowAboveRoot);
    JoinNone();
    if stack != [] {
      JoinLastSlash(stack);
      if |stack| > 2 {
        JoinLastSlash(stack[..|stack| - 1]);
      } else if |stack| == 2 {
        JoinLastSlash(stack[..1]);
      }
      TopIsParent(stack);
    }
    if |res| < 2 || lastSegmentLength != 2 || res[|res| - 1] != DOT || res[|res| - 2] != DOT {
      if |res| > 2 {
        var lastSlashIndex := LastIndexOf(res, SLASH);
        if lastSlashIndex == -1 {
          res' := [];
          lastSegmentLength' := 0;
        } else {
          res' := res[..lastSlashIndex];
          lastSegmentLength' := |res'| - 1 - LastIndexOf(res', SLASH);
        }
        return;
      } else if |res| != 0 {
        ShortStack(stack);
        res' := [];
        lastSegmentLength' := 0;
        return;
      }
      EmptyStack(stack);
    }
    if allowAboveRoot {
      res' := res + (if |res| > 0 then [SLASH] + PARENT else PARENT);
      lastSegmentLength' := 2;
      assert stack' == stack + [PARENT];
      if stack != [] {
        JoinEnds(stack);
      }
      JoinPush(stack, PARENT);
    }
  }

  lemma JoinPush(stack: seq<Text>, segment: Text)
    ensures Join(stack + [segment]) == if stack == [] then segment else Join(stack) + [SLASH] + segment
  {
    assert (stack + [segment])[..|stack|] == stack;
  }

  lemma TopIsParent(stack: seq<Text>)
    requires PlainSegments(stack) && stack != []
    ensures stack[|stack| - 1] == PARENT <==>
      |Join(stack)| >= 2 && TopLength(stack) == 2 && Join(stack)[|Join(stack)| - 1] == DOT && Join(stack)[|Join(stack)| - 2] == DOT
  {
    JoinLastSlash(stack);
    var s, top := Join(stack), stack[|stack| - 1];
    assert s[|s| - |top|..] == top;
    if |top| == 2 {
      assert s[|s| - 1] == top[1] && s[|s| - 2] == top[0];
    }
  }

  lemma ShortStack(stack: seq<Text>)
    requires PlainSegments(stack) && stack != [] && |Join(stack)| <= 2
    ensures |stack| == 1
  {
    JoinLastSlash(stack);
    assert Plain(stack[|stack| - 1]);
  }

  lemma EmptyStack(stack: seq<Text>)
    requires PlainSegments(stack) && Join(stack) == []
    ensures stack == []
  {
    if stack != [] {
      JoinEnds(stack);
    }
  }

  // The counter of the automaton: the length of a run of dots, -1 after any other character.
  function Dots(segment: Text): int {
    if forall i :: 0 <= i < |segment| ==> segment[i] == DOT then |segment| else -1
  }

  lemma DotsSnoc(segment: Text, c: CodeUnit)
    ensures Dots(segment + [c]) == if c == DOT && Dots(segment) != -1 then Dots(segment) + 1 else -1
    ensures Dots([]) == 0
  {
    var s := segment + [c];
    if c != DOT {
      assert s[|segment|] != DOT;
    }
    if Dots(segment) == -1 {
      var i :| 0 <= i < |segment| && segment[i] != DOT;
      assert s[i] != DOT;
    }
  }

  lemma DotsMeaning(segment: Text)
    ensures Dots(segment) == 1 <==> segment == CURRENT
    ensures Dots(segment) == 2 <==> segment == PARENT
  {
    if |segment| == 2 && Dots(segment) == 2 {
      assert segment[0] == DOT && segment[1] == DOT;
    }
  }

  // One more character of the path.
  lemma SplitExtends(path: Text, i: nat, done: seq<Text>, current: Text)
    requires i < |path| && Split(path[..i]) == done + [current]
    ensures path[i] == SLASH ==> Split(path[..i + 1]) == (done + [current]) + [[]]
    ensures path[i] != SLASH ==> Split(path[..i + 1]) == done + [current + [path[i]]]
  {
    assert path[..i + 1] == path[..i] + [path[i]];
    SplitSnoc(path[..i], path[i]);
    assert (done + [current])[..|done|] == done;
  }

  lemma ReduceOne(done: seq<Text>, segment: Text, above: bool)
    ensures Reduce([], done + [segment], above) == Step(Reduce([], done, above), segment, above)
  {
    assert (done + [segment])[..|done|] == done;
  }

  // Lines 115-156: a segment ends.
  method EndSegment(res: Text, lastSegmentLength: nat, dots: int, segment: Text, allowAboveRoot: bool, ghost stack: seq<Text>)
    returns (res': Text, lastSegmentLength': nat, ghost stack': seq<Text>)
    requires PlainSegments(stack) && res == Join(stack) && lastSegmentLength == TopLength(stack)
    requires dots == Dots(segment) && SLASH !in segment
    ensures stack' == Step(stack, segment, allowAboveRoot)
    ensures PlainSegments(stack') && res' == Join(stack') && lastSegmentLength' == TopLength(stack')
  {
    DotsMeaning(segment);
    res', lastSegmentLength', stack' := res, lastSegmentLength, stack;
    if segment == [] || dots == 1 {
      // NOOP
    } else if dots == 2 {
      res', lastSegmentLength', stack' := ParentSegment(res, lastSegmentLength, allowAboveRoot, stack);
    } else {
      if stack != [] {
        JoinEnds(stack);
      }
      JoinPush(stack, segment);
      if |res| > 0 {
        res' := res + [SLASH] + segment;
      } else {
        EmptyStack(stack);
        res' := segment;
      }
      stack' := stack + [segment];
      lastSegmentLength' := |segment|;
    }
  }

  // normalizeString with the posix separator: the automaton computes the stack reduction.
  method NormalizeString(path: Text, allowAboveRoot: bool) returns (res: Text)
    ensures res == NormalString(path, allowAboveRoot)
  {
    hide Split, Reduce, Join, Step, Dots;
    var lastSegmentLength, lastSlash, dots, code := 0, -1, 0, 0;
    ghost var stack: seq<Text>, done: seq<Text> := [], [];
    res := [];
    EmptyFacts();
    var i := 0;
    while i <= |path|
      invariant 0 <= i <= |path| + 1 && -1 <= lastSlash < i
      invariant PlainSegments(stack) && res == Join(stack) && lastSegmentLength == TopLength(stack)
      invariant stack == Reduce([], done, allowAboveRoot)
      invariant i <= |path| ==> Split(path[..i]) == done + [path[lastSlash + 1..i]]
      invariant i <= |path| ==> SLASH !in path[lastSlash + 1..i] && dots == Dots(path[lastSlash + 1..i])
      invariant i <= |path| ==> code == if i == 0 then 0 else path[i - 1]
      invariant i == |path| + 1 ==> done == Split(path)
    {
      if i < |path| {
        code := path[i];
        SplitExtends(path, i, done, path[lastSlash + 1..i]);
      } else if code == SLASH {
        assert path[..i] == path;
        EndsWithSlash(path, done, path[lastSlash + 1..i], allowAboveRoot);
        break;
      } else {
        code := SLASH;
        assert path[..i] == path;
      }
      if code == SLASH {
        ghost var segment := path[lastSlash + 1..i];
        ReduceOne(done, segment, allowAboveRoot);
        res, lastSegmentLength, stack := EndSegment(res, lastSegmentLength, dots, path[lastSlash + 1..i], allowAboveRoot, stack);
        done := done + [segment];
        lastSlash := i;
        dots := 0;
        assert i < |path| ==> path[lastSlash + 1..i + 1] == [];
      } else {
        assert path[lastSlash + 1..i + 1] == path[lastSlash + 1..i] + [code];
        DotsSnoc(path[lastSlash + 1..i], code);
        if code == DOT && dots != -1 {
          dots := dots + 1;
        } else {
          dots := -1;
        }
      }
      i := i + 1;
    }
  }

  lemma EmptyFacts()
    ensures Split([]) == [[]] && Reduce([], [], true) == [] && Reduce([], [], false) == [] && Join([]) == [] && Dots([]) == 0
  {
  }

  // A trailing slash leaves an empty last piece, which the source does not visit.
  lemma EndsWithSlash(path: Text, done: seq<Text>, segment: Text, above: bool)
    requires path != [] && path[|path| - 1] == SLASH && Split(path) == done + [segment]
    ensures Reduce([], Split(path), above) == Reduce([], done, above)
  {
    SplitSnoc(path[..|path| - 1], SLASH);
    assert path == path[..|path| - 1] + [SLASH];
    assert Split(path)[|done|] == segment == [];
    ReduceEmptyPiece([], done, above);
  }

  // posix.normalize
  method Normalize(path: Text) returns (r: Text)
    ensures r == Normal(path)
  {
    if |path| == 0 {
      return CURRENT;
    }
    var isAbsolute := path[0] == SLASH;
    var trailingSeparator := path[|path| - 1] == SLASH;
    r := NormalizeString(path, !isAbsolute);
    if |r| == 0 {
      if isAbsolute {
        return [SLASH];
      }
      return if trailingSeparator then [DOT, SLASH] else CURRENT;
    }
    if trailingSeparator {
      r := r + [SLASH];
    }
    r := if isAbsolute then [SLASH] + r else r;
  }

  // ---- posix.resolve

  // The arguments as the source concatenates them: each followed by a slash.
  function Slashed(paths: seq<Text>): Text {
    if paths == [] then [] else paths[0] + [SLASH] + Slashed(paths[1..])
  }

  lemma {:induction false} PiecesCons(paths: seq<Text>)
    requires paths != []
    ensures Pieces(paths) == Split(paths[0]) + Pieces(paths[1..])
  {
    if |paths| > 1 {
      PiecesCons(paths[..|paths| - 1]);
      assert paths[1..][..|paths| - 2] == paths[..|paths| - 1][1..];
    }
  }

  lemma {:induction false} SplitSlashed(paths: seq<Text>)
    ensures Split(Slashed(paths)) == Pieces(paths) + [[]]
  {
    if paths != [] {
      SplitSlashed(paths[1..]);
      SplitConcat(paths[0], Slashed(paths[1..]));
      PiecesCons(paths);
    }
  }

  lemma SlashedIsBase(b: seq<Text>, above: bool)
    ensures NormalString(Slashed(b), above) == Join(Reduce([], Pieces(b), above))
  {
    SplitSlashed(b);
    ReduceEmptyPiece([], Pieces(b), above);
  }

  method Resolve(pathSegments: seq<Text>, cwd: Text) returns (r: Text)
    ensures r == Resolved(pathSegments, cwd)
  {
    var resolvedPath: Text, resolvedAbsolute := [], false;
    ghost var used: seq<Text> := [];
    var i: int := |pathSegments| - 1;
    assert pathSegments[..|pathSegments|] == pathSegments;
    while i >= 0 && !resolvedAbsolute
      invariant -1 <= i < |pathSegments|
      invariant resolvedPath == Slashed(used)
      invariant resolvedAbsolute ==> used != [] && IsAbsolute(used[0]) && Base(pathSegments, cwd) == used
      invariant !resolvedAbsolute ==> Base(pathSegments, cwd) == Base(pathSegments[..i + 1], cwd) + used
    {
      var path := pathSegments[i];
      assert pathSegments[..i + 1][..i] == pathSegments[..i];
      if |path| != 0 {
        resolvedPath := path + [SLASH] + resolvedPath;
        resolvedAbsolute := path[0] == SLASH;
        assert ([path] + used)[1..] == used;
        if !resolvedAbsolute {
          assert Base(pathSegments[..i], cwd) + [path] + used == Base(pathSegments[..i], cwd) + ([path] + used);
        }
        used := [path] + used;
      }
      i := i - 1;
    }
    if !resolvedAbsolute {
      assert ([cwd] + used)[1..] == used;
      used := [cwd] + used;
      resolvedPath := cwd + [SLASH] + resolvedPath;
      resolvedAbsolute := |cwd| > 0 && cwd[0] == SLASH;
    }
    SlashedIsBase(used, !resolvedAbsolute);
    resolvedPath := NormalizeString(resolvedPath, !resolvedAbsolute);
    if resolvedAbsolute {
      return [SLASH] + resolvedPath;
    }
    r := if |resolvedPath| > 0 then resolvedPath else CURRENT;
  }

  // ---- posix.relative

  lemma {:induction false} JoinConcat(a: seq<Text>, b: seq<Text>)
    requires a != [] && b != []
    ensures Join(a + b) == Join(a) + [SLASH] + Join(b)
    decreases |b|
  {
    var n := |b| - 1;
    assert (a + b)[..|a| + n] == a + b[..n];
    if n > 0 {
      JoinConcat(a, b[..n]);
    } else {
      assert a + b[..n] == a;
    }
  }

  lemma JoinCons(a: seq<Text>)
    requires |a| > 1
    ensures Join(a) == a[0] + [SLASH] + Join(a[1..])
  {
    assert a == [a[0]] + a[1..];
    JoinConcat([a[0]], a[1..]);
  }

  function Slashes(s: Text): nat {
    if s == [] then 0 else Slashes(s[..|s| - 1]) + if s[|s| - 1] == SLASH then 1 else 0
  }

  lemma {:induction false} SlashesConcat(a: Text, b: Text)
    ensures Slashes(a + b) == Slashes(a) + Slashes(b)
    decreases |b|
  {
    if b == [] {
      assert a + b == a;
    } else {
      assert (a + b)[..|a + b| - 1] == a + b[..|b| - 1];
      SlashesConcat(a, b[..|b| - 1]);
    }
  }

  lemma {:induction false} NoSlashes(s: Text)
    requires SLASH !in s
    ensures Slashes(s) == 0
  {
    if s != [] {
      NoSlashes(s[..|s| - 1]);
    }
  }

  lemma {:induction false} SlashesJoin(a: seq<Text>)
    requires a != [] && PlainSegments(a)
    ensures Slashes(Join(a)) == |a| - 1
  {
    var n := |a| - 1;
    NoSlashes(a[n]);
    if n > 0 {
      SlashesJoin(a[..n]);
      SlashesConcat(Join(a[..n]), [SLASH]);
      SlashesConcat(Join(a[..n]) + [SLASH], a[n]);
      assert Slashes([SLASH]) == Slashes([SLASH][..0]) + 1 == 1;
    }
  }

  // i is the length of the longest common prefix of two texts.
  predicate LongestCommon(a: Text, b: Text, i: nat) {
    i <= |a| && i <= |b| && a[..i] == b[..i] && (i < |a| && i < |b| ==> a[i] != b[i])
  }

  // Where the last common separator is, in terms of the common segments.
  predicate CutsAt(a: seq<Text>, b: seq<Text>, k: nat, i: nat, lastCommonSep: int)
    requires k <= |a| && k <= |b| && i <= |Join(a)| && i <= |Join(b)|
  {
    var s, t := Join(a), Join(b);
    && (k < |a| && k < |b| ==>
          && lastCommonSep == (if k > 0 then |Join(a[..k])| else -1)
          && (i == |s| ==> i < |t| && t[i] != SLASH && i > 0)
          && (i == |t| ==> i < |s| && s[i] != SLASH && i > 0))
    && (k == |a| ==> i == |s| < |t| && (if k > 0 then i > 0 && t[i] == SLASH else i == 0))
    && (k == |b| ==> i == |t| < |s| && (if k > 0 then i > 0 && s[i] == SLASH else i == 0))
  }

  lemma LastIndexOfConcat(x: Text, y: Text)
    ensures LastIndexOf(x + [SLASH] + y, SLASH) == if LastIndexOf(y, SLASH) >= 0 then |x| + 1 + LastIndexOf(y, SLASH) else |x|
  {
    hide LastIndexOf;
    var z := x + [SLASH] + y;
    var r, q := LastIndexOf(z, SLASH), LastIndexOf(y, SLASH);
    assert z[|x|] == SLASH;
    assert forall j :: 0 <= j < |y| ==> z[|x| + 1 + j] == y[j];
    if q >= 0 {
      assert z[|x| + 1 + q] == SLASH;
    }
    if r > |x| {
      assert y[r - |x| - 1] == SLASH;
    }
  }

  // The head segment ends at the first slash or at the end.
  lemma HeadOfJoin(a: seq<Text>)
    requires a != [] && PlainSegments(a)
    ensures |a[0]| <= |Join(a)| && Join(a)[..|a[0]|] == a[0] && a[0] != []
    ensures |a| == 1 <==> |Join(a)| == |a[0]|
    ensures |a| > 1 ==> Join(a)[|a[0]|] == SLASH && Join(a)[|a[0]| + 1..] == Join(a[1..])
    ensures forall j :: 0 <= j < |a[0]| ==> Join(a)[j] != SLASH
  {
    assert Plain(a[0]);
    if |a| > 1 {
      JoinCons(a);
    }
    assert forall j :: 0 <= j < |a[0]| ==> Join(a)[j] == a[0][j];
  }

  lemma CutHeadsDiffer(a: seq<Text>, b: seq<Text>, i: nat)
    requires PlainSegments(a) && PlainSegments(b) && a != [] && b != [] && a[0] != b[0]
    requires LongestCommon(Join(a), Join(b), i)
    ensures CutsAt(a, b, 0, i, LastIndexOf(Join(a)[..i], SLASH))
  {
    var s, t := Join(a), Join(b);
    HeadOfJoin(a);
    HeadOfJoin(b);
    var m, n := |a[0]|, |b[0]|;
    assert forall j :: 0 <= j < i ==> s[j] == s[..i][j] == t[..i][j] == t[j];
    if i >= m {
      assert s[..i][..m] == s[..m] && t[..i][..m] == t[..m];
    }
    assert i >= m && i >= n ==> m != n;
    assert i > m ==> m >= n;
    assert i > n ==> n >= m;
    assert i <= m && i <= n;
  }

  lemma {:induction false} CutSegments(a: seq<Text>, b: seq<Text>, i: nat)
    requires PlainSegments(a) && PlainSegments(b) && a != b
    requires LongestCommon(Join(a), Join(b), i)
    ensures CutsAt(a, b, CommonPrefix(a, b), i, LastIndexOf(Join(a)[..i], SLASH))
    decreases |a|
  {
    var s, t := Join(a), Join(b);
    if a == [] || b == [] {
      if a != [] { JoinEnds(a); }
      if b != [] { JoinEnds(b); }
    } else if a[0] != b[0] {
      CutHeadsDiffer(a, b, i);
    } else {
      HeadOfJoin(a);
      HeadOfJoin(b);
      var h := |a[0]|;
      assert forall j :: 0 <= j < h ==> s[j] == s[..h][j] == t[..h][j] == t[j];
      assert i >= h;
      if |a| > 1 && |b| > 1 {
        CutTails(a, b, i);
      } else {
        assert a == [a[0]] + a[1..] && b == [b[0]] + b[1..];
        assert i == h;
      }
    }
  }

  lemma CommonTail(x: Text, y: Text, z: Text, i: nat)
    requires LongestCommon(x + [SLASH] + y, x + [SLASH] + z, i) && i >= |x|
    ensures i > |x| && LongestCommon(y, z, i - |x| - 1)
    ensures (x + [SLASH] + y)[..i] == x + [SLASH] + y[..i - |x| - 1]
  {
    var s, t := x + [SLASH] + y, x + [SLASH] + z;
    assert s[|x|] == SLASH && t[|x|] == SLASH;
    var j := i - |x| - 1;
    assert y[..j] == s[..i][|x| + 1..] && z[..j] == t[..i][|x| + 1..];
  }

  lemma TailsDiffer(a: seq<Text>, b: seq<Text>)
    requires a != [] && b != [] && a[0] == b[0] && a != b
    ensures a[1..] != b[1..]
  {
    assert a == [a[0]] + a[1..] && b == [b[0]] + b[1..];
  }

  lemma CutTails(a: seq<Text>, b: seq<Text>, i: nat)
    requires PlainSegments(a) && PlainSegments(b) && a != b && |a| > 1 && |b| > 1 && a[0] == b[0]
    requires LongestCommon(Join(a), Join(b), i) && i >= |a[0]|
    ensures CutsAt(a, b, CommonPrefix(a, b), i, LastIndexOf(Join(a)[..i], SLASH))
    decreases |a|, 0
  {
    hide Join, CutsAt, PlainSegments, LongestCommon, LastIndexOf, CommonPrefix;
    var s, t, h, a', b' := Join(a), Join(b), |a[0]|, a[1..], b[1..];
    PlainTails(a);
    PlainTails(b);
    JoinCons(a);
    JoinCons(b);
    CommonTail(a[0], Join(a'), Join(b'), i);
    var i' := i - h - 1;
    TailsDiffer(a, b);
    CutSegments(a', b', i');
    LastIndexOfConcat(a[0], Join(a')[..i']);
    CommonPrefixStep(a, b);
    PrefixShift(a, CommonPrefix(a', b'));
    ShiftCut(a, b, CommonPrefix(a', b'), i', LastIndexOf(Join(a')[..i'], SLASH));
  }

  lemma CommonPrefixStep(a: seq<Text>, b: seq<Text>)
    requires a != [] && b != [] && a[0] == b[0]
    ensures CommonPrefix(a, b) == CommonPrefix(a[1..], b[1..]) + 1
  {
  }

  lemma PrefixShift(a: seq<Text>, k: nat)
    requires |a| > 1 && k <= |a| - 1
    ensures |Join(a[..k + 1])| == if k > 0 then |a[0]| + 1 + |Join(a[1..][..k])| else |a[0]|
  {
    if 0 < k {
      JoinCons(a[..k + 1]);
      assert a[..k + 1][1..] == a[1..][..k];
    } else {
      assert a[..1] == [a[0]];
    }
  }

  lemma ShiftCut(a: seq<Text>, b: seq<Text>, k: nat, i: nat, c: int)
    requires |a| > 1 && |b| > 1 && a[0] == b[0]
    requires Join(a) == a[0] + [SLASH] + Join(a[1..]) && Join(b) == a[0] + [SLASH] + Join(b[1..])
    requires k <= |a| - 1 && k <= |b| - 1 && i <= |Join(a[1..])| && i <= |Join(b[1..])|
    requires CutsAt(a[1..], b[1..], k, i, c) && -1 <= c
    requires |Join(a[..k + 1])| == if k > 0 then |a[0]| + 1 + |Join(a[1..][..k])| else |a[0]|
    ensures CutsAt(a, b, k + 1, |a[0]| + 1 + i, if c >= 0 then |a[0]| + 1 + c else |a[0]|)
  {
    hide Join;
    var h, s, t := |a[0]|, Join(a), Join(b);
    assert s[h] == SLASH && t[h] == SLASH;
    if i < |Join(b[1..])| {
      assert t[h + 1 + i] == Join(b[1..])[i];
    }
    if i < |Join(a[1..])| {
      assert s[h + 1 + i] == Join(a[1..])[i];
    }
  }

  lemma PlainTails(a: seq<Text>)
    requires PlainSegments(a) && a != []
    ensures PlainSegments(a[1..])
  {
  }

  lemma JoinAt(a: seq<Text>, k: nat)
    requires 0 < k < |a|
    ensures Join(a) == Join(a[..k]) + [SLASH] + Join(a[k..])
  {
    assert a == a[..k] + a[k..];
    JoinConcat(a[..k], a[k..]);
  }

  // Lines 1304-1308: one ".." for every segment from a position on.
  method UpsFrom(source: Text, start: nat) returns (out: Text)
    requires start <= |source|
    ensures out == Join(Ups(Slashes(source[start..]) + 1))
  {
    hide Join;
    out := [];
    ghost var n := 0;
    JoinNone();
    var i := start;
    while i <= |source|
      invariant start <= i <= |source| + 1
      invariant out == Join(Ups(n)) && (out == [] <==> n == 0)
      invariant i <= |source| ==> n == Slashes(source[start..i])
      invariant i == |source| + 1 ==> n == Slashes(source[start..]) + 1
    {
      if i < |source| {
        assert source[start..i + 1][..i - start] == source[start..i];
      } else {
        assert source[start..i] == source[start..];
      }
      if i == |source| || source[i] == SLASH {
        JoinPush(Ups(n), PARENT);
        assert Ups(n) + [PARENT] == Ups(n + 1);
        out := out + (if |out| == 0 then PARENT else [SLASH] + PARENT);
        n := n + 1;
      }
      i := i + 1;
    }
  }

  lemma JoinNone()
    ensures Join([]) == [] && Ups(0) == []
  {
  }

  // Lines 1276-1312, after the comparison.
  method RelativeFrom(source: Text, target: Text, common: nat, commonSep: int, ghost a: seq<Text>, ghost b: seq<Text>)
    returns (r: Text)
    requires PlainSegments(a) && PlainSegments(b) && a != b
    requires source == [SLASH] + Join(a) && target == [SLASH] + Join(b)
    requires common <= |Join(a)| && common <= |Join(b)| && CutsAt(a, b, CommonPrefix(a, b), common, commonSep)
    ensures r == Join(RelativeSegments(a, b))
  {
    hide Join, PlainSegments, Slashes;
    ghost var s, t, k := Join(a), Join(b), CommonPrefix(a, b);
    var fromLen, toLen := |source| - 1, |target| - 1;
    var length := if fromLen < toLen then fromLen else toLen;
    var i, lastCommonSep := common, commonSep;
    if k == |a| {
      assert a == b[..k];
      TailFacts(b, k);
      DownOnly(a, b);
    } else {
      TailFacts(a, k);
    }
    if k == |b| {
      assert b == a[..k];
    }
    if i == length {
      if toLen > length {
        if target[1 + i] == SLASH {
          return target[1 + i + 1..];
        }
        if i == 0 {
          return target[1 + i..];
        }
      } else if fromLen > length {
        if source[1 + i] == SLASH {
          lastCommonSep := i;
        } else if i == 0 {
          lastCommonSep := 0;
        }
      }
    }
    FinalCut(source, target, a, b, lastCommonSep);
    var out := UpsFrom(source, 1 + lastCommonSep + 1);
    r := out + target[1 + lastCommonSep..];
    FinalJoin(a, b, r);
  }

  // What is left to go up through, and what is left to append.
  lemma FinalCut(source: Text, target: Text, a: seq<Text>, b: seq<Text>, lastCommonSep: int)
    requires PlainSegments(a) && PlainSegments(b) && CommonPrefix(a, b) < |a|
    requires source == [SLASH] + Join(a) && target == [SLASH] + Join(b)
    requires var k := CommonPrefix(a, b); lastCommonSep == if k > 0 then |Join(a[..k])| else if k == |b| then 0 else -1
    ensures var k := CommonPrefix(a, b);
      && 1 + lastCommonSep + 1 <= |source| && 1 + lastCommonSep <= |target|
      && Slashes(source[1 + lastCommonSep + 1..]) == |a| - k - 1
      && target[1 + lastCommonSep..] == if k < |b| then [SLASH] + Join(b[k..]) else []
  {
    hide Join, PlainSegments, Slashes;
    var s, t, k := Join(a), Join(b), CommonPrefix(a, b);
    TailFacts(a, k);
    if k < |b| {
      TailFacts(b, k);
    } else {
      assert b == a[..k];
      BothEmpty(b);
    }
    if k > 0 {
      assert source[1 + lastCommonSep + 1..] == s[lastCommonSep + 1..];
      assert target[1 + lastCommonSep..] == t[lastCommonSep..];
    } else if k == |b| {
      assert source[1 + lastCommonSep + 1..] == s[1..];
    } else {
      assert source[1 + lastCommonSep + 1..] == s;
    }
  }

  lemma BothEmpty(b: seq<Text>)
    ensures b == [] ==> Join(b) == []
  {
  }

  lemma FinalJoin(a: seq<Text>, b: seq<Text>, r: Text)
    requires CommonPrefix(a, b) < |a|
    requires var k := CommonPrefix(a, b);
      r == Join(Ups(|a| - k)) + if k < |b| then [SLASH] + Join(b[k..]) else []
    ensures r == Join(RelativeSegments(a, b))
  {
    var k := CommonPrefix(a, b);
    if k < |b| {
      JoinConcat(Ups(|a| - k), b[k..]);
    } else {
      assert Ups(|a| - k) + b[k..] == Ups(|a| - k);
    }
  }

  // Lines 1258-1312 on the segments of two different directories.
  method RelativeOf(source: Text, target: Text, ghost a: seq<Text>, ghost b: seq<Text>) returns (r: Text)
    requires PlainSegments(a) && PlainSegments(b) && a != b
    requires source == [SLASH] + Join(a) && target == [SLASH] + Join(b)
    ensures r == Join(RelativeSegments(a, b))
  {
    hide Join, PlainSegments, CutsAt, RelativeSegments;
    var fromLen, toLen := |source| - 1, |target| - 1;
    var length := if fromLen < toLen then fromLen else toLen;
    var lastCommonSep := -1;
    var i := 0;
    ghost var s, t := Join(a), Join(b);
    while i < length && source[1 + i] == target[1 + i]
      invariant 0 <= i <= length && s[..i] == t[..i]
      invariant lastCommonSep == LastIndexOf(s[..i], SLASH)
    {
      assert s[..i + 1][..i] == s[..i];
      if source[1 + i] == SLASH {
        lastCommonSep := i;
      }
      i := i + 1;
    }
    CutSegments(a, b, i);
    r := RelativeFrom(source, target, i, lastCommonSep, a, b);
  }

  lemma DownOnly(a: seq<Text>, b: seq<Text>)
    requires CommonPrefix(a, b) == |a|
    ensures RelativeSegments(a, b) == b[|a|..]
  {
    assert Ups(0) + b[|a|..] == b[|a|..];
  }

  // What follows the first k segments of a directory.
  lemma TailFacts(a: seq<Text>, k: nat)
    requires PlainSegments(a) && k < |a|
    ensures k == 0 ==> Join(a) == Join(a[k..])
    ensures k > 0 ==> var p := |Join(a[..k])|;
      p < |Join(a)| && Join(a)[p..] == [SLASH] + Join(a[k..]) && Join(a)[p + 1..] == Join(a[k..])
    ensures Slashes(Join(a[k..])) == |a| - k - 1
    ensures Join(a) != [] && Join(a)[0] != SLASH && Slashes(Join(a)[1..]) == |a| - 1
  {
    hide Join, Slashes;
    SlashesJoin(a[k..]);
    SlashesJoin(a);
    JoinEnds(a);
    var s := Join(a);
    assert s == [s[0]] + s[1..];
    SlashesConcat([s[0]], s[1..]);
    NoSlashes([s[0]]);
    if k == 0 {
      assert a[k..] == a;
    } else {
      JoinAt(a, k);
    }
  }

  // posix.relative; process.cwd() is absolute.
  method RelativePath(source: Text, target: Text, cwd: Text) returns (r: Text)
    requires IsAbsolute(cwd)
    ensures r == Relative(source, target, cwd)
  {
    hide Join, Reduce, Base, RelativeSegments;
    ghost var a, b := ResolvedStack([source], cwd), ResolvedStack([target], cwd);
    ResolvedCanonical([source], cwd);
    ResolvedCanonical([target], cwd);
    if source == target {
      NoWay(a);
      return [];
    }
    var absoluteSource := Resolve([source], cwd);
    var absoluteTarget := Resolve([target], cwd);
    if absoluteSource == absoluteTarget {
      SameDirectory(a, b);
      NoWay(a);
      return [];
    }
    r := RelativeOf(absoluteSource, absoluteTarget, a, b);
  }

  lemma {:induction false} CommonWithSelf(a: seq<Text>)
    ensures CommonPrefix(a, a) == |a|
  {
    if a != [] {
      CommonWithSelf(a[1..]);
    }
  }

  lemma NoWay(a: seq<Text>)
    ensures Join(RelativeSegments(a, a)) == []
  {
    CommonWithSelf(a);
    assert RelativeSegments(a, a) == [];
  }

  lemma SameDirectory(a: seq<Text>, b: seq<Text>)
    requires PlainSegments(a) && PlainSegments(b) && [SLASH] + Join(a) == [SLASH] + Join(b)
    ensures a == b
  {
    assert Join(a) == ([SLASH] + Join(a))[1..] == Join(b);
    if a != [] { JoinEnds(a); SplitJoin(a); }
    if b != [] { JoinEnds(b); SplitJoin(b); }
  }

  /** The promise behind relative: resolving its result from the source leads to the target. */
  method RelativeThenResolve(source: Text, target: Text, cwd: Text) returns (direct: Text, through: Text)
    requires IsAbsolute(cwd)
    ensures through == direct == Resolved([target], cwd)
  {
    var r := RelativePath(source, target, cwd);
    through := Resolve([source, r], cwd);
    direct := Resolve([target], cwd);
    RelativeResolves(source, target, cwd);
  }
}
