// Posix paths as stacks of segments: the reference for normalizeString, normalize, resolve
// and relative (path.ts).
module PathSpec {
  import opened CodeUnits

  type Text = seq<CodeUnit>

  const SLASH: CodeUnit := 0x2F
  const DOT: CodeUnit := 0x2E
  const CURRENT: Text := [DOT]
  const PARENT: Text := [DOT, DOT]

  /** The pieces between slashes, empty ones included. */
  function Split(s: Text): (ps: seq<Text>)
    ensures ps != []
  {
    if s == [] then [[]]
    else
      var ps := Split(s[..|s| - 1]);
      var c := s[|s| - 1];
      if c == SLASH then ps + [[]] else ps[..|ps| - 1] + [ps[|ps| - 1] + [c]]
  }

  /** One segment: skip empty and ".", let ".." take back a segment or stay in front, keep the rest. */
  function Step(stack: seq<Text>, segment: Text, allowAboveRoot: bool): seq<Text> {
    if segment == [] || segment == CURRENT then stack
    else if segment == PARENT then
      if stack != [] && stack[|stack| - 1] != PARENT then stack[..|stack| - 1]
      else if allowAboveRoot then stack + [PARENT]
      else stack
    else stack + [segment]
  }

  function Reduce(stack: seq<Text>, ps: seq<Text>, allowAboveRoot: bool): seq<Text> {
    if ps == [] then stack else Step(Reduce(stack, ps[..|ps| - 1], allowAboveRoot), ps[|ps| - 1], allowAboveRoot)
  }

  function Join(segments: seq<Text>): Text {
    if segments == [] then []
    else if |segments| == 1 then segments[0]
    else Join(segments[..|segments| - 1]) + [SLASH] + segments[|segments| - 1]
  }

  predicate Plain(segment: Text) {
    segment != [] && SLASH !in segment && segment != CURRENT
  }

  predicate PlainSegments(stack: seq<Text>) {
    forall i :: 0 <= i < |stack| ==> Plain(stack[i])
  }

  /** Nothing left to reduce: ".." only in front, and only above the root. */
  predicate Canonical(stack: seq<Text>, allowAboveRoot: bool) {
    && PlainSegments(stack)
    && (forall i :: 0 <= i < |stack| && stack[i] == PARENT ==> allowAboveRoot && forall j :: 0 <= j < i ==> stack[j] == PARENT)
  }

  // ---- Split

  lemma {:induction false} SplitHasNoSlash(s: Text)
    ensures forall i :: 0 <= i < |Split(s)| ==> SLASH !in Split(s)[i]
  {
    if s != [] {
      SplitHasNoSlash(s[..|s| - 1]);
    }
  }

  lemma SplitSnoc(s: Text, c: CodeUnit)
    ensures c == SLASH ==> Split(s + [c]) == Split(s) + [[]]
    ensures c != SLASH ==> Split(s + [c]) == Split(s)[..|Split(s)| - 1] + [Split(s)[|Split(s)| - 1] + [c]]
  {
    assert (s + [c])[..|s|] == s;
  }

  lemma {:induction false} SplitConcat(a: Text, b: Text)
    ensures Split(a + [SLASH] + b) == Split(a) + Split(b)
    decreases |b|
  {
    hide Split;
    var s := a + [SLASH];
    SplitSnoc(a, SLASH);
    if b == [] {
      assert s + b == s;
      SplitEmpty();
    } else {
      var b', c := b[..|b| - 1], b[|b| - 1];
      assert b == b' + [c] && s + b == (s + b') + [c];
      SplitConcat(a, b');
      SplitSnoc(b', c);
      SplitSnoc(s + b', c);
      var p, q := Split(a), Split(b');
      assert (p + q)[..|p + q| - 1] == p + q[..|q| - 1] && (p + q)[|p + q| - 1] == q[|q| - 1];
    }
  }

  lemma SplitEmpty()
    ensures Split([]) == [[]]
  {
  }

  // A slash at either end adds an empty piece.
  lemma SplitEnds(s: Text)
    ensures Split([SLASH] + s) == [[]] + Split(s) && Split(s + [SLASH]) == Split(s) + [[]]
  {
    hide Split;
    SplitEmpty();
    SplitConcat([], s);
    assert [] + [SLASH] + s == [SLASH] + s;
    SplitSnoc(s, SLASH);
  }

  lemma {:induction false} SplitOne(s: Text)
    requires SLASH !in s
    ensures Split(s) == [s]
  {
    if s != [] {
      SplitOne(s[..|s| - 1]);
      assert s[..|s| - 1] + [s[|s| - 1]] == s;
    }
  }

  lemma {:induction false} SplitJoin(segments: seq<Text>)
    requires segments != [] && PlainSegments(segments)
    ensures Split(Join(segments)) == segments
  {
    hide Split;
    var n := |segments| - 1;
    SplitOne(segments[n]);
    if n > 0 {
      assert Join(segments) == Join(segments[..n]) + [SLASH] + segments[n];
      SplitJoin(segments[..n]);
      SplitConcat(Join(segments[..n]), segments[n]);
      assert segments == segments[..n] + [segments[n]];
    }
  }

  // ---- Reduce

  lemma {:induction false} ReduceConcat(stack: seq<Text>, a: seq<Text>, b: seq<Text>, above: bool)
    ensures Reduce(stack, a + b, above) == Reduce(Reduce(stack, a, above), b, above)
    decreases |b|
  {
    if b == [] {
      assert a + b == a;
    } else {
      assert (a + b)[..|a + b| - 1] == a + b[..|b| - 1];
      ReduceConcat(stack, a, b[..|b| - 1], above);
    }
  }

  lemma {:induction false} ReduceCanonical(stack: seq<Text>, ps: seq<Text>, above: bool)
    requires Canonical(stack, above)
    requires forall i :: 0 <= i < |ps| ==> SLASH !in ps[i]
    ensures Canonical(Reduce(stack, ps, above), above)
    decreases |ps|
  {
    if ps != [] {
      ReduceCanonical(stack, ps[..|ps| - 1], above);
      StepCanonical(Reduce(stack, ps[..|ps| - 1], above), ps[|ps| - 1], above);
    }
  }

  lemma StepCanonical(stack: seq<Text>, segment: Text, above: bool)
    requires Canonical(stack, above) && SLASH !in segment
    ensures Canonical(Step(stack, segment, above), above)
  {
    var r := Step(stack, segment, above);
    if segment == PARENT && r == stack + [PARENT] && stack != [] {
      assert stack[|stack| - 1] == PARENT;
    }
  }

  // A canonical stack reduces to itself, also on top of nothing but segments it cannot take back.
  lemma {:induction false} ReduceFixed(stack: seq<Text>, above: bool)
    requires Canonical(stack, above)
    ensures Reduce([], stack, above) == stack
    decreases |stack|
  {
    if stack != [] {
      var n := |stack| - 1;
      var below, top := stack[..n], stack[n];
      ReduceFixed(below, above);
      assert stack == below + [top];
      assert Step(below, top, above) == below + [top] by {
        assert Plain(top);
        if top == PARENT && below != [] {
          assert below[n - 1] == stack[n - 1] == PARENT;
        }
      }
    }
  }

  lemma ReduceEmptyPiece(stack: seq<Text>, ps: seq<Text>, above: bool)
    ensures Reduce(stack, ps + [[]], above) == Reduce(stack, ps, above)
    ensures Reduce(stack, [[]] + ps, above) == Reduce(stack, ps, above)
  {
    ReduceConcat(stack, ps, [[]], above);
    ReduceConcat(stack, [[]], ps, above);
    var e: seq<Text> := [[]];
    assert Reduce(stack, e, above) == Step(Reduce(stack, e[..0], above), [], above) == stack;
    assert Reduce(Reduce(stack, ps, above), e, above) == Step(Reduce(Reduce(stack, ps, above), e[..0], above), [], above);
  }

  // ---- normalize

  function NormalString(path: Text, allowAboveRoot: bool): Text {
    Join(Reduce([], Split(path), allowAboveRoot))
  }

  predicate IsAbsolute(path: Text) {
    path != [] && path[0] == SLASH
  }

  function Normal(path: Text): Text {
    if path == [] then CURRENT
    else
      var trailing := path[|path| - 1] == SLASH;
      var s := NormalString(path, !IsAbsolute(path));
      if s == [] then (if IsAbsolute(path) then [SLASH] else if trailing then [DOT, SLASH] else CURRENT)
      else (if IsAbsolute(path) then [SLASH] else []) + s + (if trailing then [SLASH] else [])
  }

  lemma ReducedPath(path: Text, above: bool)
    ensures Canonical(Reduce([], Split(path), above), above)
  {
    SplitHasNoSlash(path);
    ReduceCanonical([], Split(path), above);
  }

  // Normalizing the text of a canonical stack, with or without a slash at either end, changes nothing.
  lemma NormalJoin(stack: seq<Text>, above: bool, root: Text, tail: Text)
    requires Canonical(stack, above) && stack != []
    requires root in {[], [SLASH]} && tail in {[], [SLASH]}
    ensures NormalString(root + Join(stack) + tail, above) == Join(stack)
  {
    SplitJoin(stack);
    ReduceFixed(stack, above);
    hide Split, Reduce, Join, Canonical;
    var u := root + Join(stack);
    if root == [] {
      assert u == Join(stack);
    } else {
      SplitEnds(Join(stack));
      ReduceEmptyPiece([], stack, above);
    }
    assert Reduce([], Split(u), above) == stack;
    if tail == [] {
      assert u + tail == u;
    } else {
      SplitEnds(u);
      ReduceEmptyPiece([], Split(u), above);
    }
  }

  lemma {:induction false} JoinEnds(stack: seq<Text>)
    requires stack != [] && PlainSegments(stack)
    ensures Join(stack) != [] && Join(stack)[0] != SLASH && Join(stack)[|Join(stack)| - 1] != SLASH
  {
    if |stack| > 1 {
      JoinEnds(stack[..|stack| - 1]);
    }
  }

  /** normalize is idempotent. */
  lemma NormalIdempotent(path: Text)
    ensures Normal(Normal(path)) == Normal(path)
  {
    var above := !IsAbsolute(path);
    var stack := Reduce([], Split(path), above);
    ReducedPath(path, above);
    var n := Normal(path);
    if path == [] || stack == [] {
      ShortPaths();
    } else {
      JoinEnds(stack);
      var root: Text, tail: Text := if above then [] else [SLASH], if path[|path| - 1] == SLASH then [SLASH] else [];
      NormalJoin(stack, above, root, tail);
      assert n == root + Join(stack) + tail;
      assert IsAbsolute(n) == IsAbsolute(path);
      assert (n[|n| - 1] == SLASH) == (tail != []);
    }
  }

  lemma ShortPaths()
    ensures Normal(CURRENT) == CURRENT && Normal([SLASH]) == [SLASH] && Normal([DOT, SLASH]) == [DOT, SLASH]
  {
    SplitOne(CURRENT);
    SplitConcat([], []);
    assert [SLASH] == [] + [SLASH] + [];
    SplitConcat(CURRENT, []);
    assert [DOT, SLASH] == CURRENT + [SLASH] + [];
    var e: seq<Text> := [];
    assert Split([]) == [[]];
    ReduceEmptyPiece([], e, true);
    ReduceEmptyPiece([], e, false);
    ReduceEmptyPiece([], [[]], false);
    ReduceEmptyPiece([], [CURRENT], true);
    assert e + [[]] == [[]];
    assert [CURRENT][..0] == e;
    assert Reduce([], [CURRENT], true) == Step(Reduce([], [CURRENT][..0], true), CURRENT, true) == [];
  }

  // ---- resolve

  // The arguments that count: from the last absolute one on, empty ones dropped, after cwd if none is absolute.
  function Base(paths: seq<Text>, cwd: Text): (b: seq<Text>)
    ensures b != []
  {
    if paths == [] then [cwd]
    else
      var last := paths[|paths| - 1];
      if last == [] then Base(paths[..|paths| - 1], cwd)
      else if IsAbsolute(last) then [last]
      else Base(paths[..|paths| - 1], cwd) + [last]
  }

  function Pieces(paths: seq<Text>): seq<Text> {
    if paths == [] then [] else Pieces(paths[..|paths| - 1]) + Split(paths[|paths| - 1])
  }

  function ResolvedStack(paths: seq<Text>, cwd: Text): seq<Text> {
    var b := Base(paths, cwd);
    Reduce([], Pieces(b), !IsAbsolute(b[0]))
  }

  function Resolved(paths: seq<Text>, cwd: Text): Text {
    var s := Join(ResolvedStack(paths, cwd));
    if IsAbsolute(Base(paths, cwd)[0]) then [SLASH] + s else if s == [] then CURRENT else s
  }

  lemma {:induction false} PiecesHaveNoSlash(paths: seq<Text>)
    ensures forall i :: 0 <= i < |Pieces(paths)| ==> SLASH !in Pieces(paths)[i]
  {
    if paths != [] {
      PiecesHaveNoSlash(paths[..|paths| - 1]);
      SplitHasNoSlash(paths[|paths| - 1]);
    }
  }

  lemma {:induction false} BaseIsAbsolute(paths: seq<Text>, cwd: Text)
    requires IsAbsolute(cwd)
    ensures IsAbsolute(Base(paths, cwd)[0])
  {
    if paths != [] {
      BaseIsAbsolute(paths[..|paths| - 1], cwd);
    }
  }

  lemma ResolvedCanonical(paths: seq<Text>, cwd: Text)
    requires IsAbsolute(cwd)
    ensures Canonical(ResolvedStack(paths, cwd), false)
    ensures Resolved(paths, cwd) == [SLASH] + Join(ResolvedStack(paths, cwd))
  {
    BaseIsAbsolute(paths, cwd);
    PiecesHaveNoSlash(Base(paths, cwd));
    ReduceCanonical([], Pieces(Base(paths, cwd)), false);
  }

  // ---- relative

  function CommonPrefix(a: seq<Text>, b: seq<Text>): (k: nat)
    ensures k <= |a| && k <= |b| && a[..k] == b[..k]
    ensures k < |a| && k < |b| ==> a[k] != b[k]
  {
    if a != [] && b != [] && a[0] == b[0] then 1 + CommonPrefix(a[1..], b[1..]) else 0
  }

  function Ups(n: nat): seq<Text> {
    seq(n, _ => PARENT)
  }

  /** Up to the deepest common directory, then down. */
  function RelativeSegments(a: seq<Text>, b: seq<Text>): seq<Text> {
    var k := CommonPrefix(a, b);
    Ups(|a| - k) + b[k..]
  }

  function Relative(source: Text, target: Text, cwd: Text): Text {
    Join(RelativeSegments(ResolvedStack([source], cwd), ResolvedStack([target], cwd)))
  }

  lemma {:induction false} ReduceUps(stack: seq<Text>, n: nat)
    requires Canonical(stack, false) && n <= |stack|
    ensures Reduce(stack, Ups(n), false) == stack[..|stack| - n]
  {
    if n > 0 {
      ReduceUps(stack, n - 1);
      assert Ups(n)[..n - 1] == Ups(n - 1);
    }
  }

  lemma {:induction false} ReducePush(stack: seq<Text>, ps: seq<Text>)
    requires Canonical(stack + ps, false)
    ensures Reduce(stack, ps, false) == stack + ps
    decreases |ps|
  {
    if ps != [] {
      var n := |ps| - 1;
      assert (stack + ps)[..|stack| + n] == stack + ps[..n];
      assert (stack + ps)[|stack| + n] == ps[n];
      ReducePush(stack, ps[..n]);
      assert ps == ps[..n] + [ps[n]];
    } else {
      assert stack + ps == stack;
    }
  }

  lemma RelativeReaches(a: seq<Text>, b: seq<Text>)
    requires Canonical(a, false) && Canonical(b, false)
    ensures Reduce(a, RelativeSegments(a, b), false) == b
  {
    hide Reduce, Step;
    var k := CommonPrefix(a, b);
    ReduceConcat(a, Ups(|a| - k), b[k..], false);
    ReduceUps(a, |a| - k);
    assert a[..k] + b[k..] == b;
    ReducePush(a[..k], b[k..]);
  }

  lemma RelativeIsPlain(a: seq<Text>, b: seq<Text>)
    requires Canonical(a, false) && Canonical(b, false)
    ensures PlainSegments(RelativeSegments(a, b))
  {
  }

  lemma Nothing(stack: seq<Text>)
    ensures Join([]) == [] && Reduce(stack, [], false) == stack
  {
  }

  /** resolve(source, relative(source, target)) = resolve(target). */
  lemma RelativeResolves(source: Text, target: Text, cwd: Text)
    requires IsAbsolute(cwd)
    ensures Resolved([source, Relative(source, target, cwd)], cwd) == Resolved([target], cwd)
  {
    hide Split, Reduce, Join, RelativeSegments;
    var a, b := ResolvedStack([source], cwd), ResolvedStack([target], cwd);
    ResolvedCanonical([source], cwd);
    ResolvedCanonical([target], cwd);
    var segments := RelativeSegments(a, b);
    var r := Relative(source, target, cwd);
    RelativeReaches(a, b);
    ResolvedCanonical([source, r], cwd);
    BaseIsAbsolute([source, r], cwd);
    BaseIsAbsolute([source], cwd);
    assert [source, r][..1] == [source];
    if segments == [] {
      assert r == [] && a == b by {
        Nothing(a);
      }
      assert Base([source, r], cwd) == Base([source], cwd);
    } else {
      assert PlainSegments(segments) by {
        RelativeIsPlain(a, b);
      }
      JoinEnds(segments);
      var base := Base([source], cwd);
      assert Base([source, r], cwd) == base + [r];
      assert (base + [r])[..|base|] == base;
      SplitJoin(segments);
      assert Pieces(base + [r]) == Pieces(base) + segments;
      ReduceConcat([], Pieces(base), segments, false);
    }
  }
}
