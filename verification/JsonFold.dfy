// Feeding a sequence of visitor calls to a state.
module JsonFold {
  import opened JsonScan
  import opened JsonSyntax
  import opened JsonGrammar

  function Fold<S>(step: (Event, S) -> S, events: seq<Event>, s: S): S {
    if events == [] then s else step(events[|events| - 1], Fold(step, events[..|events| - 1], s))
  }

  lemma {:induction false} FoldConcat<S>(step: (Event, S) -> S, a: seq<Event>, b: seq<Event>, s: S)
    ensures Fold(step, a + b, s) == Fold(step, b, Fold(step, a, s))
    decreases |b|
  {
    if b == [] {
      assert a + b == a;
    } else {
      assert (a + b)[..|a + b| - 1] == a + b[..|b| - 1];
      FoldConcat(step, a, b[..|b| - 1], s);
    }
  }

  lemma FoldThree<S>(step: (Event, S) -> S, a: seq<Event>, b: seq<Event>, c: seq<Event>, s: S)
    ensures Fold(step, a + b + c, s) == Fold(step, c, Fold(step, b, Fold(step, a, s)))
  {
    FoldConcat(step, a, b, s);
    FoldConcat(step, a + b, c, s);
  }

  lemma FoldFour<S>(step: (Event, S) -> S, a: seq<Event>, b: seq<Event>, c: seq<Event>, d: seq<Event>, s: S)
    ensures Fold(step, a + b + c + d, s) == Fold(step, d, Fold(step, c, Fold(step, b, Fold(step, a, s))))
  {
    FoldThree(step, a, b, c, s);
    FoldConcat(step, a + b + c, d, s);
  }

  lemma FoldOne<S>(step: (Event, S) -> S, e: Event, s: S)
    ensures Fold(step, [e], s) == step(e, s)
  {
    assert [e][..0] == [];
  }

  lemma FoldNext<S>(step: (Event, S) -> S, events: seq<Event>, i: nat, s: S)
    requires i < |events|
    ensures Fold(step, events[..i + 1], s) == step(events[i], Fold(step, events[..i], s))
  {
    assert events[..i + 1][..i] == events[..i];
  }

  // A visitor that pays no attention to comments and errors.
  ghost predicate Deaf<S(!new)>(step: (Event, S) -> S) {
    forall r, s :: step(Note(r), s) == s
  }

  lemma {:induction false} FoldNotes<S(!new)>(step: (Event, S) -> S, remarks: seq<Remark>, s: S)
    requires Deaf(step)
    ensures Fold(step, Notes(remarks), s) == s
    decreases |remarks|
  {
    var k := |remarks| - 1;
    if remarks != [] {
      FoldNotes(step, remarks[..k], s);
      assert Notes(remarks)[..k] == Notes(remarks[..k]);
    }
  }

  // One call and the remarks behind it.
  lemma FoldStep<S(!new)>(step: (Event, S) -> S, e: Event, remarks: seq<Remark>, s: S)
    requires Deaf(step)
    ensures Fold(step, [e] + Notes(remarks), s) == step(e, s)
  {
    FoldOne(step, e, s);
    FoldNotes(step, remarks, step(e, s));
    FoldConcat(step, [e], Notes(remarks), s);
  }

  // A separator without effect.
  lemma FoldSep<S(!new)>(step: (Event, S) -> S, sep: Sep, s: S)
    requires Deaf(step) && forall offset, length :: step(Separator(Comma, offset, length), s) == s
    ensures Fold(step, SepEvents(sep), s) == s
  {
    if sep.AComma? {
      FoldStep(step, Separator(Comma, sep.tok.offset, sep.tok.length), sep.tok.after, s);
    }
  }
}
