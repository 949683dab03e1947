// The meaning of a net of observables (observable.ts): what derivations and runners compute
// from the current values, and which of their reads a changed value can reach.
module ReactiveNet {

  type Id = nat
  type V = int

  datatype Action = Return(value: V) | Read(source: Id)

  /** A derivation or runner: given the values read so far it reads another observable or returns.
      It makes at most `bound` reads, whatever they yield. */
  datatype Program = Program(step: seq<V> -> Action, bound: nat)

  /** The derivations and runners by id, and the current values. */
  datatype World = World(programs: map<Id, Program>, env: map<Id, V>)
  {
    // Nodes are numbered so that programs read smaller ids only: the net is acyclic.
    ghost predicate Acyclic() {
      forall n, h :: n in programs && programs[n].step(h).Read? ==>
        |h| < programs[n].bound && programs[n].step(h).source < n
    }
  }

  // All values read by n, starting from those in h.
  ghost function History(w: World, n: Id, h: seq<V>): (r: seq<V>)
    requires w.Acyclic() && n in w.programs
    ensures w.programs[n].step(r).Return?
    ensures h <= r
    ensures forall i :: |h| <= i < |r| ==> w.programs[n].step(r[..i]).Read? && r[i] == Val(w, w.programs[n].step(r[..i]).source)
    decreases n, 0, if |h| <= w.programs[n].bound then w.programs[n].bound - |h| else 0
  {
    match w.programs[n].step(h)
    case Return(_) => h
    case Read(s) =>
      var r := History(w, n, h + [Val(w, s)]);
      assert r[..|h|] == h;
      r
  }

  /** The current value of an observable. */
  ghost function Val(w: World, s: Id): V
    requires w.Acyclic()
    decreases s, 1
  {
    if s in w.env then w.env[s]
    else if s in w.programs then w.programs[s].step(History(w, s, [])).value
    else 0
  }

  ghost function Source(w: World, n: Id, h: seq<V>, i: nat): Id
    requires n in w.programs && i < |h|
  {
    match w.programs[n].step(h[..i])
    case Read(s) => s
    case Return(_) => 0
  }

  /** What a program that has read h depends on. */
  ghost function Sources(w: World, n: Id, h: seq<V>): set<Id>
    requires n in w.programs
  {
    set i | 0 <= i < |h| :: Source(w, n, h, i)
  }

  lemma SourcesSnoc(w: World, n: Id, h: seq<V>, v: V)
    requires n in w.programs && w.programs[n].step(h).Read?
    ensures Sources(w, n, h + [v]) == Sources(w, n, h) + {w.programs[n].step(h).source}
  {
    var h' := h + [v];
    assert h'[..|h|] == h;
    assert forall i :: 0 <= i < |h| ==> h'[..i] == h[..i];
    assert Source(w, n, h', |h|) == w.programs[n].step(h).source;
    forall s | s in Sources(w, n, h) ensures s in Sources(w, n, h') {
      var i :| 0 <= i < |h| && s == Source(w, n, h, i);
      assert s == Source(w, n, h', i);
    }
    forall s | s in Sources(w, n, h') ensures s in Sources(w, n, h) + {w.programs[n].step(h).source} {
      var i :| 0 <= i < |h'| && s == Source(w, n, h', i);
      if i < |h| {
        assert s == Source(w, n, h, i);
      }
    }
  }

  // A run is determined by the values it meets.
  lemma {:induction false} HistoryFrom(w: World, n: Id, h: seq<V>, r: seq<V>)
    requires w.Acyclic() && n in w.programs && h <= r && w.programs[n].step(r).Return?
    requires forall i :: |h| <= i < |r| ==> w.programs[n].step(r[..i]).Read? && r[i] == Val(w, w.programs[n].step(r[..i]).source)
    ensures History(w, n, h) == r
    decreases |r| - |h|
  {
    if |h| == |r| {
      assert h == r;
    } else {
      assert r[..|h|] == h;
      var h' := h + [r[|h|]];
      assert h' == r[..|h| + 1];
      HistoryFrom(w, n, h', r);
    }
  }

  lemma HistoryStops(w: World, n: Id, h: seq<V>)
    requires w.Acyclic() && n in w.programs && w.programs[n].step(h).Return?
    ensures History(w, n, h) == h
  {
  }

  // ---- the reach of a changed value

  /** The current run of s reads v, directly or through derivations. */
  ghost predicate Hits(w: World, s: Id, v: Id)
    requires w.Acyclic()
    decreases s
  {
    s == v || (s !in w.env && s in w.programs && HitsRun(w, s, History(w, s, []), v))
  }

  ghost predicate HitsRun(w: World, n: Id, h: seq<V>, v: Id)
    requires w.Acyclic() && n in w.programs
    decreases n, 0
  {
    exists i :: 0 <= i < |h| && Source(w, n, h, i) < n && Hits(w, Source(w, n, h, i), v)
  }

  // The first read of n that v reaches.
  ghost predicate FirstHitAt(w: World, n: Id, v: Id, i: nat)
    requires w.Acyclic() && n in w.programs
  {
    var h := History(w, n, []);
    && i < |h| && Hits(w, Source(w, n, h, i), v)
    && forall j :: 0 <= j < i ==> !Hits(w, Source(w, n, h, j), v)
  }

  lemma FirstHitExists(w: World, n: Id, v: Id) returns (i: nat)
    requires w.Acyclic() && n in w.programs && HitsRun(w, n, History(w, n, []), v)
    ensures FirstHitAt(w, n, v, i)
  {
    hide Hits, Source;
    var h := History(w, n, []);
    i := 0;
    while !Hits(w, Source(w, n, h, i), v)
      invariant 0 <= i < |h|
      invariant forall j :: 0 <= j < i ==> !Hits(w, Source(w, n, h, j), v)
      invariant exists j :: i <= j < |h| && Hits(w, Source(w, n, h, j), v)
      decreases |h| - i
    {
      i := i + 1;
    }
  }

  ghost function FirstHit(w: World, n: Id, v: Id): (s: Id)
    requires w.Acyclic() && n in w.programs && HitsRun(w, n, History(w, n, []), v)
    ensures s < n && Hits(w, s, v) && s in Sources(w, n, History(w, n, []))
  {
    var i := FirstHitIndex(w, n, v);
    Source(w, n, History(w, n, []), i)
  }

  ghost function FirstHitIndex(w: World, n: Id, v: Id): (i: nat)
    requires w.Acyclic() && n in w.programs && HitsRun(w, n, History(w, n, []), v)
    ensures FirstHitAt(w, n, v, i)
  {
    assert exists i: nat :: FirstHitAt(w, n, v, i) by {
      var i := FirstHitExists(w, n, v);
    }
    var i: nat :| FirstHitAt(w, n, v, i);
    i
  }

  ghost predicate Changed(w: World, w': World, v: Id) {
    && w.Acyclic() && w'.programs == w.programs && v in w.env
    && w'.env.Keys == w.env.Keys && forall s :: s in w.env && s != v ==> w'.env[s] == w.env[s]
  }

  // What the changed value does not reach keeps its value, and its run.
  lemma {:induction false} Unaffected(w: World, w': World, v: Id, s: Id)
    requires Changed(w, w', v) && !Hits(w, s, v)
    ensures Val(w', s) == Val(w, s)
    ensures s in w.programs && s !in w.env ==> History(w', s, []) == History(w, s, [])
    decreases s
  {
    if s !in w.env && s in w.programs {
      UnaffectedRun(w, w', v, s);
    }
  }

  lemma {:induction false} UnaffectedRun(w: World, w': World, v: Id, n: Id)
    requires Changed(w, w', v) && n in w.programs && !HitsRun(w, n, History(w, n, []), v)
    ensures History(w', n, []) == History(w, n, [])
    decreases n, 0
  {
    var h := History(w, n, []);
    forall i | 0 <= i < |h| ensures h[i] == Val(w', w.programs[n].step(h[..i]).source) {
      assert Source(w, n, h, i) < n;
      Unaffected(w, w', v, Source(w, n, h, i));
    }
    HistoryFrom(w', n, [], h);
  }

  // The first read that v reaches is made under the new value too.
  lemma FirstHitStable(w: World, w': World, n: Id, v: Id)
    requires Changed(w, w', v) && n in w.programs && HitsRun(w, n, History(w, n, []), v)
    ensures FirstHit(w, n, v) in Sources(w', n, History(w', n, []))
  {
    var i := FirstHitIndex(w, n, v);
    var h, h' := History(w, n, []), History(w', n, []);
    SamePrefix(w, w', n, v, i, i);
    assert Source(w', n, h', i) == Source(w, n, h, i);
  }

  lemma {:induction false} SamePrefix(w: World, w': World, n: Id, v: Id, i: nat, j: nat)
    requires Changed(w, w', v) && n in w.programs && FirstHitAt(w, n, v, i) && j <= i
    ensures var h, h' := History(w, n, []), History(w', n, []);
      j < |h'| && h'[..j] == h[..j]
    decreases j
  {
    hide Hits, Source, FirstHitAt, Val;
    var h, h' := History(w, n, []), History(w', n, []);
    InRange(w, n, v, i);
    if j > 0 {
      SamePrefix(w, w', n, v, i, j - 1);
      SameRead(w, w', n, v, i, j - 1);
      assert h'[..j] == h'[..j - 1] + [h'[j - 1]] == h[..j - 1] + [h[j - 1]] == h[..j];
    } else {
      assert h'[..j] == h[..j];
    }
    WholePrefix(h');
    assert w.programs[n].step(h[..j]).Read?;
  }

  lemma InRange(w: World, n: Id, v: Id, i: nat)
    requires w.Acyclic() && n in w.programs && FirstHitAt(w, n, v, i)
    ensures i < |History(w, n, [])|
  {
  }

  lemma WholePrefix(h: seq<V>)
    ensures h[..|h|] == h
  {
  }

  lemma SameRead(w: World, w': World, n: Id, v: Id, i: nat, j: nat)
    requires Changed(w, w', v) && n in w.programs && FirstHitAt(w, n, v, i) && j < i
    requires var h, h' := History(w, n, []), History(w', n, []);
      j < |h'| && h'[..j] == h[..j]
    ensures History(w', n, [])[j] == History(w, n, [])[j]
  {
    hide Hits;
    var s := Source(w, n, History(w, n, []), j);
    assert !Hits(w, s, v);
    Unaffected(w, w', v, s);
  }

  /** n lies on the chain of first hits from o down to v. */
  ghost predicate Chain(w: World, v: Id, o: Id, n: Id)
    requires w.Acyclic()
    decreases o
  {
    o == n || (o in w.programs && HitsRun(w, o, History(w, o, []), v) && FirstHit(w, o, v) != v && Chain(w, v, FirstHit(w, o, v), n))
  }

  // The link of the chain just above n.
  lemma {:induction false} ChainLink(w: World, v: Id, o: Id, n: Id) returns (m: Id)
    requires w.Acyclic() && Chain(w, v, o, n) && o != n
    ensures Chain(w, v, o, m) && m in w.programs && HitsRun(w, m, History(w, m, []), v) && FirstHit(w, m, v) == n
    decreases o
  {
    var f := FirstHit(w, o, v);
    if f == n {
      m := o;
    } else {
      m := ChainLink(w, v, f, n);
    }
  }

  // The chain of whatever v reaches ends in a direct reader of v.
  lemma {:induction false} ChainBottom(w: World, v: Id, o: Id) returns (m: Id)
    requires w.Acyclic() && v in w.env && o in w.programs && HitsRun(w, o, History(w, o, []), v)
    ensures Chain(w, v, o, m) && m in w.programs && HitsRun(w, m, History(w, m, []), v) && FirstHit(w, m, v) == v
    decreases o
  {
    var f := FirstHit(w, o, v);
    if f == v {
      m := o;
    } else {
      m := ChainBottom(w, v, f);
    }
  }

  // ---- adding nodes

  // All reads are of nodes that exist.
  ghost predicate Closed(w: World) {
    forall n, h :: n in w.programs && w.programs[n].step(h).Read? ==>
      w.programs[n].step(h).source in w.env || w.programs[n].step(h).source in w.programs
  }

  lemma {:induction false} HistoryExtended(w: World, w': World, n: Id)
    requires w.Acyclic() && w'.Acyclic() && Closed(w) && n in w.programs
    requires forall s :: s in w.programs ==> s in w'.programs && w'.programs[s] == w.programs[s]
    requires forall s :: s in w.env ==> s in w'.env && w'.env[s] == w.env[s]
    requires forall s :: s in w.programs && s !in w.env ==> s !in w'.env
    ensures History(w', n, []) == History(w, n, [])
    decreases n
  {
    var h := History(w, n, []);
    forall i | 0 <= i < |h| ensures h[i] == Val(w', w.programs[n].step(h[..i]).source) {
      var s := w.programs[n].step(h[..i]).source;
      if s !in w.env {
        HistoryExtended(w, w', s);
      }
    }
    HistoryFrom(w', n, [], h);
  }
}
