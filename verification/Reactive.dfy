// ObservableValue, DerivedObservable, Autorun and notifyObservers (observable.ts).
// The objects of a net are the ids of one ReactiveGraph; their fields are its maps.
module Reactive {
  import opened ReactiveNet

  /** A snapshot of the fields. */
  datatype State = State(
    world: World,
    autoruns: set<Id>,
    observers: map<Id, seq<Id>>,
    dependencies: map<Id, set<Id>>,
    log: map<Id, seq<V>>,
    disposed: set<Id>)
  {
    ghost predicate Observable(s: Id) {
      s in world.env || (s in world.programs && s !in autoruns)
    }

    // Shape of the net: who exists, who may be read.
    ghost predicate Shaped() {
      && world.Acyclic()
      && world.env.Keys !! world.programs.Keys && autoruns <= world.programs.Keys && disposed <= autoruns
      && (forall n, h :: n in world.programs && world.programs[n].step(h).Read? ==> Observable(world.programs[n].step(h).source))
      && dependencies.Keys == world.programs.Keys
      && (forall s :: s in observers <==> Observable(s))
    }

    ghost predicate Observes(o: Id, s: Id) {
      s in observers && o in observers[s]
    }

    ghost predicate DependsOn(o: Id, s: Id) {
      o in dependencies && s in dependencies[o]
    }

    /** Every edge is known at both ends. */
    ghost predicate Wired() {
      && Shaped()
      && (forall s, o :: Observes(o, s) <==> DependsOn(o, s))
      && (forall s, o :: DependsOn(o, s) ==> s < o)
    }

    /** The last run of o read exactly what a run now would read, and o depends on just that. */
    ghost predicate Fresh(o: Id)
      requires world.Acyclic()
    {
      && o in world.programs && o in dependencies && o in log
      && log[o] == History(world, o, [])
      && dependencies[o] == Sources(world, o, log[o])
    }

    /** So did every derivation below o. */
    ghost predicate DeepFresh(o: Id)
      requires world.Acyclic()
      decreases o
    {
      Fresh(o) && forall s :: s in dependencies[o] && s < o && s in world.programs ==> DeepFresh(s)
    }

    /** All edges are two-way, every live autorun is up to date, a disposed one observes nothing. */
    ghost predicate Settled() {
      && Wired()
      && (forall a :: a in autoruns && a !in disposed ==> DeepFresh(a))
      && (forall a :: a in disposed && a in dependencies ==> dependencies[a] == {})
    }
  }

  // o has kept its dependencies and its last run.
  ghost predicate Same(s: State, t: State, o: Id) {
    && (o in t.dependencies <==> o in s.dependencies) && (o in s.dependencies ==> t.dependencies[o] == s.dependencies[o])
    && (o in t.log <==> o in s.log) && (o in s.log ==> t.log[o] == s.log[o])
  }

  // Only dependencies, observers and runs differ, and only where a node has been brought up to date; x is in progress.
  ghost predicate Refreshed(s: State, t: State, x: set<Id>) {
    && s.world == t.world && s.autoruns == t.autoruns && s.disposed == t.disposed
    && s.world.Acyclic()
    && forall o :: o !in x ==> Same(s, t, o) || (t.Fresh(o) && o !in s.disposed)
  }

  lemma RefreshedTransitive(s: State, t: State, u: State, x: set<Id>)
    requires Refreshed(s, t, x) && Refreshed(t, u, x)
    ensures Refreshed(s, u, x)
  {
    forall o | o !in x ensures Same(s, u, o) || (u.Fresh(o) && o !in s.disposed) {
      assert Same(s, t, o) || (t.Fresh(o) && o !in s.disposed);
      assert Same(t, u, o) || (u.Fresh(o) && o !in s.disposed);
    }
  }

  lemma {:induction false} DeepFreshKept(s: State, t: State, x: set<Id>, o: Id)
    requires s.Wired() && Refreshed(s, t, x) && s.DeepFresh(o)
    requires o !in x && forall n :: n in x ==> n > o || !s.Observable(n)
    ensures t.DeepFresh(o)
    decreases o
  {
    hide State.Shaped;
    assert t.Fresh(o) && t.dependencies[o] == s.dependencies[o];
    forall d | d in t.dependencies[o] && d < o && d in t.world.programs ensures t.DeepFresh(d) {
      assert s.DependsOn(o, d) && s.Observes(o, d);
      IsObservable(s, d);
      DeepFreshKept(s, t, x, d);
    }
  }

  lemma IsObservable(s: State, d: Id)
    requires s.Shaped() && d in s.observers
    ensures s.Observable(d)
  {
  }

  ghost function ResultOf(w: World, n: Id): V
    requires w.Acyclic() && n in w.programs
  {
    w.programs[n].step(History(w, n, [])).value
  }

  // Nodes that may be in the middle of a run are not disturbed.
  ghost predicate KeptAbove(s: State, t: State, o: Id) {
    forall n :: n > o ==> Same(s, t, n)
  }

  lemma KeptAboveTransitive(s: State, t: State, u: State, o: Id)
    requires KeptAbove(s, t, o) && KeptAbove(t, u, o)
    ensures KeptAbove(s, u, o)
  {
    forall n | n > o ensures Same(s, u, n) {
      assert Same(s, t, n) && Same(t, u, n);
    }
  }

  lemma KeptAboveMore(s: State, t: State, n: Id, o: Id)
    requires KeptAbove(s, t, n) && n < o
    ensures KeptAbove(s, t, o) && Same(s, t, o)
  {
  }

  lemma StartFacts(s: State, o: Id)
    requires s.Wired() && o in s.world.programs
    ensures Refreshed(s, s, {o}) && KeptAbove(s, s, o) && Sources(s.world, o, []) == {}
  {
  }

  // The next read of o is of an existing smaller node.
  lemma StepFacts(s: State, o: Id, h: seq<V>)
    requires s.Wired() && o in s.world.programs && s.world.programs[o].step(h).Read?
    ensures var d := s.world.programs[o].step(h).source;
      && d < o && d in s.observers && |h| < s.world.programs[o].bound
      && (d in s.world.env ==> d !in s.world.programs)
      && History(s.world, o, h) == History(s.world, o, h + [Val(s.world, d)])
      && Sources(s.world, o, h + [Val(s.world, d)]) == Sources(s.world, o, h) + {d}
  {
    var d := s.world.programs[o].step(h).source;
    assert s.Observable(d);
    SourcesSnoc(s.world, o, h, Val(s.world, d));
  }

  lemma RunDone(start: State, s: State, t: State, o: Id, h: seq<V>)
    requires s.Wired() && Refreshed(start, s, {o}) && KeptAbove(start, s, o) && t == s.(log := s.log[o := h])
    requires o in s.world.programs && o in s.dependencies && s.world.programs[o].step(h).Return?
    requires History(s.world, o, h) == History(s.world, o, []) && s.dependencies[o] == Sources(s.world, o, h)
    requires forall d :: d in s.dependencies[o] ==> d < o && (d in s.world.programs ==> s.DeepFresh(d))
    ensures t.Wired() && Refreshed(start, t, {o}) && KeptAbove(start, t, o) && t.DeepFresh(o)
    ensures s.world.programs[o].step(h).value == ResultOf(s.world, o)
  {
    hide State.Shaped, History, Refreshed, KeptAbove, Sources;
    WiredFacts(s);
    HistoryStops(s.world, o, h);
    ShapedKept(s, t);
    WiredSame(s, t);
    OnlyLog(s, t, o);
    RefreshedTransitive(start, s, t, {o});
    KeptAboveTransitive(start, s, t, o);
    assert t.Fresh(o);
    forall d | d in t.dependencies[o] && d < o && d in t.world.programs ensures t.DeepFresh(d) {
      DeepFreshKept(s, t, {o}, d);
    }
  }

  lemma OnlyLog(s: State, t: State, o: Id)
    requires s.Wired() && t == s.(log := t.log) && o in t.log && t.log == s.log[o := t.log[o]]
    ensures Refreshed(s, t, {o}) && KeptAbove(s, t, o)
  {
  }

  lemma OnlyDependencies(s: State, t: State, o: Id)
    requires s.Wired() && o in s.dependencies
    requires t == s.(dependencies := t.dependencies, observers := t.observers)
    requires o in t.dependencies && t.dependencies == s.dependencies[o := t.dependencies[o]]
    ensures Refreshed(s, t, {o}) && KeptAbove(s, t, o)
  {
  }

  lemma ValueFacts(s: State, d: Id)
    requires s.Wired() && d in s.world.env
    ensures d !in s.world.programs && Val(s.world, d) == s.world.env[d]
    ensures forall o :: Refreshed(s, s, {o})
  {
  }

  lemma NotAValue(s: State, d: Id)
    requires s.Wired() && d in s.observers && d !in s.world.env
    ensures d in s.world.programs && d !in s.disposed && Val(s.world, d) == ResultOf(s.world, d)
  {
  }

  lemma RefreshedMore(s: State, t: State, x: set<Id>, y: set<Id>)
    requires Refreshed(s, t, x) && x <= y
    ensures Refreshed(s, t, y)
  {
  }

  lemma NoLongerInProgress(s: State, t: State, d: Id)
    requires Refreshed(s, t, {d}) && t.DeepFresh(d) && d !in s.disposed
    ensures Refreshed(s, t, {})
  {
  }

  // Set.delete on an insertion-ordered set.
  function Without(s: seq<Id>, o: Id): (r: seq<Id>)
    ensures forall x :: x in r <==> x in s && x != o
  {
    if s == [] then [] else (if s[0] == o then [] else [s[0]]) + Without(s[1..], o)
  }

  class ReactiveGraph {
    var programs: map<Id, Program>
    var env: map<Id, V>
    var autoruns: set<Id>
    var observers: map<Id, seq<Id>>
    var dependencies: map<Id, set<Id>>
    var disposed: set<Id>
    var running: set<Id>
    var needsRun: set<Id>
    var nextId: nat
    ghost var log: map<Id, seq<V>>

    ghost function Now(): State
      reads this
    {
      State(World(programs, env), autoruns, observers, dependencies, log, disposed)
    }

    /** Between two calls from outside. */
    ghost predicate Quiescent()
      reads this
    {
      Now().Settled() && running == {} && needsRun == {} && Bounded()
    }

    constructor ()
      ensures Quiescent() && programs == map[] && env == map[] && autoruns == {} && disposed == {}
    {
      programs, env, autoruns, observers, dependencies := map[], map[], {}, map[], map[];
      disposed, running, needsRun, nextId := {}, {}, {}, 0;
      log := map[];
    }

    // observableValue
    method ObservableValue(value: V) returns (v: Id)
      requires Quiescent()
      modifies this`env, this`observers, this`nextId
      ensures Quiescent() && v !in old(env) && v !in programs && env == old(env)[v := value]
    {
      ghost var start := Now();
      v := nextId;
      nextId := nextId + 1;
      env := env[v := value];
      observers := observers[v := []];
      ValueAdded(start, Now(), v, value);
      GrownSettled(start, Now(), v);
    }

    // derived: the callback reads observables that exist
    method Derived(program: Program) returns (d: Id)
      requires Quiescent() && Reads(program)
      modifies this`programs, this`dependencies, this`observers, this`nextId
      ensures Quiescent() && d !in old(programs) && d !in env && programs == old(programs)[d := program]
    {
      ghost var start := Now();
      d := nextId;
      nextId := nextId + 1;
      programs := programs[d := program];
      dependencies := dependencies[d := {}];
      observers := observers[d := []];
      ProgramAdded(start, Now(), d, program);
      GrownSettled(start, Now(), d);
    }

    // autorun: the runner runs at once
    method Autorun(program: Program) returns (a: Id)
      requires Quiescent() && Reads(program)
      modifies this`programs, this`dependencies, this`observers, this`log, this`autoruns, this`running, this`needsRun, this`nextId
      ensures Quiescent() && a !in old(programs) && a !in env && programs == old(programs)[a := program]
      ensures autoruns == old(autoruns) + {a} && a !in disposed
    {
      hide State.Shaped, State.DeepFresh, Grown, Refreshed;
      ghost var start := Now();
      SettledIsWired(start);
      AutorunsExist(start);
      a := nextId;
      nextId := nextId + 1;
      programs := programs[a := program];
      dependencies := dependencies[a := {}];
      autoruns := autoruns + {a};
      ghost var added := Now();
      ProgramAdded(start, added, a, program);
      GrownSettled(start, added, a);
      Run(a);
      SettledWith(added, Now(), a);
    }

    // What a callback may do: read existing observables, finitely often.
    ghost predicate Reads(program: Program)
      reads this
    {
      forall h :: program.step(h).Read? ==> |h| < program.bound && Now().Observable(program.step(h).source)
    }

    // get
    method Get(s: Id) returns (v: V)
      requires Quiescent() && Now().Observable(s)
      modifies this`observers, this`dependencies, this`log
      ensures Quiescent() && v == Val(Now().world, s)
    {
      ghost var start := Now();
      if s in env {
        v := env[s];
      } else {
        v := Recompute(s);
        StillSettled(start, Now());
      }
    }

    // Autorun.dispose
    method Dispose(a: Id)
      requires Quiescent() && a in autoruns
      modifies this`observers, this`dependencies, this`disposed
      ensures Quiescent() && disposed == old(disposed) + {a}
      ensures forall s :: s in observers ==> a !in observers[s]
    {
      hide State.Shaped, State.Wired, State.Settled, State.DeepFresh;
      ghost var start := Now();
      SettledIsWired(start);
      if a in disposed {
        assert disposed + {a} == disposed;
        DisposedIsUnobserving(start, a);
        return;
      }
      AutorunsArePrograms(start, a);
      disposed := disposed + {a};
      MarkedWired(start, Now(), a);
      DisposeDependencies(a);
      DisposedSettled(start, Now(), a);
    }

    // notifyObservers; observers do not throw here
    method NotifyObservers(snapshot: seq<Id>, n: Id, ghost w0: World, ghost v: Id, ghost live: set<Id>)
      requires Spreading(Now(), w0, v, live) && Bounded() && n < nextId
      requires forall o :: o in snapshot ==> o in programs && n < o
      modifies this`observers, this`dependencies, this`log, this`running, this`needsRun
      ensures Spreading(Now(), w0, v, live) && Bounded() && running == old(running)
      ensures Refreshed(old(Now()), Now(), {})
      ensures running == {} ==> needsRun <= old(needsRun) && forall o :: o in snapshot ==> Informed(Now(), w0, v, live, o)
      decreases nextId - n, 0
    {
      hide State.Wired, Refreshed, Informed, Spreading, Changed, Chain;
      ghost var start := Now();
      SpreadingFacts(start, w0, v, live);
      for i := 0 to |snapshot|
        invariant Spreading(Now(), w0, v, live) && Bounded() && running == old(running)
        invariant start.Wired() && start.world.Acyclic() && Now().world == start.world && w0.Acyclic() && Refreshed(start, Now(), {})
        invariant running == {} ==>
          needsRun <= old(needsRun) && forall j :: 0 <= j < i ==> Informed(Now(), w0, v, live, snapshot[j])
      {
        ghost var before := Now();
        SpreadingFacts(before, w0, v, live);
        assert snapshot[i] in snapshot;
        HandleChange(snapshot[i], w0, v, live);
        RefreshedTransitive(start, before, Now(), {});
        RefreshedWorld(before, Now(), {});
        if running == {} {
          forall j | 0 <= j < i ensures Informed(Now(), w0, v, live, snapshot[j]) {
            InformedKept(before, Now(), w0, v, live, snapshot[j]);
          }
        }
      }
    }

    // DerivedObservable.handleChange and Autorun.handleChange
    method HandleChange(n: Id, ghost w0: World, ghost v: Id, ghost live: set<Id>)
      requires Spreading(Now(), w0, v, live) && Bounded() && n in programs
      modifies this`observers, this`dependencies, this`log, this`running, this`needsRun
      ensures Spreading(Now(), w0, v, live) && Bounded() && running == old(running)
      ensures Refreshed(old(Now()), Now(), {})
      ensures running == {} ==> needsRun <= old(needsRun) && Informed(Now(), w0, v, live, n)
      decreases nextId - n, 1
    {
      hide Refreshed, Informed, Changed, Chain;
      ghost var start := Now();
      if n in autoruns {
        if n in running {
          needsRun := needsRun + {n};
          SpreadingFacts(start, w0, v, live);
          return;
        }
        Run(n);
        SpreadingKept(start, Now(), w0, v, live);
        AutorunInformed(start, Now(), w0, v, live, n);
      } else {
        assert start.Observable(n);
        ObserverFacts(start, n);
        NotifyObservers(observers[n], n, w0, v, live);
        if running == {} {
          InformedThrough(start, Now(), w0, v, live, n);
        }
      }
    }

    // Autorun.run. Only a runner that sets a value can be asked to run again while it runs, so
    // here one round of the do-loop is enough.
    method Run(a: Id)
      requires Now().Wired() && a in autoruns
      modifies this`observers, this`dependencies, this`log, this`running, this`needsRun
      ensures Now().Wired() && running == old(running)
      ensures Refreshed(old(Now()), Now(), {})
      ensures a in disposed ==> needsRun == old(needsRun) && Now() == old(Now())
      ensures a !in disposed && a in running ==> needsRun == old(needsRun) + {a} && Now() == old(Now())
      ensures a !in disposed && a !in running ==> needsRun == old(needsRun) - {a} && Now().DeepFresh(a)
    {
      if a in disposed {
        return;
      }
      if a in running {
        needsRun := needsRun + {a};
        return;
      }
      needsRun := needsRun - {a};
      running := running + {a};
      var _ := Recompute(a);
      running := running - {a};
    }

    ghost predicate Bounded()
      reads this
    {
      (forall n :: n in programs ==> n < nextId) && (forall n :: n in env ==> n < nextId)
    }

    // ObservableValue.set
    method Set(v: Id, value: V)
      requires Quiescent() && v in env
      modifies this`env, this`observers, this`dependencies, this`log, this`running, this`needsRun
      ensures Quiescent() && env == old(env)[v := value]
      ensures programs == old(programs) && autoruns == old(autoruns) && disposed == old(disposed)
    {
      hide State.Shaped, State.DeepFresh, Refreshed, Informed, Changed, Chain, HitsRun, FirstHit;
      if env[v] == value {
        assert env == env[v := value];
        return;
      }
      ghost var start := Now();
      WiredFacts(start);
      ghost var live := set o | o in programs && o !in disposed && start.DeepFresh(o);
      env := env[v := value];
      ghost var changed := Now();
      SpreadingStarts(start, changed, v, live);
      ObserverFacts(changed, v);
      NotifyObservers(observers[v], v, start.world, v, live);
      AllInformed(start, changed, Now(), v, live);
    }

    // addDependency and addObserver
    method AddDependency(o: Id, s: Id)
      requires Now().Wired() && o in programs && s in observers && s < o
      modifies this`observers, this`dependencies
      ensures Now().Wired() && o in old(dependencies) && observers.Keys == old(observers.Keys)
      ensures dependencies == old(dependencies)[o := old(dependencies)[o] + {s}]
    {
      assert o in dependencies;
      if s in dependencies[o] {
        assert dependencies[o] + {s} == dependencies[o];
        return;
      }
      ghost var before := Now();
      dependencies := dependencies[o := dependencies[o] + {s}];
      assert before.Observes(o, s) <==> before.DependsOn(o, s);
      if o !in observers[s] {
        observers := observers[s := observers[s] + [o]];
      }
      EdgeAdded(before, Now(), o, s);
    }

    // disposeDependencies, and the same loop in recompute
    method DisposeDependencies(o: Id)
      requires Now().Wired() && o in programs
      modifies this`observers, this`dependencies
      ensures Now().Wired()
      ensures o in old(dependencies) && dependencies == old(dependencies)[o := {}]
    {
      hide State.Shaped;
      ShapedFacts(Now());
      ghost var before := Now();
      var rest := dependencies[o];
      forall s | s in rest ensures s in observers {
        assert before.DependsOn(o, s) && before.Observes(o, s);
      }
      while rest != {}
        invariant o in dependencies && rest <= dependencies[o] && dependencies == old(dependencies)
        invariant observers.Keys == old(observers.Keys) && forall s :: s in rest ==> s in observers
        invariant forall s, n :: s in observers ==> (n in observers[s] <==> n in before.observers[s] && (n != o || s in rest || s !in dependencies[o]))
        decreases rest
      {
        var s :| s in rest;
        observers := observers[s := Without(observers[s], o)];
        rest := rest - {s};
      }
      dependencies := dependencies[o := {}];
      EdgesRemoved(before, Now(), o);
    }

    // compute or runner, called with a reader for o
    method RunProgram(o: Id) returns (v: V)
      requires Now().Wired() && o in programs && o in dependencies && dependencies[o] == {}
      modifies this`observers, this`dependencies, this`log
      ensures Now().Wired() && v == ResultOf(Now().world, o)
      ensures Refreshed(old(Now()), Now(), {o}) && KeptAbove(old(Now()), Now(), o) && Now().DeepFresh(o)
      decreases o, 1
    {
      hide State.Shaped, State.DeepFresh, History, Sources, Refreshed, KeptAbove, Same;
      ghost var start, w := Now(), World(programs, env);
      var program := programs[o];
      var h: seq<V> := [];
      StartFacts(start, o);
      while true
        invariant Now().Wired() && Refreshed(start, Now(), {o}) && KeptAbove(start, Now(), o)
        invariant Now().world == w && o in dependencies
        invariant History(w, o, h) == History(w, o, []) && dependencies[o] == Sources(w, o, h)
        invariant forall s :: s in dependencies[o] ==> s < o && (s in programs ==> Now().DeepFresh(s))
        decreases if |h| <= program.bound then program.bound - |h| else 0
      {
        match program.step(h)
        case Return(value) =>
          v := value;
          break;
        case Read(s) =>
          StepFacts(Now(), o, h);
          ghost var before := Now();
          var x := ReadFrom(o, s);
          RefreshedTransitive(start, before, Now(), {o});
          KeptAboveTransitive(start, before, Now(), o);
          forall d | d in dependencies[o] ensures d < o && (d in programs ==> Now().DeepFresh(d)) {
            if d in before.dependencies[o] && d in programs {
              DeepFreshKept(before, Now(), {o}, d);
            }
          }
          h := h + [x];
      }
      ghost var before := Now();
      log := log[o := h];
      RunDone(start, before, Now(), o, h);
    }

    // read: tracks and gets
    method ReadFrom(o: Id, s: Id) returns (v: V)
      requires Now().Wired() && o in programs && o in dependencies && s in observers && s < o
      modifies this`observers, this`dependencies, this`log
      ensures Now().Wired() && v == Val(Now().world, s)
      ensures Refreshed(old(Now()), Now(), {o}) && KeptAbove(old(Now()), Now(), o)
      ensures o in dependencies && dependencies[o] == old(dependencies)[o] + {s}
      ensures s in programs ==> Now().DeepFresh(s)
      decreases o, 0
    {
      hide State.Shaped, State.DeepFresh, Refreshed, History, KeptAbove;
      ghost var start := Now();
      AddDependency(o, s);
      ghost var added := Now();
      OnlyDependencies(start, added, o);
      if s in env {
        v := env[s];
        ValueFacts(added, s);
      } else {
        NotAValue(added, s);
        v := Recompute(s);
        RefreshedWorld(added, Now(), {});
        RefreshedMore(added, Now(), {}, {o});
        RefreshedTransitive(start, added, Now(), {o});
        KeptAboveMore(added, Now(), s, o);
        KeptAboveTransitive(start, added, Now(), o);
      }
    }

    // DerivedObservable.recompute
    method Recompute(d: Id) returns (v: V)
      requires Now().Wired() && d in programs && d !in disposed
      modifies this`observers, this`dependencies, this`log
      ensures Now().Wired() && v == ResultOf(Now().world, d)
      ensures Refreshed(old(Now()), Now(), {}) && KeptAbove(old(Now()), Now(), d) && Now().DeepFresh(d)
      decreases d, 2
    {
      hide State.Shaped, Refreshed, History, KeptAbove;
      ghost var start := Now();
      DisposeDependencies(d);
      ghost var cleared := Now();
      OnlyDependencies(start, cleared, d);
      v := RunProgram(d);
      RefreshedTransitive(start, cleared, Now(), {d});
      KeptAboveTransitive(start, cleared, Now(), d);
      NoLongerInProgress(start, Now(), d);
    }
  }

  // ---- creating and disposing

  // t is s with one more node n.
  ghost predicate Grown(s: State, t: State, n: Id) {
    && s.Wired() && t.Shaped() && n !in s.world.env && n !in s.world.programs
    && t.disposed == s.disposed && t.log == s.log && s.autoruns <= t.autoruns <= s.autoruns + {n}
    && (forall m :: m in s.world.programs || m in s.world.env ==> m < n)
    && (forall m :: m in s.world.programs ==> m in t.world.programs && t.world.programs[m] == s.world.programs[m])
    && (forall m :: m in s.world.env ==> m in t.world.env && t.world.env[m] == s.world.env[m])
    && (forall m :: m in t.world.programs && m != n ==> m in s.world.programs)
    && (forall m :: m in s.dependencies ==> m in t.dependencies && t.dependencies[m] == s.dependencies[m])
    && (forall m :: m in s.observers ==> m in t.observers && t.observers[m] == s.observers[m])
    && (forall m :: m in t.observers && m != n ==> m in s.observers)
    && (n in t.dependencies ==> t.dependencies[n] == {}) && (n in t.observers ==> t.observers[n] == [])
  }

  lemma ValueAdded(s: State, t: State, n: Id, v: V)
    requires s.Wired() && n !in s.world.env && n !in s.world.programs
    requires forall m :: m in s.world.programs || m in s.world.env ==> m < n
    requires t == s.(world := World(s.world.programs, s.world.env[n := v]), observers := s.observers[n := []])
    ensures Grown(s, t, n)
  {
    assert forall m :: t.Observable(m) <==> s.Observable(m) || m == n;
  }

  lemma ProgramAdded(s: State, t: State, n: Id, p: Program)
    requires s.Wired() && n !in s.world.env && n !in s.world.programs
    requires forall m :: m in s.world.programs || m in s.world.env ==> m < n
    requires forall h :: p.step(h).Read? ==> |h| < p.bound && s.Observable(p.step(h).source)
    requires t.world == World(s.world.programs[n := p], s.world.env) && t.dependencies == s.dependencies[n := {}]
    requires t.disposed == s.disposed && t.log == s.log
    requires if n in t.autoruns then t.autoruns == s.autoruns + {n} && t.observers == s.observers
             else t.autoruns == s.autoruns && t.observers == s.observers[n := []]
    ensures Grown(s, t, n)
  {
    assert t.Shaped() by {
      ProgramShaped(s, t, n, p);
    }
    hide State.Shaped;
    ShapedFacts(s);
    NewIsNotObservable(s, n);
  }

  lemma NewIsNotObservable(s: State, n: Id)
    requires s.Shaped() && n !in s.world.env && n !in s.world.programs
    ensures n !in s.observers
  {
  }

  lemma ProgramShaped(s: State, t: State, n: Id, p: Program)
    requires s.Shaped() && n !in s.world.env && n !in s.world.programs
    requires forall m :: m in s.world.programs || m in s.world.env ==> m < n
    requires forall h :: p.step(h).Read? ==> |h| < p.bound && s.Observable(p.step(h).source)
    requires t.world == World(s.world.programs[n := p], s.world.env) && t.dependencies == s.dependencies[n := {}]
    requires t.disposed == s.disposed
    requires if n in t.autoruns then t.autoruns == s.autoruns + {n} && t.observers == s.observers
             else t.autoruns == s.autoruns && t.observers == s.observers[n := []]
    ensures t.Shaped()
  {
    assert forall m :: t.Observable(m) <==> s.Observable(m) || (m == n && n !in t.autoruns);
    forall m, h | m in t.world.programs && t.world.programs[m].step(h).Read?
      ensures |h| < t.world.programs[m].bound && t.world.programs[m].step(h).source < m && t.Observable(t.world.programs[m].step(h).source)
    {
      if m == n {
        assert s.Observable(p.step(h).source);
      }
    }
  }

  lemma GrownSettled(s: State, t: State, n: Id)
    requires s.Settled() && Grown(s, t, n)
    ensures t.Wired()
    ensures forall a :: a in s.autoruns && a !in s.disposed ==> t.DeepFresh(a)
    ensures forall a :: a in t.disposed && a in t.dependencies ==> t.dependencies[a] == {}
    ensures t.autoruns == s.autoruns ==> t.Settled()
  {
    hide State.Shaped, State.DeepFresh;
    assert t.Wired() by {
      GrownWired(s, t, n);
    }
    WiredFacts(s);
    WiredFacts(t);
    forall a | a in s.autoruns && a !in s.disposed ensures t.DeepFresh(a) {
      AutorunsArePrograms(s, a);
      AddedKeepsFresh(s, t, n, a);
    }
    forall a | a in t.disposed && a in t.dependencies ensures t.dependencies[a] == {} {
      if a != n {
        ShapedFacts(s);
        ShapedFacts(t);
      }
    }
  }

  lemma AutorunsArePrograms(s: State, a: Id)
    requires s.Shaped() && a in s.autoruns
    ensures a in s.world.programs && a in s.dependencies
  {
  }

  lemma GrownWired(s: State, t: State, n: Id)
    requires Grown(s, t, n)
    ensures t.Wired()
  {
    ShapedFacts(s);
    ShapedFacts(t);
    forall d: Id, o: Id ensures t.Observes(o, d) <==> s.Observes(o, d) {
      assert s.Observes(o, d) ==> d in s.observers;
    }
    forall d: Id, o: Id ensures t.DependsOn(o, d) <==> s.DependsOn(o, d) {
    }
    hide State.Observes, State.DependsOn, State.Shaped;
  }

  // Bringing nodes up to date keeps the net settled.
  lemma StillSettled(s: State, t: State)
    requires s.Settled() && t.Wired() && Refreshed(s, t, {})
    ensures t.Settled()
  {
    forall a | a in t.autoruns && a !in t.disposed ensures t.DeepFresh(a) {
      DeepFreshKept(s, t, {}, a);
    }
    forall a | a in t.disposed && a in t.dependencies ensures t.dependencies[a] == {} {
      assert Same(s, t, a);
    }
  }

  lemma DisposedIsUnobserving(s: State, a: Id)
    requires s.Settled() && a in s.disposed
    ensures forall d :: d in s.observers ==> a !in s.observers[d]
  {
    assert a in s.world.programs && a in s.dependencies;
    assert s.dependencies[a] == {};
    forall d | d in s.observers ensures a !in s.observers[d] {
      assert s.Observes(a, d) <==> s.DependsOn(a, d);
    }
  }

  lemma MarkedWired(s: State, t: State, a: Id)
    requires s.Wired() && a in s.autoruns && t == s.(disposed := s.disposed + {a})
    ensures t.Wired()
  {
    assert forall m :: t.Observable(m) <==> s.Observable(m);
    WiredSame(s, t);
  }

  lemma DisposedSettled(s: State, t: State, a: Id)
    requires s.Settled() && a in s.autoruns && t.Wired()
    requires t == s.(disposed := s.disposed + {a}, dependencies := s.dependencies[a := {}], observers := t.observers)
    ensures t.Settled()
    ensures forall d :: d in t.observers ==> a !in t.observers[d]
  {
    hide State.Shaped, State.DeepFresh;
    var s' := s.(disposed := t.disposed);
    MarkedWired(s, s', a);
    WiredFacts(s');
    WiredFacts(t);
    ShapedFacts(s');
    AutorunsArePrograms(s', a);
    OnlyDependencies(s', t, a);
    forall b | b in t.autoruns && b !in t.disposed ensures t.DeepFresh(b) {
      SameFresh(s, s', b);
      AutorunIsNotObservable(s', a);
      DeepFreshKept(s', t, {a}, b);
    }
    AutorunsArePrograms(t, a);
    DisposedIsUnobserving(t, a);
  }

  lemma AutorunIsNotObservable(s: State, a: Id)
    requires s.Shaped() && a in s.autoruns
    ensures !s.Observable(a)
  {
  }

  lemma {:induction false} SameFresh(s: State, t: State, o: Id)
    requires s.world.Acyclic() && s.DeepFresh(o) && t == s.(disposed := t.disposed)
    ensures t.DeepFresh(o)
    decreases o
  {
    forall d | d in t.dependencies[o] && d < o && d in t.world.programs ensures t.DeepFresh(d) {
      SameFresh(s, t, d);
    }
  }

  lemma {:induction false} AddedKeepsFresh(s: State, t: State, n: Id, o: Id)
    requires Grown(s, t, n) && t.world.Acyclic() && s.world.Acyclic() && s.DeepFresh(o)
    ensures t.DeepFresh(o)
    decreases o
  {
    assert t.Fresh(o) by {
      AddedKeepsRun(s, t, n, o);
    }
    forall d | d in t.dependencies[o] && d < o && d in t.world.programs ensures t.DeepFresh(d) {
      assert d in s.dependencies[o];
      GrownPrograms(s, t, n, o, d);
      AddedKeepsFresh(s, t, n, d);
    }
  }

  lemma GrownPrograms(s: State, t: State, n: Id, o: Id, d: Id)
    requires Grown(s, t, n) && o in s.world.programs && o in s.dependencies && d in s.dependencies[o] && d in t.world.programs
    ensures d in s.world.programs
  {
    assert s.DependsOn(o, d) && s.Observes(o, d);
    IsObservable(s, d);
  }

  lemma AddedKeepsRun(s: State, t: State, n: Id, o: Id)
    requires Grown(s, t, n) && t.world.Acyclic() && s.world.Acyclic() && s.Fresh(o)
    ensures t.Fresh(o) && t.dependencies[o] == s.dependencies[o]
  {
    hide State.Shaped, State.Wired, History, Closed;
    SettledWorlds(s, t, n);
    HistoryExtended(s.world, t.world, o);
    var h := History(s.world, o, []);
    assert Sources(t.world, o, h) == Sources(s.world, o, h) by {
      assert forall i :: 0 <= i < |h| ==> Source(t.world, o, h, i) == Source(s.world, o, h, i);
    }
  }

  lemma SettledWorlds(s: State, t: State, n: Id)
    requires Grown(s, t, n)
    ensures Closed(s.world) && forall m :: m in s.world.programs && m !in s.world.env ==> m !in t.world.env
  {
    ShapedIsClosed(s);
  }

  lemma ShapedIsClosed(s: State)
    requires s.Shaped()
    ensures Closed(s.world)
  {
    forall m, h | m in s.world.programs && s.world.programs[m].step(h).Read?
      ensures s.world.programs[m].step(h).source in s.world.env || s.world.programs[m].step(h).source in s.world.programs
    {
      assert s.Observable(s.world.programs[m].step(h).source);
    }
  }

  lemma SettledWith(s: State, t: State, a: Id)
    requires s.Wired() && t.Wired() && Refreshed(s, t, {}) && t.DeepFresh(a) && a in s.autoruns && a !in s.disposed
    requires forall b :: b in s.autoruns && b != a && b !in s.disposed ==> s.DeepFresh(b)
    requires forall b :: b in s.disposed && b in s.dependencies ==> s.dependencies[b] == {}
    ensures t.Settled()
  {
    forall b | b in t.autoruns && b !in t.disposed ensures t.DeepFresh(b) {
      if b != a {
        DeepFreshKept(s, t, {}, b);
      }
    }
    forall b | b in t.disposed && b in t.dependencies ensures t.dependencies[b] == {} {
      assert Same(s, t, b);
    }
  }

  // ---- how a change spreads

  /** o depends on what it read before the change or on what it reads after it. */
  ghost predicate Known(s: State, w0: World, o: Id)
    requires s.world.Acyclic() && w0.Acyclic()
  {
    && o in s.world.programs && o in w0.programs && o in s.dependencies
    && (s.Fresh(o) || s.dependencies[o] == Sources(w0, o, History(w0, o, [])))
  }

  /** The situation while the change of v is being announced: w0 is the net before it, live the nodes to be kept up to date. */
  ghost predicate Spreading(s: State, w0: World, v: Id, live: set<Id>) {
    && s.Wired() && Changed(w0, s.world, v) && live !! s.disposed
    && (forall o :: o in live ==> Known(s, w0, o))
    && (forall o :: o in live && HitsRun(w0, o, History(w0, o, []), v) ==> FirstHit(w0, o, v) == v || FirstHit(w0, o, v) in live)
  }

  lemma SpreadingKept(s: State, t: State, w0: World, v: Id, live: set<Id>)
    requires Spreading(s, w0, v, live) && Refreshed(s, t, {}) && t.Wired()
    ensures Spreading(t, w0, v, live)
  {
    forall o | o in live ensures Known(t, w0, o) {
      assert Known(s, w0, o);
      assert Same(s, t, o) || t.Fresh(o);
    }
  }

  // Whatever happens meanwhile, a node observes its first hit.
  lemma FirstHitObserved(s: State, w0: World, v: Id, live: set<Id>, o: Id)
    requires Spreading(s, w0, v, live) && o in live && HitsRun(w0, o, History(w0, o, []), v)
    ensures var f := FirstHit(w0, o, v);
      f in s.observers && o in s.observers[f]
  {
    var f := FirstHit(w0, o, v);
    assert Known(s, w0, o);
    FirstHitStable(w0, s.world, o, v);
    assert s.DependsOn(o, f) && s.Observes(o, f);
  }

  lemma {:induction false} ChainIsLive(s: State, w0: World, v: Id, live: set<Id>, o: Id, n: Id)
    requires Spreading(s, w0, v, live) && o in live && Chain(w0, v, o, n)
    ensures n in live
    decreases o
  {
    if o != n {
      ChainIsLive(s, w0, v, live, FirstHit(w0, o, v), n);
    }
  }

  // All live autoruns whose chain passes through n are up to date.
  ghost predicate Informed(s: State, w0: World, v: Id, live: set<Id>, n: Id)
    requires w0.Acyclic() && s.world.Acyclic()
  {
    forall a :: a in live && a in s.autoruns && Chain(w0, v, a, n) ==> s.DeepFresh(a)
  }

  lemma InformedKept(s: State, t: State, w0: World, v: Id, live: set<Id>, n: Id)
    requires w0.Acyclic() && s.Wired() && Refreshed(s, t, {}) && Informed(s, w0, v, live, n)
    ensures Informed(t, w0, v, live, n)
  {
    forall a | a in live && a in t.autoruns && Chain(w0, v, a, n) ensures t.DeepFresh(a) {
      DeepFreshKept(s, t, {}, a);
    }
  }

  // Informing the observers of n, as they were when the round began, informs everything above n.
  lemma InformedThrough(s: State, t: State, w0: World, v: Id, live: set<Id>, n: Id)
    requires Spreading(s, w0, v, live) && Refreshed(s, t, {}) && n in s.observers && n !in s.autoruns
    requires forall o :: o in s.observers[n] ==> Informed(t, w0, v, live, o)
    ensures Informed(t, w0, v, live, n)
  {
    forall a | a in live && a in t.autoruns && Chain(w0, v, a, n) ensures t.DeepFresh(a) {
      var m := ChainLink(w0, v, a, n);
      ChainIsLive(s, w0, v, live, a, m);
      FirstHitObserved(s, w0, v, live, m);
      assert Informed(t, w0, v, live, m);
    }
  }

  // What v does not reach is up to date without being informed.
  lemma {:induction false} Untouched(s: State, t: State, w0: World, v: Id, o: Id)
    requires s.Wired() && s.world == w0 && s.DeepFresh(o) && Changed(w0, t.world, v)
    requires forall n :: Same(s, t, n) || t.Fresh(n)
    requires !HitsRun(w0, o, History(w0, o, []), v)
    ensures t.DeepFresh(o)
    decreases o
  {
    hide State.Shaped;
    UnaffectedRun(w0, t.world, v, o);
    var h := History(w0, o, []);
    assert Sources(t.world, o, h) == Sources(w0, o, h) by {
      assert forall i :: 0 <= i < |h| ==> Source(t.world, o, h, i) == Source(w0, o, h, i);
    }
    assert t.Fresh(o);
    forall d | d in t.dependencies[o] && d < o && d in t.world.programs ensures t.DeepFresh(d) {
      assert d in s.dependencies[o];
      var i :| 0 <= i < |h| && d == Source(w0, o, h, i);
      assert !Hits(w0, d, v);
      NotAlsoValue(s, d);
      Untouched(s, t, w0, v, d);
    }
  }

  lemma AutorunsExist(s: State)
    requires s.Shaped()
    ensures forall a :: a in s.autoruns ==> a in s.world.programs
  {
  }

  lemma SettledIsWired(s: State)
    requires s.Settled()
    ensures s.Wired() && s.Shaped()
  {
  }

  lemma WiredFacts(s: State)
    requires s.Wired()
    ensures s.world.Acyclic() && s.Shaped()
  {
  }

  lemma ObserverFacts(s: State, d: Id)
    requires s.Wired() && s.Observable(d)
    ensures d in s.observers && forall o :: o in s.observers[d] ==> o in s.world.programs && d < o
  {
    forall o | o in s.observers[d] ensures o in s.world.programs && d < o {
      assert s.Observes(o, d) && s.DependsOn(o, d);
    }
  }

  lemma SpreadingFacts(s: State, w0: World, v: Id, live: set<Id>)
    requires Spreading(s, w0, v, live)
    ensures s.Wired() && s.world.Acyclic() && w0.Acyclic() && Refreshed(s, s, {})
  {
  }

  lemma RefreshedWorld(s: State, t: State, x: set<Id>)
    requires Refreshed(s, t, x)
    ensures t.world == s.world && t.autoruns == s.autoruns && t.disposed == s.disposed
  {
  }

  lemma AutorunInformed(s: State, t: State, w0: World, v: Id, live: set<Id>, n: Id)
    requires Spreading(s, w0, v, live) && Refreshed(s, t, {}) && n in s.autoruns && (n !in s.disposed ==> t.DeepFresh(n))
    ensures Informed(t, w0, v, live, n)
  {
    forall a | a in live && a in t.autoruns && Chain(w0, v, a, n) ensures t.DeepFresh(a) {
      ChainIsLive(s, w0, v, live, a, n);
      if a != n {
        var m := ChainLink(w0, v, a, n);
        ChainIsLive(s, w0, v, live, a, m);
        FirstHitObserved(s, w0, v, live, m);
        assert false;
      }
    }
  }

  lemma SpreadingStarts(s: State, t: State, v: Id, live: set<Id>)
    requires s.Settled() && v in s.world.env && t == s.(world := t.world)
    requires v in t.world.env && t.world == World(s.world.programs, s.world.env[v := t.world.env[v]])
    requires live == set o | o in s.world.programs && o !in s.disposed && s.DeepFresh(o)
    ensures Spreading(t, s.world, v, live)
  {
    assert forall x :: t.Observable(x) <==> s.Observable(x);
    WiredSame(s, t);
    forall o | o in live && HitsRun(s.world, o, History(s.world, o, []), v)
      ensures FirstHit(s.world, o, v) == v || FirstHit(s.world, o, v) in live
    {
      var f := FirstHit(s.world, o, v);
      assert s.DependsOn(o, f) && s.Observes(o, f);
      IsObservable(s, f);
    }
  }

  // After the round every live autorun is up to date, informed or not in need of it.
  lemma AllInformed(s: State, changed: State, t: State, v: Id, live: set<Id>)
    requires s.Settled() && v in s.world.env && changed == s.(world := changed.world)
    requires Spreading(changed, s.world, v, live) && Spreading(t, s.world, v, live) && Refreshed(changed, t, {})
    requires live == set o | o in s.world.programs && o !in s.disposed && s.DeepFresh(o)
    requires v in changed.observers && forall o :: o in changed.observers[v] ==> Informed(t, s.world, v, live, o)
    ensures t.Settled()
  {
    hide State.Shaped, Chain, FirstHit;
    AutorunsExist(s);
    forall a | a in t.autoruns && a !in t.disposed ensures t.DeepFresh(a) {
      assert a in live;
      if HitsRun(s.world, a, History(s.world, a, []), v) {
        var m := ChainBottom(s.world, v, a);
        ChainIsLive(changed, s.world, v, live, a, m);
        FirstHitObserved(changed, s.world, v, live, m);
        assert Informed(t, s.world, v, live, m);
      } else {
        forall n ensures Same(s, t, n) || t.Fresh(n) {
          assert Same(changed, t, n) || t.Fresh(n);
        }
        Untouched(s, t, s.world, v, a);
      }
    }
  }

  lemma NotAlsoValue(s: State, d: Id)
    requires s.Shaped() && d in s.world.programs
    ensures d !in s.world.env
  {
  }

  lemma ShapedKept(s: State, t: State)
    requires s.Shaped() && t.world == s.world && t.autoruns == s.autoruns && t.disposed == s.disposed
    requires t.observers.Keys == s.observers.Keys && t.dependencies.Keys == s.dependencies.Keys
    ensures t.Shaped()
  {
    assert forall x :: x in t.observers <==> x in s.observers;
    assert forall x :: t.Observable(x) <==> s.Observable(x);
  }

  lemma EdgeAdded(s: State, t: State, o: Id, d: Id)
    requires s.Wired() && o in s.world.programs && o in s.dependencies && d in s.observers && d < o && d !in s.dependencies[o]
    requires t == s.(dependencies := s.dependencies[o := s.dependencies[o] + {d}], observers := s.observers[d := s.observers[d] + [o]])
    ensures t.Wired()
  {
    hide State.Shaped;
    ShapedFacts(s);
    assert t.observers.Keys == s.observers.Keys && t.dependencies.Keys == s.dependencies.Keys;
    ShapedKept(s, t);
    forall e: Id, n: Id ensures t.Observes(n, e) <==> s.Observes(n, e) || (n == o && e == d) {
    }
    forall e: Id, n: Id ensures t.DependsOn(n, e) <==> s.DependsOn(n, e) || (n == o && e == d) {
    }
    hide State.Observes, State.DependsOn;
  }

  lemma WiredSame(s: State, t: State)
    requires s.Wired() && t.Shaped() && t.observers == s.observers && t.dependencies == s.dependencies
    ensures t.Wired()
  {
    hide State.Shaped;
    forall e: Id, n: Id ensures t.Observes(n, e) <==> s.Observes(n, e) {
    }
    forall e: Id, n: Id ensures t.DependsOn(n, e) <==> s.DependsOn(n, e) {
    }
    hide State.Observes, State.DependsOn;
  }

  lemma ShapedFacts(s: State)
    requires s.Shaped()
    ensures s.dependencies.Keys == s.world.programs.Keys
  {
  }

  lemma EdgesRemoved(s: State, t: State, o: Id)
    requires s.Wired() && o in s.world.programs && o in s.dependencies && t.observers.Keys == s.observers.Keys
    requires t == s.(dependencies := s.dependencies[o := {}], observers := t.observers)
    requires forall d, n :: d in t.observers ==>
      (n in t.observers[d] <==> n in s.observers[d] && (n != o || d !in s.dependencies[o]))
    ensures t.Wired()
  {
    hide State.Shaped;
    ShapedFacts(s);
    assert t.dependencies.Keys == s.dependencies.Keys;
    ShapedKept(s, t);
    forall d: Id, n: Id ensures t.Observes(n, d) <==> s.Observes(n, d) && (n != o || !s.DependsOn(o, d)) {
    }
    forall d: Id, n: Id ensures t.DependsOn(n, d) <==> s.DependsOn(n, d) && n != o {
    }
    hide State.Observes, State.DependsOn;
  }
}
