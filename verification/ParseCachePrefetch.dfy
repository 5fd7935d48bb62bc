/**
 Prefetching reaches everything: when the goroutines are done, every file the requested
 ones import, directly or not, has been opened and parsed.
 */
module ParseCachePrefetch {
  import opened Wrappers
  import opened ImportGraph
  import opened ImportMachine
  import opened ParseCache
  import opened ParseCacheInvariant
  import opened ParseCacheSafety
  import opened ParseCacheTheorems

  /** A goroutine still has to prefetch d. */
  predicate Awaits(g: Goroutine, d: string) {
    d in g.pending || (g.phase.Closing? && d in g.phase.deps)
  }

  /** d has an entry, or some goroutine will still prefetch it. */
  ghost predicate Queued(sys: System, d: string) {
    d in sys.entries || exists i :: 0 <= i < |sys.goroutines| && Awaits(sys.goroutines[i], d)
  }

  /** The requested files are queued, and so are the imports of every finished file. */
  ghost predicate Covered(src: Source, roots: seq<string>, sys: System) {
    && (forall f <- roots :: Queued(sys, f))
    && (forall f, d :: f in sys.entries && sys.entries[f].done && d in DepsOf(Load(src, f)) ==> Queued(sys, d))
  }

  lemma {:induction false} StartCovered(src: Source, s: State, roots: seq<string>)
    ensures Covered(src, roots, Start(s, roots))
  {
    forall f <- roots
      ensures Queued(Start(s, roots), f)
    {
      assert Awaits(Start(s, roots).goroutines[0], f);
    }
  }

  /** What one goroutine awaits it still awaits after its step, or there is an entry for it. */
  lemma {:induction false} SelfAwaits(src: Source, sys: System, g: Goroutine, d: string)
    requires Awaits(g, d)
    ensures var e := Work(src, sys, g); d in e.entries || Awaits(e.self, d)
  {
    hide Admit;
    if g.phase.Idle? {
      assert g.pending == [g.pending[0]] + g.pending[1..];
    } else if g.phase.Admitting? {
      AdmitKeepsPending(Effect(sys.entries, sys.held, sys.inline, sys.admitted, g, []), g, g.phase.file,
                        At(sys.entries, g.phase.file).content);
    }
  }

  lemma {:induction false} AdmitKeepsPending(same: Effect, g: Goroutine, f: string, content: Option<Content>)
    ensures Admit(same, g, f, content).self.pending == g.pending
  {
  }

  lemma {:induction false} EntriesStay(src: Source, sys: System, g: Goroutine)
    ensures sys.entries.Keys <= Work(src, sys, g).entries.Keys
  {
  }

  lemma {:induction false} QueuedStays(src: Source, sys: System, i: nat, d: string)
    requires i < |sys.goroutines| && Queued(sys, d)
    ensures Queued(WorkerStep(src, sys, i), d)
  {
    hide Work, Awaits;
    var g := sys.goroutines[i];
    var e := Work(src, sys, g);
    var next := WorkerStep(src, sys, i);
    EntriesStay(src, sys, g);
    if d !in next.entries {
      var k :| 0 <= k < |sys.goroutines| && Awaits(sys.goroutines[k], d);
      if k == i {
        SelfAwaits(src, sys, g, d);
        assert next.goroutines[i] == e.self;
      } else {
        assert next.goroutines[k] == sys.goroutines[k];
      }
    }
  }

  /** A file that becomes finished leaves its imports pending. */
  lemma {:induction false} ClosingLeaves(
    src: Source, env: Env, cap: nat, files: set<string>, start: Config, sys: System, i: nat, f: string, d: string)
    requires Inv(src, env, cap, files, start, sys) && i < |sys.goroutines|
    requires f in WorkerStep(src, sys, i).entries && WorkerStep(src, sys, i).entries[f].done
    requires f !in sys.entries || !sys.entries[f].done
    requires d in DepsOf(Load(src, f))
    ensures Queued(WorkerStep(src, sys, i), d)
  {
    hide Owned, SemaphoreRight, FilesRight, ConsumerRight, DepsOf, Load;
    var g := sys.goroutines[i];
    assert PhaseRight(src, sys.entries, g.phase);
    assert g.phase.Closing? && g.phase.file == f && g.phase.deps == DepsOf(Load(src, f)) by {
      OnlyClosing(src, sys, g, f);
    }
    var next := WorkerStep(src, sys, i);
    assert next.goroutines[i].pending == g.phase.deps + g.pending;
    assert Awaits(next.goroutines[i], d);
  }

  /** Only closing an entry makes it finished. */
  lemma {:induction false} OnlyClosing(src: Source, sys: System, g: Goroutine, f: string)
    requires f in Work(src, sys, g).entries && Work(src, sys, g).entries[f].done
    requires f !in sys.entries || !sys.entries[f].done
    ensures g.phase.Closing? && g.phase.file == f
  {
  }

  lemma {:induction false} StepCovered(
    src: Source, env: Env, cap: nat, files: set<string>, start: Config, roots: seq<string>, sys: System, choice: Choice)
    requires Inv(src, env, cap, files, start, sys) && Enabled(sys, cap, choice) && Covered(src, roots, sys)
    ensures Covered(src, roots, Step(src, env, cap, sys, choice))
  {
    hide Inv, Queued, DepsOf, Load, WorkerStep, CanWork, Advance, Deliver, Answer;
    var next := Step(src, env, cap, sys, choice);
    if choice.Consumer? {
      SameQueue(sys, next);
    } else {
      var i := choice.index;
      InRange(sys, cap, i);
      forall f <- roots
        ensures Queued(next, f)
      {
        QueuedStays(src, sys, i, f);
      }
      forall f, d | f in next.entries && next.entries[f].done && d in DepsOf(Load(src, f))
        ensures Queued(next, d)
      {
        if f in sys.entries && sys.entries[f].done {
          QueuedStays(src, sys, i, d);
        } else {
          ClosingLeaves(src, env, cap, files, start, sys, i, f, d);
        }
      }
    }
  }

  lemma {:induction false} SameQueue(sys: System, next: System)
    requires next.entries == sys.entries && next.goroutines == sys.goroutines
    ensures forall d :: Queued(next, d) <==> Queued(sys, d)
  {
    hide Awaits;
  }

  lemma {:induction false} ScheduleCovered(
    src: Source, env: Env, cap: nat, files: set<string>, start: Config, roots: seq<string>, sys: System,
    choices: seq<Choice>)
    requires Inv(src, env, cap, files, start, sys) && EnvMatches(src, env) && Covered(src, roots, sys)
    requires Schedule(src, env, cap, sys, choices)
    ensures Covered(src, roots, After(src, env, cap, sys, choices))
    decreases |choices|
  {
    hide Inv, Enabled, Step, Covered, EnvMatches;
    if choices != [] {
      StepCovered(src, env, cap, files, start, roots, sys, choices[0]);
      StepKeeps(src, env, cap, files, start, sys, choices[0]);
      ScheduleCovered(src, env, cap, files, start, roots, Step(src, env, cap, sys, choices[0]), choices[1..]);
    }
  }

  // ---------------------------------------------------------------------------

  ghost predicate AllFinished(sys: System) {
    forall g <- sys.goroutines :: g.Finished()
  }

  /** With every goroutine done, what is queued has a finished entry with the right result. */
  lemma {:induction false} QueuedIsDone(
    src: Source, env: Env, cap: nat, files: set<string>, start: Config, sys: System, d: string)
    requires Inv(src, env, cap, files, start, sys) && AllFinished(sys) && Queued(sys, d)
    ensures d in sys.entries && sys.entries[d].done && ParsedRight(src, sys.entries[d], d)
  {
    hide SemaphoreRight, FilesRight, ConsumerRight, ParsedRight, PhaseRight, AllFinished;
    AllIdle(sys, d);
    assert !Live(sys.entries, d);
  }

  lemma {:induction false} AllIdle(sys: System, d: string)
    requires AllFinished(sys)
    ensures forall i :: 0 <= i < |sys.goroutines| ==> !Awaits(sys.goroutines[i], d)
    ensures !HasOwner(sys.goroutines, d)
  {
    forall i | 0 <= i < |sys.goroutines|
      ensures sys.goroutines[i].phase.Idle? && sys.goroutines[i].pending == []
    {
      assert sys.goroutines[i] in sys.goroutines;
    }
  }

  lemma {:induction false} PathDone(
    src: Source, env: Env, cap: nat, files: set<string>, start: Config, roots: seq<string>, sys: System, p: seq<string>)
    requires Inv(src, env, cap, files, start, sys) && EnvMatches(src, env) && AllFinished(sys)
    requires Covered(src, roots, sys) && p != [] && p[0] in roots
    requires forall i :: 0 <= i < |p| - 1 ==> Imports(env, p[i], p[i + 1])
    ensures
      var d := p[|p| - 1];
      d in sys.entries && sys.entries[d].done && ParsedRight(src, sys.entries[d], d)
    decreases |p|
  {
    hide Inv, ParsedRight, AllFinished, Queued;
    var last := |p| - 1;
    if last == 0 {
      QueuedIsDone(src, env, cap, files, start, sys, p[0]);
    } else {
      PathDone(src, env, cap, files, start, roots, sys, p[..last]);
      assert Imports(env, p[last - 1], p[last]);
      assert env.load(p[last - 1]) == Load(src, p[last - 1]);
      QueuedIsDone(src, env, cap, files, start, sys, p[last]);
    }
  }

  /** When no goroutine can step, all have finished. */
  lemma {:induction false} StuckIsFinished(
    src: Source, env: Env, cap: nat, files: set<string>, start: Config, sys: System)
    requires Inv(src, env, cap, files, start, sys) && cap > 0 && forall i: nat :: !CanWork(sys, cap, i)
    ensures AllFinished(sys)
  {
    hide Owned, ContentsRight, FilesRight, ConsumerRight, SemaphoreRight, CanWork;
    forall i | 0 <= i < |sys.goroutines|
      ensures sys.goroutines[i].Finished()
    {
      if !sys.goroutines[i].Finished() {
        var k := OwnerProgress(sys, cap, i);
        assert false;
      }
    }
  }

  /** When the goroutines can do no more, every file reachable from the requested ones has been prefetched. */
  lemma {:induction false} EverythingPrefetched(
    src: Source, env: Env, cap: nat, files: set<string>, s: State, roots: seq<string>, choices: seq<Choice>,
    p: seq<string>)
    requires Setting(src, env, cap, files, roots) && Schedule(src, env, cap, Start(s, roots), choices)
    requires forall i: nat :: !CanWork(After(src, env, cap, Start(s, roots), choices), cap, i)
    requires p != [] && p[0] in roots && forall i :: 0 <= i < |p| - 1 ==> Imports(env, p[i], p[i + 1])
    ensures
      var entries, d := After(src, env, cap, Start(s, roots), choices).entries, p[|p| - 1];
      d in entries && entries[d].done && ParsedRight(src, entries[d], d)
  {
    hide After, Schedule, Closed, Covered, EnvMatches, Imports, ParsedRight, CanWork;
    var start := Config(s, [], roots, NextRoot);
    StartInv(src, env, cap, files, s, roots);
    StartCovered(src, s, roots);
    ScheduleKeeps(src, env, cap, files, start, Start(s, roots), choices);
    ScheduleCovered(src, env, cap, files, start, roots, Start(s, roots), choices);
    StuckIsFinished(src, env, cap, files, start, After(src, env, cap, Start(s, roots), choices));
    PathDone(src, env, cap, files, start, roots, After(src, env, cap, Start(s, roots), choices), p);
  }
}
