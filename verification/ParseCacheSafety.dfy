/** Every step keeps the invariant, so under every schedule the consumer sees what the sequential compiler sees. */
module ParseCacheSafety {
  import opened Wrappers
  import opened ImportGraph
  import opened ImportMachine
  import opened ParseCache
  import opened ParseCacheInvariant

  lemma {:induction false} WorkOwned(src: Source, sys: System, cap: nat, i: nat)
    requires CanWork(sys, cap, i)
    requires Owned(sys.entries, sys.goroutines) && ContentsRight(src, sys.entries, sys.goroutines)
    ensures var next := WorkerStep(src, sys, i); Owned(next.entries, next.goroutines)
  {
    hide Owned, ContentsRight;
    var gs := sys.goroutines;
    var g := gs[i];
    var e := Work(src, sys, g);
    LiveOwner(sys.entries, gs, i);
    match g.phase {
      case Idle =>
        if g.pending != [] && g.pending[0] !in sys.entries {
          OwnedEnter(sys.entries, e.entries, gs, i, e.self, g.pending[0]);
        } else {
          OwnedSame(sys.entries, e.entries, gs, i, e.self);
        }
      case Admitting(f) =>
        if e.spawned == [] {
          OwnedSame(sys.entries, e.entries, gs, i, e.self);
        } else {
          OwnedHand(sys.entries, gs, i, e.self, e.spawned[0]);
        }
      case Closing(f, _) =>
        OwnedClose(sys.entries, e.entries, gs, i, e.self, f);
      case _ =>
        OwnedSame(sys.entries, e.entries, gs, i, e.self);
    }
    assert e.spawned == [] ==> gs[i := e.self] + e.spawned == gs[i := e.self];
  }

  lemma {:induction false} LiveOwner(entries: map<string, Entry>, gs: seq<Goroutine>, i: nat)
    requires Owned(entries, gs) && i < |gs|
    ensures gs[i].File().Some? ==> Live(entries, gs[i].File().value)
  {
  }

  /** Entries other than the worker's own are left as they were. */
  lemma {:induction false} WorkFrame(src: Source, sys: System, g: Goroutine, f: string)
    requires g.File() != Some(f)
    requires g.phase.Idle? && g.pending != [] && g.pending[0] == f ==> f in sys.entries
    ensures At(Work(src, sys, g).entries, f) == At(sys.entries, f)
    ensures f in Work(src, sys, g).entries <==> f in sys.entries
  {
  }

  lemma {:induction false} WorkSelf(src: Source, sys: System, g: Goroutine)
    requires PhaseRight(src, sys.entries, g.phase)
    requires g.File().Some? ==> g.File().value in sys.entries
    ensures var e := Work(src, sys, g);
            && PhaseRight(src, e.entries, e.self.phase)
            && (forall w <- e.spawned :: PhaseRight(src, e.entries, w.phase))
            && (g.phase.Closing? ==> ParsedRight(src, e.entries[g.phase.file], g.phase.file))
  {
  }

  lemma {:induction false} WorkContents(src: Source, sys: System, cap: nat, i: nat)
    requires CanWork(sys, cap, i)
    requires Owned(sys.entries, sys.goroutines) && ContentsRight(src, sys.entries, sys.goroutines)
    ensures var next := WorkerStep(src, sys, i); ContentsRight(src, next.entries, next.goroutines)
  {
    hide Work, PhaseRight, ParsedRight;
    var gs := sys.goroutines;
    var g := gs[i];
    var e := Work(src, sys, g);
    LiveOwner(sys.entries, gs, i);
    WorkSelf(src, sys, g);
    var next := gs[i := e.self] + e.spawned;
    forall k | 0 <= k < |next|
      ensures PhaseRight(src, e.entries, next[k].phase)
    {
      if k >= |gs| {
        assert next[k] == e.spawned[k - |gs|] && next[k] in e.spawned;
      } else if k != i {
        assert next[k] == gs[k];
        OtherPhase(src, sys, i, k);
      }
    }
    forall f <- e.entries | e.entries[f].done
      ensures ParsedRight(src, e.entries[f], f)
    {
      DoneEntry(src, sys, g, f);
    }
  }

  lemma {:induction false} OtherPhase(src: Source, sys: System, i: nat, k: nat)
    requires i < |sys.goroutines| && k < |sys.goroutines| && k != i
    requires Owned(sys.entries, sys.goroutines)
    requires PhaseRight(src, sys.entries, sys.goroutines[k].phase)
    ensures PhaseRight(src, Work(src, sys, sys.goroutines[i]).entries, sys.goroutines[k].phase)
  {
    hide Work;
    var gs := sys.goroutines;
    if gs[k].File().Some? {
      var f := gs[k].File().value;
      assert Live(sys.entries, f);
      assert gs[i].File() != Some(f) by {
        if i < k {
          assert gs[i].File().Some? ==> gs[i].File() != gs[k].File();
        } else {
          assert gs[k].File() != gs[i].File();
        }
      }
      WorkFrame(src, sys, gs[i], f);
    }
  }

  lemma {:induction false} DoneEntry(src: Source, sys: System, g: Goroutine, f: string)
    requires f in Work(src, sys, g).entries && Work(src, sys, g).entries[f].done
    requires g.File().Some? ==> Live(sys.entries, g.File().value)
    requires forall h <- sys.entries :: sys.entries[h].done ==> ParsedRight(src, sys.entries[h], h)
    requires g.phase.Closing? ==> ParsedRight(src, Work(src, sys, g).entries[g.phase.file], g.phase.file)
    ensures ParsedRight(src, Work(src, sys, g).entries[f], f)
  {
    hide ParsedRight;
  }

  lemma {:induction false} WorkSemaphore(src: Source, sys: System, cap: nat, i: nat)
    requires CanWork(sys, cap, i) && SemaphoreRight(sys.held, cap, sys.goroutines)
    ensures var next := WorkerStep(src, sys, i); SemaphoreRight(next.held, cap, next.goroutines)
  {
    var gs := sys.goroutines;
    var g := gs[i];
    var e := Work(src, sys, g);
    var updated := gs[i := e.self];
    HoldersUpdate(gs, i, e.self);
    assert RoleRight(i, g);
    if e.spawned == [] {
      assert updated + e.spawned == updated;
    } else {
      HoldersAppend(updated, e.spawned[0]);
      assert e.spawned == [e.spawned[0]];
    }
    RolesStay(src, sys, cap, i);
  }

  lemma {:induction false} RolesStay(src: Source, sys: System, cap: nat, i: nat)
    requires CanWork(sys, cap, i) && SemaphoreRight(sys.held, cap, sys.goroutines)
    ensures var next := WorkerStep(src, sys, i).goroutines; forall k :: 0 <= k < |next| ==> RoleRight(k, next[k])
  {
    var gs := sys.goroutines;
    assert RoleRight(i, gs[i]);
    var e := Work(src, sys, gs[i]);
    var next := gs[i := e.self] + e.spawned;
    forall k | 0 <= k < |next|
      ensures RoleRight(k, next[k])
    {
      if k < |gs| && k != i {
        assert next[k] == gs[k];
      }
    }
  }

  lemma {:induction false} WorkFiles(src: Source, env: Env, files: set<string>, sys: System, cap: nat, i: nat)
    requires CanWork(sys, cap, i) && EnvMatches(src, env)
    requires Owned(sys.entries, sys.goroutines) && ContentsRight(src, sys.entries, sys.goroutines)
    requires FilesRight(env, files, sys.entries, sys.goroutines)
    ensures var next := WorkerStep(src, sys, i); FilesRight(env, files, next.entries, next.goroutines)
  {
    hide Owned, ContentsRight, Closed;
    var gs := sys.goroutines;
    var g := gs[i];
    var e := Work(src, sys, g);
    SelfFiles(src, env, files, sys, cap, i);
    var next := gs[i := e.self] + e.spawned;
    forall k | 0 <= k < |next|
      ensures forall f <- next[k].pending :: f in files
      ensures next[k].File().Some? ==> next[k].File().value in files
    {
      if k >= |gs| {
        assert next[k] in e.spawned;
      } else if k != i {
        assert next[k] == gs[k];
      }
    }
  }

  lemma {:induction false} SelfFiles(src: Source, env: Env, files: set<string>, sys: System, cap: nat, i: nat)
    requires CanWork(sys, cap, i) && EnvMatches(src, env)
    requires ContentsRight(src, sys.entries, sys.goroutines)
    requires FilesRight(env, files, sys.entries, sys.goroutines)
    ensures var e := Work(src, sys, sys.goroutines[i]);
            && e.entries.Keys <= files
            && (forall f <- e.self.pending :: f in files)
            && (e.self.File().Some? ==> e.self.File().value in files)
            && (forall w <- e.spawned :: w.pending == [] && w.File().Some? && w.File().value in files)
  {
    var g := sys.goroutines[i];
    assert PhaseRight(src, sys.entries, g.phase);
    if g.phase.Closing? {
      DepsInside(src, env, files, g.phase.file);
    }
  }

  lemma {:induction false} DepsInside(src: Source, env: Env, files: set<string>, f: string)
    requires EnvMatches(src, env) && Closed(env, files) && f in files
    ensures forall d <- DepsOf(Load(src, f)) :: d in files
  {
    assert env.load(f) == Load(src, f);
    forall d <- DepsOf(Load(src, f))
      ensures d in files
    {
      assert Imports(env, f, d);
    }
  }

  lemma {:induction false} WorkBudget(src: Source, sys: System, i: nat)
    requires i < |sys.goroutines| && sys.admitted <= sys.inline && sys.admitted <= INLINE_BUDGET
    ensures var next := WorkerStep(src, sys, i); next.admitted <= next.inline && next.admitted <= INLINE_BUDGET
    ensures sys.entries.Keys <= WorkerStep(src, sys, i).entries.Keys
  {
  }

  lemma {:induction false} WorkKeeps(
    src: Source, env: Env, cap: nat, files: set<string>, start: Config, sys: System, i: nat)
    requires Inv(src, env, cap, files, start, sys) && EnvMatches(src, env) && CanWork(sys, cap, i)
    ensures Inv(src, env, cap, files, start, WorkerStep(src, sys, i))
  {
    hide Owned, ContentsRight, SemaphoreRight, FilesRight, CanWork, Work;
    assert i < |sys.goroutines| by {
      InRange(sys, cap, i);
    }
    WorkOwned(src, sys, cap, i);
    WorkContents(src, sys, cap, i);
    WorkSemaphore(src, sys, cap, i);
    WorkFiles(src, env, files, sys, cap, i);
    WorkBudget(src, sys, i);
  }

  lemma {:induction false} InRange(sys: System, cap: nat, i: nat)
    requires CanWork(sys, cap, i)
    ensures i < |sys.goroutines|
  {
  }

  lemma {:induction false} ConsumeKeeps(src: Source, env: Env, cap: nat, files: set<string>, start: Config, sys: System)
    requires Inv(src, env, cap, files, start, sys) && EnvMatches(src, env) && CanConsume(sys)
    ensures Inv(src, env, cap, files, start, ConsumerStep(src, env, sys))
  {
    hide Owned, SemaphoreRight, FilesRight, Advance, Deliver, Sequential;
    SequentialSnoc(env, start, sys.taken);
    if sys.consumer.control.Loading? && sys.look == Some(true) {
      DoneAnswers(src, sys.entries, sys.goroutines, sys.consumer.control.file);
    }
  }

  lemma {:induction false} StepKeeps(
    src: Source, env: Env, cap: nat, files: set<string>, start: Config, sys: System, choice: Choice)
    requires Inv(src, env, cap, files, start, sys) && EnvMatches(src, env) && Enabled(sys, cap, choice)
    ensures Inv(src, env, cap, files, start, Step(src, env, cap, sys, choice))
  {
    hide Inv, WorkerStep, ConsumerStep, CanWork, CanConsume;
    match choice {
      case Worker(i) => WorkKeeps(src, env, cap, files, start, sys, i);
      case Consumer => ConsumeKeeps(src, env, cap, files, start, sys);
    }
  }

  lemma {:induction false} StartInv(src: Source, env: Env, cap: nat, files: set<string>, s: State, roots: seq<string>)
    requires (forall f <- roots :: f in files) && Closed(env, files)
    ensures Inv(src, env, cap, files, Config(s, [], roots, NextRoot), Start(s, roots))
  {
    hide Closed;
    var gs := [Goroutine(Idle, roots, false)];
    assert gs[1..] == [];
    assert Holders(gs) == 0;
  }

  /** The invariant holds after every schedule. */
  lemma {:induction false} ScheduleKeeps(
    src: Source, env: Env, cap: nat, files: set<string>, start: Config, sys: System, choices: seq<Choice>)
    requires Inv(src, env, cap, files, start, sys) && EnvMatches(src, env)
    requires Schedule(src, env, cap, sys, choices)
    ensures Inv(src, env, cap, files, start, After(src, env, cap, sys, choices))
    decreases |choices|
  {
    hide Inv, Enabled, Step;
    if choices != [] {
      StepKeeps(src, env, cap, files, start, sys, choices[0]);
      ScheduleKeeps(src, env, cap, files, start, Step(src, env, cap, sys, choices[0]), choices[1..]);
    }
  }
}
