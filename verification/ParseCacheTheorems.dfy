/**
 The parse-ahead cache is invisible and cannot get stuck: under every schedule the
 import walk ends, and ends where the cache-less compiler ends.
 */
module ParseCacheTheorems {
  import opened Wrappers
  import opened ImportGraph
  import opened ImportMachine
  import opened ParseCache
  import opened ParseCacheInvariant
  import opened ParseCacheSafety

  /** The setting of the theorems: the requested files' import closure, and a semaphore with a slot. */
  ghost predicate Setting(src: Source, env: Env, cap: nat, files: set<string>, roots: seq<string>) {
    && EnvMatches(src, env)
    && Closed(env, files)
    && (forall f <- roots :: f in files)
    && cap > 0
  }

  // ---------------------------------------------------------------------------
  // Safety.

  /**
   After any schedule the consumer is exactly where the sequential compiler is after
   the same number of steps, the semaphore bounds the goroutines at work, and the
   bytes parsed inline stay within the budget.
   */
  lemma {:induction false} ConsumerSeesSequential(
    src: Source, env: Env, cap: nat, files: set<string>, s: State, roots: seq<string>, choices: seq<Choice>)
    requires Setting(src, env, cap, files, roots) && Schedule(src, env, cap, Start(s, roots), choices)
    ensures var sys := After(src, env, cap, Start(s, roots), choices);
            && sys.consumer == Sequential(env, Config(s, [], roots, NextRoot), sys.taken)
            && Working(sys.goroutines) <= cap
            && sys.admitted <= INLINE_BUDGET
  {
    hide After, Schedule, Sequential, Working, Holders;
    StartInv(src, env, cap, files, s, roots);
    ScheduleKeeps(src, env, cap, files, Config(s, [], roots, NextRoot), Start(s, roots), choices);
    var sys := After(src, env, cap, Start(s, roots), choices);
    assert RoleRight(0, sys.goroutines[0]);
    SpawnedHold(sys.goroutines[1..]) by {
      forall i | 0 <= i < |sys.goroutines[1..]|
        ensures RoleRight(i + 1, sys.goroutines[1..][i])
      {
        assert RoleRight(i + 1, sys.goroutines[i + 1]);
      }
    }
    WorkingHolders(sys.goroutines);
  }

  /** The spawned goroutines that are inside parse: opening, parsing or publishing a file, or prefetching its imports. */
  function Working(gs: seq<Goroutine>): nat {
    if gs == [] then 0 else Busy(gs[1..])
  }

  function Busy(gs: seq<Goroutine>): nat {
    if gs == [] then 0
    else (if gs[0].phase.WantSem? || gs[0].Finished() then 0 else 1) + Busy(gs[1..])
  }

  lemma {:induction false} WorkingHolders(gs: seq<Goroutine>)
    requires gs != [] && Busy(gs[1..]) <= Holders(gs[1..])
    ensures Working(gs) <= Holders(gs)
  {
  }

  lemma {:induction false} SpawnedHold(gs: seq<Goroutine>)
    requires forall i :: 0 <= i < |gs| ==> RoleRight(i + 1, gs[i])
    ensures Busy(gs) <= Holders(gs)
  {
    if gs != [] {
      assert RoleRight(1, gs[0]);
      forall i | 0 <= i < |gs[1..]|
        ensures RoleRight(i + 1, gs[1..][i])
      {
        assert RoleRight(i + 2, gs[i + 1]);
      }
      SpawnedHold(gs[1..]);
    }
  }

  /** In every reachable state an unfinished entry is one goroutine's, which has not yet closed it. */
  lemma {:induction false} OneOwnerPerEntry(
    src: Source, env: Env, cap: nat, files: set<string>, s: State, roots: seq<string>, choices: seq<Choice>)
    requires Setting(src, env, cap, files, roots) && Schedule(src, env, cap, Start(s, roots), choices)
    ensures var sys := After(src, env, cap, Start(s, roots), choices);
            && (forall f <- sys.entries :: !sys.entries[f].done ==> HasOwner(sys.goroutines, f))
            && (forall i, j :: 0 <= i < j < |sys.goroutines| && sys.goroutines[i].File().Some? ==>
                  sys.goroutines[i].File() != sys.goroutines[j].File())
            && (forall i :: 0 <= i < |sys.goroutines| && sys.goroutines[i].File().Some? ==>
                  var f := sys.goroutines[i].File().value; f in sys.entries && !sys.entries[f].done)
  {
    hide After, Schedule;
    StartInv(src, env, cap, files, s, roots);
    ScheduleKeeps(src, env, cap, files, Config(s, [], roots, NextRoot), Start(s, roots), choices);
    var sys := After(src, env, cap, Start(s, roots), choices);
    forall f <- sys.entries | !sys.entries[f].done
      ensures HasOwner(sys.goroutines, f)
    {
      assert Live(sys.entries, f);
    }
  }

  /** The imports of a file are read before its entry is closed, so before any consumer has it. */
  lemma {:induction false} ReadBeforeClosed(
    src: Source, env: Env, cap: nat, files: set<string>, s: State, roots: seq<string>, choices: seq<Choice>, i: nat)
    requires Setting(src, env, cap, files, roots) && Schedule(src, env, cap, Start(s, roots), choices)
    requires i < |After(src, env, cap, Start(s, roots), choices).goroutines|
    ensures
      var sys := After(src, env, cap, Start(s, roots), choices);
      var p := sys.goroutines[i].phase;
      && (p.Reading? || p.Closing? ==>
            p.file in sys.entries && !sys.entries[p.file].done && ParsedRight(src, sys.entries[p.file], p.file))
      && (p.Closing? ==>
            p.deps == if Load(src, p.file).Parsed? then Load(src, p.file).fd.AllDependencies() else [])
  {
    hide After, Schedule;
    StartInv(src, env, cap, files, s, roots);
    ScheduleKeeps(src, env, cap, files, Config(s, [], roots, NextRoot), Start(s, roots), choices);
    var sys := After(src, env, cap, Start(s, roots), choices);
    assert PhaseRight(src, sys.entries, sys.goroutines[i].phase);
    assert sys.goroutines[i].File().Some? ==> Live(sys.entries, sys.goroutines[i].File().value);
  }

  /** A published entry is never written again: its descriptor is the consumer's from then on. */
  lemma {:induction false} DoneIsFrozen(
    src: Source, env: Env, cap: nat, files: set<string>, start: Config, sys: System, choice: Choice, f: string)
    requires Inv(src, env, cap, files, start, sys) && Enabled(sys, cap, choice)
    requires f in sys.entries && sys.entries[f].done
    ensures var next := Step(src, env, cap, sys, choice); f in next.entries && next.entries[f] == sys.entries[f]
  {
    hide ContentsRight, SemaphoreRight, FilesRight, ConsumerRight, Advance, Deliver, Work;
    if choice.Worker? {
      var g := sys.goroutines[choice.index];
      assert g.File().Some? ==> Live(sys.entries, g.File().value);
      WorkFrame(src, sys, g, f);
    }
  }

  // ---------------------------------------------------------------------------
  // Progress.

  /** Whatever a goroutine that is not waiting for the semaphore has left to do, it can do. */
  lemma {:induction false} FreeCanWork(sys: System, cap: nat, i: nat)
    requires i < |sys.goroutines| && !sys.goroutines[i].Finished() && !sys.goroutines[i].phase.WantSem?
    ensures CanWork(sys, cap, i)
  {
  }

  /** A goroutine with work left can step, or waits for the semaphore while one that holds it can step. */
  lemma {:induction false} OwnerProgress(sys: System, cap: nat, i: nat) returns (k: nat)
    requires SemaphoreRight(sys.held, cap, sys.goroutines) && cap > 0
    requires i < |sys.goroutines| && !sys.goroutines[i].Finished()
    ensures CanWork(sys, cap, k)
    ensures Helps(sys, i, k)
  {
    hide CanWork;
    if !sys.goroutines[i].phase.WantSem? {
      FreeCanWork(sys, cap, i);
      k := i;
    } else if sys.held < cap {
      WantCanWork(sys, cap, i);
      k := i;
    } else {
      k := SomeHolder(sys.goroutines);
      assert RoleRight(k, sys.goroutines[k]);
      FreeCanWork(sys, cap, k);
    }
  }

  /** Goroutine k is i, or holds the semaphore i waits for. */
  predicate Helps(sys: System, i: nat, k: nat) {
    && i < |sys.goroutines| && k < |sys.goroutines|
    && (k == i || (sys.goroutines[i].phase.WantSem? && sys.goroutines[k].holds))
  }

  /** The consumer waits for the entry of f to be closed. */
  predicate WaitsFor(sys: System, f: string) {
    && |sys.goroutines| > 0 && sys.goroutines[0].Finished()
    && sys.consumer.control.Loading? && sys.consumer.control.file == f
    && sys.look == Some(true)
    && Live(sys.entries, f)
  }

  lemma {:induction false} WantCanWork(sys: System, cap: nat, i: nat)
    requires i < |sys.goroutines| && sys.goroutines[i].phase.WantSem? && sys.held < cap
    ensures CanWork(sys, cap, i)
  {
  }

  /**
   Until the import walk is done, some step is enabled. When the consumer waits for a
   file it is a step of the file's owner, or of a holder of the semaphore the owner
   waits for.
   */
  lemma {:induction false} NoDeadlock(
    src: Source, env: Env, cap: nat, files: set<string>, start: Config, sys: System) returns (choice: Choice)
    requires Inv(src, env, cap, files, start, sys) && cap > 0 && !sys.consumer.control.Done?
    ensures Enabled(sys, cap, choice)
    ensures forall f :: WaitsFor(sys, f) ==>
              exists i :: 0 <= i < |sys.goroutines| && sys.goroutines[i].File() == Some(f)
                       && choice.Worker? && Helps(sys, i, choice.index)
  {
    hide ContentsRight, FilesRight, CanWork, Holders;
    if !sys.goroutines[0].Finished() {
      var k := OwnerProgress(sys, cap, 0);
      choice := Worker(k);
    } else if CanConsume(sys) {
      choice := Consumer;
    } else {
      var f := sys.consumer.control.file;
      assert Live(sys.entries, f);
      assert HasOwner(sys.goroutines, f);
      var i :| 0 <= i < |sys.goroutines| && sys.goroutines[i].File() == Some(f);
      var k := OwnerProgress(sys, cap, i);
      choice := Worker(k);
    }
  }

  // ---------------------------------------------------------------------------
  // Termination: a measure every step decreases.

  function PhaseCost(src: Source, p: Phase): nat {
    match p
    case Idle => 0
    case Opening(f) => 7 + |DepsOf(Load(src, f))|
    case Admitting(f) => 6 + |DepsOf(Load(src, f))|
    case WantSem(f) => 5 + |DepsOf(Load(src, f))|
    case Parsing(f) => 3 + |DepsOf(Load(src, f))|
    case Reading(f) => 2 + |DepsOf(Load(src, f))|
    case Closing(_, deps) => 1 + |deps|
  }

  function Cost(src: Source, g: Goroutine): nat {
    PhaseCost(src, g.phase) + |g.pending| + (if g.holds then 1 else 0)
  }

  function Costs(src: Source, gs: seq<Goroutine>): nat {
    if gs == [] then 0 else Cost(src, gs[0]) + Costs(src, gs[1..])
  }

  /** The work of the files not yet entered. */
  function Unentered(src: Source, universe: seq<string>, entries: map<string, Entry>): nat {
    if universe == [] then 0
    else (if universe[0] in entries then 0 else 8 + |DepsOf(Load(src, universe[0]))|)
         + Unentered(src, universe[1..], entries)
  }

  lemma {:induction false} CostsUpdate(src: Source, gs: seq<Goroutine>, i: nat, g: Goroutine)
    requires i < |gs|
    ensures Costs(src, gs[i := g]) == Costs(src, gs) - Cost(src, gs[i]) + Cost(src, g)
  {
    hide Cost;
    if i == 0 {
      assert gs[0 := g][1..] == gs[1..];
    } else {
      assert gs[i := g][1..] == gs[1..][i - 1 := g];
      CostsUpdate(src, gs[1..], i - 1, g);
    }
  }

  lemma {:induction false} CostsAppend(src: Source, gs: seq<Goroutine>, w: Goroutine)
    ensures Costs(src, gs + [w]) == Costs(src, gs) + Cost(src, w)
  {
    hide Cost;
    if gs == [] {
      assert [w][1..] == [];
    } else {
      assert (gs + [w])[1..] == gs[1..] + [w];
      CostsAppend(src, gs[1..], w);
    }
  }

  lemma {:induction false} EnterLowers(
    src: Source, universe: seq<string>, entries: map<string, Entry>, later: map<string, Entry>, f: string)
    requires f !in entries && later.Keys == entries.Keys + {f}
    ensures Unentered(src, universe, later) <= Unentered(src, universe, entries)
    ensures f in universe ==>
              Unentered(src, universe, later) + 8 + |DepsOf(Load(src, f))| <= Unentered(src, universe, entries)
  {
    if universe != [] {
      EnterLowers(src, universe[1..], entries, later, f);
    }
  }

  lemma {:induction false} SameUnentered(
    src: Source, universe: seq<string>, entries: map<string, Entry>, later: map<string, Entry>)
    requires later.Keys == entries.Keys
    ensures Unentered(src, universe, later) == Unentered(src, universe, entries)
  {
    if universe != [] {
      SameUnentered(src, universe[1..], entries, later);
    }
  }

  function Measure(src: Source, universe: seq<string>, sys: System): nat {
    Unentered(src, universe, sys.entries) + Costs(src, sys.goroutines)
  }

  /** Each goroutine step spends at least one unit of the work left. */
  lemma {:induction false} WorkDecreases(
    src: Source, env: Env, cap: nat, files: set<string>, universe: seq<string>, start: Config, sys: System, i: nat)
    requires Inv(src, env, cap, files, start, sys) && EnvMatches(src, env) && CanWork(sys, cap, i)
    requires forall f <- files :: f in universe
    ensures Measure(src, universe, WorkerStep(src, sys, i)) < Measure(src, universe, sys)
  {
    hide Inv, Work, Cost, Unentered, Costs;
    InRange(sys, cap, i);
    var gs := sys.goroutines;
    var g := gs[i];
    var e := Work(src, sys, g);
    SelfCost(src, env, cap, files, universe, start, sys, i);
    var updated := gs[i := e.self];
    CostsUpdate(src, gs, i, e.self);
    if e.spawned == [] {
      assert updated + e.spawned == updated;
    } else {
      assert e.spawned == [e.spawned[0]];
      CostsAppend(src, updated, e.spawned[0]);
    }
  }

  lemma {:induction false} SelfCost(
    src: Source, env: Env, cap: nat, files: set<string>, universe: seq<string>, start: Config, sys: System, i: nat)
    requires Inv(src, env, cap, files, start, sys) && EnvMatches(src, env) && CanWork(sys, cap, i)
    requires forall f <- files :: f in universe
    ensures i < |sys.goroutines|
    ensures var g := sys.goroutines[i];
            var e := Work(src, sys, g);
            && |e.spawned| <= 1
            && Unentered(src, universe, e.entries) + Cost(src, e.self)
               + (if e.spawned == [] then 0 else Cost(src, e.spawned[0]))
             < Unentered(src, universe, sys.entries) + Cost(src, g)
  {
    hide Owned, SemaphoreRight, ConsumerRight, Unentered, Load, Closed;
    var g := sys.goroutines[i];
    var e := Work(src, sys, g);
    assert PhaseRight(src, sys.entries, g.phase);
    OwnFile(sys, i);
    if g.phase.Idle? && g.pending != [] && g.pending[0] !in sys.entries {
      EnterLowers(src, universe, sys.entries, e.entries, g.pending[0]);
    } else {
      assert e.entries.Keys == sys.entries.Keys;
      SameUnentered(src, universe, sys.entries, e.entries);
    }
    if g.phase.Reading? {
      ReadsDeps(src, sys.entries, g.phase.file);
    }
  }

  lemma {:induction false} OwnFile(sys: System, i: nat)
    requires Owned(sys.entries, sys.goroutines) && i < |sys.goroutines|
    ensures sys.goroutines[i].File().Some? ==> sys.goroutines[i].File().value in sys.entries
  {
    assert sys.goroutines[i].File().Some? ==> Live(sys.entries, sys.goroutines[i].File().value);
  }

  /** The imports read off the published result are the file's. */
  lemma {:induction false} ReadsDeps(src: Source, entries: map<string, Entry>, f: string)
    requires ParsedRight(src, At(entries, f), f)
    ensures var e := At(entries, f);
            (if e.result.Some? then DepsOf(e.result.value) else []) == DepsOf(Load(src, f))
  {
  }

  // ---------------------------------------------------------------------------
  // Every schedule is finite and ends where the sequential compiler ends.

  /** The steps left: the goroutines' work, and a lookup and a step for each step of the walk. */
  function Left(src: Source, universe: seq<string>, total: nat, sys: System): int {
    Measure(src, universe, sys) + 2 * (total - sys.taken) - (if sys.look.Some? then 1 else 0)
  }

  /** total is the number of steps after which the sequential compiler is done. */
  ghost predicate TotalSteps(env: Env, start: Config, total: nat) {
    Sequential(env, start, total).control.Done?
  }

  lemma {:induction false} TakenBounded(env: Env, start: Config, total: nat, sys: System)
    requires TotalSteps(env, start, total) && ConsumerRight(env, start, sys)
    ensures !sys.consumer.control.Done? ==> sys.taken < total
  {
    hide Sequential;
    if sys.taken >= total {
      SequentialAdd(env, start, total, sys.taken - total);
      SequentialDone(env, Sequential(env, start, total), sys.taken - total);
    }
  }

  lemma {:induction false} StepDecreases(
    src: Source, env: Env, cap: nat, files: set<string>, universe: seq<string>, start: Config, total: nat,
    sys: System, choice: Choice)
    requires Inv(src, env, cap, files, start, sys) && EnvMatches(src, env) && Enabled(sys, cap, choice)
    requires (forall f <- files :: f in universe) && TotalSteps(env, start, total)
    ensures var next := Step(src, env, cap, sys, choice);
            Left(src, universe, total, next) < Left(src, universe, total, sys)
    ensures sys.taken <= total ==> Step(src, env, cap, sys, choice).taken <= total
  {
    hide Inv, WorkerStep, Advance, Deliver, CanWork, Load, Unentered, Costs;
    match choice {
      case Worker(i) =>
        WorkDecreases(src, env, cap, files, universe, start, sys, i);
        WorkerConsumer(src, sys, cap, i);
      case Consumer =>
        ConsumerPart(src, env, cap, files, start, sys);
        TakenBounded(env, start, total, sys);
    }
  }

  lemma {:induction false} WorkerConsumer(src: Source, sys: System, cap: nat, i: nat)
    requires CanWork(sys, cap, i)
    ensures i < |sys.goroutines|
    ensures var next := WorkerStep(src, sys, i);
            next.consumer == sys.consumer && next.look == sys.look && next.taken == sys.taken
  {
    hide Work;
  }

  lemma {:induction false} ConsumerPart(src: Source, env: Env, cap: nat, files: set<string>, start: Config, sys: System)
    requires Inv(src, env, cap, files, start, sys)
    ensures ConsumerRight(env, start, sys)
    ensures sys.look.Some? ==> sys.consumer.control.Loading?
  {
  }

  lemma {:induction false} ScheduleBounded(
    src: Source, env: Env, cap: nat, files: set<string>, universe: seq<string>, start: Config, total: nat,
    sys: System, choices: seq<Choice>)
    requires Inv(src, env, cap, files, start, sys) && EnvMatches(src, env)
    requires (forall f <- files :: f in universe) && TotalSteps(env, start, total)
    requires sys.taken <= total && Schedule(src, env, cap, sys, choices)
    ensures |choices| <= Left(src, universe, total, sys) + 1
    decreases |choices|
  {
    hide Inv, Enabled, Step, Measure, Sequential;
    if choices != [] {
      var next := Step(src, env, cap, sys, choices[0]);
      StepDecreases(src, env, cap, files, universe, start, total, sys, choices[0]);
      StepKeeps(src, env, cap, files, start, sys, choices[0]);
      ScheduleBounded(src, env, cap, files, universe, start, total, next, choices[1..]);
    }
  }

  /** A list of the members of a finite set. */
  lemma {:induction false} Enumerate(files: set<string>) returns (universe: seq<string>)
    ensures forall f <- files :: f in universe
    decreases |files|
  {
    if |files| == 0 {
      universe := [];
    } else {
      var f :| f in files;
      var rest := Enumerate(files - {f});
      universe := [f] + rest;
      forall g <- files
        ensures g in universe
      {
        assert g == f || g in files - {f};
      }
    }
  }

  /**
   There is a bound on the length of every schedule, and a schedule that cannot be
   continued ends with the import walk done and its result the sequential one: the
   same parsed files, the same order, the same errors.
   */
  lemma {:induction false} EveryScheduleEndsSequential(
    src: Source, env: Env, cap: nat, files: set<string>, s: State, roots: seq<string>) returns (bound: nat)
    requires Setting(src, env, cap, files, roots)
    ensures forall choices :: Schedule(src, env, cap, Start(s, roots), choices) ==>
              && |choices| <= bound
              && var sys := After(src, env, cap, Start(s, roots), choices);
                 (forall choice :: !Enabled(sys, cap, choice)) ==>
                   sys.consumer == Config(Run(env, s, roots, files), [], [], Done)
  {
    hide After, Schedule, Sequential, Inv, Enabled, Closed, Run;
    var start, sys0 := Config(s, [], roots, NextRoot), Start(s, roots);
    var universe := Enumerate(files);
    var total := MachineRunsWalk(env, s, roots, files);
    StartInv(src, env, cap, files, s, roots);
    var left := Left(src, universe, total, sys0);
    bound := if left >= 0 then left + 1 else 0;
    forall choices | Schedule(src, env, cap, sys0, choices)
      ensures |choices| <= bound
      ensures var sys := After(src, env, cap, sys0, choices);
              (forall choice :: !Enabled(sys, cap, choice)) ==>
                sys.consumer == Config(Run(env, s, roots, files), [], [], Done)
    {
      ScheduleBounded(src, env, cap, files, universe, start, total, sys0, choices);
      ScheduleKeeps(src, env, cap, files, start, sys0, choices);
      var sys := After(src, env, cap, sys0, choices);
      if forall choice :: !Enabled(sys, cap, choice) {
        StuckIsDone(src, env, cap, files, start, total, sys);
      }
    }
  }

  lemma {:induction false} StuckIsDone(
    src: Source, env: Env, cap: nat, files: set<string>, start: Config, total: nat, sys: System)
    requires Inv(src, env, cap, files, start, sys) && cap > 0 && TotalSteps(env, start, total)
    requires forall choice :: !Enabled(sys, cap, choice)
    ensures sys.consumer == Sequential(env, start, total)
  {
    hide Sequential, Enabled;
    if !sys.consumer.control.Done? {
      var choice := NoDeadlock(src, env, cap, files, start, sys);
      assert false;
    }
    ConsumerPart(src, env, cap, files, start, sys);
    DoneIsFinal(env, start, sys.taken, total);
  }

  /** The sequential compiler has one final state. */
  lemma {:induction false} DoneIsFinal(env: Env, c: Config, m: nat, n: nat)
    requires Sequential(env, c, m).control.Done? && Sequential(env, c, n).control.Done?
    ensures Sequential(env, c, m) == Sequential(env, c, n)
  {
    hide Sequential;
    if m <= n {
      SequentialAdd(env, c, m, n - m);
      SequentialDone(env, Sequential(env, c, m), n - m);
    } else {
      SequentialAdd(env, c, n, m - n);
      SequentialDone(env, Sequential(env, c, n), m - n);
    }
  }
}
