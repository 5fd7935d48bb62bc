/** How many bytes the parse-ahead cache parses inline, counted along a schedule. */
module ParseCacheBudget {
  import opened Wrappers
  import opened ImportGraph
  import opened ImportMachine
  import opened ParseCache
  import opened ParseCacheInvariant
  import opened ParseCacheSafety
  import opened ParseCacheTheorems

  /** The size of a file's content; a file that cannot be opened has none. */
  function SizeOf(src: Source, f: string): nat {
    match src.open(f)
    case OpenError => 0
    case Text(size, _) => size
  }

  /**
   A file that cannot be opened, or that is small while the bytes counted so far leave
   room for it, is parsed where it was opened; any other file goes to a new goroutine
   that waits for the semaphore. Small files are counted either way.
   */
  lemma {:induction false} AdmitExactly(
    src: Source, env: Env, cap: nat, files: set<string>, start: Config, sys: System, i: nat, f: string)
    requires Inv(src, env, cap, files, start, sys)
    requires i < |sys.goroutines| && sys.goroutines[i].phase == Admitting(f)
    ensures
      var next := WorkerStep(src, sys, i);
      var g := sys.goroutines[i];
      var size := SizeOf(src, f);
      if src.open(f) == OpenError || (size <= 8192 && sys.inline + size <= 16384) then
        && next.goroutines == sys.goroutines[i := g.(phase := Parsing(f))]
        && next.inline == sys.inline + size && next.admitted == sys.admitted + size
      else
        && next.goroutines == sys.goroutines[i := g.(phase := Idle)] + [Goroutine(WantSem(f), [], false)]
        && next.inline == sys.inline + (if size <= 8192 then size else 0) && next.admitted == sys.admitted
  {
    hide Owned, SemaphoreRight, FilesRight, ConsumerRight;
    var g := sys.goroutines[i];
    assert PhaseRight(src, sys.entries, g.phase);
    assert sys.goroutines[i := g.(phase := Parsing(f))] + [] == sys.goroutines[i := g.(phase := Parsing(f))];
  }

  /** A step that takes a file from being admitted to being parsed, in one goroutine. */
  predicate StartsInline(src: Source, env: Env, cap: nat, sys: System, choice: Choice)
    requires Enabled(sys, cap, choice)
  {
    && choice.Worker? && choice.index < |sys.goroutines| && sys.goroutines[choice.index].phase.Admitting?
    && var next := Step(src, env, cap, sys, choice);
       choice.index < |next.goroutines| && next.goroutines[choice.index].phase.Parsing?
  }

  /** The bytes of the files that start being parsed inline along a schedule. */
  function InlineBytes(src: Source, env: Env, cap: nat, sys: System, choices: seq<Choice>): nat
    requires Schedule(src, env, cap, sys, choices)
    decreases |choices|
  {
    if choices == [] then 0
    else
      (if StartsInline(src, env, cap, sys, choices[0]) then SizeOf(src, sys.goroutines[choices[0].index].phase.file)
       else 0)
      + InlineBytes(src, env, cap, Step(src, env, cap, sys, choices[0]), choices[1..])
  }

  lemma {:induction false} StepCounts(
    src: Source, env: Env, cap: nat, files: set<string>, start: Config, sys: System, choice: Choice)
    requires Inv(src, env, cap, files, start, sys) && Enabled(sys, cap, choice)
    ensures
      Step(src, env, cap, sys, choice).admitted == sys.admitted +
      if StartsInline(src, env, cap, sys, choice) then SizeOf(src, sys.goroutines[choice.index].phase.file) else 0
  {
    hide Inv, SizeOf, Advance, Deliver, Answer;
    if choice.Worker? {
      InRange(sys, cap, choice.index);
      var p := sys.goroutines[choice.index].phase;
      if p.Admitting? {
        AdmitExactly(src, env, cap, files, start, sys, choice.index, p.file);
        NoSize(src, p.file);
      } else {
        OnlyAdmittingCounts(src, sys, choice.index);
      }
    }
  }

  lemma {:induction false} NoSize(src: Source, f: string)
    ensures src.open(f) == OpenError ==> SizeOf(src, f) == 0
  {
  }

  lemma {:induction false} OnlyAdmittingCounts(src: Source, sys: System, i: nat)
    requires i < |sys.goroutines| && !sys.goroutines[i].phase.Admitting?
    ensures WorkerStep(src, sys, i).admitted == sys.admitted
  {
  }

  lemma {:induction false} BytesCounted(
    src: Source, env: Env, cap: nat, files: set<string>, start: Config, sys: System, choices: seq<Choice>)
    requires Inv(src, env, cap, files, start, sys) && EnvMatches(src, env) && Schedule(src, env, cap, sys, choices)
    ensures After(src, env, cap, sys, choices).admitted == sys.admitted + InlineBytes(src, env, cap, sys, choices)
    decreases |choices|
  {
    hide Inv, Enabled, Step, StartsInline, SizeOf, EnvMatches;
    if choices != [] {
      var next := Step(src, env, cap, sys, choices[0]);
      StepCounts(src, env, cap, files, start, sys, choices[0]);
      StepKeeps(src, env, cap, files, start, sys, choices[0]);
      BytesCounted(src, env, cap, files, start, next, choices[1..]);
    }
  }

  /** Under every schedule the files parsed inline are 16 KiB together at most. */
  lemma {:induction false} InlineWithinBudget(
    src: Source, env: Env, cap: nat, files: set<string>, s: State, roots: seq<string>, choices: seq<Choice>)
    requires Setting(src, env, cap, files, roots) && Schedule(src, env, cap, Start(s, roots), choices)
    ensures InlineBytes(src, env, cap, Start(s, roots), choices) <= 16384
  {
    hide After, Schedule, Closed, EnvMatches;
    var start := Config(s, [], roots, NextRoot);
    StartInv(src, env, cap, files, s, roots);
    BytesCounted(src, env, cap, files, start, Start(s, roots), choices);
    ScheduleKeeps(src, env, cap, files, start, Start(s, roots), choices);
  }
}
