/**
 The parse-ahead cache as a state machine over its goroutines. The main goroutine
 first prefetches the requested files and then runs the import walk, taking each
 file's result from the cache; a goroutine spawned for a large file parses it while
 it holds the semaphore. Steps of different goroutines interleave freely.
 */
module ParseCache {
  import opened Wrappers
  import opened ImportGraph
  import opened ImportMachine

  const INLINE_PARSE_MAX := 8192
  const INLINE_BUDGET := 16384

  datatype Content = OpenError | Text(size: nat, text: int)

  /** The source tree and the parser: both are functions of the file alone. */
  datatype Source = Source(open: string -> Content, parse: (string, int) -> Loaded)

  /** Opening and parsing a file directly. */
  function Load(src: Source, f: string): Loaded {
    match src.open(f)
    case OpenError => OpenFailed
    case Text(_, text) => src.parse(f, text)
  }

  function DepsOf(loaded: Loaded): seq<string> {
    if loaded.Parsed? then loaded.fd.AllDependencies() else []
  }

  /** done is the entry's channel: closed when true. */
  datatype Entry = Entry(content: Option<Content>, result: Option<Loaded>, done: bool)

  /** What a consumer reads from a finished entry. */
  function Answer(e: Entry): Loaded {
    if e.content == Some(OpenError) then OpenFailed
    else if e.result.Some? then e.result.value
    else OpenFailed
  }

  /**
   The file a goroutine is working on, and how far it is with it. Closing keeps the list
   read while Reading: the source may keep the descriptor's own slice and go through it
   after closing, when nobody assigns that slice's elements any more.
   */
  datatype Phase =
    | Idle
    | Opening(file: string)
    | Admitting(file: string)
    | WantSem(file: string)
    | Parsing(file: string)
    | Reading(file: string)
    | Closing(file: string, deps: seq<string>)

  /** pending: the prefetch calls still to be made, innermost first; holds: a slot of the semaphore. */
  datatype Goroutine = Goroutine(phase: Phase, pending: seq<string>, holds: bool) {
    function File(): Option<string> {
      if phase.Idle? then None else Some(phase.file)
    }

    predicate Finished() {
      phase.Idle? && pending == [] && !holds
    }
  }

  /**
   inline: the shared byte counter; admitted: the bytes of files parsed inline.
   look: the consumer's cache lookup for the file it is loading, and whether it found
   an entry. taken: the steps the consumer has made, lookups apart.
   */
  datatype System = System(
    entries: map<string, Entry>,
    held: nat,
    inline: nat,
    admitted: nat,
    goroutines: seq<Goroutine>,
    consumer: Config,
    look: Option<bool>,
    taken: nat)

  datatype Choice = Worker(index: nat) | Consumer

  // ---------------------------------------------------------------------------
  // Steps.

  predicate CanWork(sys: System, cap: nat, i: nat) {
    && i < |sys.goroutines|
    && var g := sys.goroutines[i];
       match g.phase
       case Idle => g.pending != [] || g.holds
       case WantSem(_) => sys.held < cap
       case _ => true
  }

  /** What one step of a goroutine leaves behind; spawned has at most one element. */
  datatype Effect = Effect(
    entries: map<string, Entry>, held: nat, inline: nat, admitted: nat, self: Goroutine, spawned: seq<Goroutine>)

  function Work(src: Source, sys: System, g: Goroutine): Effect {
    var same := Effect(sys.entries, sys.held, sys.inline, sys.admitted, g, []);
    match g.phase
    case Idle =>
      if g.pending != [] then Prefetch(same, g, g.pending[0])
      else if g.holds then same.(held := if sys.held > 0 then sys.held - 1 else 0, self := g.(holds := false))
      else same
    case Opening(f) =>
      var filled := At(sys.entries, f).(content := Some(src.open(f)));
      same.(entries := sys.entries[f := filled], self := g.(phase := Admitting(f)))
    case Admitting(f) => Admit(same, g, f, At(sys.entries, f).content)
    case WantSem(f) => same.(held := sys.held + 1, self := g.(phase := Parsing(f), holds := true))
    case Parsing(f) =>
      var e := At(sys.entries, f);
      var parsed := if e.content.Some? && e.content.value.Text?
                    then e.(result := Some(src.parse(f, e.content.value.text))) else e;
      same.(entries := sys.entries[f := parsed], self := g.(phase := Reading(f)))
    case Reading(f) =>
      var e := At(sys.entries, f);
      same.(self := g.(phase := Closing(f, if e.result.Some? then DepsOf(e.result.value) else [])))
    case Closing(f, deps) =>
      same.(entries := sys.entries[f := At(sys.entries, f).(done := true)],
            self := g.(phase := Idle, pending := deps + g.pending))
  }

  function At(entries: map<string, Entry>, f: string): Entry {
    if f in entries then entries[f] else Entry(None, None, false)
  }

  /** prefetch: check and insert under the mutex. */
  function Prefetch(same: Effect, g: Goroutine, f: string): Effect
    requires g.pending != []
  {
    var rest := g.(pending := g.pending[1..]);
    if f in same.entries then same.(self := rest)
    else same.(entries := same.entries[f := Entry(None, None, false)], self := rest.(phase := Opening(f)))
  }

  /** Parse inline, counting the bytes against the budget, or hand the file to a new goroutine. */
  function Admit(same: Effect, g: Goroutine, f: string, content: Option<Content>): Effect {
    var inlined := same.(self := g.(phase := Parsing(f)));
    var handed := same.(self := g.(phase := Idle), spawned := [Goroutine(WantSem(f), [], false)]);
    if content == Some(OpenError) || content.None? then inlined
    else if content.value.size > INLINE_PARSE_MAX then handed
    else
      var total := same.inline + content.value.size;
      if total <= INLINE_BUDGET then inlined.(inline := total, admitted := same.admitted + content.value.size)
      else handed.(inline := total)
  }

  function WorkerStep(src: Source, sys: System, i: nat): System
    requires i < |sys.goroutines|
  {
    var e := Work(src, sys, sys.goroutines[i]);
    sys.(entries := e.entries, held := e.held, inline := e.inline, admitted := e.admitted,
         goroutines := sys.goroutines[i := e.self] + e.spawned)
  }

  /** The consumer starts when the main goroutine has made its prefetch calls. */
  predicate CanConsume(sys: System) {
    && |sys.goroutines| > 0 && sys.goroutines[0].Finished()
    && !sys.consumer.control.Done?
    && (sys.consumer.control.Loading? && sys.look == Some(true) ==>
          sys.consumer.control.file in sys.entries && sys.entries[sys.consumer.control.file].done)
  }

  function ConsumerStep(src: Source, env: Env, sys: System): System {
    var c := sys.consumer;
    if !c.control.Loading? then sys.(consumer := Advance(env, c), taken := sys.taken + 1)
    else
      var f := c.control.file;
      match sys.look
      case None => sys.(look := Some(f in sys.entries))
      case Some(found) =>
        var loaded := if found && f in sys.entries then Answer(sys.entries[f]) else Load(src, f);
        sys.(consumer := Deliver(c, loaded), look := None, taken := sys.taken + 1)
  }

  predicate Enabled(sys: System, cap: nat, choice: Choice) {
    match choice
    case Worker(i) => CanWork(sys, cap, i)
    case Consumer => CanConsume(sys)
  }

  function Step(src: Source, env: Env, cap: nat, sys: System, choice: Choice): System
    requires Enabled(sys, cap, choice)
  {
    match choice
    case Worker(i) => WorkerStep(src, sys, i)
    case Consumer => ConsumerStep(src, env, sys)
  }

  /** newParseCache, the prefetch of every requested file, and the walk about to begin. */
  function Start(s: State, roots: seq<string>): System {
    System(map[], 0, 0, 0, [Goroutine(Idle, roots, false)], Config(s, [], roots, NextRoot), None, 0)
  }

  /** A schedule from sys: each choice is enabled when it is made. */
  predicate Schedule(src: Source, env: Env, cap: nat, sys: System, choices: seq<Choice>)
    decreases |choices|
  {
    choices == [] ||
    (Enabled(sys, cap, choices[0]) &&
     Schedule(src, env, cap, Step(src, env, cap, sys, choices[0]), choices[1..]))
  }

  function After(src: Source, env: Env, cap: nat, sys: System, choices: seq<Choice>): System
    requires Schedule(src, env, cap, sys, choices)
    decreases |choices|
  {
    if choices == [] then sys else After(src, env, cap, Step(src, env, cap, sys, choices[0]), choices[1..])
  }
}
