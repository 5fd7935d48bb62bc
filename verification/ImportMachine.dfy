/**
 The import walk step by step, so that it can be interleaved with the goroutines
 that parse ahead: every step is a plain one except the one that takes a file's
 load result. Run to the end on direct loads it computes ImportGraph's walk.
 */
module ImportMachine {
  import opened ImportGraph

  /** A call of parseRecursive that is visiting its file's imports. */
  datatype Frame = Frame(file: string, fd: FileDesc, next: nat, failed: set<string>)

  datatype Control =
    | NextRoot
    | Call(file: string)
    | Loading(file: string)
    | NextDep
    | Return(ok: bool)
    | Done

  datatype Config = Config(state: State, frames: seq<Frame>, roots: seq<string>, control: Control)

  function StackOf(frames: seq<Frame>): seq<string> {
    seq(|frames|, i requires 0 <= i < |frames| => frames[i].file)
  }

  /** A step that needs no file. */
  function Advance(env: Env, c: Config): Config
    requires !c.control.Loading?
  {
    match c.control
    case NextRoot =>
      if c.roots == [] then c.(control := Done) else c.(roots := c.roots[1..], control := Call(c.roots[0]))
    case Call(f) =>
      if f in StackOf(c.frames) then
        var e := Cycle(CycleChain(StackOf(c.frames), f));
        c.(state := c.state.(errors := c.state.errors + [e]), control := Return(false))
      else if f in c.state.parsed then c.(control := Return(true))
      else c.(control := Loading(f))
    case NextDep =>
      if c.frames == [] then c.(control := Done)
      else
        var top := c.frames[|c.frames| - 1];
        var deps := top.fd.AllDependencies();
        if top.next < |deps| then c.(control := Call(deps[top.next]))
        else
          var out := Finish(env, top.file, top.fd, c.state, top.failed);
          c.(state := out.state, frames := c.frames[..|c.frames| - 1], control := Return(out.ok))
    case Return(ok) =>
      if c.frames == [] then c.(control := NextRoot)
      else
        var top := c.frames[|c.frames| - 1];
        var deps := top.fd.AllDependencies();
        var failed := if !ok && top.next < |deps| then top.failed + {deps[top.next]} else top.failed;
        var resumed := top.(next := top.next + 1, failed := failed);
        c.(frames := c.frames[..|c.frames| - 1] + [resumed], control := NextDep)
    case Done => c
  }

  /** The step that takes the result of loading a file. */
  function Deliver(c: Config, loaded: Loaded): Config
    requires c.control.Loading?
  {
    var f := c.control.file;
    match loaded
    case OpenFailed =>
      c.(state := c.state.(errors := c.state.errors + [NotFound(f)]), control := Return(false))
    case ParseFailed(first, more) =>
      c.(state := c.state.(errors := c.state.errors + ParseErrors(f, [first] + more)), control := Return(false))
    case Parsed(fd) =>
      c.(state := c.state.(parsed := c.state.parsed[f := fd]),
         frames := c.frames + [Frame(f, fd, 0, {})],
         control := NextDep)
  }

  /** The cache-less compiler: files are loaded where they are needed. */
  function SequentialStep(env: Env, c: Config): Config {
    if c.control.Loading? then Deliver(c, env.load(c.control.file)) else Advance(env, c)
  }

  function Sequential(env: Env, c: Config, n: nat): Config
    decreases n
  {
    if n == 0 then c else Sequential(env, SequentialStep(env, c), n - 1)
  }

  lemma {:induction false} SequentialAdd(env: Env, c: Config, m: nat, n: nat)
    ensures Sequential(env, c, m + n) == Sequential(env, Sequential(env, c, m), n)
    decreases m
  {
    hide SequentialStep;
    if m > 0 {
      SequentialAdd(env, SequentialStep(env, c), m - 1, n);
    }
  }

  lemma {:induction false} SequentialSnoc(env: Env, c: Config, n: nat)
    ensures Sequential(env, c, n + 1) == SequentialStep(env, Sequential(env, c, n))
  {
    SequentialAdd(env, c, n, 1);
    assert Sequential(env, Sequential(env, c, n), 1) == SequentialStep(env, Sequential(env, c, n));
  }

  lemma {:induction false} SequentialDone(env: Env, c: Config, n: nat)
    requires c.control.Done?
    ensures Sequential(env, c, n) == c
    decreases n
  {
    if n > 0 {
      SequentialDone(env, c, n - 1);
    }
  }

  lemma {:induction false} StackPush(frames: seq<Frame>, top: Frame)
    ensures StackOf(frames + [top]) == StackOf(frames) + [top.file]
  {
  }

  // ---------------------------------------------------------------------------

  lemma {:induction false} VisitRuns(
    env: Env, s: State, f: string, frames: seq<Frame>, roots: seq<string>, files: set<string>, left: nat)
    returns (n: nat)
    requires f in files && Closed(env, files) && |files - s.parsed.Keys| <= left
    ensures var r := Visit(env, s, f, StackOf(frames), files);
            Sequential(env, Config(s, frames, roots, Call(f)), n) == Config(r.state, frames, roots, Return(r.ok))
    decreases left, 0, 0
  {
    hide Finish, Sequential, VisitAll, Visit;
    var c := Config(s, frames, roots, Call(f));
    if f in StackOf(frames) || f in s.parsed || !env.load(f).Parsed? {
      n := CallEnds(env, c, files);
    } else {
      var fd := env.load(f).fd;
      var deps := fd.AllDependencies();
      var entered := s.(parsed := s.parsed[f := fd]);
      VisitSource(env, s, f, StackOf(frames), files);
      CallEnters(env, c, fd);
      assert deps[0..] == deps;
      var m := DepsRun(env, entered, frames, Frame(f, fd, 0, {}), roots, files, left - 1);
      var after := VisitAll(env, entered, deps, StackOf(frames) + [f], files);
      assert {} + after.failed == after.failed;
      var last := Config(after.state, frames + [Frame(f, fd, |deps|, after.failed)], roots, NextDep);
      EndStep(env, last);
      assert last.frames[..|last.frames| - 1] == frames;
      n := Chain(env, c, 2, m, 1);
    }
  }

  /** Two runs and a third in sequence. */
  lemma {:induction false} Chain(env: Env, c: Config, a: nat, b: nat, d: nat) returns (n: nat)
    ensures Sequential(env, c, n) == Sequential(env, Sequential(env, Sequential(env, c, a), b), d)
  {
    SequentialAdd(env, c, a, b);
    SequentialAdd(env, c, a + b, d);
    hide Sequential;
    n := a + b + d;
  }

  lemma {:induction false} VisitSource(env: Env, s: State, f: string, stack: seq<string>, files: set<string>)
    requires f in files && Closed(env, files) && f !in stack && f !in s.parsed && env.load(f).Parsed?
    ensures forall d <- env.load(f).fd.AllDependencies() :: d in files
    ensures var fd := env.load(f).fd;
            var entered := s.(parsed := s.parsed[f := fd]);
            var deps := VisitAll(env, entered, fd.AllDependencies(), stack + [f], files);
            && |files - entered.parsed.Keys| < |files - s.parsed.Keys|
            && Visit(env, s, f, stack, files) == Finish(env, f, fd, deps.state, deps.failed)
  {
    hide Finish, VisitAll;
    var fd := env.load(f).fd;
    FewerLeft(files, s.parsed.Keys, s.parsed[f := fd].Keys);
    forall d <- fd.AllDependencies()
      ensures d in files
    {
      assert Imports(env, f, d);
    }
  }

  lemma {:induction false} CallEnds(env: Env, c: Config, files: set<string>) returns (n: nat)
    requires c.control.Call? && c.control.file in files && Closed(env, files)
    requires var f := c.control.file; f in StackOf(c.frames) || f in c.state.parsed || !env.load(f).Parsed?
    ensures var r := Visit(env, c.state, c.control.file, StackOf(c.frames), files);
            Sequential(env, c, n) == c.(state := r.state, control := Return(r.ok))
  {
    hide Finish, VisitAll;
    var d := SequentialStep(env, c);
    assert Sequential(env, c, 1) == Sequential(env, d, 0) == d;
    var f := c.control.file;
    if f in StackOf(c.frames) || f in c.state.parsed {
      n := 1;
    } else {
      assert Sequential(env, d, 1) == Sequential(env, SequentialStep(env, d), 0);
      n := 2;
    }
  }

  lemma {:induction false} CallEnters(env: Env, c: Config, fd: FileDesc)
    requires c.control.Call?
    requires var f := c.control.file; f !in StackOf(c.frames) && f !in c.state.parsed && env.load(f) == Parsed(fd)
    ensures var f := c.control.file;
            Sequential(env, c, 2) ==
            Config(c.state.(parsed := c.state.parsed[f := fd]), c.frames + [Frame(f, fd, 0, {})], c.roots, NextDep)
  {
    var d := SequentialStep(env, c);
    assert Sequential(env, c, 2) == Sequential(env, d, 1) == Sequential(env, SequentialStep(env, d), 0);
  }

  /** A frame whose imports are all visited finishes its file. */
  lemma {:induction false} EndStep(env: Env, c: Config)
    requires c.control.NextDep? && c.frames != []
    requires var top := c.frames[|c.frames| - 1]; top.next == |top.fd.AllDependencies()|
    ensures var top := c.frames[|c.frames| - 1];
            var out := Finish(env, top.file, top.fd, c.state, top.failed);
            Sequential(env, c, 1) == Config(out.state, c.frames[..|c.frames| - 1], c.roots, Return(out.ok))
  {
    hide Finish;
    assert Sequential(env, SequentialStep(env, c), 0) == SequentialStep(env, c);
  }

  /** The top frame with all its imports visited. */
  ghost function DepsVisited(
    env: Env, s: State, frames: seq<Frame>, top: Frame, roots: seq<string>, files: set<string>): Config
    requires top.next <= |top.fd.AllDependencies()|
    requires (forall d <- top.fd.AllDependencies()[top.next..] :: d in files) && Closed(env, files)
  {
    var deps := top.fd.AllDependencies();
    var r := VisitAll(env, s, deps[top.next..], StackOf(frames) + [top.file], files);
    Config(r.state, frames + [Frame(top.file, top.fd, |deps|, top.failed + r.failed)], roots, NextDep)
  }

  lemma {:induction false} DepsRun(
    env: Env, s: State, frames: seq<Frame>, top: Frame, roots: seq<string>, files: set<string>, left: nat)
    returns (n: nat)
    requires |files - s.parsed.Keys| <= left
    requires top.next <= |top.fd.AllDependencies()|
    requires (forall d <- top.fd.AllDependencies()[top.next..] :: d in files) && Closed(env, files)
    ensures Sequential(env, Config(s, frames + [top], roots, NextDep), n)
         == DepsVisited(env, s, frames, top, roots, files)
    decreases left, 1, |top.fd.AllDependencies()| - top.next
  {
    hide Visit, VisitAll, Sequential, StackOf, Resume, Closed, DepsVisited;
    var deps := top.fd.AllDependencies();
    if top.next == |deps| {
      n := DepsEnd(env, s, frames, top, roots, files);
    } else {
      var d := deps[top.next];
      DepsSplit(env, s, deps, top.next, StackOf(frames) + [top.file], files);
      var first := Visit(env, s, d, StackOf(frames) + [top.file], files);
      var m := OneDep(env, s, frames, top, roots, files, left);
      var k := DepsRun(env, first.state, frames, Resume(top, first.ok, d), roots, files, left);
      DepsJoin(env, s, frames, top, roots, files, m, k);
      n := m + k;
    }
  }

  lemma {:induction false} DepsEnd(
    env: Env, s: State, frames: seq<Frame>, top: Frame, roots: seq<string>, files: set<string>)
    returns (n: nat)
    requires Closed(env, files) && top.next == |top.fd.AllDependencies()|
    ensures Sequential(env, Config(s, frames + [top], roots, NextDep), n)
         == DepsVisited(env, s, frames, top, roots, files)
  {
    hide Visit, VisitAll, Sequential, StackOf;
    assert forall d <- top.fd.AllDependencies()[top.next..] :: d in files;
    assert top.fd.AllDependencies()[top.next..] == [];
    VisitNone(env, s, StackOf(frames) + [top.file], files);
    assert top.failed + {} == top.failed;
    NoSteps(env, Config(s, frames + [top], roots, NextDep));
    n := 0;
  }

  lemma {:induction false} DepsSplit(
    env: Env, s: State, deps: seq<string>, i: nat, stack: seq<string>, files: set<string>)
    requires i < |deps| && (forall d <- deps[i..] :: d in files) && Closed(env, files)
    ensures deps[i] in files && forall d <- deps[i + 1..] :: d in files
    ensures |files - Visit(env, s, deps[i], stack, files).state.parsed.Keys| <= |files - s.parsed.Keys|
  {
    hide Visit, VisitAll;
    assert deps[i..] == [deps[i]] + deps[i + 1..];
    VisitFirst(env, s, deps[i], deps[i + 1..], stack, files);
  }

  /** The first import and the rest in sequence are all of them. */
  lemma {:induction false} DepsJoin(
    env: Env, s: State, frames: seq<Frame>, top: Frame, roots: seq<string>, files: set<string>, m: nat, k: nat)
    requires top.next < |top.fd.AllDependencies()| && Closed(env, files)
    requires forall d <- top.fd.AllDependencies()[top.next..] :: d in files
    requires top.fd.AllDependencies()[top.next] in files
    requires forall d <- top.fd.AllDependencies()[top.next + 1..] :: d in files
    requires var d := top.fd.AllDependencies()[top.next];
             var first := Visit(env, s, d, StackOf(frames) + [top.file], files);
             Sequential(env, Config(s, frames + [top], roots, NextDep), m) ==
             Config(first.state, frames + [Resume(top, first.ok, d)], roots, NextDep)
    requires var d := top.fd.AllDependencies()[top.next];
             var first := Visit(env, s, d, StackOf(frames) + [top.file], files);
             var resumed := Resume(top, first.ok, d);
             Sequential(env, Config(first.state, frames + [resumed], roots, NextDep), k) ==
             DepsVisited(env, first.state, frames, resumed, roots, files)
    ensures Sequential(env, Config(s, frames + [top], roots, NextDep), m + k)
         == DepsVisited(env, s, frames, top, roots, files)
  {
    hide Visit, VisitAll, Sequential, StackOf, Resume;
    var deps := top.fd.AllDependencies();
    var d, later, stack := deps[top.next], deps[top.next + 1..], StackOf(frames) + [top.file];
    assert deps[top.next..] == [d] + later;
    VisitFirst(env, s, d, later, stack, files);
    var first := Visit(env, s, d, stack, files);
    SequentialAdd(env, Config(s, frames + [top], roots, NextDep), m, k);
    ResumeFailed(top, first.ok, d, VisitAll(env, first.state, later, stack, files).failed);
  }

  lemma {:induction false} VisitNone(env: Env, s: State, stack: seq<string>, files: set<string>)
    requires Closed(env, files)
    ensures VisitAll(env, s, [], stack, files) == DepsOutcome(s, {})
  {
  }

  lemma {:induction false} VisitFirst(
    env: Env, s: State, d: string, later: seq<string>, stack: seq<string>, files: set<string>)
    requires (forall g <- [d] + later :: g in files) && Closed(env, files)
    ensures d in files && forall g <- later :: g in files
    ensures var first := Visit(env, s, d, stack, files);
            var rest := VisitAll(env, first.state, later, stack, files);
            && |files - first.state.parsed.Keys| <= |files - s.parsed.Keys|
            && VisitAll(env, s, [d] + later, stack, files)
            == DepsOutcome(rest.state, (if first.ok then {} else {d}) + rest.failed)
  {
    hide Visit;
    assert ([d] + later)[0] == d && ([d] + later)[1..] == later;
    FewerLeft(files, s.parsed.Keys, Visit(env, s, d, stack, files).state.parsed.Keys);
  }

  lemma {:induction false} OneDep(
    env: Env, s: State, frames: seq<Frame>, top: Frame, roots: seq<string>, files: set<string>, left: nat)
    returns (n: nat)
    requires |files - s.parsed.Keys| <= left
    requires top.next < |top.fd.AllDependencies()|
    requires top.fd.AllDependencies()[top.next] in files && Closed(env, files)
    ensures var d := top.fd.AllDependencies()[top.next];
            var first := Visit(env, s, d, StackOf(frames) + [top.file], files);
            Sequential(env, Config(s, frames + [top], roots, NextDep), n) ==
            Config(first.state, frames + [Resume(top, first.ok, d)], roots, NextDep)
    decreases left, 0, 1
  {
    hide Visit, Sequential, StackOf, Resume;
    var c := Config(s, frames + [top], roots, NextDep);
    var d := top.fd.AllDependencies()[top.next];
    StackPush(frames, top);
    var first := Visit(env, s, d, StackOf(frames) + [top.file], files);
    DepStep(env, c);
    var m := VisitRuns(env, s, d, frames + [top], roots, files, left);
    var back := Config(first.state, frames + [top], roots, Return(first.ok));
    ReturnStep(env, back, Resume(top, first.ok, d));
    assert (frames + [top])[..|frames|] == frames;
    n := Chain(env, c, 1, m, 1);
  }

  function Resume(top: Frame, ok: bool, d: string): (r: Frame)
    ensures r.file == top.file && r.fd == top.fd && r.next == top.next + 1
  {
    top.(next := top.next + 1, failed := top.failed + (if ok then {} else {d}))
  }

  lemma {:induction false} ResumeFailed(top: Frame, ok: bool, d: string, rest: set<string>)
    ensures Resume(top, ok, d).failed + rest == top.failed + ((if ok then {} else {d}) + rest)
  {
  }

  lemma {:induction false} NoSteps(env: Env, c: Config)
    ensures Sequential(env, c, 0) == c
  {
  }

  lemma {:induction false} DepStep(env: Env, c: Config)
    requires c.control.NextDep? && c.frames != []
    requires var top := c.frames[|c.frames| - 1]; top.next < |top.fd.AllDependencies()|
    ensures var top := c.frames[|c.frames| - 1];
            Sequential(env, c, 1) == c.(control := Call(top.fd.AllDependencies()[top.next]))
  {
    assert Sequential(env, SequentialStep(env, c), 0) == SequentialStep(env, c);
  }

  lemma {:induction false} ReturnStep(env: Env, c: Config, resumed: Frame)
    requires c.control.Return? && c.frames != []
    requires var top := c.frames[|c.frames| - 1];
             top.next < |top.fd.AllDependencies()|
             && resumed == Resume(top, c.control.ok, top.fd.AllDependencies()[top.next])
    ensures Sequential(env, c, 1)
         == c.(frames := c.frames[..|c.frames| - 1] + [resumed], control := NextDep)
  {
    var top := c.frames[|c.frames| - 1];
    assert top.failed + {} == top.failed;
    assert Sequential(env, SequentialStep(env, c), 0) == SequentialStep(env, c);
  }

  /** Run to the end, the machine computes the walk. */
  lemma {:induction false} MachineRunsWalk(env: Env, s: State, roots: seq<string>, files: set<string>)
    returns (n: nat)
    requires (forall f <- roots :: f in files) && Closed(env, files)
    ensures Sequential(env, Config(s, [], roots, NextRoot), n) == Config(Run(env, s, roots, files), [], [], Done)
    decreases |roots|
  {
    hide Visit, SequentialStep;
    var c := Config(s, [], roots, NextRoot);
    RootStep(env, c);
    if roots == [] {
      n := 1;
    } else {
      var first := Visit(env, s, roots[0], [], files);
      assert StackOf([]) == [];
      var m := VisitRuns(env, s, roots[0], [], roots[1..], files, |files - s.parsed.Keys|);
      var back := Config(first.state, [], roots[1..], Return(first.ok));
      RootReturn(env, back);
      var k := MachineRunsWalk(env, first.state, roots[1..], files);
      SequentialAdd(env, c, 1, m);
      SequentialAdd(env, c, 1 + m, 1);
      SequentialAdd(env, c, 1 + m + 1, k);
      n := 1 + m + 1 + k;
    }
  }

  lemma {:induction false} RootStep(env: Env, c: Config)
    requires c.control.NextRoot?
    ensures Sequential(env, c, 1)
         == if c.roots == [] then c.(control := Done) else c.(roots := c.roots[1..], control := Call(c.roots[0]))
  {
    assert Sequential(env, SequentialStep(env, c), 0) == SequentialStep(env, c);
  }

  lemma {:induction false} RootReturn(env: Env, c: Config)
    requires c.control.Return? && c.frames == []
    ensures Sequential(env, c, 1) == c.(control := NextRoot)
  {
    assert Sequential(env, SequentialStep(env, c), 0) == SequentialStep(env, c);
  }
}
