/**
 Importing files: the depth-first walk that loads each file, visits its imports
 and lists it after them. Errors are collected, never thrown.

 load is what opening and parsing a file gives; typeErrors is the check for names
 left undefined when some of a file's imports failed, given the imports that are
 available and the files finished so far.
 */
module ImportGraph {

  datatype FileDesc = FileDesc(dependency: seq<string>, optionDependency: seq<string>, body: int) {
    /** Every file an import statement names, plain or option. */
    function AllDependencies(): seq<string> {
      dependency + optionDependency
    }
  }

  datatype Loaded = OpenFailed | ParseFailed(first: string, more: seq<string>) | Parsed(fd: FileDesc)

  datatype ImportError =
    | Cycle(chain: seq<string>)
    | NotFound(file: string)
    | ParseError(file: string, message: string)
    | BadImport(file: string, dep: string)
    | TypeError(file: string, message: string)

  /** parsed and orderedFiles of the compilation, and the errors so far. */
  datatype State = State(parsed: map<string, FileDesc>, ordered: seq<string>, errors: seq<ImportError>)

  datatype Env = Env(
    load: string -> Loaded,
    typeErrors: (string, FileDesc, seq<string>, seq<string>) -> seq<string>)

  /** The files load leads to: every import of a file in files is in files. */
  ghost predicate Closed(env: Env, files: set<string>) {
    forall f, d :: f in files && Imports(env, f, d) ==> d in files
  }

  /** Source file f imports d, by a plain import or an option import. */
  predicate Imports(env: Env, f: string, d: string) {
    && env.load(f).Parsed?
    && (d in env.load(f).fd.dependency || d in env.load(f).fd.optionDependency)
  }

  /** The files visited are those imported, the plain imports first and both in the order written. */
  lemma {:induction false} AllDependenciesExactly(fd: FileDesc)
    ensures forall d :: d in fd.AllDependencies() <==> d in fd.dependency || d in fd.optionDependency
    ensures fd.dependency <= fd.AllDependencies()
    ensures fd.AllDependencies()[|fd.dependency|..] == fd.optionDependency
  {
  }

  lemma {:induction false} FewerLeft(files: set<string>, a: set<string>, b: set<string>)
    requires a <= b
    ensures |files - b| <= |files - a|
    ensures forall f :: f in files && f !in a && f in b ==> |files - b| < |files - a|
  {
    assert files - a == (files - b) + (files * (b - a));
    assert |files - a| == |files - b| + |files * (b - a)|;
    forall f | f in files && f !in a && f in b
      ensures |files - b| < |files - a|
    {
      assert f in files * (b - a);
    }
  }

  datatype Outcome = Outcome(state: State, ok: bool)

  datatype DepsOutcome = DepsOutcome(state: State, failed: set<string>)

  /** parseRecursive: visit one file, below the files of stack. */
  function Visit(env: Env, s: State, f: string, stack: seq<string>, ghost files: set<string>): (r: Outcome)
    requires f in files && Closed(env, files)
    ensures s.parsed.Keys <= r.state.parsed.Keys
    decreases |files - s.parsed.Keys|, 0, 0
  {
    if f in stack then Outcome(s.(errors := s.errors + [Cycle(CycleChain(stack, f))]), false)
    else if f in s.parsed then Outcome(s, true)
    else
      match env.load(f)
      case OpenFailed => Outcome(s.(errors := s.errors + [NotFound(f)]), false)
      case ParseFailed(first, more) => Outcome(s.(errors := s.errors + ParseErrors(f, [first] + more)), false)
      case Parsed(fd) =>
        var entered := s.(parsed := s.parsed[f := fd]);
        FewerLeft(files, s.parsed.Keys, entered.parsed.Keys);
        assert forall d <- fd.AllDependencies() :: Imports(env, f, d);
        var deps := VisitAll(env, entered, fd.AllDependencies(), stack + [f], files);
        Finish(env, f, fd, deps.state, deps.failed)
  }

  /** The imports in order, each visited whatever became of the others. */
  function VisitAll(
    env: Env, s: State, deps: seq<string>, stack: seq<string>, ghost files: set<string>): (r: DepsOutcome)
    requires (forall d <- deps :: d in files) && Closed(env, files)
    ensures s.parsed.Keys <= r.state.parsed.Keys
    decreases |files - s.parsed.Keys|, 1, |deps|
  {
    if deps == [] then DepsOutcome(s, {})
    else
      var first := Visit(env, s, deps[0], stack, files);
      FewerLeft(files, s.parsed.Keys, first.state.parsed.Keys);
      var rest := VisitAll(env, first.state, deps[1..], stack, files);
      DepsOutcome(rest.state, (if first.ok then {} else {deps[0]}) + rest.failed)
  }

  /** What is left to do for a file when its imports are visited. */
  function Finish(env: Env, f: string, fd: FileDesc, s: State, failed: set<string>): (r: Outcome)
    ensures r.state.parsed == s.parsed
  {
    if failed == {} then Outcome(s.(ordered := s.ordered + [f]), true)
    else if failed == {f} then Outcome(s, false)
    else
      var deps := fd.AllDependencies();
      var errors := BadImports(f, deps, failed)
                  + TypeErrors(f, env.typeErrors(
                                 f, fd, Available(deps, failed, s.parsed.Keys), Available(s.ordered, {}, s.parsed.Keys)));
      Outcome(s.(errors := s.errors + errors), false)
  }

  function ParseErrors(f: string, messages: seq<string>): seq<ImportError> {
    seq(|messages|, i requires 0 <= i < |messages| => ParseError(f, messages[i]))
  }

  function TypeErrors(f: string, messages: seq<string>): seq<ImportError> {
    seq(|messages|, i requires 0 <= i < |messages| => TypeError(f, messages[i]))
  }

  function BadImports(f: string, deps: seq<string>, failed: set<string>): seq<ImportError> {
    if deps == [] then []
    else (if deps[0] in failed && deps[0] != f then [BadImport(f, deps[0])] else []) + BadImports(f, deps[1..], failed)
  }

  /** The files that did not fail and have a descriptor. */
  function Available(deps: seq<string>, failed: set<string>, parsed: set<string>): seq<string> {
    if deps == [] then []
    else (if deps[0] !in failed && deps[0] in parsed then [deps[0]] else []) + Available(deps[1..], failed, parsed)
  }

  /** The stack from the first occurrence of f on, and f again. */
  function CycleChain(stack: seq<string>, f: string): seq<string> {
    if stack == [] then [f]
    else if stack[0] == f then stack + [f]
    else CycleChain(stack[1..], f)
  }

  /** The requested files in order, each with an empty stack. */
  function Run(env: Env, s: State, roots: seq<string>, ghost files: set<string>): State
    requires (forall f <- roots :: f in files) && Closed(env, files)
    decreases |roots|
  {
    if roots == [] then s else Run(env, Visit(env, s, roots[0], [], files).state, roots[1..], files)
  }
}
