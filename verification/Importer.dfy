/** Import processing over the compilation's shared state, proved to be the walk of ImportGraph. */
module Importer {
  import opened ImportGraph

  /** The index of the first descriptor of that name, or the length. */
  function FirstOf(descriptorSet: seq<(string, FileDesc)>, name: string): (k: nat)
    ensures k <= |descriptorSet|
    ensures k < |descriptorSet| ==> descriptorSet[k].0 == name
    ensures forall i :: 0 <= i < k ==> descriptorSet[i].0 != name
  {
    if descriptorSet == [] || descriptorSet[0].0 == name then 0 else 1 + FirstOf(descriptorSet[1..], name)
  }

  /** known and order after the first k descriptors: each name once, in order, with its first descriptor. */
  ghost predicate TakenOver(
    descriptorSet: seq<(string, FileDesc)>, k: nat, known: map<string, FileDesc>, order: seq<string>)
    requires k <= |descriptorSet|
  {
    && (forall f :: f in known <==> f in order)
    && (forall f :: f in known <==> FirstOf(descriptorSet, f) < k)
    && (forall f <- known :: known[f] == descriptorSet[FirstOf(descriptorSet, f)].1)
    && (forall i, j :: 0 <= i < j < |order| ==> FirstOf(descriptorSet, order[i]) < FirstOf(descriptorSet, order[j]))
  }

  lemma {:induction false} NextKnown(
    descriptorSet: seq<(string, FileDesc)>, k: nat, known: map<string, FileDesc>, order: seq<string>)
    requires k < |descriptorSet| && TakenOver(descriptorSet, k, known, order) && descriptorSet[k].0 in known
    ensures TakenOver(descriptorSet, k + 1, known, order)
  {
    forall f | f !in known
      ensures FirstOf(descriptorSet, f) != k
    {
    }
  }

  lemma {:induction false} NextNew(
    descriptorSet: seq<(string, FileDesc)>, k: nat, known: map<string, FileDesc>, order: seq<string>)
    requires k < |descriptorSet| && TakenOver(descriptorSet, k, known, order) && descriptorSet[k].0 !in known
    ensures var (name, fd) := descriptorSet[k];
            TakenOver(descriptorSet, k + 1, known[name := fd], order + [name])
  {
    var (name, fd) := descriptorSet[k];
    assert FirstOf(descriptorSet, name) == k;
    forall f
      ensures f in known[name := fd] <==> FirstOf(descriptorSet, f) < k + 1
    {
      assert FirstOf(descriptorSet, f) == k ==> descriptorSet[k].0 == f;
    }
    assert forall i :: 0 <= i < |order| ==> order[i] in known;
  }

  class Import {
    const env: Env
    var parsed: map<string, FileDesc>
    var orderedFiles: seq<string>
    var collectErrors: seq<ImportError>

    function Now(): State
      reads this
    {
      State(parsed, orderedFiles, collectErrors)
    }

    /** The descriptor-set files are taken over as they come, the first of a name winning. */
    constructor (env: Env, descriptorSet: seq<(string, FileDesc)>)
      ensures this.env == env
      ensures forall f :: f in parsed <==> f in orderedFiles
      ensures forall f :: f in parsed <==> FirstOf(descriptorSet, f) < |descriptorSet|
      ensures forall f <- parsed :: parsed[f] == descriptorSet[FirstOf(descriptorSet, f)].1
      ensures forall i, j :: 0 <= i < j < |orderedFiles| ==>
                FirstOf(descriptorSet, orderedFiles[i]) < FirstOf(descriptorSet, orderedFiles[j])
      ensures collectErrors == []
    {
      this.env := env;
      var known: map<string, FileDesc> := map[];
      var order: seq<string> := [];
      for k := 0 to |descriptorSet|
        invariant TakenOver(descriptorSet, k, known, order)
      {
        hide TakenOver, FirstOf;
        var (name, fd) := descriptorSet[k];
        if name !in known {
          NextNew(descriptorSet, k, known, order);
          known := known[name := fd];
          order := order + [name];
        } else {
          NextKnown(descriptorSet, k, known, order);
        }
      }
      parsed, orderedFiles, collectErrors := known, order, [];
    }

    method ParseRecursive(filename: string, importStack: seq<string>, ghost files: set<string>) returns (ok: bool)
      requires filename in files && Closed(env, files)
      modifies this
      ensures Outcome(Now(), ok) == Visit(env, old(Now()), filename, importStack, files)
      decreases |files - parsed.Keys|, 0
    {
      var onStack := OnStack(filename, importStack);
      if onStack {
        var chain := BuildChain(filename, importStack);
        collectErrors := collectErrors + [Cycle(chain)];
        return false;
      }
      if filename in parsed {
        return true;
      }
      var loaded := env.load(filename);
      if loaded.OpenFailed? {
        collectErrors := collectErrors + [NotFound(filename)];
        return false;
      }
      if loaded.ParseFailed? {
        collectErrors := collectErrors + ParseErrors(filename, [loaded.first] + loaded.more);
        return false;
      }
      var fd := loaded.fd;
      ghost var start := Now();
      parsed := parsed[filename := fd];
      FewerLeft(files, start.parsed.Keys, parsed.Keys);
      assert forall d <- fd.AllDependencies() :: Imports(env, filename, d);
      var failed := ParseDependencies(fd.AllDependencies(), importStack + [filename], files);
      ok := FinishFile(filename, fd, failed);
    }

    method ParseDependencies(deps: seq<string>, newStack: seq<string>, ghost files: set<string>)
      returns (failed: set<string>)
      requires (forall d <- deps :: d in files) && Closed(env, files)
      modifies this
      ensures DepsOutcome(Now(), failed) == VisitAll(env, old(Now()), deps, newStack, files)
      decreases |files - parsed.Keys|, 1
    {
      hide Visit, VisitAll, WithFailed, Closed;
      failed := {};
      ghost var start := Now();
      var i := 0;
      assert deps[0..] == deps;
      AllStart(VisitAll(env, start, deps, newStack, files));
      while i < |deps|
        invariant 0 <= i <= |deps| && start.parsed.Keys <= parsed.Keys
        invariant VisitAll(env, start, deps, newStack, files)
               == WithFailed(failed, VisitAll(env, Now(), deps[i..], newStack, files))
      {
        ghost var before := Now();
        NoMoreLeft(files, start.parsed.Keys, parsed.Keys);
        var ok := ParseRecursive(deps[i], newStack, files);
        AllStep(env, before, deps[i..], newStack, files, failed);
        if !ok {
          failed := failed + {deps[i]};
        }
        assert deps[i..][1..] == deps[i + 1..];
        i := i + 1;
      }
      assert deps[i..] == [];
      AllEnd(env, Now(), newStack, files, failed);
    }

    method FinishFile(filename: string, fd: FileDesc, failed: set<string>) returns (ok: bool)
      modifies this
      ensures Outcome(Now(), ok) == Finish(env, filename, fd, old(Now()), failed)
    {
      if |failed| > 0 {
        if failed == {filename} {
          return false;
        }
        var deps := fd.AllDependencies();
        ghost var before := collectErrors;
        ReportBadImports(filename, deps, failed);
        var available := Keep(deps, failed);
        var valid := Keep(orderedFiles, {});
        var messages := env.typeErrors(filename, fd, available, valid);
        ghost var errors := BadImports(filename, deps, failed) + TypeErrors(filename, messages);
        assert before + errors == (before + BadImports(filename, deps, failed)) + TypeErrors(filename, messages);
        collectErrors := collectErrors + TypeErrors(filename, messages);
        return false;
      }
      orderedFiles := orderedFiles + [filename];
      ok := true;
    }

    method ReportBadImports(filename: string, deps: seq<string>, failed: set<string>)
      modifies this`collectErrors
      ensures collectErrors == old(collectErrors) + BadImports(filename, deps, failed)
    {
      ghost var before := collectErrors;
      var i := 0;
      while i < |deps|
        invariant 0 <= i <= |deps|
        invariant before + BadImports(filename, deps, failed)
               == collectErrors + BadImports(filename, deps[i..], failed)
      {
        assert deps[i..][0] == deps[i] && deps[i..][1..] == deps[i + 1..];
        if deps[i] in failed && deps[i] != filename {
          collectErrors := collectErrors + [BadImport(filename, deps[i])];
        }
        i := i + 1;
      }
    }

    method Keep(names: seq<string>, failed: set<string>) returns (kept: seq<string>)
      ensures kept == Available(names, failed, parsed.Keys)
    {
      hide Available;
      assert names[0..] == names;
      assert [] + Available(names, failed, parsed.Keys) == Available(names, failed, parsed.Keys);
      kept := [];
      var i := 0;
      while i < |names|
        invariant 0 <= i <= |names|
        invariant Available(names, failed, parsed.Keys) == kept + Available(names[i..], failed, parsed.Keys)
      {
        assert names[i..][0] == names[i] && names[i..][1..] == names[i + 1..];
        AvailableStep(names[i..], failed, parsed.Keys, kept);
        if names[i] !in failed && names[i] in parsed {
          kept := kept + [names[i]];
        }
        i := i + 1;
      }
      assert names[i..] == [];
      NoneAvailable(failed, parsed.Keys, kept);
    }

    /** The driver: every requested file, whatever became of the others. */
    method ParseAll(roots: seq<string>, ghost files: set<string>)
      requires (forall f <- roots :: f in files) && Closed(env, files)
      modifies this
      ensures Now() == Run(env, old(Now()), roots, files)
    {
      var i := 0;
      while i < |roots|
        invariant 0 <= i <= |roots|
        invariant Run(env, old(Now()), roots, files) == Run(env, Now(), roots[i..], files)
      {
        assert roots[i..][0] == roots[i] && roots[i..][1..] == roots[i + 1..];
        var ok := ParseRecursive(roots[i], [], files);
        i := i + 1;
      }
    }
  }

  lemma {:induction false} NoMoreLeft(files: set<string>, a: set<string>, b: set<string>)
    requires a <= b
    ensures |files - b| <= |files - a|
  {
    FewerLeft(files, a, b);
  }

  lemma {:induction false} AvailableStep(names: seq<string>, failed: set<string>, parsed: set<string>, kept: seq<string>)
    requires names != []
    ensures
      kept + Available(names, failed, parsed) ==
      (if names[0] !in failed && names[0] in parsed then kept + [names[0]] else kept)
      + Available(names[1..], failed, parsed)
  {
    var rest := Available(names[1..], failed, parsed);
    assert kept + ([names[0]] + rest) == (kept + [names[0]]) + rest;
    assert [] + rest == rest;
  }

  lemma {:induction false} NoneAvailable(failed: set<string>, parsed: set<string>, kept: seq<string>)
    ensures kept + Available([], failed, parsed) == kept
  {
  }

  function WithFailed(failed: set<string>, r: DepsOutcome): DepsOutcome {
    r.(failed := failed + r.failed)
  }

  lemma {:induction false} AllStep(
    env: Env, s: State, deps: seq<string>, stack: seq<string>, files: set<string>, failed: set<string>)
    requires deps != [] && (forall d <- deps :: d in files) && Closed(env, files)
    ensures var first := Visit(env, s, deps[0], stack, files);
            WithFailed(failed, VisitAll(env, s, deps, stack, files)) ==
            WithFailed(failed + (if first.ok then {} else {deps[0]}), VisitAll(env, first.state, deps[1..], stack, files))
  {
    hide Visit;
    var first := Visit(env, s, deps[0], stack, files);
    var rest := VisitAll(env, first.state, deps[1..], stack, files);
    var one := if first.ok then {} else {deps[0]};
    assert failed + (one + rest.failed) == (failed + one) + rest.failed;
  }

  lemma {:induction false} AllStart(r: DepsOutcome)
    ensures WithFailed({}, r) == r
  {
    assert {} + r.failed == r.failed;
  }

  lemma {:induction false} AllEnd(env: Env, s: State, stack: seq<string>, files: set<string>, failed: set<string>)
    requires Closed(env, files)
    ensures WithFailed(failed, VisitAll(env, s, [], stack, files)) == DepsOutcome(s, failed)
  {
    assert failed + {} == failed;
  }

  method OnStack(filename: string, importStack: seq<string>) returns (found: bool)
    ensures found <==> filename in importStack
  {
    for idx := 0 to |importStack|
      invariant filename !in importStack[..idx]
    {
      if importStack[idx] == filename {
        return true;
      }
    }
    found := false;
  }

  /** The chain starts where the stack first has the file. */
  method BuildChain(filename: string, importStack: seq<string>) returns (chain: seq<string>)
    ensures chain == CycleChain(importStack, filename)
  {
    chain := [];
    var started := false;
    var i := 0;
    while i < |importStack|
      invariant 0 <= i <= |importStack|
      invariant CycleChain(importStack, filename)
             == if started then chain + importStack[i..] + [filename]
                else CycleChain(importStack[i..], filename)
      invariant !started ==> chain == []
    {
      assert importStack[i..][0] == importStack[i] && importStack[i..][1..] == importStack[i + 1..];
      if importStack[i] == filename {
        started := true;
      }
      if started {
        chain := chain + [importStack[i]];
      }
      i := i + 1;
    }
    chain := chain + [filename];
  }
}
