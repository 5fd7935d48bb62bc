/** Import errors are never spurious: each reported cycle is one, and a good graph gives none. */
module ImportCompleteness {
  import opened ImportGraph
  import opened ImportTheorems

  /** p followed by a file its last element imports. */
  lemma {:induction false} PathExtend(env: Env, base: set<string>, p: seq<string>, f: string)
    requires p != [] ==> ImportPath(env, base, p) && p[|p| - 1] !in base && Imports(env, p[|p| - 1], f)
    ensures ImportPath(env, base, p + [f])
  {
    var q := p + [f];
    forall i | 0 <= i < |q| - 1
      ensures q[i] !in base && Imports(env, q[i], q[i + 1])
    {
      if i < |p| - 1 {
        assert p[i] !in base && Imports(env, p[i], p[i + 1]);
      }
    }
  }

  lemma {:induction false} PathSuffix(env: Env, base: set<string>, p: seq<string>, k: nat)
    requires ImportPath(env, base, p) && k < |p|
    ensures ImportPath(env, base, p[k..])
  {
    var q := p[k..];
    forall i | 0 <= i < |q| - 1
      ensures q[i] !in base && Imports(env, q[i], q[i + 1])
    {
      assert p[k + i] !in base && Imports(env, p[k + i], p[k + i + 1]);
    }
  }

  // ---------------------------------------------------------------------------
  // Reported cycles.

  /** A chain of files each importing the next, back to where it started. */
  ghost predicate RealCycle(env: Env, base: set<string>, chain: seq<string>) {
    ImportPath(env, base, chain) && |chain| > 1 && chain[0] == chain[|chain| - 1]
  }

  lemma {:induction false} ChainIsSuffix(stack: seq<string>, f: string)
    requires f in stack
    ensures exists k :: 0 <= k < |stack| && stack[k] == f && CycleChain(stack, f) == (stack + [f])[k..]
    decreases |stack|
  {
    if stack[0] == f {
      assert (stack + [f])[0..] == stack + [f];
    } else {
      ChainIsSuffix(stack[1..], f);
      var k :| 0 <= k < |stack[1..]| && stack[1..][k] == f
               && CycleChain(stack[1..], f) == (stack[1..] + [f])[k..];
      assert (stack + [f])[k + 1..] == (stack[1..] + [f])[k..];
      assert stack[k + 1] == f;
    }
  }

  lemma {:induction false} ChainIsCycle(env: Env, base: set<string>, stack: seq<string>, f: string)
    requires f in stack && ImportPath(env, base, stack + [f])
    ensures RealCycle(env, base, CycleChain(stack, f))
  {
    ChainIsSuffix(stack, f);
    var k :| 0 <= k < |stack| && stack[k] == f && CycleChain(stack, f) == (stack + [f])[k..];
    PathSuffix(env, base, stack + [f], k);
  }

  ghost predicate CyclesReal(env: Env, base: set<string>, errors: seq<ImportError>) {
    forall e <- errors :: e.Cycle? ==> RealCycle(env, base, e.chain)
  }

  /** The stack above the visited file leads to it, through files parsed from source. */
  ghost predicate LeadsTo(env: Env, base: set<string>, s: State, stack: seq<string>, f: string) {
    ImportPath(env, base, stack + [f]) && base <= s.parsed.Keys
  }

  lemma {:induction false} VisitCyclesReal(
    env: Env, base: set<string>, s: State, f: string, stack: seq<string>, files: set<string>)
    requires f in files && Closed(env, files)
    requires LeadsTo(env, base, s, stack, f) && CyclesReal(env, base, s.errors)
    ensures CyclesReal(env, base, Visit(env, s, f, stack, files).state.errors)
    decreases |files - s.parsed.Keys|, 0, 0
  {
    hide RealCycle, ImportPath, Finish;
    if f in stack {
      ChainIsCycle(env, base, stack, f);
    } else if f !in s.parsed {
      if env.load(f).Parsed? {
        var fd := env.load(f).fd;
        var entered := s.(parsed := s.parsed[f := fd]);
        FewerLeft(files, s.parsed.Keys, entered.parsed.Keys);
        forall d <- fd.AllDependencies()
          ensures d in files
        {
          assert Imports(env, f, d);
        }
        DepsLeadTo(env, base, entered, stack, f, fd.AllDependencies());
        VisitAllCyclesReal(env, base, entered, fd.AllDependencies(), stack + [f], files);
        var deps := VisitAll(env, entered, fd.AllDependencies(), stack + [f], files);
        FinishCyclesReal(env, base, f, fd, deps.state, deps.failed);
      }
    }
  }

  lemma {:induction false} DepsLeadTo(
    env: Env, base: set<string>, s: State, stack: seq<string>, f: string, deps: seq<string>)
    requires LeadsTo(env, base, s, stack, f) && f !in base
    requires forall d <- deps :: Imports(env, f, d)
    ensures forall d <- deps :: LeadsTo(env, base, s, stack + [f], d)
  {
    forall d <- deps
      ensures LeadsTo(env, base, s, stack + [f], d)
    {
      PathExtend(env, base, stack + [f], d);
    }
  }

  lemma {:induction false} FinishCyclesReal(
    env: Env, base: set<string>, f: string, fd: FileDesc, s: State, failed: set<string>)
    requires CyclesReal(env, base, s.errors)
    ensures CyclesReal(env, base, Finish(env, f, fd, s, failed).state.errors)
  {
    hide RealCycle;
    NoCycleAmong(f, fd.AllDependencies(), failed);
  }

  lemma {:induction false} NoCycleAmong(f: string, deps: seq<string>, failed: set<string>)
    ensures forall e <- BadImports(f, deps, failed) :: !e.Cycle?
  {
    if deps != [] {
      NoCycleAmong(f, deps[1..], failed);
    }
  }

  lemma {:induction false} VisitAllCyclesReal(
    env: Env, base: set<string>, s: State, deps: seq<string>, stack: seq<string>, files: set<string>)
    requires (forall d <- deps :: d in files) && Closed(env, files)
    requires (forall d <- deps :: LeadsTo(env, base, s, stack, d)) && CyclesReal(env, base, s.errors)
    ensures CyclesReal(env, base, VisitAll(env, s, deps, stack, files).state.errors)
    decreases |files - s.parsed.Keys|, 1, |deps|
  {
    hide Visit, CyclesReal, ImportPath;
    if deps != [] {
      var first := Visit(env, s, deps[0], stack, files).state;
      FewerLeft(files, s.parsed.Keys, first.parsed.Keys);
      assert LeadsTo(env, base, s, stack, deps[0]);
      VisitCyclesReal(env, base, s, deps[0], stack, files);
      forall d <- deps[1..]
        ensures LeadsTo(env, base, first, stack, d)
      {
        assert d in deps && LeadsTo(env, base, s, stack, d);
      }
      VisitAllCyclesReal(env, base, first, deps[1..], stack, files);
    }
  }

  /** Every chain reported as a cycle is a cycle of imports. */
  lemma {:induction false} ReportedCyclesReal(
    env: Env, base: set<string>, s: State, roots: seq<string>, files: set<string>)
    requires (forall f <- roots :: f in files) && Closed(env, files)
    requires base <= s.parsed.Keys && CyclesReal(env, base, s.errors)
    ensures CyclesReal(env, base, Run(env, s, roots, files).errors)
    decreases |roots|
  {
    hide Visit, CyclesReal;
    if roots != [] {
      assert [] + [roots[0]] == [roots[0]];
      VisitCyclesReal(env, base, s, roots[0], [], files);
      ReportedCyclesReal(env, base, Visit(env, s, roots[0], [], files).state, roots[1..], files);
    }
  }

  // ---------------------------------------------------------------------------
  // A good graph.

  /** Every reachable source file loads, and none is on a cycle. */
  ghost predicate Good(env: Env, base: set<string>, roots: seq<string>) {
    forall f :: Reachable(env, base, roots, f) ==>
      (f in base || env.load(f).Parsed?) && !OnCycle(env, base, f)
  }

  ghost predicate RootedAt(roots: seq<string>, stack: seq<string>, f: string) {
    (stack + [f])[0] in roots
  }

  lemma {:induction false} StackFileOnCycle(
    env: Env, base: set<string>, roots: seq<string>, stack: seq<string>, f: string)
    requires f in stack && ImportPath(env, base, stack + [f])
    ensures OnCycle(env, base, f)
  {
    ChainIsCycle(env, base, stack, f);
    ChainIsSuffix(stack, f);
    assert CycleChain(stack, f)[0] == f;
  }

  lemma {:induction false} GoodVisit(
    env: Env, base: set<string>, roots: seq<string>, s: State, f: string, stack: seq<string>, files: set<string>)
    requires f in files && Closed(env, files) && Good(env, base, roots)
    requires LeadsTo(env, base, s, stack, f) && RootedAt(roots, stack, f)
    ensures var r := Visit(env, s, f, stack, files); r.ok && r.state.errors == s.errors
    decreases |files - s.parsed.Keys|, 0, 0
  {
    hide ImportPath, OnCycle, VisitAll;
    assert Reachable(env, base, roots, f) by {
      assert (stack + [f])[|stack + [f]| - 1] == f;
    }
    if f in stack {
      StackFileOnCycle(env, base, roots, stack, f);
    } else if f !in s.parsed {
      var fd := env.load(f).fd;
      var entered := s.(parsed := s.parsed[f := fd]);
      FewerLeft(files, s.parsed.Keys, entered.parsed.Keys);
      forall d <- fd.AllDependencies()
        ensures d in files && RootedAt(roots, stack + [f], d)
      {
        assert Imports(env, f, d);
        assert (stack + [f] + [d])[0] == (stack + [f])[0];
      }
      DepsLeadTo(env, base, entered, stack, f, fd.AllDependencies());
      GoodVisitAll(env, base, roots, entered, fd.AllDependencies(), stack + [f], files);
    }
  }

  lemma {:induction false} GoodVisitAll(
    env: Env, base: set<string>, roots: seq<string>, s: State, deps: seq<string>, stack: seq<string>, files: set<string>)
    requires (forall d <- deps :: d in files) && Closed(env, files) && Good(env, base, roots)
    requires forall d <- deps :: LeadsTo(env, base, s, stack, d) && RootedAt(roots, stack, d)
    ensures var r := VisitAll(env, s, deps, stack, files); r.failed == {} && r.state.errors == s.errors
    decreases |files - s.parsed.Keys|, 1, |deps|
  {
    hide Visit, Good, ImportPath, RootedAt;
    if deps != [] {
      var first := Visit(env, s, deps[0], stack, files).state;
      FewerLeft(files, s.parsed.Keys, first.parsed.Keys);
      assert LeadsTo(env, base, s, stack, deps[0]);
      GoodVisit(env, base, roots, s, deps[0], stack, files);
      forall d <- deps[1..]
        ensures LeadsTo(env, base, first, stack, d) && RootedAt(roots, stack, d)
      {
        assert d in deps && LeadsTo(env, base, s, stack, d);
      }
      GoodVisitAll(env, base, roots, first, deps[1..], stack, files);
    }
  }

  lemma {:induction false} GoodRun(
    env: Env, base: set<string>, all: seq<string>, s: State, roots: seq<string>, files: set<string>)
    requires (forall f <- roots :: f in files && f in all) && Closed(env, files) && Good(env, base, all)
    requires base <= s.parsed.Keys
    ensures Run(env, s, roots, files).errors == s.errors
    decreases |roots|
  {
    hide Visit, Good;
    if roots != [] {
      assert [] + [roots[0]] == [roots[0]];
      assert ImportPath(env, base, [roots[0]]);
      GoodVisit(env, base, all, s, roots[0], [], files);
      GoodRun(env, base, all, Visit(env, s, roots[0], [], files).state, roots[1..], files);
    }
  }

  /** Import processing ends without an error exactly when every reachable file loads and none is on a cycle. */
  lemma {:induction false} ErrorFreeExactlyWhenGood(env: Env, s: State, roots: seq<string>, files: set<string>)
    requires (forall f <- roots :: f in files) && Closed(env, files) && Initial(s)
    ensures Run(env, s, roots, files).errors == [] <==> Good(env, s.parsed.Keys, roots)
  {
    hide Run;
    if Good(env, s.parsed.Keys, roots) {
      GoodRun(env, s.parsed.Keys, roots, s, roots, files);
    }
    if Run(env, s, roots, files).errors == [] {
      NoErrorMeansOrdered(env, s, roots, files);
    }
  }
}
