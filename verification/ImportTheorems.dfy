/**
 What the import walk guarantees: without an error the files are in dependency
 order and the graph they span has no cycle; an error-free run happens exactly
 when every reachable file loads and no reachable cycle exists.
 */
module ImportTheorems {
  import opened ImportGraph

  predicate NoDup(s: seq<string>) {
    forall i, j :: 0 <= i < j < |s| ==> s[i] != s[j]
  }

  /** Every source file stands after all its imports; the files of base came from descriptor sets. */
  ghost predicate Ordered(env: Env, base: set<string>, ordered: seq<string>) {
    forall i, d :: 0 <= i < |ordered| && ordered[i] !in base && Imports(env, ordered[i], d) ==> d in ordered[..i]
  }

  /** The state between visits while no error has occurred: what is parsed is listed or being visited. */
  ghost predicate Inv(env: Env, base: State, s: State, stack: seq<string>) {
    && base.parsed.Keys <= s.parsed.Keys
    && base.ordered <= s.ordered
    && NoDup(s.ordered)
    && (forall f :: f in s.parsed <==> f in s.ordered || f in stack)
    && (forall f :: !(f in s.ordered && f in stack))
    && (forall f <- s.parsed :: f !in base.parsed ==> env.load(f) == Parsed(s.parsed[f]))
    && (forall f <- base.parsed :: s.parsed[f] == base.parsed[f])
    && Ordered(env, base.parsed.Keys, s.ordered)
  }

  // ---------------------------------------------------------------------------

  lemma {:induction false} ErrorsGrow(env: Env, s: State, f: string, stack: seq<string>, files: set<string>)
    requires f in files && Closed(env, files)
    ensures s.errors <= Visit(env, s, f, stack, files).state.errors
    ensures !Visit(env, s, f, stack, files).ok ==> Visit(env, s, f, stack, files).state.errors != s.errors
    decreases |files - s.parsed.Keys|, 0, 0
  {
    hide VisitAll, Finish;
    if f !in stack && f !in s.parsed && env.load(f).Parsed? {
      var fd := env.load(f).fd;
      var entered := s.(parsed := s.parsed[f := fd]);
      FewerLeft(files, s.parsed.Keys, entered.parsed.Keys);
      forall d <- fd.AllDependencies()
        ensures d in files
      {
        assert Imports(env, f, d);
      }
      AllErrorsGrow(env, entered, fd.AllDependencies(), stack + [f], files);
      var deps := VisitAll(env, entered, fd.AllDependencies(), stack + [f], files);
      FinishErrors(env, f, fd, deps.state, deps.failed);
    }
  }

  lemma {:induction false} NoneVisited(env: Env, s: State, stack: seq<string>, files: set<string>)
    requires Closed(env, files)
    ensures VisitAll(env, s, [], stack, files) == DepsOutcome(s, {})
  {
  }

  lemma {:induction false} VisitAllFirst(env: Env, s: State, deps: seq<string>, stack: seq<string>, files: set<string>)
    requires deps != [] && (forall d <- deps :: d in files) && Closed(env, files)
    ensures
      var first := Visit(env, s, deps[0], stack, files);
      var rest := VisitAll(env, first.state, deps[1..], stack, files);
      VisitAll(env, s, deps, stack, files)
      == DepsOutcome(rest.state, (if first.ok then {} else {deps[0]}) + rest.failed)
  {
    hide Visit;
  }

  lemma {:induction false} AllErrorsGrow(env: Env, s: State, deps: seq<string>, stack: seq<string>, files: set<string>)
    requires (forall d <- deps :: d in files) && Closed(env, files)
    ensures s.errors <= VisitAll(env, s, deps, stack, files).state.errors
    ensures VisitAll(env, s, deps, stack, files).failed != {} ==>
              VisitAll(env, s, deps, stack, files).state.errors != s.errors
    decreases |files - s.parsed.Keys|, 1, |deps|
  {
    hide Visit, VisitAll;
    if deps != [] {
      var first := Visit(env, s, deps[0], stack, files);
      FewerLeft(files, s.parsed.Keys, first.state.parsed.Keys);
      ErrorsGrow(env, s, deps[0], stack, files);
      AllErrorsGrow(env, first.state, deps[1..], stack, files);
      VisitAllFirst(env, s, deps, stack, files);
    } else {
      NoneVisited(env, s, stack, files);
    }
  }

  // ---------------------------------------------------------------------------
  // Without an error.

  lemma {:induction false} VisitKeeps(
    env: Env, base: State, s: State, f: string, stack: seq<string>, files: set<string>)
    requires f in files && Closed(env, files)
    requires Inv(env, base, s, stack)
    requires Visit(env, s, f, stack, files).state.errors == s.errors
    ensures var r := Visit(env, s, f, stack, files).state;
            Inv(env, base, r, stack) && s.ordered <= r.ordered && f in r.ordered
    decreases |files - s.parsed.Keys|, 0, 0
  {
    hide Finish, Ordered;
    if f !in stack && f !in s.parsed {
      ErrorsGrow(env, s, f, stack, files);
      var fd := env.load(f).fd;
      var entered := s.(parsed := s.parsed[f := fd]);
      FewerLeft(files, s.parsed.Keys, entered.parsed.Keys);
      forall d <- fd.AllDependencies()
        ensures d in files
      {
        assert Imports(env, f, d);
      }
      EnterKeeps(env, base, s, f, stack);
      AllErrorsGrow(env, entered, fd.AllDependencies(), stack + [f], files);
      var deps := VisitAll(env, entered, fd.AllDependencies(), stack + [f], files);
      FinishErrors(env, f, fd, deps.state, deps.failed);
      VisitAllKeeps(env, base, entered, fd.AllDependencies(), stack + [f], files);
      FinishKeeps(env, base, deps.state, f, fd, stack);
    }
  }

  lemma {:induction false} FinishErrors(env: Env, f: string, fd: FileDesc, s: State, failed: set<string>)
    ensures s.errors <= Finish(env, f, fd, s, failed).state.errors
    ensures Finish(env, f, fd, s, failed).ok ==> failed == {}
    ensures failed == {} ==> Finish(env, f, fd, s, failed) == Outcome(s.(ordered := s.ordered + [f]), true)
  {
  }

  lemma {:induction false} EnterKeeps(env: Env, base: State, s: State, f: string, stack: seq<string>)
    requires Inv(env, base, s, stack) && f !in s.parsed && env.load(f).Parsed?
    ensures Inv(env, base, s.(parsed := s.parsed[f := env.load(f).fd]), stack + [f])
  {
    hide Ordered;
  }

  lemma {:induction false} FinishKeeps(env: Env, base: State, s: State, f: string, fd: FileDesc, stack: seq<string>)
    requires Inv(env, base, s, stack + [f]) && f !in stack
    requires env.load(f) == Parsed(fd)
    requires forall d <- fd.AllDependencies() :: d in s.ordered
    ensures Inv(env, base, s.(ordered := s.ordered + [f]), stack)
  {
    var longer := s.ordered + [f];
    assert f in stack + [f];
    forall i, d | 0 <= i < |longer| && longer[i] !in base.parsed.Keys && Imports(env, longer[i], d)
      ensures d in longer[..i]
    {
      if i < |s.ordered| {
        assert longer[..i] == s.ordered[..i];
      } else {
        assert longer[..i] == s.ordered;
      }
    }
    assert Ordered(env, base.parsed.Keys, longer);
    forall g
      ensures g in longer <==> g in s.ordered || g == f
      ensures g in stack + [f] <==> g in stack || g == f
    {
    }
  }

  lemma {:induction false} VisitAllKeeps(
    env: Env, base: State, s: State, deps: seq<string>, stack: seq<string>, files: set<string>)
    requires (forall d <- deps :: d in files) && Closed(env, files)
    requires Inv(env, base, s, stack)
    requires VisitAll(env, s, deps, stack, files).state.errors == s.errors
    ensures var r := VisitAll(env, s, deps, stack, files).state;
            Inv(env, base, r, stack) && s.ordered <= r.ordered && forall d <- deps :: d in r.ordered
    decreases |files - s.parsed.Keys|, 1, |deps|
  {
    hide Visit, Inv;
    if deps != [] {
      var first := Visit(env, s, deps[0], stack, files).state;
      FewerLeft(files, s.parsed.Keys, first.parsed.Keys);
      ErrorsGrow(env, s, deps[0], stack, files);
      AllErrorsGrow(env, first, deps[1..], stack, files);
      VisitKeeps(env, base, s, deps[0], stack, files);
      VisitAllKeeps(env, base, first, deps[1..], stack, files);
      var r := VisitAll(env, s, deps, stack, files).state;
      forall d <- deps
        ensures d in r.ordered
      {
        if d != deps[0] {
          assert d in deps[1..];
        }
      }
    }
  }

  /** The state import processing starts from: descriptor-set files only, each listed once. */
  ghost predicate Initial(s: State) {
    NoDup(s.ordered) && (forall f :: f in s.parsed <==> f in s.ordered) && s.errors == []
  }

  lemma {:induction false} RunErrorsGrow(env: Env, s: State, roots: seq<string>, files: set<string>)
    requires (forall f <- roots :: f in files) && Closed(env, files)
    ensures s.errors <= Run(env, s, roots, files).errors
    decreases |roots|
  {
    hide Visit;
    if roots != [] {
      ErrorsGrow(env, s, roots[0], [], files);
      RunErrorsGrow(env, Visit(env, s, roots[0], [], files).state, roots[1..], files);
    }
  }

  lemma {:induction false} RunKeeps(env: Env, base: State, s: State, roots: seq<string>, files: set<string>)
    requires (forall f <- roots :: f in files) && Closed(env, files)
    requires Inv(env, base, s, []) && Run(env, s, roots, files).errors == s.errors
    ensures var r := Run(env, s, roots, files);
            Inv(env, base, r, []) && s.ordered <= r.ordered && forall f <- roots :: f in r.ordered
    decreases |roots|
  {
    hide Visit, Inv;
    if roots != [] {
      var first := Visit(env, s, roots[0], [], files).state;
      ErrorsGrow(env, s, roots[0], [], files);
      RunErrorsGrow(env, first, roots[1..], files);
      VisitKeeps(env, base, s, roots[0], [], files);
      RunKeeps(env, base, first, roots[1..], files);
      var r := Run(env, s, roots, files);
      forall f <- roots
        ensures f in r.ordered
      {
        if f != roots[0] {
          assert f in roots[1..];
        }
      }
    }
  }

  // ---------------------------------------------------------------------------
  // The import graph. Files of base are not followed.

  /** Consecutive elements of p are a source file and one of its imports. */
  ghost predicate ImportPath(env: Env, base: set<string>, p: seq<string>) {
    p != [] && forall i :: 0 <= i < |p| - 1 ==> p[i] !in base && Imports(env, p[i], p[i + 1])
  }

  ghost predicate Reachable(env: Env, base: set<string>, roots: seq<string>, f: string) {
    exists p :: ImportPath(env, base, p) && p[0] in roots && p[|p| - 1] == f
  }

  ghost predicate OnCycle(env: Env, base: set<string>, f: string) {
    exists p :: ImportPath(env, base, p) && |p| > 1 && p[0] == f && p[|p| - 1] == f
  }

  /** Along an import path the positions in a dependency order decrease. */
  lemma {:induction false} PathDescends(env: Env, base: set<string>, ordered: seq<string>, p: seq<string>, i: nat)
    requires Ordered(env, base, ordered) && ImportPath(env, base, p)
    requires i < |ordered| && p[0] == ordered[i]
    ensures p[|p| - 1] in ordered[..i + 1]
    ensures |p| > 1 ==> p[|p| - 1] in ordered[..i]
    decreases |p|
  {
    if |p| > 1 {
      var q := p[1..];
      assert Imports(env, p[0], p[1]);
      assert p[1] in ordered[..i];
      var j :| 0 <= j < i && ordered[..i][j] == p[1];
      forall k | 0 <= k < |q| - 1
        ensures q[k] !in base && Imports(env, q[k], q[k + 1])
      {
        assert p[k + 1] !in base && Imports(env, p[k + 1], p[k + 2]);
      }
      PathDescends(env, base, ordered, q, j);
      assert forall f :: f in ordered[..j + 1] ==> f in ordered[..i];
    }
  }

  /**
   Finishing without an error means: the list has no duplicates, starts with the
   descriptor-set files, holds every reachable file, has every source file after all
   its imports and with the descriptor it loads to, and no cycle is reachable.
   */
  lemma {:induction false} NoErrorMeansOrdered(env: Env, s: State, roots: seq<string>, files: set<string>)
    requires (forall f <- roots :: f in files) && Closed(env, files) && Initial(s)
    requires Run(env, s, roots, files).errors == []
    ensures var r := Run(env, s, roots, files);
            && NoDup(r.ordered) && s.ordered <= r.ordered
            && (forall f :: f in r.parsed <==> f in r.ordered)
            && Ordered(env, s.parsed.Keys, r.ordered)
            && (forall f <- r.ordered :: f !in s.parsed ==> env.load(f) == Parsed(r.parsed[f]))
            && (forall f :: Reachable(env, s.parsed.Keys, roots, f) ==> f in r.ordered)
            && (forall f <- r.ordered :: !OnCycle(env, s.parsed.Keys, f))
  {
    hide Run;
    var base := s.parsed.Keys;
    assert Inv(env, s, s, []) by {
      assert Ordered(env, base, s.ordered);
    }
    RunKeeps(env, s, s, roots, files);
    var r := Run(env, s, roots, files);
    forall f | Reachable(env, base, roots, f)
      ensures f in r.ordered
    {
      var p :| ImportPath(env, base, p) && p[0] in roots && p[|p| - 1] == f;
      var i :| 0 <= i < |r.ordered| && r.ordered[i] == p[0];
      PathDescends(env, base, r.ordered, p, i);
    }
    forall f <- r.ordered
      ensures !OnCycle(env, base, f)
    {
      if OnCycle(env, base, f) {
        var p :| ImportPath(env, base, p) && |p| > 1 && p[0] == f && p[|p| - 1] == f;
        var i :| 0 <= i < |r.ordered| && r.ordered[i] == f;
        PathDescends(env, base, r.ordered, p, i);
        assert false;
      }
    }
  }
}
