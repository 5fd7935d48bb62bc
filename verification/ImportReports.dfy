/** What the import walk reports about a file that fails or whose imports do. */
module ImportReports {
  import opened ImportGraph

  /** es are the messages in order, each reported about f. */
  predicate Reported(es: seq<ImportError>, f: string, messages: seq<string>) {
    |es| == |messages| && forall i :: 0 <= i < |es| ==> es[i] == ParseError(f, messages[i])
  }

  predicate TypesReported(es: seq<ImportError>, f: string, messages: seq<string>) {
    |es| == |messages| && forall i :: 0 <= i < |es| ==> es[i] == TypeError(f, messages[i])
  }

  /** A file that cannot be opened is reported once, one that does not parse with all its messages. */
  lemma {:induction false} FailureReported(env: Env, s: State, f: string, stack: seq<string>, files: set<string>)
    requires f in files && Closed(env, files) && f !in stack && f !in s.parsed
    ensures
      var r := Visit(env, s, f, stack, files);
      && (env.load(f).OpenFailed? ==> r == Outcome(s.(errors := s.errors + [NotFound(f)]), false))
      && (env.load(f).ParseFailed? ==>
            && !r.ok && s.errors <= r.state.errors && r.state == s.(errors := r.state.errors)
            && Reported(r.state.errors[|s.errors|..], f, [env.load(f).first] + env.load(f).more))
  {
    hide VisitAll, Finish;
  }

  lemma {:induction false} BadImportsExactly(f: string, deps: seq<string>, failed: set<string>, e: ImportError)
    ensures e in BadImports(f, deps, failed) <==>
              exists d <- deps :: d in failed && d != f && e == BadImport(f, d)
    decreases |deps|
  {
    if deps != [] {
      BadImportsExactly(f, deps[1..], failed, e);
      assert deps == [deps[0]] + deps[1..];
    }
  }

  lemma {:induction false} AvailableExactly(deps: seq<string>, failed: set<string>, parsed: set<string>, d: string)
    ensures d in Available(deps, failed, parsed) <==> d in deps && d !in failed && d in parsed
    decreases |deps|
  {
    if deps != [] {
      AvailableExactly(deps[1..], failed, parsed, d);
      assert deps == [deps[0]] + deps[1..];
    }
  }

  /**
   When imports of f fail, and not f itself alone, each failed import other than f is
   reported, and then every name left undefined, given the imports that did not fail and
   the files finished so far.
   */
  lemma {:induction false} FailedImportsReported(env: Env, f: string, fd: FileDesc, s: State, failed: set<string>)
    returns (bad: seq<ImportError>, types: seq<ImportError>, available: seq<string>, finished: seq<string>)
    requires failed != {} && failed != {f}
    ensures Finish(env, f, fd, s, failed) == Outcome(s.(errors := s.errors + bad + types), false)
    ensures forall e :: e in bad <==> exists d :: d in fd.dependency + fd.optionDependency && d in failed && d != f
                                                && e == BadImport(f, d)
    ensures TypesReported(types, f, env.typeErrors(f, fd, available, finished))
    ensures forall d :: d in available <==> d in fd.dependency + fd.optionDependency && d !in failed && d in s.parsed
    ensures forall d :: d in finished <==> d in s.ordered && d in s.parsed
  {
    hide BadImports, Available;
    var deps := fd.AllDependencies();
    bad := BadImports(f, deps, failed);
    available, finished := Available(deps, failed, s.parsed.Keys), Available(s.ordered, {}, s.parsed.Keys);
    types := TypeErrors(f, env.typeErrors(f, fd, available, finished));
    assert s.errors + (bad + types) == s.errors + bad + types;
    forall e
      ensures e in bad <==> exists d :: d in deps && d in failed && d != f && e == BadImport(f, d)
    {
      BadImportsExactly(f, deps, failed, e);
    }
    forall d
      ensures d in available <==> d in deps && d !in failed && d in s.parsed
      ensures d in finished <==> d in s.ordered && d in s.parsed
    {
      AvailableExactly(deps, failed, s.parsed.Keys, d);
      AvailableExactly(s.ordered, {}, s.parsed.Keys, d);
    }
  }

  /** A file whose imports all succeed is listed last; when f itself is the one that failed there is nothing to add. */
  lemma {:induction false} QuietFinish(env: Env, f: string, fd: FileDesc, s: State)
    ensures Finish(env, f, fd, s, {}) == Outcome(s.(ordered := s.ordered + [f]), true)
    ensures Finish(env, f, fd, s, {f}) == Outcome(s, false)
  {
    assert {f} != {};
  }
}
