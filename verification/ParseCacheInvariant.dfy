/** What holds in every reachable state of the parse-ahead cache. */
module ParseCacheInvariant {
  import opened Wrappers
  import opened ImportGraph
  import opened ImportMachine
  import opened ParseCache

  // ---------------------------------------------------------------------------
  // Ownership: an unfinished entry belongs to exactly one goroutine.

  predicate Live(entries: map<string, Entry>, f: string) {
    f in entries && !entries[f].done
  }

  ghost predicate Owned(entries: map<string, Entry>, gs: seq<Goroutine>) {
    && (forall i :: 0 <= i < |gs| && gs[i].File().Some? ==> Live(entries, gs[i].File().value))
    && (forall i, j :: 0 <= i < j < |gs| && gs[i].File().Some? ==> gs[i].File() != gs[j].File())
    && (forall f :: Live(entries, f) ==> HasOwner(gs, f))
  }

  ghost predicate HasOwner(gs: seq<Goroutine>, f: string) {
    exists i :: 0 <= i < |gs| && gs[i].File() == Some(f)
  }

  lemma {:induction false} OwnedSame(
    entries: map<string, Entry>, later: map<string, Entry>, gs: seq<Goroutine>, i: nat, g: Goroutine)
    requires Owned(entries, gs) && i < |gs| && g.File() == gs[i].File()
    requires forall f :: Live(later, f) <==> Live(entries, f)
    ensures Owned(later, gs[i := g])
  {
    var hs := gs[i := g];
    assert forall k :: 0 <= k < |gs| ==> hs[k].File() == gs[k].File();
    forall f | Live(later, f)
      ensures HasOwner(hs, f)
    {
      assert HasOwner(gs, f);
      var k :| 0 <= k < |gs| && gs[k].File() == Some(f);
      assert hs[k].File() == Some(f);
    }
  }

  lemma {:induction false} OwnedEnter(
    entries: map<string, Entry>, later: map<string, Entry>, gs: seq<Goroutine>, i: nat, g: Goroutine, f: string)
    requires Owned(entries, gs) && i < |gs| && gs[i].File().None? && g.File() == Some(f) && !Live(entries, f)
    requires forall h :: Live(later, h) <==> Live(entries, h) || h == f
    ensures Owned(later, gs[i := g])
  {
    var hs := gs[i := g];
    forall h | Live(later, h)
      ensures HasOwner(hs, h)
    {
      if h == f {
        assert hs[i].File() == Some(f);
      } else {
        assert HasOwner(gs, h);
        var k :| 0 <= k < |gs| && gs[k].File() == Some(h);
        assert hs[k].File() == Some(h);
      }
    }
  }

  lemma {:induction false} OwnedHand(
    entries: map<string, Entry>, gs: seq<Goroutine>, i: nat, g: Goroutine, w: Goroutine)
    requires Owned(entries, gs) && i < |gs| && g.File().None? && gs[i].File().Some? && w.File() == gs[i].File()
    ensures Owned(entries, gs[i := g] + [w])
  {
    var hs := gs[i := g] + [w];
    forall h | Live(entries, h)
      ensures HasOwner(hs, h)
    {
      assert HasOwner(gs, h);
      var k :| 0 <= k < |gs| && gs[k].File() == Some(h);
      assert hs[if k == i then |gs| else k].File() == Some(h);
    }
  }

  lemma {:induction false} OwnedClose(
    entries: map<string, Entry>, later: map<string, Entry>, gs: seq<Goroutine>, i: nat, g: Goroutine, f: string)
    requires Owned(entries, gs) && i < |gs| && gs[i].File() == Some(f) && g.File().None?
    requires forall h :: Live(later, h) <==> Live(entries, h) && h != f
    ensures Owned(later, gs[i := g])
  {
    var hs := gs[i := g];
    forall k | 0 <= k < |hs| && hs[k].File().Some?
      ensures Live(later, hs[k].File().value)
    {
      assert gs[k].File() != Some(f);
    }
    forall h | Live(later, h)
      ensures HasOwner(hs, h)
    {
      assert HasOwner(gs, h);
      var k :| 0 <= k < |gs| && gs[k].File() == Some(h);
      assert hs[k].File() == Some(h);
    }
  }

  // ---------------------------------------------------------------------------
  // What an entry holds at each phase of its owner.

  predicate OpenedRight(src: Source, e: Entry, f: string) {
    e.content == Some(src.open(f))
  }

  predicate ParsedRight(src: Source, e: Entry, f: string) {
    OpenedRight(src, e, f)
    && e.result == match src.open(f)
                   case OpenError => None
                   case Text(_, text) => Some(src.parse(f, text))
  }

  predicate PhaseRight(src: Source, entries: map<string, Entry>, p: Phase) {
    match p
    case Idle => true
    case Opening(f) => At(entries, f).content.None? && At(entries, f).result.None?
    case Admitting(f) => OpenedRight(src, At(entries, f), f) && At(entries, f).result.None?
    case WantSem(f) => OpenedRight(src, At(entries, f), f) && At(entries, f).result.None?
    case Parsing(f) => OpenedRight(src, At(entries, f), f) && At(entries, f).result.None?
    case Reading(f) => ParsedRight(src, At(entries, f), f)
    case Closing(f, deps) => ParsedRight(src, At(entries, f), f) && deps == DepsOf(Load(src, f))
  }

  ghost predicate ContentsRight(src: Source, entries: map<string, Entry>, gs: seq<Goroutine>) {
    && (forall i :: 0 <= i < |gs| ==> PhaseRight(src, entries, gs[i].phase))
    && (forall f <- entries :: entries[f].done ==> ParsedRight(src, entries[f], f))
  }

  /** A finished entry gives the consumer what loading the file directly would. */
  lemma {:induction false} DoneAnswers(src: Source, entries: map<string, Entry>, gs: seq<Goroutine>, f: string)
    requires ContentsRight(src, entries, gs) && f in entries && entries[f].done
    requires forall g, text :: !src.parse(g, text).OpenFailed?
    ensures Answer(entries[f]) == Load(src, f)
  {
  }

  // ---------------------------------------------------------------------------
  // The semaphore.

  function Holders(gs: seq<Goroutine>): nat {
    if gs == [] then 0 else (if gs[0].holds then 1 else 0) + Holders(gs[1..])
  }

  lemma {:induction false} HoldersUpdate(gs: seq<Goroutine>, i: nat, g: Goroutine)
    requires i < |gs|
    ensures Holders(gs[i := g]) == Holders(gs) - (if gs[i].holds then 1 else 0) + (if g.holds then 1 else 0)
  {
    if i == 0 {
      assert gs[0 := g][1..] == gs[1..];
    } else {
      assert gs[i := g][1..] == gs[1..][i - 1 := g];
      HoldersUpdate(gs[1..], i - 1, g);
    }
  }

  lemma {:induction false} HoldersAppend(gs: seq<Goroutine>, w: Goroutine)
    ensures Holders(gs + [w]) == Holders(gs) + (if w.holds then 1 else 0)
  {
    if gs == [] {
      assert [w][1..] == [];
    } else {
      assert (gs + [w])[1..] == gs[1..] + [w];
      HoldersAppend(gs[1..], w);
    }
  }

  lemma {:induction false} SomeHolder(gs: seq<Goroutine>) returns (i: nat)
    requires Holders(gs) > 0
    ensures i < |gs| && gs[i].holds
  {
    if gs[0].holds {
      i := 0;
    } else {
      var k := SomeHolder(gs[1..]);
      i := k + 1;
    }
  }

  /** A spawned goroutine works only while it holds the semaphore; the main one never takes it. */
  predicate RoleRight(i: nat, g: Goroutine) {
    && (g.phase.WantSem? ==> i > 0 && g.pending == [] && !g.holds)
    && (g.holds ==> i > 0)
    && (i > 0 && !g.holds ==> g.phase.WantSem? || g.Finished())
  }

  ghost predicate SemaphoreRight(held: nat, cap: nat, gs: seq<Goroutine>) {
    && held == Holders(gs) <= cap
    && forall i :: 0 <= i < |gs| ==> RoleRight(i, gs[i])
  }

  // ---------------------------------------------------------------------------
  // Files stay within the import closure.

  ghost predicate FilesRight(env: Env, files: set<string>, entries: map<string, Entry>, gs: seq<Goroutine>) {
    && Closed(env, files)
    && entries.Keys <= files
    && (forall i :: 0 <= i < |gs| ==> forall f <- gs[i].pending :: f in files)
    && (forall i :: 0 <= i < |gs| && gs[i].File().Some? ==> gs[i].File().value in files)
  }

  /** The consumer is where the sequential compiler is after as many steps. */
  ghost predicate ConsumerRight(env: Env, start: Config, sys: System) {
    && sys.consumer == Sequential(env, start, sys.taken)
    && (sys.look.Some? ==> sys.consumer.control.Loading?)
    && (sys.look == Some(true) ==> sys.consumer.control.file in sys.entries)
  }

  ghost predicate EnvMatches(src: Source, env: Env) {
    && (forall f :: env.load(f) == Load(src, f))
    && (forall f, text :: !src.parse(f, text).OpenFailed?)
  }

  ghost predicate Inv(src: Source, env: Env, cap: nat, files: set<string>, start: Config, sys: System) {
    && sys.goroutines != []
    && Owned(sys.entries, sys.goroutines)
    && ContentsRight(src, sys.entries, sys.goroutines)
    && SemaphoreRight(sys.held, cap, sys.goroutines)
    && FilesRight(env, files, sys.entries, sys.goroutines)
    && sys.admitted <= sys.inline && sys.admitted <= INLINE_BUDGET
    && ConsumerRight(env, start, sys)
  }
}
