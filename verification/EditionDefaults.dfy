/**
 The edition-default table: for each edition that some feature gives a default for,
 the values files of that edition may override and the values settled for it.
 */
module EditionDefaults {
  import opened Wrappers
  import opened Wire

  type Edition = int

  datatype Default = Default(edition: Edition, value: string)

  datatype Support = Support(introduced: Option<Edition>, removed: Option<Edition>)

  datatype Feature = Feature(number: nat, typeName: string, defaults: seq<Default>, support: Option<Support>)

  type Encoder = (Feature, string) -> Option<Bytes>

  /** Some feature has a default of exactly this edition. */
  predicate Mentions(fields: seq<Feature>, e: Edition) {
    exists f <- fields :: MentionsOne(f.defaults, e)
  }

  predicate MentionsOne(defaults: seq<Default>, e: Edition) {
    exists d <- defaults :: d.edition == e
  }

  predicate Increasing(s: seq<Edition>) {
    forall i, j :: 0 <= i < j < |s| ==> s[i] < s[j]
  }

  function InsertEdition(e: Edition, s: seq<Edition>): seq<Edition> {
    if s == [] || e <= s[0] then [e] + s else [s[0]] + InsertEdition(e, s[1..])
  }

  function SortEditions(s: seq<Edition>): seq<Edition> {
    if s == [] then [] else InsertEdition(s[0], SortEditions(s[1..]))
  }

  predicate Distinct(s: seq<Edition>) {
    forall i, j :: 0 <= i < j < |s| ==> s[i] != s[j]
  }

  lemma {:induction false} InsertIncreasing(e: Edition, s: seq<Edition>)
    requires Increasing(s) && e !in s
    ensures Increasing(InsertEdition(e, s))
    ensures forall x :: x in InsertEdition(e, s) <==> x == e || x in s
  {
    if s != [] && e > s[0] {
      var rest := InsertEdition(e, s[1..]);
      InsertIncreasing(e, s[1..]);
      forall x | x in rest
        ensures s[0] < x
      {
        if x != e {
          var k :| 0 <= k < |s[1..]| && s[1..][k] == x;
          assert s[k + 1] == x;
        }
      }
      assert forall j :: 0 <= j < |rest| ==> rest[j] in rest;
    } else {
      assert s != [] ==> s[0] in s;
    }
  }

  lemma {:induction false} SortIncreasing(s: seq<Edition>)
    requires Distinct(s)
    ensures Increasing(SortEditions(s)) && forall x :: x in SortEditions(s) <==> x in s
  {
    if s != [] {
      SortIncreasing(s[1..]);
      assert s[0] !in s[1..];
      InsertIncreasing(s[0], SortEditions(s[1..]));
    }
  }

  /** Every edition up to maximum that a field gives a default for, once, in order. */
  method FeatureEditions(fields: seq<Feature>, maximum: Edition) returns (editions: seq<Edition>)
    ensures Increasing(editions)
    ensures forall e :: e in editions <==> e <= maximum && Mentions(fields, e)
  {
    hide Mentions, MentionsOne;
    editions := [];
    NoneMentioned();
    for i := 0 to |fields|
      invariant Distinct(editions)
      invariant forall e :: e in editions <==> e <= maximum && Mentions(fields[..i], e)
    {
      var before := editions;
      var defaults := fields[i].defaults;
      for j := 0 to |defaults|
        invariant Distinct(editions)
        invariant forall e :: e in editions <==> e in before || (e <= maximum && MentionsOne(defaults[..j], e))
      {
        var e := defaults[j].edition;
        MentionMore(defaults[..j], defaults[j]);
        assert defaults[..j + 1] == defaults[..j] + [defaults[j]];
        if e > maximum || e in editions {
          continue;
        }
        editions := editions + [e];
      }
      assert defaults[..|defaults|] == defaults && fields[..i + 1] == fields[..i] + [fields[i]];
      FieldMore(fields[..i], fields[i]);
    }
    assert fields[..|fields|] == fields;
    SortIncreasing(editions);
    editions := SortEditions(editions);
  }

  lemma {:induction false} NoneMentioned()
    ensures forall e :: !MentionsOne([], e) && !Mentions([], e)
  {
  }

  lemma {:induction false} MentionMore(ds: seq<Default>, d: Default)
    ensures forall e :: MentionsOne(ds + [d], e) <==> MentionsOne(ds, e) || e == d.edition
  {
    assert d in ds + [d];
  }

  lemma {:induction false} FieldMore(fs: seq<Feature>, f: Feature)
    ensures forall e :: Mentions(fs + [f], e) <==> Mentions(fs, e) || MentionsOne(f.defaults, e)
  {
    hide MentionsOne;
    assert f in fs + [f];
  }

  // ---------------------------------------------------------------------------

  /** d is the first of the newest defaults at or before edition; None when there is none. */
  ghost predicate IsLatest(defaults: seq<Default>, edition: Edition, r: Option<Default>) {
    match r
    case None => forall d <- defaults :: d.edition > edition
    case Some(best) =>
      exists k :: 0 <= k < |defaults| && defaults[k] == best && best.edition <= edition
                  && (forall i :: 0 <= i < |defaults| && defaults[i].edition <= edition ==>
                        defaults[i].edition <= best.edition)
                  && (forall i :: 0 <= i < k ==> defaults[i].edition != best.edition)
  }

  function LatestFrom(defaults: seq<Default>, edition: Edition, best: Option<Default>): Option<Default>
    decreases |defaults|
  {
    if defaults == [] then best
    else
      var d := defaults[0];
      if d.edition <= edition && (best.None? || d.edition > best.value.edition) then
        LatestFrom(defaults[1..], edition, Some(d))
      else LatestFrom(defaults[1..], edition, best)
  }

  /** The newest default at or before edition. */
  method LatestDefault(defaults: seq<Default>, edition: Edition) returns (best: Option<Default>)
    ensures best == LatestFrom(defaults, edition, None)
  {
    best := None;
    for i := 0 to |defaults|
      invariant LatestFrom(defaults[i..], edition, best) == LatestFrom(defaults, edition, None)
    {
      var d := defaults[i];
      assert defaults[i..][1..] == defaults[i + 1..];
      if d.edition > edition {
        continue;
      }
      if best.None? || d.edition > best.value.edition {
        best := Some(d);
      }
    }
  }

  lemma {:induction false} LatestIsLatest(
    seen: seq<Default>, defaults: seq<Default>, edition: Edition, best: Option<Default>)
    requires IsLatest(seen, edition, best)
    ensures IsLatest(seen + defaults, edition, LatestFrom(defaults, edition, best))
    decreases |defaults|
  {
    hide IsLatest;
    if defaults == [] {
      assert seen + defaults == seen;
    } else {
      var d := defaults[0];
      LatestStep(seen, d, edition, best);
      assert seen + [d] + defaults[1..] == seen + defaults;
      var next := if d.edition <= edition && (best.None? || d.edition > best.value.edition) then Some(d) else best;
      LatestIsLatest(seen + [d], defaults[1..], edition, next);
    }
  }

  lemma {:induction false} LatestStep(seen: seq<Default>, d: Default, edition: Edition, best: Option<Default>)
    requires IsLatest(seen, edition, best)
    ensures
      IsLatest(seen + [d], edition,
               if d.edition <= edition && (best.None? || d.edition > best.value.edition) then Some(d) else best)
  {
    var all := seen + [d];
    assert forall i :: 0 <= i < |seen| ==> seen[i] in seen;
    if d.edition <= edition && (best.None? || d.edition > best.value.edition) {
      assert all[|seen|] == d;
    } else if best.Some? {
      var k :| 0 <= k < |seen| && seen[k] == best.value && best.value.edition <= edition
               && (forall i :: 0 <= i < |seen| && seen[i].edition <= edition ==> seen[i].edition <= best.value.edition)
               && (forall i :: 0 <= i < k ==> seen[i].edition != best.value.edition);
      assert all[k] == best.value;
    }
  }

  /** Which default that is depends only on the editions between. */
  lemma {:induction false} SameLatest(defaults: seq<Default>, low: Edition, high: Edition)
    requires low <= high && forall d <- defaults :: !(low < d.edition <= high)
    ensures LatestFrom(defaults, high, None) == LatestFrom(defaults, low, None)
  {
    SameLatestFrom(defaults, low, high, None);
  }

  lemma {:induction false} SameLatestFrom(defaults: seq<Default>, low: Edition, high: Edition, best: Option<Default>)
    requires low <= high && forall d <- defaults :: !(low < d.edition <= high)
    ensures LatestFrom(defaults, high, best) == LatestFrom(defaults, low, best)
    decreases |defaults|
  {
    if defaults != [] {
      var d := defaults[0];
      assert d in defaults;
      SameLatestFrom(defaults[1..], low, high, best);
      SameLatestFrom(defaults[1..], low, high, Some(d));
    }
  }

  /** The newest listed edition at or before e. */
  ghost predicate Governs(editions: seq<Edition>, entry: Edition, e: Edition) {
    entry in editions && entry <= e && forall x <- editions :: x <= e ==> x <= entry
  }

  lemma {:induction false} Mentioned(fields: seq<Feature>, f: Feature, d: Default)
    requires f in fields && d in f.defaults
    ensures Mentions(fields, d.edition)
  {
    assert MentionsOne(f.defaults, d.edition);
  }

  /** An edition up to the maximum resolves every feature as its table entry does. */
  lemma {:induction false} EntryGoverns(
    fields: seq<Feature>, maximum: Edition, editions: seq<Edition>, entry: Edition, e: Edition, f: Feature)
    requires forall x :: x in editions <==> x <= maximum && Mentions(fields, x)
    requires Governs(editions, entry, e) && e <= maximum && f in fields
    ensures LatestFrom(f.defaults, e, None) == LatestFrom(f.defaults, entry, None)
    ensures IsLatest(f.defaults, e, LatestFrom(f.defaults, entry, None))
  {
    forall d <- f.defaults
      ensures !(entry < d.edition <= e)
    {
      Mentioned(fields, f, d);
    }
    SameLatest(f.defaults, entry, e);
    assert [] + f.defaults == f.defaults;
    LatestIsLatest([], f.defaults, e, None);
  }

  /** Before the first entry no feature has a default. */
  lemma {:induction false} NothingBeforeFirstEntry(
    fields: seq<Feature>, maximum: Edition, editions: seq<Edition>, e: Edition, f: Feature)
    requires forall x :: x in editions <==> x <= maximum && Mentions(fields, x)
    requires e <= maximum && (forall x <- editions :: x > e) && f in fields
    ensures LatestFrom(f.defaults, e, None) == None
  {
    forall d <- f.defaults
      ensures d.edition > e
    {
      Mentioned(fields, f, d);
    }
    assert [] + f.defaults == f.defaults;
    LatestIsLatest([], f.defaults, e, None);
  }

  // ---------------------------------------------------------------------------

  /** Introduced by then and not yet removed. */
  predicate IsOverridable(support: Option<Support>, edition: Edition) {
    support.Some? ==>
      && (support.value.introduced.Some? ==> support.value.introduced.value <= edition)
      && (support.value.removed.Some? ==> edition < support.value.removed.value)
  }

  function DefaultOf(f: Feature, edition: Edition): Option<string> {
    match LatestFrom(f.defaults, edition, None)
    case None => None
    case Some(d) => Some(d.value)
  }

  /** The features with a default of the given sort, in their order. */
  function Chosen(fields: seq<Feature>, edition: Edition, overridable: bool): seq<Feature> {
    if fields == [] then []
    else
      var rest := Chosen(fields[1..], edition, overridable);
      var f := fields[0];
      if DefaultOf(f, edition).Some? && IsOverridable(f.support, edition) == overridable then [f] + rest else rest
  }

  function WithDefault(fields: seq<Feature>, edition: Edition): seq<Feature> {
    if fields == [] then []
    else (if DefaultOf(fields[0], edition).Some? then [fields[0]] else []) + WithDefault(fields[1..], edition)
  }

  /** Files of the edition cannot set the feature: it comes later, or is gone. */
  predicate SettledBy(f: Feature, edition: Edition) {
    f.support.Some? &&
    var s := f.support.value;
    || (s.introduced.Some? && edition < s.introduced.value)
    || (s.removed.Some? && s.removed.value <= edition)
  }

  /** The encoded defaults of fs; None when one cannot be encoded. */
  function Encoded(fs: seq<Feature>, edition: Edition, encode: Encoder): Option<Bytes> {
    if fs == [] then Some([])
    else
      var value :- DefaultOf(fs[0], edition);
      var first :- encode(fs[0], value);
      var rest :- Encoded(fs[1..], edition, encode);
      Some(first + rest)
  }

  /**
   Every feature with a default is in exactly one of the two sets: it is fixed when it is
   introduced only after the edition, or removed at it or before.
   */
  lemma {:induction false} ChosenPartition(fields: seq<Feature>, edition: Edition)
    ensures multiset(Chosen(fields, edition, true)) + multiset(Chosen(fields, edition, false))
         == multiset(WithDefault(fields, edition))
    ensures forall f :: f in Chosen(fields, edition, true) ==> !SettledBy(f, edition)
    ensures forall f :: f in Chosen(fields, edition, false) ==> SettledBy(f, edition)
  {
    if fields != [] {
      ChosenPartition(fields[1..], edition);
    }
  }

  method FeatureSetsFor(fields: seq<Feature>, edition: Edition, encode: Encoder)
    returns (overridable: Option<Bytes>, fixed: Option<Bytes>)
    ensures overridable.Some? == fixed.Some?
    ensures overridable.Some? ==>
              && overridable == Encoded(Chosen(fields, edition, true), edition, encode)
              && fixed == Encoded(Chosen(fields, edition, false), edition, encode)
    ensures overridable.None? <==> Encoded(WithDefault(fields, edition), edition, encode).None?
  {
    hide DefaultOf, IsOverridable, Chosen, WithDefault, Encoded, Onto;
    var open: Bytes, closed: Bytes := [], [];
    assert fields[0..] == fields;
    OntoNothing(Chosen(fields, edition, true), edition, encode);
    OntoNothing(Chosen(fields, edition, false), edition, encode);
    for i := 0 to |fields|
      invariant Onto(open, Chosen(fields[i..], edition, true), edition, encode)
             == Encoded(Chosen(fields, edition, true), edition, encode)
      invariant Onto(closed, Chosen(fields[i..], edition, false), edition, encode)
             == Encoded(Chosen(fields, edition, false), edition, encode)
      invariant Encoded(WithDefault(fields[i..], edition), edition, encode).None?
           <==> Encoded(WithDefault(fields, edition), edition, encode).None?
    {
      var f := fields[i];
      assert fields[i..][1..] == fields[i + 1..];
      ChosenStep(fields[i..], edition, encode, open, closed);
      var def := LatestDefault(f.defaults, edition);
      DefaultIs(f, edition, def);
      if def.None? {
        continue;
      }
      var encoded := encode(f, def.value.value);
      if encoded.None? {
        return None, None;
      }
      if IsOverridable(f.support, edition) {
        open := open + encoded.value;
      } else {
        closed := closed + encoded.value;
      }
    }
    assert fields[|fields|..] == [];
    NoneLeft(open, edition, encode);
    NoneLeft(closed, edition, encode);
    return Some(open), Some(closed);
  }

  /** done followed by the encoded defaults of fs. */
  ghost function Onto(done: Bytes, fs: seq<Feature>, edition: Edition, encode: Encoder): Option<Bytes> {
    var rest := Encoded(fs, edition, encode);
    if rest.None? then None else Some(done + rest.value)
  }

  lemma {:induction false} OntoNothing(fs: seq<Feature>, edition: Edition, encode: Encoder)
    ensures Onto([], fs, edition, encode) == Encoded(fs, edition, encode)
  {
    hide Encoded;
    var all := Encoded(fs, edition, encode);
    if all.Some? {
      assert [] + all.value == all.value;
    }
  }

  lemma {:induction false} NoneLeft(done: Bytes, edition: Edition, encode: Encoder)
    ensures Chosen([], edition, true) == [] && Chosen([], edition, false) == [] && WithDefault([], edition) == []
    ensures Onto(done, [], edition, encode) == Some(done) && Encoded([], edition, encode).Some?
  {
    assert done + [] == done;
  }

  lemma {:induction false} DefaultIs(f: Feature, edition: Edition, def: Option<Default>)
    requires def == LatestFrom(f.defaults, edition, None)
    ensures DefaultOf(f, edition) == if def.None? then None else Some(def.value.value)
  {
  }

  lemma {:induction false} OntoNext(done: Bytes, f: Feature, rest: seq<Feature>, edition: Edition, encode: Encoder)
    requires DefaultOf(f, edition).Some?
    ensures
      var data := encode(f, DefaultOf(f, edition).value);
      Onto(done, [f] + rest, edition, encode)
      == if data.None? then None else Onto(done + data.value, rest, edition, encode)
  {
    hide DefaultOf;
    assert ([f] + rest)[1..] == rest;
    var data := encode(f, DefaultOf(f, edition).value);
    var others := Encoded(rest, edition, encode);
    if data.Some? && others.Some? {
      assert done + (data.value + others.value) == done + data.value + others.value;
    }
  }

  lemma {:induction false} ChosenFirst(fields: seq<Feature>, edition: Edition)
    requires fields != []
    ensures
      var f, rest := fields[0], fields[1..];
      var chosen := DefaultOf(f, edition).Some?;
      var free := IsOverridable(f.support, edition);
      && Chosen(fields, edition, true) == (if chosen && free then [f] else []) + Chosen(rest, edition, true)
      && Chosen(fields, edition, false) == (if chosen && !free then [f] else []) + Chosen(rest, edition, false)
      && WithDefault(fields, edition) == (if chosen then [f] else []) + WithDefault(rest, edition)
  {
    hide DefaultOf, IsOverridable;
  }

  lemma {:induction false} ChosenStep(
    fields: seq<Feature>, edition: Edition, encode: Encoder, open: Bytes, closed: Bytes)
    requires fields != []
    ensures
      var f, rest := fields[0], fields[1..];
      var value := DefaultOf(f, edition);
      if value.None? then
        && Chosen(fields, edition, true) == Chosen(rest, edition, true)
        && Chosen(fields, edition, false) == Chosen(rest, edition, false)
        && WithDefault(fields, edition) == WithDefault(rest, edition)
      else if encode(f, value.value).None? then
        && Encoded(WithDefault(fields, edition), edition, encode).None?
      else
        var data := encode(f, value.value).value;
        var free := IsOverridable(f.support, edition);
        && Onto(open, Chosen(fields, edition, true), edition, encode)
        == Onto(if free then open + data else open, Chosen(rest, edition, true), edition, encode)
        && Onto(closed, Chosen(fields, edition, false), edition, encode)
        == Onto(if free then closed else closed + data, Chosen(rest, edition, false), edition, encode)
        && (Encoded(WithDefault(fields, edition), edition, encode).None?
            <==> Encoded(WithDefault(rest, edition), edition, encode).None?)
  {
    hide DefaultOf, IsOverridable, Chosen, WithDefault, Encoded;
    var f, rest := fields[0], fields[1..];
    ChosenFirst(fields, edition);
    assert [] + WithDefault(rest, edition) == WithDefault(rest, edition);
    assert [] + Chosen(rest, edition, true) == Chosen(rest, edition, true);
    assert [] + Chosen(rest, edition, false) == Chosen(rest, edition, false);
    if DefaultOf(f, edition).Some? {
      OntoNext([], f, WithDefault(rest, edition), edition, encode);
      OntoNext(open, f, Chosen(rest, edition, true), edition, encode);
      OntoNext(closed, f, Chosen(rest, edition, false), edition, encode);
    }
  }
}
