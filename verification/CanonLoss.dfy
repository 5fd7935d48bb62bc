/**
 What the canonicalizer may lose: a submessage field need not be in one of the two
 submessage encodings. In the run of a singular message such a field is kept in front
 of the first one with a body and dropped after it, and that is all that is ever lost.
 */
module CanonLoss {
  import opened Wrappers
  import opened Wire
  import opened WireEntries
  import opened OptionSchema
  import opened OptionValue
  import opened EntrySort
  import opened OptionDecode
  import opened OptionCanon
  import opened CanonGrowth
  import opened CanonicalForm
  import opened CanonicalRoundTrip
  import opened NormalForm

  /** Well-formed fields whose groups have tags of one length, at every level. */
  predicate Tidy(raw: Bytes, owner: string, fields: OptionFields)
    decreases |raw|, 2
  {
    match ParseEntries(raw)
    case Entries(es) =>
      EntriesShrink(raw);
      TidyEntries(es, owner, fields)
    case _ => false
  }

  predicate TidyEntries(es: seq<Entry>, owner: string, fields: OptionFields)
    requires AllShrink(es)
    decreases TotalRaw(es), 1
  {
    es != [] ==> TidyEntry(es[0], owner, fields) && TidyEntries(es[1..], owner, fields)
  }

  predicate TidyEntry(e: Entry, owner: string, fields: OptionFields)
    decreases |e.raw|, 0
  {
    && Aligned(e)
    && IsField(e.raw, e)
    && match (fields.Submessage(owner, e.num), Content(e.raw))
       case (Some(f), Some(body)) => Tidy(body, TrimLeadingDot(f.typeName), fields)
       case _ => true
  }

  /**
   In no run of a singular message the canonicalizer reaches, at any level, does a
   field without a body follow one that has a body.
   */
  predicate NothingLost(raw: Bytes, owner: string, fields: OptionFields)
    decreases |raw|, 1
  {
    match ParseEntries(raw)
    case Entries(es) =>
      EntriesShrink(raw);
      SortDecodes(es, owner, fields);
      SortIsStable(es, 0);
      NothingLostIn(SortByNum(es), owner, fields)
    case _ => true
  }

  predicate NothingLostIn(es: seq<Entry>, owner: string, fields: OptionFields)
    requires AllShrink(es)
    decreases TotalRaw(es), 0
  {
    es != [] ==>
      assert Shrinks(es[0]);
      match (fields.Submessage(owner, es[0].num), es[0].payload)
      case (Some(f), Some(body)) =>
        var sub := TrimLeadingDot(f.typeName);
        if f.repeated then NothingLost(body, sub, fields) && NothingLostIn(es[1..], owner, fields)
        else
          var j := RunLength(es, es[0].num);
          MergedShrinks(es, es[0].num);
          && Bodiless(es[..j]) == []
          && NothingLost(MergedPayload(es[..j]), sub, fields)
          && NothingLostIn(es[j..], owner, fields)
      case _ => NothingLostIn(es[1..], owner, fields)
  }

  /** The fields that have no body. */
  function Bodiless(es: seq<Entry>): seq<Bytes> {
    if es == [] then []
    else (if es[0].payload.None? then [es[0].raw] else []) + Bodiless(es[1..])
  }

  // ---------------------------------------------------------------------------
  // Decoded values hold something for every number they list.

  predicate Solid(m: Msg) {
    m.Cons? ==> SolidVal(m.val) && Solid(m.rest)
  }

  predicate SolidVal(v: Val) {
    v.raws != [] || v.items != [] || v.merged.Some?
  }

  lemma {:induction false} MergeSolid(a: Msg, b: Msg)
    requires Solid(a) && Solid(b)
    ensures Solid(Merge(a, b))
    decreases a, b
  {
    if a.Cons? && b.Cons? {
      if a.num < b.num {
        MergeSolid(a.rest, b);
      } else if b.num < a.num {
        MergeSolid(a, b.rest);
      } else {
        MergeSolid(a.rest, b.rest);
      }
    }
  }

  lemma {:induction false} EntriesSolid(es: seq<Entry>, owner: string, fields: OptionFields)
    requires AllShrink(es)
    ensures Solid(DecodeEntries(es, owner, fields))
  {
    hide Decode, Content;
    if es != [] {
      EntriesSolid(es[1..], owner, fields);
      assert Solid(DecodeEntry(es[0], owner, fields)) by {
        assert Solid(Nil);
      }
      MergeSolid(DecodeEntry(es[0], owner, fields), DecodeEntries(es[1..], owner, fields));
    }
  }

  lemma {:induction false} DecodeSolid(raw: Bytes, owner: string, fields: OptionFields)
    ensures Solid(Decode(raw, owner, fields))
  {
    hide DecodeEntries;
    if ParseEntries(raw).Entries? {
      EntriesShrink(raw);
      EntriesSolid(ParseEntries(raw).entries, owner, fields);
    }
  }

  /** A first occurrence and what follows it can be told from their merge. */
  lemma {:induction false} MergeCancels(num: nat, u: Val, m: Msg, v: Val, n: Msg)
    requires u.merged.None? && v.merged.None? && |u.raws| == |v.raws| && |u.items| == |v.items|
    requires Above(m, num - 1) && Above(n, num - 1) && Solid(m) && Solid(n)
    ensures Merge(Single(num, u), m) == Merge(Single(num, v), n) <==> u == v && m == n
  {
    hide Merge;
    MergeHead(num, u, m);
    MergeHead(num, v, n);
    if m.Cons? && m.num == num {
      if n.Cons? && n.num == num {
        SplitsAlike(u.raws, m.val.raws, v.raws, n.val.raws);
        SplitsAlike(u.items, m.val.items, v.items, n.val.items);
      } else {
        assert |MergeVal(u, m.val).raws| == |u.raws| + |m.val.raws|;
        assert |MergeVal(u, m.val).items| == |u.items| + |m.val.items|;
      }
    } else if n.Cons? && n.num == num {
      assert |MergeVal(v, n.val).raws| == |v.raws| + |n.val.raws|;
      assert |MergeVal(v, n.val).items| == |v.items| + |n.val.items|;
    }
  }

  lemma {:induction false} SplitsAlike<T>(a: seq<T>, b: seq<T>, c: seq<T>, d: seq<T>)
    requires |a| == |c|
    ensures a + b == c + d <==> a == c && b == d
  {
    if a + b == c + d {
      assert a == (a + b)[..|a|] == (c + d)[..|a|] == c;
      assert b == (a + b)[|a|..] == (c + d)[|a|..] == d;
    }
  }

  // ---------------------------------------------------------------------------
  // Tidy input, cut up and put together

  lemma {:induction false} TidyAppend(a: seq<Entry>, b: seq<Entry>, owner: string, fields: OptionFields)
    requires AllShrink(a) && AllShrink(b)
    ensures AllShrink(a + b)
    ensures TidyEntries(a + b, owner, fields) <==> TidyEntries(a, owner, fields) && TidyEntries(b, owner, fields)
  {
    hide TidyEntry;
    if a == [] {
      assert a + b == b;
    } else {
      assert (a + b)[1..] == a[1..] + b;
      TidyAppend(a[1..], b, owner, fields);
    }
  }

  lemma {:induction false} TidyJoin(a: Bytes, b: Bytes, owner: string, fields: OptionFields)
    requires Tidy(a, owner, fields) && Tidy(b, owner, fields)
    ensures Tidy(a + b, owner, fields)
  {
    hide TidyEntries;
    ParseAppend(a, b);
    EntriesShrink(a);
    EntriesShrink(b);
    TidyAppend(ParseEntries(a).entries, ParseEntries(b).entries, owner, fields);
  }

  lemma {:induction false} InsertTidy(e: Entry, es: seq<Entry>, owner: string, fields: OptionFields)
    requires Shrinks(e) && AllShrink(es) && TidyEntry(e, owner, fields) && TidyEntries(es, owner, fields)
    ensures AllShrink(InsertEntry(e, es)) && TidyEntries(InsertEntry(e, es), owner, fields)
  {
    hide TidyEntry;
    if es == [] || e.num <= es[0].num {
      assert ([e] + es)[1..] == es;
    } else {
      var r := InsertEntry(e, es[1..]);
      InsertTidy(e, es[1..], owner, fields);
      assert ([es[0]] + r)[1..] == r;
    }
  }

  lemma {:induction false} SortTidy(es: seq<Entry>, owner: string, fields: OptionFields)
    requires AllShrink(es) && TidyEntries(es, owner, fields)
    ensures AllShrink(SortByNum(es)) && TidyEntries(SortByNum(es), owner, fields)
  {
    hide TidyEntry;
    if es != [] {
      SortTidy(es[1..], owner, fields);
      InsertTidy(es[0], SortByNum(es[1..]), owner, fields);
    }
  }

  lemma {:induction false} TidyParses(raw: Bytes, owner: string, fields: OptionFields)
    requires Tidy(raw, owner, fields)
    ensures ParseEntries(raw).Entries?
  {
  }

  lemma {:induction false} EmptyTidy(owner: string, fields: OptionFields)
    ensures Tidy([], owner, fields) && Decode([], owner, fields) == Nil
  {
  }

  /** What an entry of a submessage field with or without a body stands for. */
  lemma {:induction false} TidyEntryDecodes(e: Entry, f: FieldDesc, owner: string, fields: OptionFields)
    requires TidyEntry(e, owner, fields) && fields.Submessage(owner, e.num) == Some(f)
    ensures 1 <= e.num <= MAX_FIELD_NUMBER
    ensures e.payload.None? ==> DecodeEntry(e, owner, fields) == Single(e.num, Val([e.raw], [], None))
    ensures e.payload.Some? ==>
      var sub := TrimLeadingDot(f.typeName);
      var m := Decode(e.payload.value, sub, fields);
      && Tidy(e.payload.value, sub, fields)
      && DecodeEntry(e, owner, fields) == Single(e.num, if f.repeated then Val([], [m], None) else Val([], [], Some(m)))
  {
    hide Decode, Tidy, HeadEntry, Content;
  }

  /** A run of one singular submessage: its fields without a body, and the value of the merged bodies. */
  lemma {:induction false} RunReads(es: seq<Entry>, f: FieldDesc, num: nat, owner: string, fields: OptionFields)
    requires es != [] && AllShrink(es) && TidyEntries(es, owner, fields)
    requires fields.Submessage(owner, num) == Some(f) && !f.repeated
    requires forall e <- es :: e.num == num
    ensures
      var sub, merged := TrimLeadingDot(f.typeName), MergedPayload(es);
      && Tidy(merged, sub, fields)
      && (|Bodiless(es)| == |es| ==> merged == [])
      && DecodeEntries(es, owner, fields)
         == Single(num, Val(Bodiless(es), [],
                            if |Bodiless(es)| == |es| then None else Some(Decode(merged, sub, fields))))
  {
    hide Tidy, Decode, DecodeEntry, TidyEntry, Merge;
    var sub := TrimLeadingDot(f.typeName);
    var e, rest := es[0], es[1..];
    assert e in es;
    TidyEntryDecodes(e, f, owner, fields);
    BodilessBound(rest);
    if rest == [] {
      EmptyTidy(sub, fields);
      MergeNil(DecodeEntry(e, owner, fields));
      RunOfOne(e);
    } else {
      RunReads(rest, f, num, owner, fields);
      var v := DecodeEntries(rest, owner, fields).val;
      MergeHead(num, DecodeEntry(e, owner, fields).val, DecodeEntries(rest, owner, fields));
      var tail := MergedPayload(rest);
      if e.payload.Some? {
        TidyJoin(e.payload.value, tail, sub, fields);
        TidyParses(tail, sub, fields);
        TidyParses(e.payload.value, sub, fields);
        DecodeJoin(e.payload.value, tail, sub, fields);
        assert e.payload.value + [] == e.payload.value;
      } else {
        assert [] + tail == tail;
      }
      MergedStep(e, rest, es);
    }
  }

  lemma {:induction false} RunOfOne(e: Entry)
    ensures MergedPayload([e]) == (if e.payload.Some? then e.payload.value else [])
    ensures Bodiless([e]) == (if e.payload.None? then [e.raw] else [])
  {
    assert [e][1..] == [];
  }

  lemma {:induction false} MergedStep(e: Entry, rest: seq<Entry>, es: seq<Entry>)
    requires es != [] && es[0] == e && es[1..] == rest
    ensures MergedPayload(es) == (if e.payload.Some? then e.payload.value else []) + MergedPayload(rest)
    ensures Bodiless(es) == (if e.payload.None? then [e.raw] else []) + Bodiless(rest)
  {
  }

  lemma {:induction false} BodilessBound(es: seq<Entry>)
    ensures |Bodiless(es)| <= |es|
  {
    if es != [] {
      BodilessBound(es[1..]);
    }
  }

  // ---------------------------------------------------------------------------
  // The output of the second loop

  /** out is well formed, its numbers are above lo, and it carries m exactly when kept. */
  ghost predicate Written(out: Option<Bytes>, m: Msg, kept: bool, lo: int, owner: string, fields: OptionFields) {
    && out.Some?
    && ParseEntries(out.value).Entries?
    && Above(Decode(out.value, owner, fields), lo)
    && (Decode(out.value, owner, fields) == m <==> kept)
  }

  /** A written field in front of written fields. */
  lemma {:induction false} WrittenFirst(
    piece: Bytes, num: nat, v: Val, u: Val, rest: Bytes, m: Msg, kept: bool, owner: string, fields: OptionFields)
    requires ParseEntries(piece).Entries? && Decode(piece, owner, fields) == Single(num, v)
    requires Written(Some(rest), m, kept, num - 1, owner, fields)
    requires u.merged.None? && v.merged.None? && |u.raws| == |v.raws| && |u.items| == |v.items|
    requires Above(m, num - 1) && Solid(m)
    ensures Written(Some(piece + rest), Merge(Single(num, u), m), u == v && kept, num - 1, owner, fields)
  {
    hide Decode, ParseEntries, Solid, Merge;
    var n := Decode(rest, owner, fields);
    DecodeJoin(piece, rest, owner, fields);
    DecodeSolid(rest, owner, fields);
    MergeAbove(Single(num, v), n, num - 1);
    MergeCancels(num, u, m, v, n);
  }

  /** The same for the one field a run of a singular submessage is written as. */
  lemma {:induction false} WrittenRun(
    piece: Bytes, num: nat, v: Val, u: Val, rest: Bytes, m: Msg, kept: bool, owner: string, fields: OptionFields)
    requires ParseEntries(piece).Entries? && Decode(piece, owner, fields) == Single(num, v)
    requires Written(Some(rest), m, kept, num, owner, fields) && Above(m, num)
    ensures Written(Some(piece + rest), Merge(Single(num, u), m), u == v && kept, num - 1, owner, fields)
  {
    hide Decode, ParseEntries, Merge;
    var n := Decode(rest, owner, fields);
    DecodeJoin(piece, rest, owner, fields);
    MergeHead(num, v, n);
    MergeHead(num, u, m);
  }

  lemma {:induction false} Lower(
    out: Option<Bytes>, m: Msg, kept: bool, hi: int, lo: int, owner: string, fields: OptionFields)
    requires Written(out, m, kept, hi, owner, fields) && lo <= hi
    ensures Written(out, m, kept, lo, owner, fields)
  {
    hide Decode, ParseEntries;
  }

  lemma {:induction false} EmptyWritten(lo: int, owner: string, fields: OptionFields)
    ensures Written(Some([]), Nil, true, lo, owner, fields)
  {
  }

  /**
   For well-formed input with aligned groups the output is well formed, and carries the
   input's value exactly when nothing is lost.
   */
  lemma {:induction false} CanonKeepsExactly(raw: Bytes, owner: string, fields: OptionFields)
    requires Tidy(raw, owner, fields) && |raw| < MAX_INPUT && Plain(Decode(raw, owner, fields), owner, fields)
    ensures Canon(raw, owner, fields).Some? && ParseEntries(Canon(raw, owner, fields).value).Entries?
    ensures Decode(Canon(raw, owner, fields).value, owner, fields) == Decode(raw, owner, fields)
       <==> NothingLost(raw, owner, fields)
    decreases |raw|, 1
  {
    hide HeadEntry, EmitAll, DecodeEntries, NothingLostIn, TidyEntries, Plain;
    var es := ParseEntries(raw).entries;
    EntriesShrink(raw);
    SortDecodes(es, owner, fields);
    SortTidy(es, owner, fields);
    SortIsStable(es, 0);
    EntriesNumbered(raw);
    forall e <- SortByNum(es)
      ensures 0 < e.num
    {
      assert e in multiset(SortByNum(es));
    }
    EmitKeeps(SortByNum(es), 0, owner, fields);
  }

  lemma {:induction false} EntriesNumbered(raw: Bytes)
    requires ParseEntries(raw).Entries?
    ensures forall e <- ParseEntries(raw).entries :: 0 < e.num
    decreases |raw|
  {
    if raw != [] {
      EntriesNumbered(raw[|HeadEntry(raw).entry.raw|..]);
    }
  }

  lemma {:induction false} EmitKeeps(es: seq<Entry>, lo: int, owner: string, fields: OptionFields)
    requires AllShrink(es) && Sorted(es) && TidyEntries(es, owner, fields) && forall e <- es :: lo < e.num
    requires TotalRaw(es) < MAX_INPUT && Plain(DecodeEntries(es, owner, fields), owner, fields)
    ensures Written(EmitAll(es, owner, fields), DecodeEntries(es, owner, fields),
                    NothingLostIn(es, owner, fields), lo, owner, fields)
    decreases TotalRaw(es), 0
  {
    hide Decode, TidyEntry, DecodeEntry, Plain, Written, Canon, NothingLost, Merge;
    if es == [] {
      EmptyWritten(lo, owner, fields);
    } else {
      var e := es[0];
      assert Shrinks(e);
      var f := fields.Submessage(owner, e.num);
      if f.None? || e.payload.None? {
        RawKept(es, owner, fields);
      } else if f.value.repeated {
        RepeatedKept(es, f.value, owner, fields);
      } else {
        RunKept(es, f.value, owner, fields);
      }
      Lower(EmitAll(es, owner, fields), DecodeEntries(es, owner, fields), NothingLostIn(es, owner, fields),
            e.num - 1, lo, owner, fields);
    }
  }

  /** Taking off the first entry. */
  lemma {:induction false} FirstOff(es: seq<Entry>, owner: string, fields: OptionFields)
    requires es != [] && AllShrink(es) && Sorted(es) && TidyEntries(es, owner, fields)
    requires Plain(DecodeEntries(es, owner, fields), owner, fields)
    ensures AllShrink(es[1..]) && Sorted(es[1..]) && TidyEntries(es[1..], owner, fields) && TidyEntry(es[0], owner, fields)
    ensures forall e <- es[1..] :: es[0].num - 1 < e.num
    ensures Plain(DecodeEntry(es[0], owner, fields), owner, fields)
    ensures Plain(DecodeEntries(es[1..], owner, fields), owner, fields)
    ensures var m := DecodeEntries(es[1..], owner, fields);
            && Above(m, es[0].num - 1) && Solid(m)
            && DecodeEntries(es, owner, fields) == Merge(DecodeEntry(es[0], owner, fields), m)
  {
    hide Plain, DecodeEntry, Merge, Solid, TidyEntry;
    SortedAbove(es);
    PlainMerge(DecodeEntry(es[0], owner, fields), DecodeEntries(es[1..], owner, fields), owner, fields);
    DecodeAbove(es[1..], es[0].num - 1, owner, fields);
    EntriesSolid(es[1..], owner, fields);
  }

  lemma {:induction false} RawKept(es: seq<Entry>, owner: string, fields: OptionFields)
    requires es != [] && AllShrink(es) && Sorted(es) && TidyEntries(es, owner, fields)
    requires TotalRaw(es) < MAX_INPUT && Plain(DecodeEntries(es, owner, fields), owner, fields)
    requires fields.Submessage(owner, es[0].num).None? || es[0].payload.None?
    ensures Written(EmitAll(es, owner, fields), DecodeEntries(es, owner, fields),
                    NothingLostIn(es, owner, fields), es[0].num - 1, owner, fields)
    decreases TotalRaw(es), -1
  {
    hide Decode, DecodeEntries, Plain, Canon, NothingLost, Merge, Solid, HeadEntry, Content, Tidy;
    var e, rest := es[0], es[1..];
    assert Shrinks(e);
    FirstOff(es, owner, fields);
    EmitKeeps(rest, e.num - 1, owner, fields);
    FieldDecodes(e.raw, e, owner, fields);
    var v := Val([e.raw], [], None);
    assert DecodeEntry(e, owner, fields) == Single(e.num, v);
    var out := EmitAll(rest, owner, fields);
    assert out.Some? && EmitAll(es, owner, fields) == Some(e.raw + out.value);
    assert NothingLostIn(es, owner, fields) == NothingLostIn(rest, owner, fields);
    hide *;
    WrittenFirst(e.raw, e.num, v, v, out.value, DecodeEntries(rest, owner, fields),
                 NothingLostIn(rest, owner, fields), owner, fields);
  }

  lemma {:induction false} RepeatedKept(es: seq<Entry>, f: FieldDesc, owner: string, fields: OptionFields)
    requires es != [] && AllShrink(es) && Sorted(es) && TidyEntries(es, owner, fields)
    requires TotalRaw(es) < MAX_INPUT && Plain(DecodeEntries(es, owner, fields), owner, fields)
    requires fields.Submessage(owner, es[0].num) == Some(f) && es[0].payload.Some? && f.repeated
    ensures Written(EmitAll(es, owner, fields), DecodeEntries(es, owner, fields),
                    NothingLostIn(es, owner, fields), es[0].num - 1, owner, fields)
    decreases TotalRaw(es), -1
  {
    hide Decode, DecodeEntries, DecodeEntry, Plain, Merge, Solid, TidyEntry, Emit, NothingLost, Canon;
    var e, rest := es[0], es[1..];
    assert Shrinks(e);
    var sub := TrimLeadingDot(f.typeName);
    var body := e.payload.value;
    FirstOff(es, owner, fields);
    EmitKeeps(rest, e.num - 1, owner, fields);
    TidyEntryDecodes(e, f, owner, fields);
    PlainItem(e.num, f, Decode(body, sub, fields), owner, fields);
    CanonKeepsExactly(body, sub, fields);
    CanonGrows(body, sub, fields);
    var inner := Canon(body, sub, fields).value;
    EmitReads(f, e.num, inner, owner, fields);
    var out := EmitAll(rest, owner, fields);
    assert out.Some? && EmitAll(es, owner, fields) == Some(Emit(f, e.num, inner, owner, fields) + out.value);
    assert NothingLostIn(es, owner, fields) == (NothingLost(body, sub, fields) && NothingLostIn(rest, owner, fields));
    hide *;
    WrittenFirst(Emit(f, e.num, inner, owner, fields), e.num,
                 Val([], [Decode(inner, sub, fields)], None), Val([], [Decode(body, sub, fields)], None),
                 out.value, DecodeEntries(rest, owner, fields), NothingLostIn(rest, owner, fields), owner, fields);
  }

  lemma {:induction false} PlainItem(num: nat, f: FieldDesc, m: Msg, owner: string, fields: OptionFields)
    requires fields.Submessage(owner, num) == Some(f)
    requires Plain(Single(num, Val([], [m], None)), owner, fields)
    ensures !fields.AsItem(owner, num) && Plain(m, TrimLeadingDot(f.typeName), fields)
  {
    var v := Val([], [m], None);
    assert m in v.items && Single(num, v).val == v;
  }

  lemma {:induction false} PlainMerged(num: nat, f: FieldDesc, raws: seq<Bytes>, m: Msg, owner: string, fields: OptionFields)
    requires fields.Submessage(owner, num) == Some(f)
    requires Plain(Single(num, Val(raws, [], Some(m))), owner, fields)
    ensures !fields.AsItem(owner, num) && Plain(m, TrimLeadingDot(f.typeName), fields)
  {
    assert Single(num, Val(raws, [], Some(m))).val.merged == Some(m);
  }

  lemma {:induction false} EmitReads(f: FieldDesc, num: nat, body: Bytes, owner: string, fields: OptionFields)
    requires !fields.AsItem(owner, num) && fields.Submessage(owner, num) == Some(f)
    requires 1 <= num <= MAX_FIELD_NUMBER && |body| < MAX_LENGTH && ParseEntries(body).Entries?
    ensures var raw := Emit(f, num, body, owner, fields);
            var m := Decode(body, TrimLeadingDot(f.typeName), fields);
            && ParseEntries(raw).Entries?
            && Decode(raw, owner, fields)
            == Single(num, if f.repeated then Val([], [m], None) else Val([], [], Some(m)))
  {
    hide Decode, AppendSubmessage, ParseEntries, Clean;
    SubmessageReads(f, num, body, owner, fields);
  }

  /** Cutting a run off the front. */
  lemma {:induction false} RunOff(es: seq<Entry>, j: nat, owner: string, fields: OptionFields)
    requires es != [] && AllShrink(es) && Sorted(es) && TidyEntries(es, owner, fields)
    requires Plain(DecodeEntries(es, owner, fields), owner, fields) && j == RunLength(es, es[0].num)
    ensures AllShrink(es[..j]) && TidyEntries(es[..j], owner, fields)
    ensures AllShrink(es[j..]) && Sorted(es[j..]) && TidyEntries(es[j..], owner, fields)
    ensures forall e <- es[j..] :: es[0].num < e.num
    ensures Plain(DecodeEntries(es[..j], owner, fields), owner, fields)
    ensures Plain(DecodeEntries(es[j..], owner, fields), owner, fields)
    ensures Above(DecodeEntries(es[j..], owner, fields), es[0].num)
    ensures DecodeEntries(es, owner, fields)
         == Merge(DecodeEntries(es[..j], owner, fields), DecodeEntries(es[j..], owner, fields))
  {
    hide Plain, DecodeEntries, Merge, TidyEntries;
    assert es == es[..j] + es[j..];
    SortedSuffix(es, j);
    SortedAbove(es);
    SortedAbove(es[j..]);
    TidyAppend(es[..j], es[j..], owner, fields);
    DecodeAppend(es[..j], es[j..], owner, fields);
    PlainMerge(DecodeEntries(es[..j], owner, fields), DecodeEntries(es[j..], owner, fields), owner, fields);
    DecodeAbove(es[j..], es[0].num, owner, fields);
  }

  lemma {:induction false} RunKept(es: seq<Entry>, f: FieldDesc, owner: string, fields: OptionFields)
    requires es != [] && AllShrink(es) && Sorted(es) && TidyEntries(es, owner, fields)
    requires TotalRaw(es) < MAX_INPUT && Plain(DecodeEntries(es, owner, fields), owner, fields)
    requires fields.Submessage(owner, es[0].num) == Some(f) && es[0].payload.Some? && !f.repeated
    ensures Written(EmitAll(es, owner, fields), DecodeEntries(es, owner, fields),
                    NothingLostIn(es, owner, fields), es[0].num - 1, owner, fields)
    decreases TotalRaw(es), -1
  {
    hide Decode, DecodeEntries, Plain, Merge, TidyEntries, Emit, NothingLost, Canon, RunLength, MergedPayload, Bodiless;
    var num := es[0].num;
    var j := RunLength(es, num);
    var run, rest := es[..j], es[j..];
    var sub := TrimLeadingDot(f.typeName);
    MergedShrinks(es, num);
    RunOff(es, j, owner, fields);
    EmitKeeps(rest, num, owner, fields);
    RunReads(run, f, num, owner, fields);
    BodyInRun(run);
    var merged := MergedPayload(run);
    PlainMerged(num, f, Bodiless(run), Decode(merged, sub, fields), owner, fields);
    CanonKeepsExactly(merged, sub, fields);
    CanonGrows(merged, sub, fields);
    var inner := Canon(merged, sub, fields).value;
    InRange(es, owner, fields);
    EmitReads(f, num, inner, owner, fields);
    var out := EmitAll(rest, owner, fields);
    assert out.Some? && EmitAll(es, owner, fields) == Some(Emit(f, num, inner, owner, fields) + out.value);
    var kept := NothingLostIn(rest, owner, fields);
    assert NothingLostIn(es, owner, fields) == (Bodiless(run) == [] && NothingLost(merged, sub, fields) && kept);
    hide *;
    WrittenRun(Emit(f, num, inner, owner, fields), num, Val([], [], Some(Decode(inner, sub, fields))),
               Val(Bodiless(run), [], Some(Decode(merged, sub, fields))),
               out.value, DecodeEntries(rest, owner, fields), kept, owner, fields);
  }

  lemma {:induction false} InRange(es: seq<Entry>, owner: string, fields: OptionFields)
    requires es != [] && AllShrink(es) && TidyEntries(es, owner, fields)
    ensures 1 <= es[0].num <= MAX_FIELD_NUMBER
  {
    hide Aligned, Tidy;
  }

  lemma {:induction false} BodyInRun(es: seq<Entry>)
    requires es != [] && es[0].payload.Some?
    ensures |Bodiless(es)| < |es|
  {
    BodilessBound(es[1..]);
  }

  // ---------------------------------------------------------------------------

  lemma {:induction false} CleanIsTidy(raw: Bytes, owner: string, fields: OptionFields)
    requires Clean(raw, owner, fields)
    ensures Tidy(raw, owner, fields)
    decreases |raw|, 2
  {
    hide CleanEntry, TidyEntry, HeadEntry;
    EntriesShrink(raw);
    CleanEntriesTidy(ParseEntries(raw).entries, owner, fields);
  }

  lemma {:induction false} CleanEntriesTidy(es: seq<Entry>, owner: string, fields: OptionFields)
    requires AllShrink(es) && CleanEntries(es, owner, fields)
    ensures TidyEntries(es, owner, fields)
    decreases TotalRaw(es), 1
  {
    hide Clean, Tidy, HeadEntry, Content;
    if es != [] {
      var e := es[0];
      assert Shrinks(e);
      var f := fields.Submessage(owner, e.num);
      if f.Some? {
        CleanIsTidy(Content(e.raw).value, TrimLeadingDot(f.value.typeName), fields);
      }
      CleanEntriesTidy(es[1..], owner, fields);
    }
  }

  /** From clean input nothing is lost. */
  lemma {:induction false} CleanLosesNothing(raw: Bytes, owner: string, fields: OptionFields)
    requires Clean(raw, owner, fields) && |raw| < MAX_INPUT && Plain(Decode(raw, owner, fields), owner, fields)
    ensures Tidy(raw, owner, fields) && NothingLost(raw, owner, fields)
  {
    hide *;
    CleanIsTidy(raw, owner, fields);
    CanonPreservesMeaning(raw, owner, fields);
    CanonKeepsExactly(raw, owner, fields);
  }
}
