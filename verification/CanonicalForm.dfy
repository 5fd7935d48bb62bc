/**
 Serializing an option value in field-number order, and the first half of the
 canonicalizer's correctness: on clean input it returns the serialization of the
 value the input carries.
 */
module CanonicalForm {
  import opened Wrappers
  import opened Wire
  import opened WireEntries
  import opened OptionSchema
  import opened OptionValue
  import opened EntrySort
  import opened OptionDecode
  import opened OptionCanon

  function Serialize(m: Msg, owner: string, fields: OptionFields): Bytes
    decreases m
  {
    if m.Nil? then []
    else SerializeVal(m.num, m.val, owner, fields) + Serialize(m.rest, owner, fields)
  }

  function SerializeVal(num: nat, v: Val, owner: string, fields: OptionFields): Bytes
    decreases v, 1
  {
    match fields.Submessage(owner, num)
    case None => Concat(v.raws)
    case Some(f) =>
      if f.repeated then SerializeItems(v.items, f, num, owner, fields)
      else if v.merged.Some? then
        Emit(f, num, Serialize(v.merged.value, TrimLeadingDot(f.typeName), fields), owner, fields)
      else []
  }

  function SerializeItems(items: seq<Msg>, f: FieldDesc, num: nat, owner: string, fields: OptionFields): Bytes
    decreases items
  {
    if items == [] then []
    else
      Emit(f, num, Serialize(items[0], TrimLeadingDot(f.typeName), fields), owner, fields)
      + SerializeItems(items[1..], f, num, owner, fields)
  }

  function Concat(parts: seq<Bytes>): Bytes {
    if parts == [] then [] else parts[0] + Concat(parts[1..])
  }

  /** Numbers increase from above lo, and every value is of the sort its field calls for. */
  predicate Typed(m: Msg, lo: nat, owner: string, fields: OptionFields)
    decreases m
  {
    m.Cons? ==>
      && lo < m.num
      && TypedVal(m.num, m.val, owner, fields)
      && Typed(m.rest, m.num, owner, fields)
  }

  predicate TypedVal(num: nat, v: Val, owner: string, fields: OptionFields)
    decreases v
  {
    match fields.Submessage(owner, num)
    case None =>
      v.raws != [] && v.items == [] && v.merged.None? && forall r <- v.raws :: LeafField(r, num)
    case Some(f) =>
      var sub := TrimLeadingDot(f.typeName);
      && v.raws == []
      && num <= MAX_FIELD_NUMBER
      && if f.repeated then v.items != [] && v.merged.None? && forall i <- v.items :: Typed(i, 0, sub, fields)
         else v.items == [] && v.merged.Some? && Typed(v.merged.value, 0, sub, fields)
  }

  /** No message of the value is one that is written as a MessageSet item. */
  predicate Plain(m: Msg, owner: string, fields: OptionFields)
    decreases m
  {
    m.Cons? ==> PlainVal(m.num, m.val, owner, fields) && Plain(m.rest, owner, fields)
  }

  predicate PlainVal(num: nat, v: Val, owner: string, fields: OptionFields)
    decreases v
  {
    var f := fields.Submessage(owner, num);
    f.Some? && (v.items != [] || v.merged.Some?) ==>
      && !fields.AsItem(owner, num)
      && (forall i <- v.items :: Plain(i, TrimLeadingDot(f.value.typeName), fields))
      && (v.merged.Some? ==> Plain(v.merged.value, TrimLeadingDot(f.value.typeName), fields))
  }

  predicate LeafField(raw: Bytes, num: nat) {
    HeadEntry(raw).Field? && IsField(raw, HeadEntry(raw).entry) && Aligned(HeadEntry(raw).entry)
    && HeadEntry(raw).entry.num == num
  }

  // ---------------------------------------------------------------------------

  lemma {:induction false} TypedMerge(a: Msg, b: Msg, lo: nat, owner: string, fields: OptionFields)
    requires Typed(a, lo, owner, fields) && Typed(b, lo, owner, fields)
    ensures Typed(Merge(a, b), lo, owner, fields)
    decreases a, b
  {
    if a.Cons? && b.Cons? {
      if a.num < b.num {
        TypedMerge(a.rest, b, a.num, owner, fields);
      } else if b.num < a.num {
        TypedMerge(a, b.rest, b.num, owner, fields);
      } else {
        TypedMergeVal(a.num, a.val, b.val, owner, fields);
        TypedMerge(a.rest, b.rest, a.num, owner, fields);
      }
    }
  }

  lemma {:induction false} TypedMergeVal(num: nat, u: Val, v: Val, owner: string, fields: OptionFields)
    requires TypedVal(num, u, owner, fields) && TypedVal(num, v, owner, fields)
    ensures TypedVal(num, MergeVal(u, v), owner, fields)
    decreases u, v
  {
    var f := fields.Submessage(owner, num);
    if f.Some? && !f.value.repeated {
      TypedMerge(u.merged.value, v.merged.value, 0, TrimLeadingDot(f.value.typeName), fields);
    }
  }

  /** Merging neither brings in an item nor removes one. */
  lemma {:induction false} PlainMerge(a: Msg, b: Msg, owner: string, fields: OptionFields)
    ensures Plain(Merge(a, b), owner, fields) <==> Plain(a, owner, fields) && Plain(b, owner, fields)
    decreases a, b
  {
    hide PlainVal;
    if a.Cons? && b.Cons? {
      if a.num < b.num {
        PlainMerge(a.rest, b, owner, fields);
      } else if b.num < a.num {
        PlainMerge(a, b.rest, owner, fields);
      } else {
        PlainMergeVal(a.num, a.val, b.val, owner, fields);
        PlainMerge(a.rest, b.rest, owner, fields);
      }
    }
  }

  lemma {:induction false} PlainMergeVal(num: nat, u: Val, v: Val, owner: string, fields: OptionFields)
    ensures PlainVal(num, MergeVal(u, v), owner, fields)
       <==> PlainVal(num, u, owner, fields) && PlainVal(num, v, owner, fields)
    decreases u, v
  {
    hide Plain;
    var f := fields.Submessage(owner, num);
    if f.Some? {
      var sub := TrimLeadingDot(f.value.typeName);
      assert forall i :: i in u.items + v.items <==> i in u.items || i in v.items;
      if u.merged.Some? && v.merged.Some? {
        PlainMerge(u.merged.value, v.merged.value, sub, fields);
      }
    }
  }

  lemma {:induction false} DecodeTyped(raw: Bytes, owner: string, fields: OptionFields)
    requires Clean(raw, owner, fields)
    ensures Typed(Decode(raw, owner, fields), 0, owner, fields)
    decreases |raw|, 2
  {
    EntriesShrink(raw);
    DecodeEntriesTyped(ParseEntries(raw).entries, owner, fields);
  }

  lemma {:induction false} DecodeEntriesTyped(es: seq<Entry>, owner: string, fields: OptionFields)
    requires AllShrink(es) && CleanEntries(es, owner, fields)
    ensures Typed(DecodeEntries(es, owner, fields), 0, owner, fields)
    decreases TotalRaw(es), 1
  {
    if es != [] {
      assert Shrinks(es[0]);
      DecodeEntryTyped(es[0], owner, fields);
      DecodeEntriesTyped(es[1..], owner, fields);
      TypedMerge(DecodeEntry(es[0], owner, fields), DecodeEntries(es[1..], owner, fields), 0, owner, fields);
    }
  }

  lemma {:induction false} DecodeEntryTyped(e: Entry, owner: string, fields: OptionFields)
    requires CleanEntry(e, owner, fields)
    ensures Typed(DecodeEntry(e, owner, fields), 0, owner, fields)
    decreases |e.raw|, 0
  {
    var f := fields.Submessage(owner, e.num);
    if f.Some? {
      DecodeTyped(Content(e.raw).value, TrimLeadingDot(f.value.typeName), fields);
    }
  }

  // ---------------------------------------------------------------------------

  lemma {:induction false} MergeHead(num: nat, v: Val, m: Msg)
    requires m.Cons? ==> num <= m.num
    ensures Merge(Single(num, v), m)
         == if m.Cons? && m.num == num then Cons(num, MergeVal(v, m.val), m.rest) else Cons(num, v, m)
  {
  }

  /** Serializing after adding one scalar occurrence or repeated entry in front. */
  lemma {:induction false} SerializeFirst(num: nat, v: Val, m: Msg, owner: string, fields: OptionFields)
    requires m.Cons? ==> num <= m.num
    requires fields.Submessage(owner, num).None? || fields.Submessage(owner, num).value.repeated
    requires |v.raws| + |v.items| == 1
    requires fields.Submessage(owner, num).None? <==> |v.raws| == 1
    ensures Serialize(Merge(Single(num, v), m), owner, fields)
         == SerializeVal(num, v, owner, fields) + Serialize(m, owner, fields)
  {
    hide SerializeVal;
    MergeHead(num, v, m);
    if m.Cons? && m.num == num {
      SerializeValFirst(num, v, m.val, owner, fields);
    }
  }

  lemma {:induction false} OneRaw(raw: Bytes)
    ensures Concat([raw]) == raw
  {
    assert Concat([raw]) == raw + Concat([]);
  }

  lemma {:induction false} OneItem(m: Msg, f: FieldDesc, num: nat, owner: string, fields: OptionFields)
    ensures SerializeItems([m], f, num, owner, fields)
         == Emit(f, num, Serialize(m, TrimLeadingDot(f.typeName), fields), owner, fields)
  {
    hide Emit, Serialize;
    assert SerializeItems([m][1..], f, num, owner, fields) == [];
  }

  lemma {:induction false} SerializeValFirst(num: nat, v: Val, w: Val, owner: string, fields: OptionFields)
    requires fields.Submessage(owner, num).None? || fields.Submessage(owner, num).value.repeated
    requires |v.raws| + |v.items| == 1
    requires fields.Submessage(owner, num).None? <==> |v.raws| == 1
    ensures SerializeVal(num, MergeVal(v, w), owner, fields)
         == SerializeVal(num, v, owner, fields) + SerializeVal(num, w, owner, fields)
  {
    hide Emit, Serialize;
    var u := MergeVal(v, w);
    if fields.Submessage(owner, num).None? {
      assert u.raws[0] == v.raws[0];
      assert u.raws[1..] == w.raws;
      OneRaw(v.raws[0]);
      assert v.raws == [v.raws[0]];
    } else {
      assert u.items[0] == v.items[0];
      assert u.items[1..] == w.items;
      OneItem(v.items[0], fields.Submessage(owner, num).value, num, owner, fields);
      assert v.items == [v.items[0]];
    }
  }

  /** A run of fragments of one singular submessage decodes to their merged payload's value. */
  lemma {:induction false} RunDecodes(es: seq<Entry>, f: FieldDesc, num: nat, owner: string, fields: OptionFields)
    requires es != [] && AllShrink(es) && CleanEntries(es, owner, fields)
    requires fields.Submessage(owner, num) == Some(f) && !f.repeated
    requires forall e <- es :: e.num == num
    ensures Clean(MergedPayload(es), TrimLeadingDot(f.typeName), fields)
    ensures DecodeEntries(es, owner, fields)
         == Single(num, Val([], [], Some(Decode(MergedPayload(es), TrimLeadingDot(f.typeName), fields))))
  {
    hide Clean, Decode, HeadEntry, Content;
    var sub := TrimLeadingDot(f.typeName);
    assert es[0] in es;
    var body := es[0].payload.value;
    if |es| == 1 {
      assert MergedPayload(es[1..]) == [];
      assert body + [] == body;
      assert DecodeEntries(es[1..], owner, fields) == Nil;
    } else {
      var tail := MergedPayload(es[1..]);
      RunDecodes(es[1..], f, num, owner, fields);
      DecodeConcat(body, tail, sub, fields);
      assert MergedPayload(es) == body + tail;
      var u, v := DecodeEntry(es[0], owner, fields), DecodeEntries(es[1..], owner, fields);
      assert u == Single(num, Val([], [], Some(Decode(body, sub, fields))));
      MergeHead(num, u.val, v);
      assert MergeVal(u.val, v.val).raws == [] && MergeVal(u.val, v.val).items == [];
    }
  }

  lemma {:induction false} CanonSerializes(raw: Bytes, owner: string, fields: OptionFields)
    requires Clean(raw, owner, fields)
    ensures Canon(raw, owner, fields) == Some(Serialize(Decode(raw, owner, fields), owner, fields))
    decreases |raw|, 1
  {
    var es := ParseEntries(raw).entries;
    EntriesShrink(raw);
    SortDecodes(es, owner, fields);
    SortIsStable(es, 0);
    EmitSerializes(SortByNum(es), owner, fields);
  }

  lemma {:induction false} EmitSerializes(es: seq<Entry>, owner: string, fields: OptionFields)
    requires AllShrink(es) && Sorted(es) && CleanEntries(es, owner, fields)
    ensures EmitAll(es, owner, fields) == Some(Serialize(DecodeEntries(es, owner, fields), owner, fields))
    decreases TotalRaw(es), 0
  {
    if es != [] {
      var e := es[0];
      assert Shrinks(e);
      var f := fields.Submessage(owner, e.num);
      if f.Some? && !f.value.repeated {
        EmitRun(es, f.value, owner, fields);
      } else {
        EmitOne(es, owner, fields);
      }
    }
  }

  lemma {:induction false} EmitOne(es: seq<Entry>, owner: string, fields: OptionFields)
    requires es != [] && AllShrink(es) && Sorted(es) && CleanEntries(es, owner, fields)
    requires var f := fields.Submessage(owner, es[0].num); f.None? || f.value.repeated
    ensures EmitAll(es, owner, fields) == Some(Serialize(DecodeEntries(es, owner, fields), owner, fields))
    decreases TotalRaw(es), -1
  {
    hide Emit, SerializeVal, Decode, Clean, DecodeEntry, HeadEntry, Content;
    var e := es[0];
    assert Shrinks(e);
    var f := fields.Submessage(owner, e.num);
    if f.Some? {
      CanonSerializes(e.payload.value, TrimLeadingDot(f.value.typeName), fields);
    }
    EmitSerializes(es[1..], owner, fields);
    var m := DecodeEntries(es[1..], owner, fields);
    HeadNum(es, owner, fields);
    var v := DecodeEntry(e, owner, fields).val;
    EntrySerializes(e, owner, fields);
    SerializeFirst(e.num, v, m, owner, fields);
  }

  lemma {:induction false} EntrySerializes(e: Entry, owner: string, fields: OptionFields)
    requires CleanEntry(e, owner, fields)
    requires var f := fields.Submessage(owner, e.num); f.None? || f.value.repeated
    ensures var f, v := fields.Submessage(owner, e.num), DecodeEntry(e, owner, fields).val;
            && (f.None? ==> v == Val([e.raw], [], None) && SerializeVal(e.num, v, owner, fields) == e.raw)
            && (f.Some? ==>
                  var sub := TrimLeadingDot(f.value.typeName);
                  && v == Val([], [Decode(e.payload.value, sub, fields)], None)
                  && SerializeVal(e.num, v, owner, fields)
                  == Emit(f.value, e.num, Serialize(v.items[0], sub, fields), owner, fields))
  {
    hide Decode, Clean, Emit, HeadEntry, Content, Serialize;
    var v := DecodeEntry(e, owner, fields).val;
    if fields.Submessage(owner, e.num).None? {
      OneRaw(e.raw);
    } else {
      OneItem(v.items[0], fields.Submessage(owner, e.num).value, e.num, owner, fields);
    }
  }

  lemma {:induction false} HeadNum(es: seq<Entry>, owner: string, fields: OptionFields)
    requires es != [] && AllShrink(es) && Sorted(es)
    ensures var m := DecodeEntries(es[1..], owner, fields); m.Cons? ==> es[0].num <= m.num
  {
    SortedAbove(es);
    DecodeAbove(es[1..], es[0].num - 1, owner, fields);
  }

  lemma {:induction false} EmitRun(es: seq<Entry>, f: FieldDesc, owner: string, fields: OptionFields)
    requires es != [] && AllShrink(es) && Sorted(es) && CleanEntries(es, owner, fields)
    requires fields.Submessage(owner, es[0].num) == Some(f) && !f.repeated
    ensures EmitAll(es, owner, fields) == Some(Serialize(DecodeEntries(es, owner, fields), owner, fields))
    decreases TotalRaw(es), -1
  {
    hide Decode, Clean, Canon, Emit;
    var num := es[0].num;
    var j := RunLength(es, num);
    var run, rest := es[..j], es[j..];
    assert es == run + rest;
    CleanAppend(run, rest, owner, fields);
    RunDecodes(run, f, num, owner, fields);
    MergedShrinks(es, num);
    CanonSerializes(MergedPayload(run), TrimLeadingDot(f.typeName), fields);
    SortedSuffix(es, j);
    EmitSerializes(rest, owner, fields);
    DecodeAppend(run, rest, owner, fields);
    RestAbove(es, j, owner, fields);
  }

  lemma {:induction false} SortedSuffix(es: seq<Entry>, j: nat)
    requires Sorted(es) && j <= |es|
    ensures Sorted(es[j..])
  {
    if j > 0 {
      SortedSuffix(es[1..], j - 1);
      assert es[1..][j - 1..] == es[j..];
    }
  }

  lemma {:induction false} RestAbove(es: seq<Entry>, j: nat, owner: string, fields: OptionFields)
    requires es != [] && AllShrink(es) && Sorted(es) && j == RunLength(es, es[0].num)
    ensures AllShrink(es[j..]) && Above(DecodeEntries(es[j..], owner, fields), es[0].num)
  {
    SortedAbove(es);
    SortedSuffix(es, j);
    SortedAbove(es[j..]);
    if j < |es| {
      assert es[j].num > es[0].num;
    }
    DecodeAbove(es[j..], es[0].num, owner, fields);
  }
}
