/**
 What canonical bytes look like, said of the bytes alone, and that these are
 exactly the inputs the canonicalizer returns unchanged.
 */
module CanonicalShape {
  import opened Wrappers
  import opened Wire
  import opened WireEntries
  import opened OptionSchema
  import opened OptionValue
  import opened EntrySort
  import opened OptionDecode
  import opened OptionCanon
  import opened CanonicalForm
  import opened CanonicalRoundTrip
  import opened NormalForm

  predicate Singular(owner: string, num: int, fields: OptionFields) {
    fields.Submessage(owner, num).Some? && !fields.Submessage(owner, num).value.repeated
  }

  /**
   Fields stand in number order, a singular submessage occurs once, and every
   submessage is written in its field's encoding with the shortest tag and length
   and is canonical itself.
   */
  predicate Canonical(raw: Bytes, owner: string, fields: OptionFields)
    decreases |raw|, 2
  {
    match ParseEntries(raw)
    case Entries(es) =>
      EntriesShrink(raw);
      CanonicalEntries(es, owner, fields)
    case _ => false
  }

  predicate CanonicalEntries(es: seq<Entry>, owner: string, fields: OptionFields)
    requires AllShrink(es)
    decreases TotalRaw(es), 1
  {
    es != [] ==>
      assert Shrinks(es[0]);
      && CanonicalEntry(es[0], owner, fields)
      && (|es| > 1 ==> Follows(es[0].num, es[1].num, owner, fields))
      && CanonicalEntries(es[1..], owner, fields)
  }

  predicate Follows(num: int, next: int, owner: string, fields: OptionFields) {
    num < next || (num == next && !Singular(owner, num, fields))
  }

  predicate CanonicalEntry(e: Entry, owner: string, fields: OptionFields)
    decreases |e.raw|, 0
  {
    match (fields.Submessage(owner, e.num), Content(e.raw))
    case (Some(f), Some(body)) =>
      && e.raw == Emit(f, e.num, body, owner, fields)
      && Canonical(body, TrimLeadingDot(f.typeName), fields)
    case _ => true
  }

  // ---------------------------------------------------------------------------
  // The output is canonical.

  lemma {:induction false} CanonicalAppend(e: Entry, es: seq<Entry>, owner: string, fields: OptionFields)
    requires Shrinks(e) && AllShrink(es)
    requires CanonicalEntry(e, owner, fields) && CanonicalEntries(es, owner, fields)
    requires es != [] ==> Follows(e.num, es[0].num, owner, fields)
    ensures AllShrink([e] + es) && CanonicalEntries([e] + es, owner, fields)
  {
    hide CanonicalEntry;
    assert ([e] + es)[1..] == es;
  }

  /** es are canonical entries, the first numbered num. */
  ghost predicate CanonicalFrom(raw: Bytes, num: nat, owner: string, fields: OptionFields) {
    && Canonical(raw, owner, fields)
    && ParseEntries(raw).entries != []
    && ParseEntries(raw).entries[0].num == num
  }

  lemma {:induction false} PrependField(first: Bytes, e: Entry, raw: Bytes, owner: string, fields: OptionFields)
    requires IsField(first, e) && Shrinks(e)
    requires CanonicalEntry(e, owner, fields) && Canonical(raw, owner, fields)
    requires var es := ParseEntries(raw).entries; es != [] ==> Follows(e.num, es[0].num, owner, fields)
    ensures CanonicalFrom(first + raw, e.num, owner, fields)
  {
    hide CanonicalEntry, HeadEntry;
    SingleField(first, e);
    ParseAppend(first, raw);
    EntriesShrink(raw);
    CanonicalAppend(e, ParseEntries(raw).entries, owner, fields);
  }

  lemma {:induction false} EmitCanonical(
    f: FieldDesc, num: nat, body: Bytes, raw: Bytes, owner: string, fields: OptionFields)
    requires !fields.AsItem(owner, num) && fields.Submessage(owner, num) == Some(f)
    requires 1 <= num <= MAX_FIELD_NUMBER && |body| < MAX_LENGTH
    requires Canonical(body, TrimLeadingDot(f.typeName), fields)
    requires Canonical(raw, owner, fields)
    requires var es := ParseEntries(raw).entries; es != [] ==> Follows(num, es[0].num, owner, fields)
    ensures CanonicalFrom(Emit(f, num, body, owner, fields) + raw, num, owner, fields)
  {
    hide HeadEntry, Content, Canonical, AppendTag, AppendBytes;
    var first := Emit(f, num, body, owner, fields);
    var e := Entry(num, if f.kind == Group then START_GROUP else BYTES, Some(body), first);
    assert ParseEntries(body).Entries? by {
      ParsesWhenCanonical(body, TrimLeadingDot(f.typeName), fields);
    }
    if f.kind == Group {
      GroupFieldParses(num, body);
    } else {
      BytesFieldParses(num, body);
    }
    ContentShorter(first);
    PrependField(first, e, raw, owner, fields);
  }

  lemma {:induction false} ParsesWhenCanonical(raw: Bytes, owner: string, fields: OptionFields)
    requires Canonical(raw, owner, fields)
    ensures ParseEntries(raw).Entries?
  {
  }

  lemma {:induction false} EmptyCanonical(owner: string, fields: OptionFields)
    ensures Canonical([], owner, fields) && ParseEntries([]).entries == []
  {
  }

  lemma {:induction false} SerializeCanonical(m: Msg, lo: nat, owner: string, fields: OptionFields)
    requires Typed(m, lo, owner, fields) && Plain(m, owner, fields)
    requires |Serialize(m, owner, fields)| < MAX_LENGTH
    ensures Canonical(Serialize(m, owner, fields), owner, fields)
    ensures m.Cons? ==> CanonicalFrom(Serialize(m, owner, fields), m.num, owner, fields)
    ensures m.Nil? ==> Serialize(m, owner, fields) == []
    decreases m, 2
  {
    hide Canonical, SerializeVal, TypedVal;
    EmptyCanonical(owner, fields);
    if m.Cons? {
      var rest := Serialize(m.rest, owner, fields);
      SerializeCanonical(m.rest, m.num, owner, fields);
      SerializeValCanonical(m.num, m.val, rest, owner, fields);
    }
  }

  /** rest continues with higher numbers only. */
  ghost predicate Continues(rest: Bytes, num: nat, owner: string, fields: OptionFields) {
    && Canonical(rest, owner, fields)
    && (ParseEntries(rest).entries != [] ==> num < ParseEntries(rest).entries[0].num)
  }

  lemma {:induction false} SerializeValCanonical(num: nat, v: Val, rest: Bytes, owner: string, fields: OptionFields)
    requires TypedVal(num, v, owner, fields) && PlainVal(num, v, owner, fields) && 1 <= num
    requires |SerializeVal(num, v, owner, fields)| < MAX_LENGTH
    requires Continues(rest, num, owner, fields)
    ensures CanonicalFrom(SerializeVal(num, v, owner, fields) + rest, num, owner, fields)
    decreases v, 1
  {
    hide Canonical, Emit, LeafField;
    match fields.Submessage(owner, num)
    case None =>
      RawsCanonical(v.raws, num, rest, owner, fields);
    case Some(f) =>
      if f.repeated {
        ItemsCanonical(v.items, f, num, rest, owner, fields);
      } else {
        var sub := TrimLeadingDot(f.typeName);
        var body := Serialize(v.merged.value, sub, fields);
        EmitLonger(f, num, body, owner, fields);
        SerializeCanonical(v.merged.value, 0, sub, fields);
        EmitCanonical(f, num, body, rest, owner, fields);
      }
  }

  lemma {:induction false} RawsCanonical(raws: seq<Bytes>, num: nat, rest: Bytes, owner: string, fields: OptionFields)
    requires raws != [] && fields.Submessage(owner, num).None?
    requires forall r <- raws :: LeafField(r, num)
    requires Continues(rest, num, owner, fields)
    ensures CanonicalFrom(Concat(raws) + rest, num, owner, fields)
  {
    hide Canonical, HeadEntry, Content;
    var r := raws[0];
    var tail := Concat(raws[1..]) + rest;
    assert Concat(raws) + rest == r + tail;
    if |raws| == 1 {
      assert tail == rest;
    } else {
      RawsCanonical(raws[1..], num, rest, owner, fields);
    }
    assert LeafField(r, num);
    LeafShrinks(r, num);
    PrependField(r, HeadEntry(r).entry, tail, owner, fields);
  }

  lemma {:induction false} LeafShrinks(raw: Bytes, num: nat)
    requires LeafField(raw, num)
    ensures Shrinks(HeadEntry(raw).entry)
  {
  }

  lemma {:induction false} ItemsCanonical(
    items: seq<Msg>, f: FieldDesc, num: nat, rest: Bytes, owner: string, fields: OptionFields)
    requires items != [] && fields.Submessage(owner, num) == Some(f) && f.repeated
    requires !fields.AsItem(owner, num) && forall i <- items :: Plain(i, TrimLeadingDot(f.typeName), fields)
    requires 1 <= num <= MAX_FIELD_NUMBER
    requires forall i <- items :: Typed(i, 0, TrimLeadingDot(f.typeName), fields)
    requires |SerializeItems(items, f, num, owner, fields)| < MAX_LENGTH
    requires Continues(rest, num, owner, fields)
    ensures CanonicalFrom(SerializeItems(items, f, num, owner, fields) + rest, num, owner, fields)
    decreases items
  {
    hide Canonical, Emit, Typed;
    var sub := TrimLeadingDot(f.typeName);
    var body := Serialize(items[0], sub, fields);
    var first := Emit(f, num, body, owner, fields);
    EmitLonger(f, num, body, owner, fields);
    assert Typed(items[0], 0, sub, fields) && Plain(items[0], sub, fields);
    SerializeCanonical(items[0], 0, sub, fields);
    var tail := SerializeItems(items[1..], f, num, owner, fields) + rest;
    assert SerializeItems(items, f, num, owner, fields) + rest == first + tail;
    if |items| == 1 {
      assert tail == rest;
    } else {
      ItemsCanonical(items[1..], f, num, rest, owner, fields);
    }
    EmitCanonical(f, num, body, tail, owner, fields);
  }

  // ---------------------------------------------------------------------------
  // Canonical input is returned unchanged.

  lemma {:induction false} CanonicalSerializes(raw: Bytes, owner: string, fields: OptionFields)
    requires Clean(raw, owner, fields) && Canonical(raw, owner, fields)
    ensures Serialize(Decode(raw, owner, fields), owner, fields) == raw
    decreases |raw|, 2
  {
    EntriesShrink(raw);
    CanonicalEntriesSerialize(ParseEntries(raw).entries, owner, fields);
    RawsOfEntries(raw);
  }

  function Raws(es: seq<Entry>): Bytes {
    if es == [] then [] else es[0].raw + Raws(es[1..])
  }

  lemma {:induction false} RawsOfEntries(raw: Bytes)
    requires ParseEntries(raw).Entries?
    ensures Raws(ParseEntries(raw).entries) == raw
    decreases |raw|
  {
    hide HeadEntry;
    if raw != [] {
      var e := HeadEntry(raw).entry;
      RawsOfEntries(raw[|e.raw|..]);
      assert raw == e.raw + raw[|e.raw|..];
      assert ParseEntries(raw).entries == [e] + ParseEntries(raw[|e.raw|..]).entries;
    }
  }

  lemma {:induction false} CanonicalEntriesSerialize(es: seq<Entry>, owner: string, fields: OptionFields)
    requires AllShrink(es) && CleanEntries(es, owner, fields) && CanonicalEntries(es, owner, fields)
    ensures Serialize(DecodeEntries(es, owner, fields), owner, fields) == Raws(es)
    decreases TotalRaw(es), 1
  {
    hide Clean, Decode, Canonical, SerializeVal, DecodeEntry, CanonicalEntry, CleanEntry;
    if es != [] {
      var e := es[0];
      assert Shrinks(e);
      CanonicalEntriesSerialize(es[1..], owner, fields);
      CanonicalEntrySerializes(e, owner, fields);
      var m := DecodeEntries(es[1..], owner, fields);
      CanonicalSorted(es, owner, fields);
      HeadNum(es, owner, fields);
      var v := DecodeEntry(e, owner, fields).val;
      if Singular(owner, e.num, fields) {
        SingularHead(es, owner, fields);
        MergeHead(e.num, v, m);
      } else {
        OneOccurrence(e, owner, fields);
        SerializeFirst(e.num, v, m, owner, fields);
      }
    }
  }

  lemma {:induction false} OneOccurrence(e: Entry, owner: string, fields: OptionFields)
    requires CleanEntry(e, owner, fields)
    ensures var v := DecodeEntry(e, owner, fields).val;
            && (!Singular(owner, e.num, fields) ==> |v.raws| + |v.items| == 1)
            && (fields.Submessage(owner, e.num).None? <==> |v.raws| == 1)
  {
    hide Clean, Decode, HeadEntry, Content;
  }

  lemma {:induction false} SingularHead(es: seq<Entry>, owner: string, fields: OptionFields)
    requires es != [] && AllShrink(es) && Singular(owner, es[0].num, fields)
    requires CanonicalEntries(es, owner, fields)
    ensures Above(DecodeEntries(es[1..], owner, fields), es[0].num)
  {
    hide CanonicalEntry;
    CanonicalSorted(es, owner, fields);
    SortedAbove(es[1..]);
    DecodeAbove(es[1..], es[0].num, owner, fields);
  }

  lemma {:induction false} CanonicalSorted(es: seq<Entry>, owner: string, fields: OptionFields)
    requires AllShrink(es) && CanonicalEntries(es, owner, fields)
    ensures Sorted(es)
  {
    hide CanonicalEntry;
    if es != [] {
      CanonicalSorted(es[1..], owner, fields);
    }
  }

  lemma {:induction false} CanonicalEntrySerializes(e: Entry, owner: string, fields: OptionFields)
    requires CleanEntry(e, owner, fields) && CanonicalEntry(e, owner, fields)
    ensures SerializeVal(e.num, DecodeEntry(e, owner, fields).val, owner, fields) == e.raw
    decreases |e.raw|, 0
  {
    hide Clean, Decode, Canonical, HeadEntry, Content, Emit, Serialize;
    match fields.Submessage(owner, e.num)
    case None =>
      OneRaw(e.raw);
    case Some(f) =>
      var sub := TrimLeadingDot(f.typeName);
      var body := Content(e.raw).value;
      ContentShorter(e.raw);
      CanonicalSerializes(body, sub, fields);
      OneItem(Decode(body, sub, fields), f, e.num, owner, fields);
  }

  /** The canonicalizer leaves exactly the canonical inputs alone. */
  lemma {:induction false} CanonFixedPoints(raw: Bytes, owner: string, fields: OptionFields)
    requires Clean(raw, owner, fields) && |raw| < MAX_INPUT && Plain(Decode(raw, owner, fields), owner, fields)
    ensures Canon(raw, owner, fields) == Some(raw) <==> Canonical(raw, owner, fields)
  {
    hide Clean, Decode, Canonical, Canon, Serialize;
    var m := Decode(raw, owner, fields);
    CanonSerializes(raw, owner, fields);
    if Canonical(raw, owner, fields) {
      CanonicalSerializes(raw, owner, fields);
    }
    DecodeTyped(raw, owner, fields);
    CanonLength(raw, owner, fields);
    SerializeCanonical(m, 0, owner, fields);
  }

  /** What it returns is canonical at every level. */
  lemma {:induction false} CanonIsCanonical(raw: Bytes, owner: string, fields: OptionFields)
    requires Clean(raw, owner, fields) && |raw| < MAX_INPUT && Plain(Decode(raw, owner, fields), owner, fields)
    ensures Canon(raw, owner, fields).Some?
    ensures Canonical(Canon(raw, owner, fields).value, owner, fields)
  {
    hide Clean, Decode, Canonical, Canon, Serialize;
    CanonSerializes(raw, owner, fields);
    DecodeTyped(raw, owner, fields);
    CanonLength(raw, owner, fields);
    SerializeCanonical(Decode(raw, owner, fields), 0, owner, fields);
  }
}
