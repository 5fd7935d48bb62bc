/**
 The meaning of encoded option fields: a schema-directed decoder written against
 the wire grammar alone. A field adds to the value decoded so far by merging, so
 a singular submessage given in pieces is one value and repeated entries are
 separate ones.
 */
module OptionDecode {
  import opened Wrappers
  import opened Wire
  import opened WireEntries
  import opened OptionSchema
  import opened OptionValue
  import opened EntrySort

  function Decode(raw: Bytes, owner: string, fields: OptionFields): Msg
    decreases |raw|, 2
  {
    match ParseEntries(raw)
    case Entries(es) =>
      EntriesShrink(raw);
      DecodeEntries(es, owner, fields)
    case _ => Nil
  }

  ghost predicate AllShrink(es: seq<Entry>) {
    forall e <- es :: Shrinks(e)
  }

  function DecodeEntries(es: seq<Entry>, owner: string, fields: OptionFields): Msg
    requires AllShrink(es)
    decreases TotalRaw(es), 1
  {
    if es == [] then Nil
    else
      assert Shrinks(es[0]);
      Merge(DecodeEntry(es[0], owner, fields), DecodeEntries(es[1..], owner, fields))
  }

  function DecodeEntry(e: Entry, owner: string, fields: OptionFields): (m: Msg)
    ensures m.Cons? && m.num == e.num && m.rest == Nil
    decreases |e.raw|, 0
  {
    match (fields.Submessage(owner, e.num), Content(e.raw))
    case (Some(f), Some(body)) =>
      var m := Decode(body, TrimLeadingDot(f.typeName), fields);
      Single(e.num, if f.repeated then Val([], [m], None) else Val([], [], Some(m)))
    case _ => Single(e.num, Val([e.raw], [], None))
  }

  /**
   Input the canonicalizer is meant for: a well-formed sequence of fields whose
   groups have tags of one length, with every submessage field in one of the two
   submessage encodings and holding such input in turn.
   */
  predicate Clean(raw: Bytes, owner: string, fields: OptionFields)
    decreases |raw|, 2
  {
    match ParseEntries(raw)
    case Entries(es) =>
      EntriesShrink(raw);
      CleanEntries(es, owner, fields)
    case _ => false
  }

  predicate CleanEntries(es: seq<Entry>, owner: string, fields: OptionFields)
    requires AllShrink(es)
    decreases TotalRaw(es), 1
  {
    es != [] ==> CleanEntry(es[0], owner, fields) && CleanEntries(es[1..], owner, fields)
  }

  predicate CleanEntry(e: Entry, owner: string, fields: OptionFields)
    decreases |e.raw|, 0
  {
    && Aligned(e)
    && IsField(e.raw, e)
    && match fields.Submessage(owner, e.num)
       case None => true
       case Some(f) =>
         var body := Content(e.raw);
         body.Some? && Clean(body.value, TrimLeadingDot(f.typeName), fields)
  }

  // ---------------------------------------------------------------------------

  lemma {:induction false} DecodeAppend(a: seq<Entry>, b: seq<Entry>, owner: string, fields: OptionFields)
    requires AllShrink(a) && AllShrink(b)
    ensures AllShrink(a + b)
    ensures DecodeEntries(a + b, owner, fields)
         == Merge(DecodeEntries(a, owner, fields), DecodeEntries(b, owner, fields))
  {
    if a == [] {
      assert a + b == b;
    } else {
      assert (a + b)[1..] == a[1..] + b;
      DecodeAppend(a[1..], b, owner, fields);
      MergeAssoc(DecodeEntry(a[0], owner, fields), DecodeEntries(a[1..], owner, fields),
                 DecodeEntries(b, owner, fields));
    }
  }

  lemma {:induction false} CleanAppend(a: seq<Entry>, b: seq<Entry>, owner: string, fields: OptionFields)
    requires AllShrink(a) && AllShrink(b)
    ensures AllShrink(a + b)
    ensures CleanEntries(a + b, owner, fields) <==> CleanEntries(a, owner, fields) && CleanEntries(b, owner, fields)
  {
    if a == [] {
      assert a + b == b;
    } else {
      assert (a + b)[1..] == a[1..] + b;
      CleanAppend(a[1..], b, owner, fields);
    }
  }

  /** Concatenating encodings merges the values they carry. */
  lemma {:induction false} DecodeJoin(a: Bytes, b: Bytes, owner: string, fields: OptionFields)
    requires ParseEntries(a).Entries? && ParseEntries(b).Entries?
    ensures ParseEntries(a + b).Entries?
    ensures Decode(a + b, owner, fields) == Merge(Decode(a, owner, fields), Decode(b, owner, fields))
  {
    ParseAppend(a, b);
    EntriesShrink(a);
    EntriesShrink(b);
    DecodeAppend(ParseEntries(a).entries, ParseEntries(b).entries, owner, fields);
  }

  lemma {:induction false} DecodeConcat(a: Bytes, b: Bytes, owner: string, fields: OptionFields)
    requires Clean(a, owner, fields) && Clean(b, owner, fields)
    ensures Clean(a + b, owner, fields)
    ensures Decode(a + b, owner, fields) == Merge(Decode(a, owner, fields), Decode(b, owner, fields))
  {
    ParseAppend(a, b);
    EntriesShrink(a);
    EntriesShrink(b);
    DecodeJoin(a, b, owner, fields);
    CleanAppend(ParseEntries(a).entries, ParseEntries(b).entries, owner, fields);
  }

  lemma {:induction false} InsertDecodes(e: Entry, es: seq<Entry>, owner: string, fields: OptionFields)
    requires Shrinks(e) && AllShrink(es)
    ensures AllShrink(InsertEntry(e, es))
    ensures DecodeEntries(InsertEntry(e, es), owner, fields)
         == Merge(DecodeEntry(e, owner, fields), DecodeEntries(es, owner, fields))
    ensures CleanEntries(InsertEntry(e, es), owner, fields)
       <==> CleanEntry(e, owner, fields) && CleanEntries(es, owner, fields)
  {
    if es == [] || e.num <= es[0].num {
      assert ([e] + es)[1..] == es;
    } else {
      var r := InsertEntry(e, es[1..]);
      InsertDecodes(e, es[1..], owner, fields);
      assert ([es[0]] + r)[1..] == r;
      SwapEntries(e, es[0], DecodeEntries(es[1..], owner, fields), owner, fields);
    }
  }

  lemma {:induction false} SwapEntries(d: Entry, e: Entry, rest: Msg, owner: string, fields: OptionFields)
    requires d.num != e.num
    ensures Merge(DecodeEntry(d, owner, fields), Merge(DecodeEntry(e, owner, fields), rest))
         == Merge(DecodeEntry(e, owner, fields), Merge(DecodeEntry(d, owner, fields), rest))
  {
    MergeSwap(d.num, DecodeEntry(d, owner, fields).val, e.num, DecodeEntry(e, owner, fields).val, rest);
  }

  /** Sorting the entries by number changes neither their meaning nor their being clean. */
  lemma {:induction false} SortDecodes(es: seq<Entry>, owner: string, fields: OptionFields)
    requires AllShrink(es)
    ensures AllShrink(SortByNum(es))
    ensures DecodeEntries(SortByNum(es), owner, fields) == DecodeEntries(es, owner, fields)
    ensures CleanEntries(SortByNum(es), owner, fields) <==> CleanEntries(es, owner, fields)
  {
    if es != [] {
      SortDecodes(es[1..], owner, fields);
      InsertDecodes(es[0], SortByNum(es[1..]), owner, fields);
    }
  }

  /** The value's numbers are those of the entries, in order. */
  lemma {:induction false} DecodeAbove(es: seq<Entry>, lo: int, owner: string, fields: OptionFields)
    requires AllShrink(es)
    requires forall e <- es :: lo < e.num
    ensures Above(DecodeEntries(es, owner, fields), lo)
  {
    if es != [] {
      DecodeAbove(es[1..], lo, owner, fields);
      MergeAbove(DecodeEntry(es[0], owner, fields), DecodeEntries(es[1..], owner, fields), lo);
    }
  }
}
