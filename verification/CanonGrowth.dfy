/** Canonicalizing grows its input by a bounded factor at most, whatever the input. */
module CanonGrowth {
  import opened Wrappers
  import opened Wire
  import opened WireEntries
  import opened OptionSchema
  import opened EntrySort
  import opened OptionDecode
  import opened OptionCanon

  /** A body is at least two bytes shorter than its entry: a tag and a length, or two tags. */
  ghost predicate Roomy(e: Entry) {
    1 <= e.num <= MAX_FIELD_NUMBER && |e.raw| >= (if e.payload.Some? then |e.payload.value| + 2 else 1)
  }

  ghost predicate AllRoomy(es: seq<Entry>) {
    forall e <- es :: Roomy(e)
  }

  lemma {:induction false} HeadRoomy(buf: Bytes)
    requires HeadEntry(buf).Field?
    ensures Roomy(HeadEntry(buf).entry)
  {
    hide GroupBodyLen;
  }

  lemma {:induction false} EntriesRoomy(buf: Bytes)
    requires ParseEntries(buf).Entries?
    ensures AllRoomy(ParseEntries(buf).entries)
    decreases |buf|
  {
    hide HeadEntry, Roomy;
    if buf != [] {
      HeadRoomy(buf);
      EntriesRoomy(buf[|HeadEntry(buf).entry.raw|..]);
    }
  }

  lemma {:induction false} RunRoom(es: seq<Entry>)
    requires AllRoomy(es)
    ensures |MergedPayload(es)| <= TotalRaw(es)
    ensures es != [] && es[0].payload.Some? ==> |MergedPayload(es)| + 2 <= TotalRaw(es)
  {
    if es != [] {
      assert Roomy(es[0]);
      RunRoom(es[1..]);
    }
  }

  lemma {:induction false} EmitLength(f: FieldDesc, num: nat, body: Bytes, owner: string, fields: OptionFields)
    requires 1 <= num <= MAX_FIELD_NUMBER && |body| < MAX_LENGTH
    ensures |Emit(f, num, body, owner, fields)| <= 20 + |body|
  {
    TagLength(num, START_GROUP);
    TagLength(num, END_GROUP);
    TagLength(num, BYTES);
    NumberLength(num);
    LengthPrefixLength(|body|);
    assert |AppendTag(1, START_GROUP)| == |AppendTag(2, VARINT)| == |AppendTag(3, BYTES)| == |AppendTag(1, END_GROUP)| == 1;
  }

  lemma {:induction false} NumberLength(num: nat)
    requires num <= MAX_FIELD_NUMBER
    ensures |AppendVarint(num)| <= 5
  {
    assert Pow128(1) == 0x80 && Pow128(3) == 0x20_0000 && Pow128(5) == 0x8_0000_0000;
    VarintLength(num, 5);
  }

  lemma {:induction false} CanonGrows(raw: Bytes, owner: string, fields: OptionFields)
    requires Canon(raw, owner, fields).Some? && |raw| < MAX_INPUT
    ensures |Canon(raw, owner, fields).value| <= 10 * |raw|
    decreases |raw|, 1
  {
    hide EmitAll, Roomy, HeadEntry;
    if ParseEntries(raw).Entries? {
      var es := ParseEntries(raw).entries;
      EntriesShrink(raw);
      EntriesRoomy(raw);
      SortIsStable(es, 0);
      SortRoomy(es);
      SortDecodes(es, owner, fields);
      EmitGrows(SortByNum(es), owner, fields);
    }
  }

  lemma {:induction false} SortRoomy(es: seq<Entry>)
    requires AllRoomy(es)
    ensures AllRoomy(SortByNum(es))
  {
    hide Roomy;
    SortIsStable(es, 0);
    forall e <- SortByNum(es)
      ensures Roomy(e)
    {
      assert e in multiset(SortByNum(es));
    }
  }

  lemma {:induction false} EmitGrows(es: seq<Entry>, owner: string, fields: OptionFields)
    requires AllShrink(es) && AllRoomy(es) && EmitAll(es, owner, fields).Some? && TotalRaw(es) < MAX_INPUT
    ensures |EmitAll(es, owner, fields).value| <= 10 * TotalRaw(es)
    decreases TotalRaw(es), 0
  {
    hide Canon, Emit, MergedPayload, RunLength;
    if es != [] {
      var e := es[0];
      assert Shrinks(e) && Roomy(e);
      var f := fields.Submessage(owner, e.num);
      if f.None? || e.payload.None? {
        EmitGrows(es[1..], owner, fields);
      } else if f.value.repeated {
        CanonGrows(e.payload.value, TrimLeadingDot(f.value.typeName), fields);
        var body := Canon(e.payload.value, TrimLeadingDot(f.value.typeName), fields).value;
        EmitLength(f.value, e.num, body, owner, fields);
        EmitGrows(es[1..], owner, fields);
      } else {
        RunGrows(es, f.value, owner, fields);
      }
    }
  }

  lemma {:induction false} RunGrows(es: seq<Entry>, f: FieldDesc, owner: string, fields: OptionFields)
    requires AllShrink(es) && AllRoomy(es) && EmitAll(es, owner, fields).Some? && TotalRaw(es) < MAX_INPUT
    requires es != [] && es[0].payload.Some? && fields.Submessage(owner, es[0].num) == Some(f) && !f.repeated
    ensures |EmitAll(es, owner, fields).value| <= 10 * TotalRaw(es)
    decreases TotalRaw(es), -1
  {
    var num := es[0].num;
    var j := RunLength(es, num);
    var run, rest := es[..j], es[j..];
    MergedShrinks(es, num);
    var body := Canon(MergedPayload(run), TrimLeadingDot(f.typeName), fields);
    assert EmitAll(rest, owner, fields).Some? && body.Some?
        && EmitAll(es, owner, fields).value == Emit(f, num, body.value, owner, fields) + EmitAll(rest, owner, fields).value;
    assert Roomy(es[0]);
    assert es == run + rest && run[0] == es[0];
    TotalRawAppend(run, rest);
    RunRoom(run);
    hide *;
    CanonGrows(MergedPayload(run), TrimLeadingDot(f.typeName), fields);
    EmitLength(f, num, body.value, owner, fields);
    EmitGrows(rest, owner, fields);
  }
}
