/**
 Concrete bytes for the three things that CanonLoss and GroupTags characterize: a lost
 fragment, a torn group and a fault.
 */
module CanonLimits {
  import opened Wrappers
  import opened Wire
  import opened WireEntries
  import opened OptionSchema
  import opened EntrySort
  import opened OptionCanon

  /** Message M with one field, number 1, of message type S. */
  function OneField(kind: Kind): OptionFields {
    OptionFields(map["M" := map[1 := FieldDesc(1, kind, false, ".S")]], map[], {})
  }

  lemma {:induction false} RunIsSorted(es: seq<Entry>, num: nat)
    requires forall e <- es :: e.num == num
    ensures SortByNum(es) == es && RunLength(es, num) == |es|
  {
    if es != [] {
      assert es[0] in es;
      RunIsSorted(es[1..], num);
      assert [es[0]] + es[1..] == es;
    }
  }

  /** Fields that all belong to one singular submessage become that one field. */
  lemma {:induction false} OneRunCanon(raw: Bytes, es: seq<Entry>, f: FieldDesc, owner: string, fields: OptionFields)
    requires ParseEntries(raw) == Entries(es) && es != []
    requires forall e <- es :: e.num == es[0].num
    requires fields.Submessage(owner, es[0].num) == Some(f) && !f.repeated && es[0].payload.Some?
    ensures var body := Canon(MergedPayload(es), TrimLeadingDot(f.typeName), fields);
            body.Some? ==> Canon(raw, owner, fields) == Some(Emit(f, es[0].num, body.value, owner, fields))
  {
    hide Emit;
    EntriesShrink(raw);
    RunIsSorted(es, es[0].num);
    assert es[..|es|] == es && es[|es|..] == [];
    assert EmitAll(es[|es|..], owner, fields) == Some([]);
    var body := Canon(MergedPayload(es), TrimLeadingDot(f.typeName), fields);
    if body.Some? {
      var r := Emit(f, es[0].num, body.value, owner, fields);
      assert r + [] == r;
      assert EmitAll(es, owner, fields) == Some(r + []);
    }
  }

  /** A bodiless fragment after one with a body is lost in the merge. */
  lemma {:induction false} VarintFragmentLost()
    ensures ParseEntries([0x0a, 0x00, 0x08, 0x05])
         == Entries([Entry(1, BYTES, Some([]), [0x0a, 0x00]), Entry(1, VARINT, None, [0x08, 0x05])])
    ensures Canon([0x0a, 0x00, 0x08, 0x05], "M", OneField(Message)) == Some([0x0a, 0x00])
  {
    hide Canon, EmitAll, Emit, MergedPayload, ParseEntries;
    var raw: Bytes := [0x0a, 0x00, 0x08, 0x05];
    var a, b := Entry(1, BYTES, Some([]), [0x0a, 0x00]), Entry(1, VARINT, None, [0x08, 0x05]);
    var es := [a, b];
    TwoFields();
    var f, fields := FieldDesc(1, Message, false, ".S"), OneField(Message);
    NothingMerged(a, b, f, fields);
    assert TrimLeadingDot(".S") == "S";
    OneRunCanon(raw, es, f, "M", fields);
  }

  lemma {:induction false} NothingMerged(a: Entry, b: Entry, f: FieldDesc, fields: OptionFields)
    requires a.payload == Some([]) && b.payload.None? && f.kind == Message && fields == OneField(Message)
    ensures MergedPayload([a, b]) == [] && Canon([], "S", fields) == Some([])
    ensures Emit(f, 1, [], "M", fields) == [0x0a, 0x00]
  {
    assert [a, b][1..] == [b] && [b][1..] == [];
    assert MergedPayload([b]) == [];
    assert ParseEntries([]) == Entries([]);
  }

  lemma {:induction false} TwoFields()
    ensures ParseEntries([0x0a, 0x00, 0x08, 0x05])
         == Entries([Entry(1, BYTES, Some([]), [0x0a, 0x00]), Entry(1, VARINT, None, [0x08, 0x05])])
  {
    var first: Bytes, second: Bytes := [0x0a, 0x00], [0x08, 0x05];
    var a, b := Entry(1, BYTES, Some([]), first), Entry(1, VARINT, None, second);
    hide *;
    EmptyMessageField();
    NumberField();
    SingleField(first, a);
    SingleField(second, b);
    ParseAppend(first, second);
    assert first + second == [0x0a, 0x00, 0x08, 0x05];
    assert [a] + [b] == [a, b];
  }

  lemma {:induction false} EmptyMessageField()
    ensures IsField([0x0a, 0x00], Entry(1, BYTES, Some([]), [0x0a, 0x00]))
  {
    var raw: Bytes := [0x0a, 0x00];
    assert VarintAt(raw, 0) == Some(Varint(10, 1));
    assert raw[1..] == [0x00];
    assert VarintAt(raw[1..], 0) == Some(Varint(0, 1));
    assert raw[..2] == raw;
  }

  lemma {:induction false} NumberField()
    ensures IsField([0x08, 0x05], Entry(1, VARINT, None, [0x08, 0x05]))
  {
    var raw: Bytes := [0x08, 0x05];
    assert VarintAt(raw, 0) == Some(Varint(8, 1));
    assert raw[1..] == [0x05];
    assert VarintAt(raw[1..], 0) == Some(Varint(5, 1));
    assert raw[..2] == raw;
  }

  /** A group whose end tag is longer than its start tag comes out malformed. */
  lemma {:induction false} LongEndTagBreaksGroup()
    ensures FieldLen([0x0b, 0x8c, 0x00]) == Some(3)
    ensures Canon([0x0b, 0x8c, 0x00], "M", OneField(Group)) == Some([0x0b, 0x8c, 0x0c])
    ensures FieldLen([0x0b, 0x8c, 0x0c]) == None
  {
    hide Canon, EmitAll, Emit, MergedPayload, ParseEntries, FieldLen;
    var raw: Bytes := [0x0b, 0x8c, 0x00];
    var e := Entry(1, START_GROUP, Some([0x8c]), raw);
    var es := [e];
    LongEndTagReads();
    LongEndTagParses(raw, e);
    var f, fields := FieldDesc(1, Group, false, ".S"), OneField(Group);
    assert MergedPayload(es) == [0x8c] by {
      MergedOne(e);
    }
    TornBody(fields);
    assert TrimLeadingDot(".S") == "S";
    OneRunCanon(raw, es, f, "M", fields);
    TornEmit(f, fields);
  }

  lemma {:induction false} LongEndTagParses(raw: Bytes, e: Entry)
    requires raw == [0x0b, 0x8c, 0x00] && e == Entry(1, START_GROUP, Some([0x8c]), raw)
    ensures ParseEntries(raw) == Entries([e])
  {
    LongEndTagReads();
    hide FieldLen, ConsumeTag, ParseEntries;
    assert raw[1..2] == [0x8c] && raw[..3] == raw;
    assert HeadEntry(raw) == Field(e);
    SingleField(raw, e);
  }

  lemma {:induction false} MergedOne(e: Entry)
    requires e.payload.Some?
    ensures MergedPayload([e]) == e.payload.value
  {
    assert MergedPayload([e][1..]) == [];
  }

  lemma {:induction false} TornBody(fields: OptionFields)
    ensures Canon([0x8c], "S", fields) == Some([0x8c])
  {
    var body: Bytes := [0x8c];
    assert body[1..] == [];
    assert VarintAt(body[1..], 1) == None;
    assert VarintAt(body, 0) == None;
    assert ParseEntries(body) == Malformed;
  }

  lemma {:induction false} TornEmit(f: FieldDesc, fields: OptionFields)
    requires f.kind == Group && fields == OneField(Group)
    ensures Emit(f, 1, [0x8c], "M", fields) == [0x0b, 0x8c, 0x0c]
  {
  }

  lemma {:induction false} LongEndTagReads()
    ensures FieldLen([0x0b, 0x8c, 0x00]) == Some(3) && FieldLen([0x0b, 0x8c, 0x0c]) == None
    ensures ConsumeTag([0x0b, 0x8c, 0x00]) == Some(Tag(1, START_GROUP, 1))
  {
    LongEndTag();
    WrittenEndTag();
    hide ConsumeTag;
    var raw: Bytes := [0x0b, 0x8c, 0x00];
    var out: Bytes := [0x0b, 0x8c, 0x0c];
    StartTag(raw);
    StartTag(out);
    assert raw[1..] == [0x8c, 0x00] && out[1..] == [0x8c, 0x0c];
    assert GroupLen(1, raw[1..]) == Some(2);
    assert GroupLen(1, out[1..]) == None;
  }

  lemma {:induction false} StartTag(raw: Bytes)
    requires raw != [] && raw[0] == 0x0b
    ensures ConsumeTag(raw) == Some(Tag(1, START_GROUP, 1))
  {
    assert VarintAt(raw, 0) == Some(Varint(11, 1));
  }

  lemma {:induction false} LongEndTag()
    ensures ConsumeTag([0x8c, 0x00]) == Some(Tag(1, END_GROUP, 2))
  {
    var end: Bytes := [0x8c, 0x00];
    assert end[1..] == [0x00] && VarintAt([0x00], 1) == Some(Varint(0, 1));
    assert VarintAt(end, 0) == Some(Varint(12, 2));
  }

  lemma {:induction false} WrittenEndTag()
    ensures ConsumeTag([0x8c, 0x0c]) == Some(Tag(193, END_GROUP, 2))
  {
    var end: Bytes := [0x8c, 0x0c];
    assert end[1..] == [0x0c] && VarintAt([0x0c], 1) == Some(Varint(12, 1));
    assert VarintAt(end, 0) == Some(Varint(1548, 2));
  }

  /** A group whose end tag is shorter than its start tag can fault the slicing of its body. */
  lemma {:induction false} ShortEndTagFaults()
    ensures FieldLen([0x8b, 0x00, 0x0c]) == Some(3)
    ensures Canon([0x8b, 0x00, 0x0c], "M", OneField(Group)) == None
  {
    var raw: Bytes := [0x8b, 0x00, 0x0c];
    assert raw[1..] == [0x00, 0x0c];
    assert VarintAt(raw[1..], 1) == Some(Varint(0, 1));
    assert VarintAt(raw, 0) == Some(Varint(11, 2));
    assert ConsumeTag(raw) == Some(Tag(1, START_GROUP, 2));
    assert raw[2..] == [0x0c];
    assert VarintAt(raw[2..], 0) == Some(Varint(12, 1));
    assert ConsumeTag(raw[2..]) == Some(Tag(1, END_GROUP, 1));
    assert GroupLen(1, raw[2..]) == Some(1);
    assert HeadEntry(raw) == BadSlice;
    assert ParseEntries(raw) == SliceFault;
  }
}
