/**
 The second half: serializing a value and decoding the result gives the value
 back. Together with CanonicalForm this makes the canonicalizer a normal form.
 */
module CanonicalRoundTrip {
  import opened Wrappers
  import opened Wire
  import opened WireEntries
  import opened OptionSchema
  import opened OptionValue
  import opened OptionDecode
  import opened OptionCanon
  import opened CanonicalForm

  lemma {:induction false} FieldDecodes(raw: Bytes, e: Entry, owner: string, fields: OptionFields)
    requires IsField(raw, e) && Shrinks(e)
    ensures Clean(raw, owner, fields) <==> CleanEntry(e, owner, fields)
    ensures ParseEntries(raw).Entries? && Decode(raw, owner, fields) == DecodeEntry(e, owner, fields)
  {
    hide HeadEntry, Content, DecodeEntry, CleanEntry;
    SingleField(raw, e);
    EntriesShrink(raw);
    var m := DecodeEntry(e, owner, fields);
    var none: seq<Entry> := [e][1..];
    assert none == [];
    assert DecodeEntries(none, owner, fields) == Nil && CleanEntries(none, owner, fields);
    assert DecodeEntries([e], owner, fields) == Merge(m, DecodeEntries(none, owner, fields));
    MergeNil(m);
  }

  lemma {:induction false} EmptyDecodes(owner: string, fields: OptionFields)
    ensures Clean([], owner, fields) && Decode([], owner, fields) == Nil
  {
  }

  /** A written submessage field reads back as its body's value, and is as clean as the body. */
  lemma {:induction false} SubmessageReads(f: FieldDesc, num: nat, body: Bytes, owner: string, fields: OptionFields)
    requires fields.Submessage(owner, num) == Some(f)
    requires 1 <= num <= MAX_FIELD_NUMBER && |body| < MAX_LENGTH && ParseEntries(body).Entries?
    ensures var raw := AppendSubmessage(f, num, body);
            var m := Decode(body, TrimLeadingDot(f.typeName), fields);
            && ParseEntries(raw).Entries?
            && (Clean(raw, owner, fields) <==> Clean(body, TrimLeadingDot(f.typeName), fields))
            && Decode(raw, owner, fields)
            == Single(num, if f.repeated then Val([], [m], None) else Val([], [], Some(m)))
  {
    hide HeadEntry, Content, Clean, Decode, AppendTag, AppendBytes, ParseEntries;
    var raw := AppendSubmessage(f, num, body);
    var e := Entry(num, if f.kind == Group then START_GROUP else BYTES, Some(body), raw);
    assert IsField(raw, e) && Content(raw) == Some(body) by {
      if f.kind == Group {
        GroupFieldParses(num, body);
      } else {
        BytesFieldParses(num, body);
      }
    }
    FieldDecodes(raw, e, owner, fields);
  }

  lemma {:induction false} SubmessageDecodes(f: FieldDesc, num: nat, body: Bytes, owner: string, fields: OptionFields)
    requires fields.Submessage(owner, num) == Some(f)
    requires 1 <= num <= MAX_FIELD_NUMBER && |body| < MAX_LENGTH
    requires Clean(body, TrimLeadingDot(f.typeName), fields)
    ensures var raw := AppendSubmessage(f, num, body);
            var m := Decode(body, TrimLeadingDot(f.typeName), fields);
            && Clean(raw, owner, fields)
            && Decode(raw, owner, fields)
            == Single(num, if f.repeated then Val([], [m], None) else Val([], [], Some(m)))
  {
    hide Clean, Decode, AppendSubmessage, ParseEntries;
    ParsesWhenClean(body, TrimLeadingDot(f.typeName), fields);
    SubmessageReads(f, num, body, owner, fields);
  }

  lemma {:induction false} EmitDecodes(f: FieldDesc, num: nat, body: Bytes, owner: string, fields: OptionFields)
    requires !fields.AsItem(owner, num) && fields.Submessage(owner, num) == Some(f)
    requires 1 <= num <= MAX_FIELD_NUMBER && |body| < MAX_LENGTH
    requires Clean(body, TrimLeadingDot(f.typeName), fields)
    ensures var raw := Emit(f, num, body, owner, fields);
            var m := Decode(body, TrimLeadingDot(f.typeName), fields);
            && Clean(raw, owner, fields)
            && Decode(raw, owner, fields)
            == Single(num, if f.repeated then Val([], [m], None) else Val([], [], Some(m)))
  {
    hide Clean, Decode, AppendSubmessage;
    SubmessageDecodes(f, num, body, owner, fields);
  }

  lemma {:induction false} ParsesWhenClean(raw: Bytes, owner: string, fields: OptionFields)
    requires Clean(raw, owner, fields)
    ensures ParseEntries(raw).Entries?
  {
  }

  lemma {:induction false} ContentShorter(raw: Bytes)
    requires Content(raw).Some?
    ensures |Content(raw).value| < |raw|
  {
  }

  lemma {:induction false} SerializeDecodes(m: Msg, lo: nat, owner: string, fields: OptionFields)
    requires Typed(m, lo, owner, fields) && Plain(m, owner, fields)
    requires |Serialize(m, owner, fields)| < MAX_LENGTH
    ensures Clean(Serialize(m, owner, fields), owner, fields)
    ensures Decode(Serialize(m, owner, fields), owner, fields) == m
    decreases m, 1
  {
    hide Clean, Decode, SerializeVal, TypedVal, PlainVal;
    if m.Nil? {
      EmptyDecodes(owner, fields);
    } else {
      SerializeValDecodes(m.num, m.val, owner, fields);
      SerializeDecodes(m.rest, m.num, owner, fields);
      DecodeConcat(SerializeVal(m.num, m.val, owner, fields), Serialize(m.rest, owner, fields), owner, fields);
      MergeHead(m.num, m.val, m.rest);
    }
  }

  lemma {:induction false} SerializeValDecodes(num: nat, v: Val, owner: string, fields: OptionFields)
    requires TypedVal(num, v, owner, fields) && PlainVal(num, v, owner, fields) && 1 <= num
    requires |SerializeVal(num, v, owner, fields)| < MAX_LENGTH
    ensures Clean(SerializeVal(num, v, owner, fields), owner, fields)
    ensures Decode(SerializeVal(num, v, owner, fields), owner, fields) == Single(num, v)
    decreases v, 1
  {
    hide Clean, Decode, Emit, LeafField;
    match fields.Submessage(owner, num)
    case None =>
      RawsDecode(v.raws, num, owner, fields);
    case Some(f) =>
      if f.repeated {
        ItemsDecode(v.items, f, num, owner, fields);
      } else {
        var sub := TrimLeadingDot(f.typeName);
        var body := Serialize(v.merged.value, sub, fields);
        EmitLonger(f, num, body, owner, fields);
        SerializeDecodes(v.merged.value, 0, sub, fields);
        EmitDecodes(f, num, body, owner, fields);
      }
  }

  lemma {:induction false} EmitLonger(f: FieldDesc, num: nat, body: Bytes, owner: string, fields: OptionFields)
    ensures |body| < |Emit(f, num, body, owner, fields)|
  {
  }

  lemma {:induction false} RawsDecode(raws: seq<Bytes>, num: nat, owner: string, fields: OptionFields)
    requires raws != [] && fields.Submessage(owner, num).None?
    requires forall r <- raws :: LeafField(r, num)
    ensures Clean(Concat(raws), owner, fields)
    ensures Decode(Concat(raws), owner, fields) == Single(num, Val(raws, [], None))
  {
    hide Clean, Decode;
    LeafDecodes(raws[0], num, owner, fields);
    if |raws| == 1 {
      OneRaw(raws[0]);
      assert raws == [raws[0]];
    } else {
      var rest := raws[1..];
      RawsDecode(rest, num, owner, fields);
      DecodeConcat(raws[0], Concat(rest), owner, fields);
      MergeHead(num, Val([raws[0]], [], None), Single(num, Val(rest, [], None)));
      assert [raws[0]] + rest == raws;
    }
  }

  lemma {:induction false} LeafDecodes(raw: Bytes, num: nat, owner: string, fields: OptionFields)
    requires LeafField(raw, num) && fields.Submessage(owner, num).None?
    ensures Clean(raw, owner, fields)
    ensures Decode(raw, owner, fields) == Single(num, Val([raw], [], None))
  {
    hide Content;
    var e := HeadEntry(raw).entry;
    FieldDecodes(raw, e, owner, fields);
  }

  lemma {:induction false} ItemsDecode(items: seq<Msg>, f: FieldDesc, num: nat, owner: string, fields: OptionFields)
    requires items != [] && fields.Submessage(owner, num) == Some(f) && f.repeated
    requires !fields.AsItem(owner, num) && forall i <- items :: Plain(i, TrimLeadingDot(f.typeName), fields)
    requires 1 <= num <= MAX_FIELD_NUMBER
    requires forall i <- items :: Typed(i, 0, TrimLeadingDot(f.typeName), fields)
    requires |SerializeItems(items, f, num, owner, fields)| < MAX_LENGTH
    ensures Clean(SerializeItems(items, f, num, owner, fields), owner, fields)
    ensures Decode(SerializeItems(items, f, num, owner, fields), owner, fields) == Single(num, Val([], items, None))
    decreases items
  {
    hide Clean, Decode, Emit, Typed, Plain;
    var sub := TrimLeadingDot(f.typeName);
    var body := Serialize(items[0], sub, fields);
    EmitLonger(f, num, body, owner, fields);
    assert Typed(items[0], 0, sub, fields) && Plain(items[0], sub, fields);
    SerializeDecodes(items[0], 0, sub, fields);
    EmitDecodes(f, num, body, owner, fields);
    if |items| == 1 {
      OneItem(items[0], f, num, owner, fields);
      assert items == [items[0]];
    } else {
      var rest := items[1..];
      ItemsDecode(rest, f, num, owner, fields);
      DecodeConcat(Emit(f, num, body, owner, fields), SerializeItems(rest, f, num, owner, fields), owner, fields);
      MergeHead(num, Val([], [items[0]], None), Single(num, Val([], rest, None)));
      assert [items[0]] + rest == items;
    }
  }
}
