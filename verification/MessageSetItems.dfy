/** The two encodings that are more than one field: items of a MessageSet, and expanded type URLs. */
module MessageSetItems {
  import opened Wrappers
  import opened Wire
  import opened WireEntries
  import opened OptionSchema
  import opened OptionCanon
  import opened AggregateEncoder
  import CanonicalShape
  import EntrySort

  /** The number a varint field holds. */
  function NumberIn(raw: Bytes): Option<nat> {
    var t :- ConsumeTag(raw);
    var v :- ConsumeVarint(raw[t.len..]);
    Some(v.value)
  }

  /** raw is a group 1 that holds the number num in field 2 and body in field 3, and nothing else. */
  ghost predicate IsItem(raw: Bytes, num: nat, body: Bytes) {
    exists inside, typeId, message ::
      && ParseEntries(raw) == Entries([Entry(1, START_GROUP, Some(inside), raw)])
      && ParseEntries(inside) == Entries([typeId, message])
      && typeId.num == 2 && typeId.typ == VARINT && NumberIn(typeId.raw) == Some(num)
      && message.num == 3 && message.typ == BYTES && message.payload == Some(body)
  }

  lemma {:induction false} NumberFieldParses(num: nat, v: nat)
    requires 1 <= num <= MAX_FIELD_NUMBER && v <= MAX_FIELD_NUMBER
    ensures
      var raw := AppendTag(num, VARINT) + AppendVarint(v);
      IsField(raw, Entry(num, VARINT, None, raw)) && NumberIn(raw) == Some(v)
  {
    hide AppendVarint, VarintAt;
    var tag, val := AppendTag(num, VARINT), AppendVarint(v);
    TagRoundTrip(num, VARINT, val);
    RoomIs64Bits();
    VarintRoundTrip(v, 0, []);
    assert val + [] == val;
    assert (tag + val)[|tag|..] == val;
    assert (tag + val)[..|tag + val|] == tag + val;
  }

  lemma {:induction false} ItemParses(num: nat, body: Bytes)
    requires 1 <= num <= MAX_FIELD_NUMBER && |body| < MAX_LENGTH
    ensures
      IsItem(AppendTag(1, START_GROUP) + AppendTag(2, VARINT) + AppendVarint(num) + AppendTag(3, BYTES)
             + AppendBytes(body) + AppendTag(1, END_GROUP), num, body)
  {
    hide HeadEntry, AppendTag, AppendBytes, AppendVarint, ParseEntries, NumberIn, Content;
    var typeId, message := AppendTag(2, VARINT) + AppendVarint(num), AppendTag(3, BYTES) + AppendBytes(body);
    var e, m := Entry(2, VARINT, None, typeId), Entry(3, BYTES, Some(body), message);
    NumberFieldParses(2, num);
    BytesFieldParses(3, body);
    SingleField(typeId, e);
    SingleField(message, m);
    ParseAppend(typeId, message);
    var inside := typeId + message;
    GroupFieldParses(1, inside);
    var raw := AppendTag(1, START_GROUP) + inside + AppendTag(1, END_GROUP);
    SingleField(raw, Entry(1, START_GROUP, Some(inside), raw));
    assert [e] + [m] == [e, m];
    assert AppendTag(1, START_GROUP) + AppendTag(2, VARINT) + AppendVarint(num) + AppendTag(3, BYTES)
         + AppendBytes(body) + AppendTag(1, END_GROUP) == raw;
  }

  /** A field of a MessageSet comes out of the canonicalizer as one item with its number and body. */
  lemma {:induction false} EmittedItem(f: FieldDesc, num: nat, body: Bytes, owner: string, fields: OptionFields)
    requires owner in fields.messageSet && owner in fields.extension && num in fields.extension[owner]
    requires 1 <= num <= MAX_FIELD_NUMBER && |body| < MAX_LENGTH
    ensures IsItem(Emit(f, num, body, owner, fields), num, body)
  {
    hide IsItem, AppendTag, AppendBytes, AppendVarint;
    ItemParses(num, body);
  }

  /** Any other field comes out as one field of its number around its body, a group for a group field. */
  lemma {:induction false} EmittedField(f: FieldDesc, num: nat, body: Bytes, owner: string, fields: OptionFields)
    requires !(owner in fields.messageSet && owner in fields.extension && num in fields.extension[owner])
    requires 1 <= num <= MAX_FIELD_NUMBER && |body| < MAX_LENGTH && ParseEntries(body).Entries?
    ensures
      var raw := Emit(f, num, body, owner, fields);
      ParseEntries(raw) == Entries([Entry(num, if f.kind == Group then START_GROUP else BYTES, Some(body), raw)])
  {
    hide HeadEntry, AppendTag, AppendBytes, ParseEntries, Content;
    var raw := Emit(f, num, body, owner, fields);
    if f.kind == Group {
      GroupFieldParses(num, body);
    } else {
      BytesFieldParses(num, body);
    }
    SingleField(raw, Entry(num, if f.kind == Group then START_GROUP else BYTES, Some(body), raw));
  }

  /** A length-delimited field is rewritten to the item of that number around its content. */
  lemma {:induction false} RewrittenItem(num: nat, body: Bytes)
    requires 1 <= num <= MAX_FIELD_NUMBER && |body| < MAX_LENGTH
    ensures IsItem(MessageSetItem(num, AppendTag(num, BYTES) + AppendBytes(body)), num, body)
  {
    hide IsItem, AppendTag, AppendBytes, AppendVarint, ConsumeTag, ConsumeBytes;
    var tag, val := AppendTag(num, BYTES), AppendBytes(body);
    TagRoundTrip(num, BYTES, val);
    BytesRoundTrip(body, []);
    assert val + [] == val;
    assert (tag + val)[|tag|..] == val;
    ItemParses(num, body);
  }

  /** An extension of a MessageSet in a literal, encoded as one field, becomes the item with that field's body. */
  lemma {:induction false} EncodedItem(
    f: FieldDesc, owner: string, a: Agg, seen: set<string>, env: Env, top: bool, data: Bytes)
    requires env.extension(owner, a.name) == Some(f) && f.kind == Message && 1 <= f.number <= MAX_FIELD_NUMBER
    requires a.isExtension && owner in env.fields.messageSet && owner != "google.protobuf.Any" && a.subFields != []
    requires EncodeField(f, a.subFields, env, false) == Done(data) && |data| < MAX_LENGTH
    ensures
      var r := EncodePiece(owner, a, seen, env, top);
      r.Done? ==> exists body :: data == AppendTag(f.number, BYTES) + AppendBytes(body) && IsItem(r.bytes, f.number, body)
  {
    hide IsItem, AppendTag, AppendBytes, EncodeField, MessageSetItem;
    var body := DelimitedBody(f, a.subFields, env, data);
    RewrittenItem(f.number, body);
  }

  lemma {:induction false} DelimitedBody(f: FieldDesc, aggs: seq<Agg>, env: Env, data: Bytes) returns (body: Bytes)
    requires f.kind == Message && EncodeField(f, aggs, env, false) == Done(data)
    ensures data == AppendTag(f.number, BYTES) + AppendBytes(body) && |body| < |data|
  {
    hide AppendTag, EncodePieces;
    var ps := EncodePieces(TrimLeadingDot(f.typeName), aggs, {}, env, false).pieces;
    body := CanonicalShape.Raws(EntrySort.SortByNum(ps));
  }

  // ---------------------------------------------------------------------------
  // Type URLs

  /** What stands after the last slash. */
  ghost predicate IsAfterSlash(url: string, name: string) {
    '/' !in name && exists i :: 0 <= i < |url| && url[i] == '/' && url[i + 1..] == name
  }

  /**
   In a nested Any a type URL becomes field 1 with the URL's text and field 2 with the
   literal encoded as the message the URL names.
   */
  lemma {:induction false} UrlExpands(owner: string, a: Agg, seen: set<string>, env: Env, name: string, value: Bytes)
    requires a.isExtension && owner == "google.protobuf.Any" && IsAfterSlash(a.name, name)
    requires EncodeField(FieldDesc(2, Message, false, "." + name), a.subFields, env, false) == Done(value)
    requires |env.text(a.name)| < MAX_LENGTH && |value| < MAX_LENGTH
    ensures
      var r := EncodePiece(owner, a, seen, env, false);
      && r.Done? && PieceNumber(owner, a, env, false) == 1
      && ParseEntries(r.bytes).Entries?
      && var es := ParseEntries(r.bytes).entries;
         && |es| == 2
         && es[0].num == 1 && es[0].typ == BYTES && es[0].payload == Some(env.text(a.name))
         && es[1].num == 2 && es[1].typ == BYTES && es[1].raw == value
  {
    hide EncodeField, AppendTag, AppendBytes, ParseEntries, HeadEntry, Content;
    NameAfterSlash(a.name, name);
    var url := env.text(a.name);
    var first := AppendTag(1, BYTES) + AppendBytes(url);
    var body := DelimitedBody(FieldDesc(2, Message, false, "." + name), a.subFields, env, value);
    BytesFieldParses(1, url);
    BytesFieldParses(2, body);
    SingleField(first, Entry(1, BYTES, Some(url), first));
    SingleField(value, Entry(2, BYTES, Some(body), value));
    ParseAppend(first, value);
  }

  lemma {:induction false} NameAfterSlash(url: string, name: string)
    requires IsAfterSlash(url, name)
    ensures '/' in url && url[AfterSlash(url)..] == name
  {
    var i :| 0 <= i < |url| && url[i] == '/' && url[i + 1..] == name;
    SlashAt(url, i);
  }

  lemma {:induction false} SlashAt(url: string, i: nat)
    requires i < |url| && url[i] == '/' && '/' !in url[i + 1..]
    ensures AfterSlash(url) == i + 1
    decreases |url|
  {
    var last := |url| - 1;
    if i < last {
      assert url[i + 1..][last - i - 1] == url[last];
      assert url[..last][i + 1..] == url[i + 1..][..last - i - 1];
      SlashAt(url[..last], i);
    }
  }

  /** Anywhere else a name with a slash is an extension like any other. */
  lemma {:induction false} UrlElsewhere(owner: string, a: Agg, seen: set<string>, env: Env, top: bool)
    requires a.isExtension && (top || owner != "google.protobuf.Any") && env.extension(owner, a.name).None?
    ensures EncodePiece(owner, a, seen, env, top) == Failed(UnknownField(a.name))
  {
  }
}
