/**
 Splitting encoded fields into entries, the way the canonicalizer's first loop
 does: one entry per top-level field, carrying the body of a length-delimited
 field or of a group, and the field's own bytes.
 */
module WireEntries {
  import opened Wrappers
  import opened Wire

  datatype Entry = Entry(num: nat, typ: nat, payload: Option<Bytes>, raw: Bytes)

  /**
   The first loop has three ways to end. SliceFault is the runtime fault of slicing
   a group's body out of a field whose end tag is so much shorter than its start
   tag that the computed bounds cross.
   */
  datatype Parse = Entries(entries: seq<Entry>) | Malformed | SliceFault

  datatype Head = Field(entry: Entry) | BadField | BadSlice

  function HeadEntry(buf: Bytes): (h: Head)
    ensures h.Field? ==> 0 < |h.entry.raw| <= |buf| && h.entry.raw == buf[..|h.entry.raw|]
    ensures h.Field? ==> h.entry.payload.Some? ==> |h.entry.payload.value| < |h.entry.raw|
    ensures h.Field? ==> 1 <= h.entry.num <= MAX_FIELD_NUMBER
  {
    match FieldLen(buf)
    case None => BadField
    case Some(total) =>
      var tag := ConsumeTag(buf).value;
      if tag.typ == BYTES then
        match ConsumeBytes(buf[tag.len..])
        case None => BadField
        case Some(d) =>
          assert |d.content| < total;
          Field(Entry(tag.num, tag.typ, Some(d.content), buf[..total]))
      else if tag.typ == START_GROUP then
        // Both tags are taken to have the length of the start tag.
        if total - tag.len < tag.len then BadSlice
        else Field(Entry(tag.num, tag.typ, Some(buf[tag.len..total - tag.len]), buf[..total]))
      else Field(Entry(tag.num, tag.typ, None, buf[..total]))
  }

  function ParseEntries(buf: Bytes): Parse
    decreases |buf|
  {
    if buf == [] then Entries([])
    else
      match HeadEntry(buf)
      case BadField => Malformed
      case BadSlice => SliceFault
      case Field(e) =>
        match ParseEntries(buf[|e.raw|..])
        case Entries(es) => Entries([e] + es)
        case other => other
  }

  /** The body of an entry is strictly shorter than the entry: it lost a tag. */
  predicate Shrinks(e: Entry) {
    0 < |e.raw| && (e.payload.Some? ==> |e.payload.value| < |e.raw|)
  }

  function TotalRaw(es: seq<Entry>): nat {
    if es == [] then 0 else |es[0].raw| + TotalRaw(es[1..])
  }

  /** The body of the field raw, as the wire grammar delimits it. */
  function Content(raw: Bytes): (c: Option<Bytes>)
    ensures c.Some? ==> |c.value| < |raw|
  {
    if FieldLen(raw) != Some(|raw|) then None
    else
      var t := ConsumeTag(raw).value;
      var rest := raw[t.len..];
      if t.typ == BYTES then
        assert ConsumeBytes(rest).Some?;
        Some(ConsumeBytes(rest).value.content)
      else if t.typ == START_GROUP then Some(rest[..GroupBodyLen(t.num, rest)])
      else None
  }

  /** The entry's body is the field's: a group's two tags have one length. */
  predicate Aligned(e: Entry) {
    e.payload == Content(e.raw)
  }

  /** Every byte belongs to exactly one entry. */
  lemma {:induction false} EntriesShrink(buf: Bytes)
    requires ParseEntries(buf).Entries?
    ensures forall e <- ParseEntries(buf).entries :: Shrinks(e)
    ensures TotalRaw(ParseEntries(buf).entries) == |buf|
    decreases |buf|
  {
    if buf != [] {
      var e := HeadEntry(buf).entry;
      EntriesShrink(buf[|e.raw|..]);
    }
  }

  lemma {:induction false} TotalRawAppend(a: seq<Entry>, b: seq<Entry>)
    ensures TotalRaw(a + b) == TotalRaw(a) + TotalRaw(b)
  {
    if a == [] {
      assert a + b == b;
    } else {
      assert (a + b)[1..] == a[1..] + b;
      TotalRawAppend(a[1..], b);
    }
  }

  // ---------------------------------------------------------------------------

  lemma {:induction false} HeadLocal(b: Bytes, c: Bytes)
    requires HeadEntry(b).Field?
    requires HeadEntry(b).entry.raw <= c
    ensures HeadEntry(c) == HeadEntry(b)
  {
    var e := HeadEntry(b).entry;
    var total := |e.raw|;
    var n := ConsumeTag(b).value.len;
    assert c[..total] == b[..total];
    assert FieldLen(c) == Some(total) && ConsumeTag(c) == ConsumeTag(b) by {
      FieldLocal(b, c);
    }
    if e.typ == BYTES {
      assert ConsumeBytes(c[n..]) == ConsumeBytes(b[n..]) by {
        PrefixShift(b, c, total, n);
        DelimitedValue(b, n);
        BytesLocal(b[n..], c[n..]);
      }
    } else if e.typ == START_GROUP {
      SliceOfPrefix(b, c, total, n, total - n);
    }
  }

  lemma {:induction false} DelimitedValue(b: Bytes, n: nat)
    requires FieldLen(b).Some? && ConsumeTag(b).value.typ == BYTES && n == ConsumeTag(b).value.len
    ensures ConsumeBytes(b[n..]).Some? && ConsumeBytes(b[n..]).value.len == FieldLen(b).value - n
  {
  }

  lemma {:induction false} SliceOfPrefix(b: Bytes, c: Bytes, n: nat, i: nat, j: nat)
    requires i <= j <= n <= |b| && n <= |c| && b[..n] == c[..n]
    ensures b[i..j] == c[i..j]
  {
    assert b[i..j] == b[..n][i..j];
    assert c[i..j] == c[..n][i..j];
  }

  /** Concatenating encoded messages concatenates their entries. */
  lemma {:induction false} ParseAppend(a: Bytes, b: Bytes)
    requires ParseEntries(a).Entries? && ParseEntries(b).Entries?
    ensures ParseEntries(a + b) == Entries(ParseEntries(a).entries + ParseEntries(b).entries)
    decreases |a|
  {
    hide HeadEntry, ParseEntries;
    HeadParsed(a);
    if a == [] {
      assert a + b == b;
      assert [] + ParseEntries(b).entries == ParseEntries(b).entries;
    } else {
      var e := HeadEntry(a).entry;
      var n := |e.raw|;
      var rest := ParseEntries(a[n..]).entries;
      var more := ParseEntries(b).entries;
      assert ParseEntries((a + b)[n..]) == Entries(rest + more) by {
        assert (a + b)[n..] == a[n..] + b;
        ParseAppend(a[n..], b);
      }
      ParseStep(a, e, rest);
      HeadLocal(a, a + b);
      ParseStep(a + b, e, rest + more);
      assert ([e] + rest) + more == [e] + (rest + more);
    }
  }

  /** A parsed message is empty or starts with one field. */
  lemma {:induction false} HeadParsed(a: Bytes)
    requires ParseEntries(a).Entries?
    ensures a == [] ==> ParseEntries(a).entries == []
    ensures a != [] ==> HeadEntry(a).Field? && ParseEntries(a[|HeadEntry(a).entry.raw|..]).Entries?
  {
    hide HeadEntry;
  }

  lemma {:induction false} ParseStep(buf: Bytes, e: Entry, rest: seq<Entry>)
    requires buf != [] && HeadEntry(buf) == Field(e)
    requires ParseEntries(buf[|e.raw|..]) == Entries(rest)
    ensures ParseEntries(buf) == Entries([e] + rest)
  {
  }

  /** b is exactly one field, and e is its entry. */
  predicate IsField(b: Bytes, e: Entry) {
    b != [] && HeadEntry(b) == Field(e) && e.raw == b
  }

  lemma {:induction false} SingleField(b: Bytes, e: Entry)
    requires IsField(b, e)
    ensures ParseEntries(b) == Entries([e])
  {
    assert b[|e.raw|..] == [];
    assert ParseEntries([]) == Entries([]);
  }

  /** Every entry's own bytes are a field that parses back to the entry. */
  lemma {:induction false} EntriesAreFields(buf: Bytes)
    requires ParseEntries(buf).Entries?
    ensures forall e <- ParseEntries(buf).entries :: IsField(e.raw, e)
    decreases |buf|
  {
    if buf != [] {
      var e := HeadEntry(buf).entry;
      HeadLocal(buf, e.raw);
      EntriesAreFields(buf[|e.raw|..]);
    }
  }

  // ---------------------------------------------------------------------------
  // The encodings the compiler emits parse back to one entry.

  lemma {:induction false} BytesFieldParses(num: nat, body: Bytes)
    requires 1 <= num <= MAX_FIELD_NUMBER && |body| < MAX_LENGTH
    ensures var raw := AppendTag(num, BYTES) + AppendBytes(body);
            && IsField(raw, Entry(num, BYTES, Some(body), raw))
            && Content(raw) == Some(body)
  {
    var tag, val := AppendTag(num, BYTES), AppendBytes(body);
    TagRoundTrip(num, BYTES, val);
    BytesRoundTrip(body, []);
    assert val + [] == val;
    assert (tag + val)[|tag|..] == val;
    assert (tag + val)[..|tag + val|] == tag + val;
  }

  /** A well-formed sequence of fields followed by the end tag is a group body. */
  lemma {:induction false} GroupBody(num: nat, body: Bytes, rest: Bytes)
    requires 1 <= num <= MAX_FIELD_NUMBER
    requires ParseEntries(body).Entries?
    ensures GroupLen(num, body + AppendTag(num, END_GROUP) + rest) == Some(|body| + |AppendTag(num, END_GROUP)|)
    ensures GroupBodyLen(num, body + AppendTag(num, END_GROUP) + rest) == |body|
    decreases |body|
  {
    hide HeadEntry, GroupLen, GroupBodyLen, FieldLen, AppendTag;
    var end := AppendTag(num, END_GROUP);
    var b := body + end + rest;
    if body == [] {
      assert b == end + rest;
      GroupEnd(num, rest);
    } else {
      var e := HeadEntry(body).entry;
      var tail := body[|e.raw|..];
      assert body == e.raw + tail;
      HeadIsField(body, b);
      assert b[|e.raw|..] == tail + end + rest;
      GroupBody(num, tail, rest);
      GroupStep(num, b, |e.raw|);
    }
  }

  lemma {:induction false} GroupEnd(num: nat, rest: Bytes)
    requires 1 <= num <= MAX_FIELD_NUMBER
    ensures GroupLen(num, AppendTag(num, END_GROUP) + rest) == Some(|AppendTag(num, END_GROUP)|)
    ensures GroupBodyLen(num, AppendTag(num, END_GROUP) + rest) == 0
  {
    TagRoundTrip(num, END_GROUP, rest);
  }

  lemma {:induction false} HeadIsField(b: Bytes, c: Bytes)
    requires HeadEntry(b).Field? && HeadEntry(b).entry.raw <= c
    ensures FieldLen(c) == Some(|HeadEntry(b).entry.raw|)
  {
    FieldLocal(b, c);
  }

  lemma {:induction false} GroupStep(num: int, b: Bytes, n: nat)
    requires FieldLen(b) == Some(n) && GroupLen(num, b[n..]).Some?
    ensures GroupLen(num, b) == Some(n + GroupLen(num, b[n..]).value)
    ensures GroupBodyLen(num, b) == n + GroupBodyLen(num, b[n..])
  {
    hide ConsumeTag, ValueLen;
    var t := ConsumeTag(b).value;
    EndHasNoValue(t.num, b[t.len..]);
    assert t.len + (n - t.len) == n;
  }

  lemma {:induction false} EndHasNoValue(num: int, b: Bytes)
    ensures ValueLen(num, END_GROUP, b).None?
  {
  }

  lemma {:induction false} GroupFieldParses(num: nat, body: Bytes)
    requires 1 <= num <= MAX_FIELD_NUMBER && ParseEntries(body).Entries?
    ensures var raw := AppendTag(num, START_GROUP) + body + AppendTag(num, END_GROUP);
            && IsField(raw, Entry(num, START_GROUP, Some(body), raw))
            && Content(raw) == Some(body)
  {
    hide ConsumeTag, GroupLen, GroupBodyLen, AppendTag;
    var start, end := AppendTag(num, START_GROUP), AppendTag(num, END_GROUP);
    var raw := start + body + end;
    assert raw == start + (body + end);
    TagRoundTrip(num, START_GROUP, body + end);
    assert raw[|start|..] == body + end + [];
    GroupBody(num, body, []);
    TagLengthsEqual(num, START_GROUP, END_GROUP);
    assert raw[|start|..|raw| - |start|] == body;
    assert raw[..|raw|] == raw;
  }

  /** A field number's tags all have one length, whatever their wire type. */
  lemma {:induction false} TagLengthsEqual(num: nat, s: nat, t: nat)
    requires s < 8 && t < 8
    ensures |AppendTag(num, s)| == |AppendTag(num, t)|
  {
    if num >= 16 {
      assert (num * 8 + s) / 128 == num / 16 == (num * 8 + t) / 128;
    }
  }
}
