/**
 Groups whose two tags differ in length. The canonicalizer takes the end tag to be as
 long as the start tag; the two lengths decide whether it cuts out the group's body,
 tears the group apart, or faults.
 */
module GroupTags {
  import opened Wrappers
  import opened Wire
  import opened WireEntries
  import opened OptionSchema
  import opened OptionValue
  import opened EntrySort
  import opened OptionDecode
  import opened OptionCanon
  import opened CanonicalForm
  import opened CanonLoss

  /** raw cut into fields by the wire grammar alone. */
  function Split(raw: Bytes): Option<seq<Bytes>>
    decreases |raw|
  {
    if raw == [] then Some([])
    else
      var n :- FieldLen(raw);
      var rest :- Split(raw[n..]);
      Some([raw[..n]] + rest)
  }

  predicate Splits(raw: Bytes) {
    Split(raw).Some?
  }

  /** raw is one field, and a group. */
  predicate IsGroup(raw: Bytes) {
    FieldLen(raw) == Some(|raw|) && ConsumeTag(raw).value.typ == START_GROUP
  }

  function StartLen(raw: Bytes): (n: nat)
    requires IsGroup(raw)
    ensures 0 < n <= |raw|
  {
    ConsumeTag(raw).value.len
  }

  /** The group's fields, without either tag. */
  function Inside(raw: Bytes): (b: Bytes)
    requires IsGroup(raw)
    ensures StartLen(raw) + |b| < |raw|
  {
    Content(raw).value
  }

  function EndLen(raw: Bytes): nat
    requires IsGroup(raw)
  {
    |raw| - StartLen(raw) - |Inside(raw)|
  }

  /** The start tag is longer than everything after it. */
  predicate Crosses(raw: Bytes) {
    IsGroup(raw) && |Inside(raw)| + EndLen(raw) < StartLen(raw)
  }

  /** What the canonicalizer takes for the group's body. */
  function Taken(raw: Bytes): Bytes
    requires IsGroup(raw) && !Crosses(raw)
  {
    raw[StartLen(raw)..|raw| - StartLen(raw)]
  }

  // ---------------------------------------------------------------------------
  // Varints

  predicate AllContinue(c: Bytes) {
    forall b <- c :: b >= 128
  }

  lemma {:induction false} ContinuesOnly(c: Bytes, k: nat)
    requires AllContinue(c)
    ensures VarintAt(c, k) == None
    decreases |c|
  {
    if c != [] {
      assert c[0] in c && forall b <- c[1..] :: b in c;
      ContinuesOnly(c[1..], k + 1);
    }
  }

  /** Every byte of a varint but the last says that another follows. */
  lemma {:induction false} VarintContinues(b: Bytes, k: nat)
    requires VarintAt(b, k).Some?
    ensures forall i :: 0 <= i < VarintAt(b, k).value.len - 1 ==> b[i] >= 128
    decreases |b|
  {
    if b[0] >= 128 {
      VarintContinues(b[1..], k + 1);
      assert forall i :: 0 < i < |b| ==> b[i] == b[1..][i - 1];
    }
  }

  lemma {:induction false} AppendedReads(v: nat, k: nat, rest: Bytes)
    requires VarintAt(AppendVarint(v) + rest, k).Some?
    ensures VarintAt(AppendVarint(v) + rest, k) == Some(Varint(v, |AppendVarint(v)|))
    decreases v
  {
    if v >= 128 {
      assert (AppendVarint(v) + rest)[1..] == AppendVarint(v / 128) + rest;
      AppendedReads(v / 128, k + 1, rest);
    }
  }

  /** A continued varint in front of a varint makes a larger one. */
  lemma {:induction false} ContinuedReads(c: Bytes, v: nat, k: nat)
    requires c != [] && AllContinue(c) && VarintAt(c + AppendVarint(v), k).Some?
    ensures VarintAt(c + AppendVarint(v), k).value.value >= 128 * v
    ensures VarintAt(c + AppendVarint(v), k).value.len == |c| + |AppendVarint(v)|
    decreases |c|
  {
    assert c[0] in c && forall b <- c[1..] :: b in c;
    assert (c + AppendVarint(v))[1..] == c[1..] + AppendVarint(v);
    if |c| == 1 {
      assert c[1..] + AppendVarint(v) == AppendVarint(v) + [];
      AppendedReads(v, k + 1, []);
    } else {
      ContinuedReads(c[1..], v, k + 1);
    }
  }

  /** The tail of an appended varint is an appended smaller one. */
  lemma {:induction false} VarintTail(v: nat, j: nat) returns (w: nat)
    requires 0 < j < |AppendVarint(v)|
    ensures w < v && AppendVarint(v)[j..] == AppendVarint(w)
    decreases j
  {
    assert AppendVarint(v)[1..] == AppendVarint(v / 128);
    if j == 1 {
      w := v / 128;
    } else {
      w := VarintTail(v / 128, j - 1);
      assert AppendVarint(v)[j..] == AppendVarint(v)[1..][j - 1..];
    }
  }

  // ---------------------------------------------------------------------------
  // Fields in a row

  lemma {:induction false} SplitStep(raw: Bytes, n: nat)
    requires FieldLen(raw) == Some(n)
    ensures Splits(raw) <==> Splits(raw[n..])
  {
    hide FieldLen;
  }

  /** In front of whole fields, whole fields make no difference. */
  lemma {:induction false} SplitAfter(a: Bytes, c: Bytes)
    requires Splits(a)
    ensures Splits(a + c) <==> Splits(c)
    decreases |a|
  {
    hide FieldLen, Splits;
    if a == [] {
      assert a + c == c;
    } else {
      var n := HeadLen(a);
      FieldLocal(a, a + c);
      SplitStep(a, n);
      SplitStep(a + c, n);
      assert (a + c)[n..] == a[n..] + c;
      SplitAfter(a[n..], c);
    }
  }

  lemma {:induction false} HeadLen(a: Bytes) returns (n: nat)
    requires Splits(a) && a != []
    ensures FieldLen(a) == Some(n) && 0 < n <= |a|
  {
    hide ConsumeTag;
    n := FieldLen(a).value;
  }

  lemma {:induction false} ParsedSplits(raw: Bytes)
    requires ParseEntries(raw).Entries?
    ensures Splits(raw)
    decreases |raw|
  {
    hide FieldLen, HeadEntry;
    if raw != [] {
      var e := HeadEntry(raw).entry;
      FieldOfHead(raw);
      ParsedSplits(raw[|e.raw|..]);
      SplitStep(raw, |e.raw|);
    }
  }

  lemma {:induction false} FieldOfHead(raw: Bytes)
    requires HeadEntry(raw).Field?
    ensures FieldLen(raw) == Some(|HeadEntry(raw).entry.raw|)
  {
  }

  /** Parsing after entries. */
  lemma {:induction false} ParseAfter(a: Bytes, c: Bytes)
    requires ParseEntries(a).Entries?
    ensures ParseEntries(c).Malformed? ==> ParseEntries(a + c).Malformed?
    ensures ParseEntries(a + c).Entries? ==> ParseEntries(c).Entries?
    decreases |a|
  {
    hide HeadEntry;
    if a == [] {
      assert a + c == c;
    } else {
      var e := HeadEntry(a).entry;
      HeadLocal(a, a + c);
      assert (a + c)[|e.raw|..] == a[|e.raw|..] + c;
      ParseAfter(a[|e.raw|..], c);
    }
  }

  /** A cut of parsed fields does not fault, and at a field boundary it is parsed fields. */
  lemma {:induction false} ParsePrefix(a: Bytes, c: Bytes)
    requires ParseEntries(a + c).Entries?
    ensures !ParseEntries(a).SliceFault?
    ensures Splits(a) ==> ParseEntries(a).Entries?
    decreases |a|
  {
    hide FieldLen, Splits;
    if a != [] && FieldLen(a).Some? {
      var n := FieldLen(a).value;
      HeadOfPrefix(a, c, n);
      hide HeadEntry;
      assert (a + c)[n..] == a[n..] + c;
      SplitStep(a, n);
      ParsePrefix(a[n..], c);
    } else if a != [] {
      NoField(a);
    }
  }

  lemma {:induction false} HeadOfPrefix(a: Bytes, c: Bytes, n: nat)
    requires a != [] && FieldLen(a) == Some(n) && ParseEntries(a + c).Entries?
    ensures 0 < n <= |a| && HeadEntry(a).Field? && HeadEntry(a + c) == HeadEntry(a) && |HeadEntry(a).entry.raw| == n
    ensures ParseEntries((a + c)[n..]).Entries?
  {
    hide FieldLen, HeadEntry;
    HasTag(a);
    FieldLocal(a, a + c);
    HeadParsed(a + c);
    FieldOfHead(a + c);
    assert HeadEntry(a + c).entry.raw == (a + c)[..n] == a[..n];
    HeadLocal(a + c, a);
  }

  lemma {:induction false} NoField(a: Bytes)
    requires a != [] && FieldLen(a).None?
    ensures ParseEntries(a).Malformed? && !Splits(a)
  {
  }

  // ---------------------------------------------------------------------------
  // The fault

  lemma {:induction false} HeadFaults(buf: Bytes, n: nat)
    requires FieldLen(buf) == Some(n)
    ensures HeadEntry(buf).BadSlice? <==> Crosses(buf[..n])
    ensures !HeadEntry(buf).BadField?
    ensures HeadEntry(buf).Field? ==> HeadEntry(buf).entry.raw == buf[..n]
  {
    var field := buf[..n];
    assert FieldLen(field) == Some(n) && ConsumeTag(field) == ConsumeTag(buf) by {
      hide FieldLen, ConsumeTag;
      HasTag(buf);
      assert buf[..n] == field[..n];
      FieldLocal(buf, field);
    }
    hide GroupLen, GroupBodyLen, VarintAt;
    var t := ConsumeTag(buf).value;
    if t.typ == BYTES {
      DelimitedValue(buf, t.len);
    }
  }

  lemma {:induction false} HasTag(buf: Bytes)
    requires FieldLen(buf).Some?
    ensures ConsumeTag(buf).Some? && 0 < FieldLen(buf).value <= |buf|
  {
  }

  /** Splitting faults exactly when the start tag of some field is longer than the rest of that field. */
  lemma {:induction false} FaultsExactly(raw: Bytes)
    requires Splits(raw)
    ensures !ParseEntries(raw).Malformed?
    ensures ParseEntries(raw).SliceFault? <==> exists field <- Split(raw).value :: Crosses(field)
    decreases |raw|
  {
    hide FieldLen, HeadEntry, Crosses;
    if raw != [] {
      var n := HeadLen(raw);
      HeadFaults(raw, n);
      FaultsExactly(raw[n..]);
      var fs, rest := Split(raw).value, Split(raw[n..]).value;
      assert fs == [raw[..n]] + rest;
      assert forall field :: field in fs <==> field == raw[..n] || field in rest;
    }
  }

  // ---------------------------------------------------------------------------
  // The body

  /** A group's rest is its end tag, or a field and a shorter rest. */
  lemma {:induction false} GroupCases(num: int, b: Bytes)
    requires GroupLen(num, b).Some?
    ensures
      var t := ConsumeTag(b);
      && t.Some?
      && (t.value.typ == END_GROUP ==>
            t.value.num == num && GroupBodyLen(num, b) == 0 && GroupLen(num, b).value == t.value.len)
      && (t.value.typ != END_GROUP ==> FieldLen(b).Some? && GroupLen(num, b[FieldLen(b).value..]).Some?)
  {
    hide ConsumeTag, ValueLen;
  }

  /** A group is fields and an end tag. */
  lemma {:induction false} GroupEndsWithTag(num: int, b: Bytes)
    requires GroupLen(num, b).Some?
    ensures
      var k := GroupBodyLen(num, b);
      && Splits(b[..k])
      && ConsumeTag(b[k..]).Some?
      && var t := ConsumeTag(b[k..]).value;
         t.typ == END_GROUP && t.num == num && k + t.len == GroupLen(num, b).value
    decreases |b|
  {
    hide *;
    GroupCases(num, b);
    if ConsumeTag(b).value.typ == END_GROUP {
      NothingSplits();
      assert b[0..] == b && b[..0] == [];
    } else {
      var m := FieldLen(b).value;
      GroupEndsWithTag(num, b[m..]);
      GroupStep(num, b, m);
      var k := GroupBodyLen(num, b);
      assert b[m..][k - m..] == b[k..];
      assert b[..k][m..] == b[m..][..k - m] && b[..k][..m] == b[..m];
      FieldLocal(b, b[..k]);
      SplitStep(b[..k], m);
    }
  }

  /** The three parts of a group. */
  lemma {:induction false} GroupParts(raw: Bytes)
    requires IsGroup(raw)
    ensures
      var n, body := StartLen(raw), Inside(raw);
      var end := raw[n + |body|..];
      && raw == raw[..n] + body + end && |end| == EndLen(raw)
      && Splits(body)
      && ConsumeTag(end) == Some(Tag(ConsumeTag(raw).value.num, END_GROUP, |end|))
  {
    hide Splits, Split, GroupLen, GroupBodyLen, VarintAt;
    var t := ConsumeTag(raw).value;
    GroupEndsWithTag(t.num, raw[t.len..]);
    var k := |Inside(raw)|;
    assert raw[t.len..][k..] == raw[t.len + k..];
  }

  /** The body taken is the body exactly when the tags have one length. */
  lemma {:induction false} AlignedExactly(raw: Bytes)
    requires IsGroup(raw) && !Crosses(raw)
    ensures HeadEntry(raw).Field? && HeadEntry(raw).entry.payload == Some(Taken(raw))
    ensures Aligned(HeadEntry(raw).entry) <==> StartLen(raw) == EndLen(raw)
  {
    hide GroupLen, GroupBodyLen, VarintAt;
    var n, body := StartLen(raw), Inside(raw);
    assert raw[..|raw|] == raw;
    assert StartLen(raw) == EndLen(raw) ==> raw[n..][..|body|] == raw[n..|raw| - n];
  }

  /** What is taken is whole fields exactly when the end tag is no longer and the cut meets a field boundary. */
  lemma {:induction false} TakenSplits(raw: Bytes)
    requires IsGroup(raw) && !Crosses(raw)
    ensures
      var body, s, t := Inside(raw), StartLen(raw), EndLen(raw);
      && (t <= s ==> Taken(raw) == body[..|body| + t - s])
      && (Splits(Taken(raw)) <==> t <= s && Splits(body[..|body| + t - s]))
  {
    hide Splits, Split, IsGroup, ConsumeTag, Content;
    GroupParts(raw);
    var body, s, t := Inside(raw), StartLen(raw), EndLen(raw);
    var end := raw[s + |body|..];
    if t <= s {
      assert Taken(raw) == body[..|body| + t - s];
    } else {
      var c := end[..t - s];
      assert Taken(raw) == body + c;
      SplitAfter(body, c);
      TagContinues(end, c);
    }
  }

  lemma {:induction false} TagContinues(end: Bytes, c: Bytes)
    requires ConsumeTag(end).Some? && ConsumeTag(end).value.len == |end| && c < end && c != []
    ensures !Splits(c) && ParseEntries(c).Malformed?
  {
    VarintContinues(end, 0);
    ContinuesOnly(c, 0);
    hide VarintAt, ParseEntries;
    NoField(c);
  }

  // ---------------------------------------------------------------------------
  // Written groups

  lemma {:induction false} FieldsThenEnd(num: nat, x: Bytes)
    requires 1 <= num <= MAX_FIELD_NUMBER && Splits(x)
    ensures GroupLen(num, x + AppendTag(num, END_GROUP)) == Some(|x| + |AppendTag(num, END_GROUP)|)
    decreases |x|
  {
    hide AppendTag, FieldLen, GroupLen, GroupBodyLen, Splits;
    var end := AppendTag(num, END_GROUP);
    if x == [] {
      assert x + end == end + [];
      GroupEnd(num, []);
    } else {
      var n := HeadLen(x);
      FieldLocal(x, x + end);
      SplitStep(x, n);
      FieldsThenEnd(num, x[n..]);
      assert (x + end)[n..] == x[n..] + end;
      GroupStep(num, x + end, n);
    }
  }

  /** The only way for a group to end exactly with the written end tag is to read that tag. */
  lemma {:induction false} EndOnly(num: nat, x: Bytes)
    requires 1 <= num <= MAX_FIELD_NUMBER
    requires var b := x + AppendTag(num, END_GROUP); GroupLen(num, b) == Some(|b|)
    ensures Splits(x)
    decreases |x|
  {
    hide AppendTag, FieldLen, ConsumeTag, Splits, Split, GroupLen, GroupBodyLen;
    var end := AppendTag(num, END_GROUP);
    var b := x + end;
    GroupCases(num, b);
    if x == [] {
      NothingSplits();
    } else if ConsumeTag(b).value.typ == END_GROUP {
      NoEarlyEnd(num, x);
    } else {
      var n := FieldLen(b).value;
      GroupStep(num, b, n);
      if n <= |x| {
        FieldLocal(b, x);
        SplitStep(x, n);
        assert b[n..] == x[n..] + end;
        EndOnly(num, x[n..]);
      } else {
        assert b[n..] == end[n - |x|..];
        NoEndInside(num, n - |x|);
      }
    }
  }

  lemma {:induction false} NothingSplits()
    ensures Splits([])
  {
  }

  /** No end tag of that number starts before the written one and ends with it. */
  lemma {:induction false} NoEarlyEnd(num: nat, x: Bytes)
    requires x != []
    ensures ConsumeTag(x + AppendTag(num, END_GROUP)) != Some(Tag(num, END_GROUP, |x + AppendTag(num, END_GROUP)|))
  {
    hide AppendVarint;
    var end := AppendTag(num, END_GROUP);
    var b := x + end;
    if ConsumeTag(b) == Some(Tag(num, END_GROUP, |b|)) {
      VarintContinues(b, 0);
      assert forall i :: 0 <= i < |x| ==> x[i] == b[i];
      ContinuedReads(x, num * 8 + END_GROUP, 0);
    }
  }

  /** No group ends in the tail of the written end tag. */
  lemma {:induction false} NoEndInside(num: nat, j: nat)
    requires 0 < j <= |AppendTag(num, END_GROUP)|
    ensures GroupLen(num, AppendTag(num, END_GROUP)[j..]).None?
  {
    hide AppendVarint, ValueLen;
    var v := num * 8 + END_GROUP;
    var tail := AppendTag(num, END_GROUP)[j..];
    if tail == [] {
      assert VarintAt(tail, 0) == None;
    } else {
      var w := VarintTail(v, j);
      assert tail == AppendVarint(w) + [];
      if VarintAt(tail, 0).Some? {
        AppendedReads(w, 0, []);
        NothingFollows(tail);
      }
    }
  }

  lemma {:induction false} NothingFollows(tail: Bytes)
    requires ConsumeTag(tail).Some? ==> ConsumeTag(tail).value.len == |tail|
    ensures ConsumeTag(tail).Some? && ConsumeTag(tail).value.typ != END_GROUP ==>
      var t := ConsumeTag(tail).value; ValueLen(t.num, t.typ, tail[t.len..]).None?
  {
    hide ConsumeTag;
    if ConsumeTag(tail).Some? {
      var t := ConsumeTag(tail).value;
      assert tail[t.len..] == [];
      NoValue(t.num, t.typ);
    }
  }

  lemma {:induction false} NoValue(num: int, typ: int)
    ensures typ != END_GROUP ==> ValueLen(num, typ, []).None?
  {
    assert ConsumeVarint([]) == None && ConsumeTag([]) == None;
  }

  /** A written group is one whole field exactly when what is inside is whole fields. */
  lemma {:induction false} GroupWhole(num: nat, x: Bytes)
    requires 1 <= num <= MAX_FIELD_NUMBER
    ensures
      var raw := AppendTag(num, START_GROUP) + x + AppendTag(num, END_GROUP);
      FieldLen(raw) == Some(|raw|) <==> Splits(x)
  {
    hide AppendTag, Splits, GroupLen, ConsumeTag;
    var start, end := AppendTag(num, START_GROUP), AppendTag(num, END_GROUP);
    var raw := start + x + end;
    assert raw == start + (x + end);
    TagRoundTrip(num, START_GROUP, x + end);
    assert raw[|start|..] == x + end;
    if Splits(x) {
      FieldsThenEnd(num, x);
    }
    if GroupLen(num, x + end) == Some(|x + end|) {
      EndOnly(num, x);
    }
  }

  // ---------------------------------------------------------------------------
  // One group through the canonicalizer

  lemma {:induction false} LoneField(e: Entry, f: FieldDesc, owner: string, fields: OptionFields)
    requires Shrinks(e) && e.payload.Some? && fields.Submessage(owner, e.num) == Some(f)
    ensures AllShrink([e])
    ensures
      var inner := Canon(e.payload.value, TrimLeadingDot(f.typeName), fields);
      EmitAll([e], owner, fields) == if inner.None? then None else Some(Emit(f, e.num, inner.value, owner, fields))
  {
    hide Canon, Emit;
    var es, none := [e], [e][1..];
    assert none == [] && EmitAll(none, owner, fields) == Some([]);
    assert RunLength(none, e.num) == 0 && RunLength(es, e.num) == 1;
    assert es[..1] == es && es[1..] == none;
    RunOfOne(e);
    var inner := Canon(e.payload.value, TrimLeadingDot(f.typeName), fields);
    if inner.Some? {
      var r := Emit(f, e.num, inner.value, owner, fields);
      assert r + [] == r;
    }
  }

  /** A group faults on its own tags, or becomes its field around the canonical form of what is taken. */
  lemma {:induction false} LoneGroup(raw: Bytes, f: FieldDesc, owner: string, fields: OptionFields)
    requires IsGroup(raw) && fields.Submessage(owner, ConsumeTag(raw).value.num) == Some(f)
    ensures Crosses(raw) <==> ParseEntries(raw).SliceFault?
    ensures Crosses(raw) ==> Canon(raw, owner, fields) == None
    ensures !Crosses(raw) ==>
      var inner := Canon(Taken(raw), TrimLeadingDot(f.typeName), fields);
      Canon(raw, owner, fields) ==
      if inner.None? then None else Some(Emit(f, ConsumeTag(raw).value.num, inner.value, owner, fields))
  {
    hide IsGroup, Crosses, HeadEntry, EmitAll, Emit, Taken, FieldLen;
    OneGroup(raw);
    if !Crosses(raw) {
      var e := HeadEntry(raw).entry;
      SingleField(raw, e);
      EntriesShrink(raw);
      assert SortByNum([e][1..]) == [];
      assert SortByNum([e]) == [e];
      LoneField(e, f, owner, fields);
    }
  }

  lemma {:induction false} OneGroup(raw: Bytes)
    requires IsGroup(raw)
    ensures raw != []
    ensures Crosses(raw) ==> ParseEntries(raw).SliceFault?
    ensures !Crosses(raw) ==>
      var e := HeadEntry(raw).entry;
      HeadEntry(raw).Field? && IsField(raw, e) && e.num == ConsumeTag(raw).value.num && e.payload == Some(Taken(raw))
  {
    hide Crosses, ParseEntries, GroupLen, GroupBodyLen, VarintAt;
    assert raw[..|raw|] == raw;
    HeadFaults(raw, |raw|);
    FaultParses(raw);
    if !Crosses(raw) {
      AlignedExactly(raw);
    }
  }

  lemma {:induction false} FaultParses(raw: Bytes)
    requires raw != []
    ensures HeadEntry(raw).BadSlice? ==> ParseEntries(raw).SliceFault?
  {
    hide HeadEntry;
  }

  lemma {:induction false} TidyPrefix(a: Bytes, c: Bytes, owner: string, fields: OptionFields)
    requires Tidy(a + c, owner, fields) && Splits(a) && Plain(Decode(a + c, owner, fields), owner, fields)
    ensures Tidy(a, owner, fields) && Plain(Decode(a, owner, fields), owner, fields)
  {
    hide Splits, Plain, Decode, TidyEntries, Merge;
    ParsePrefix(a, c);
    ParseAfter(a, c);
    ParseAppend(a, c);
    EntriesShrink(a);
    EntriesShrink(c);
    TidyAppend(ParseEntries(a).entries, ParseEntries(c).entries, owner, fields);
    DecodeJoin(a, c, owner, fields);
    PlainMerge(Decode(a, owner, fields), Decode(c, owner, fields), owner, fields);
  }

  /** What is taken from a tidy group canonicalizes to whole fields exactly when it is whole fields. */
  lemma {:induction false} TakenCanon(raw: Bytes, sub: string, fields: OptionFields)
    requires IsGroup(raw) && !Crosses(raw) && |raw| < MAX_INPUT
    requires Tidy(Inside(raw), sub, fields) && Plain(Decode(Inside(raw), sub, fields), sub, fields)
    ensures Canon(Taken(raw), sub, fields).Some?
    ensures Splits(Canon(Taken(raw), sub, fields).value) <==> Splits(Taken(raw))
  {
    hide Splits, Plain, Decode, Tidy, IsGroup, Crosses, Inside, StartLen, EndLen, Taken, EmitAll, NothingLost;
    var p, body := Taken(raw), Inside(raw);
    TakenSplits(raw);
    TakenNoFault(raw, sub, fields);
    if Splits(p) {
      var cut := |body| + EndLen(raw) - StartLen(raw);
      assert body == p + body[cut..];
      TidyPrefix(p, body[cut..], sub, fields);
      TakenShorter(raw);
      CanonKeepsExactly(p, sub, fields);
      ParsedSplits(Canon(p, sub, fields).value);
    } else if ParseEntries(p).Entries? {
      ParsedSplits(p);
    }
  }

  lemma {:induction false} TakenShorter(raw: Bytes)
    requires IsGroup(raw) && !Crosses(raw)
    ensures |Taken(raw)| <= |raw|
    ensures EndLen(raw) <= StartLen(raw) ==> 0 <= |Inside(raw)| + EndLen(raw) - StartLen(raw) <= |Inside(raw)|
  {
  }

  lemma {:induction false} TakenNoFault(raw: Bytes, sub: string, fields: OptionFields)
    requires IsGroup(raw) && !Crosses(raw) && Tidy(Inside(raw), sub, fields)
    ensures !ParseEntries(Taken(raw)).SliceFault?
    ensures EndLen(raw) <= StartLen(raw) ==>
      var cut := |Inside(raw)| + EndLen(raw) - StartLen(raw);
      0 <= cut <= |Inside(raw)| && Taken(raw) == Inside(raw)[..cut]
  {
    hide Splits, Split, ConsumeTag, Content, FieldLen, Tidy;
    GroupParts(raw);
    TakenShorter(raw);
    TakenSplits(raw);
    var body, s, t := Inside(raw), StartLen(raw), EndLen(raw);
    TidyParses(body, sub, fields);
    if t <= s {
      assert body == Taken(raw) + body[|body| + t - s..];
      ParsePrefix(Taken(raw), body[|body| + t - s..]);
    } else {
      var end := raw[s + |body|..];
      var c := end[..t - s];
      assert Taken(raw) == body + c;
      TagContinues(end, c);
      ParseAfter(body, c);
    }
  }

  /**
   A group comes out as one whole field exactly when its end tag is no longer than its
   start tag and shortening the body by the difference cuts between two fields; with
   tags of one length nothing is cut.
   */
  lemma {:induction false} GroupWholeExactly(raw: Bytes, f: FieldDesc, owner: string, fields: OptionFields)
    requires IsGroup(raw) && !Crosses(raw) && |raw| < MAX_INPUT
    requires fields.Submessage(owner, ConsumeTag(raw).value.num) == Some(f) && f.kind == Group
    requires !fields.AsItem(owner, ConsumeTag(raw).value.num)
    requires
      var sub := TrimLeadingDot(f.typeName);
      Tidy(Inside(raw), sub, fields) && Plain(Decode(Inside(raw), sub, fields), sub, fields)
    ensures
      var out := Canon(raw, owner, fields);
      var body, s, t := Inside(raw), StartLen(raw), EndLen(raw);
      && out.Some?
      && (FieldLen(out.value) == Some(|out.value|) <==> t <= s && Splits(body[..|body| + t - s]))
  {
    hide Splits, Plain, Decode, Tidy, IsGroup, Crosses, Inside, StartLen, EndLen, Taken, Canon, FieldLen, AppendTag;
    hide ConsumeTag;
    GroupTagNumber(raw);
    var num := ConsumeTag(raw).value.num;
    LoneGroup(raw, f, owner, fields);
    TakenCanon(raw, TrimLeadingDot(f.typeName), fields);
    TakenSplits(raw);
    GroupWhole(num, Canon(Taken(raw), TrimLeadingDot(f.typeName), fields).value);
  }

  lemma {:induction false} GroupTagNumber(raw: Bytes)
    requires IsGroup(raw)
    ensures ConsumeTag(raw).Some? && 1 <= ConsumeTag(raw).value.num <= MAX_FIELD_NUMBER
  {
  }
}
