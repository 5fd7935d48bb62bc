/** The canonicalizer itself: two loops over the encoded fields, proved to compute Canon. */
module OptionCanonicalizer {
  import opened Wrappers
  import opened Wire
  import opened WireEntries
  import opened OptionSchema
  import opened EntrySort
  import opened OptionDecode
  import opened OptionCanon

  function Prepend(es: seq<Entry>, p: Parse): Parse {
    match p
    case Entries(rest) => Entries(es + rest)
    case other => other
  }

  /** The first loop: cut raw into entries, field by field. */
  method SplitEntries(raw: Bytes) returns (p: Parse)
    ensures p == ParseEntries(raw)
  {
    hide FieldLen, ConsumeTag, ConsumeBytes;
    var entries: seq<Entry> := [];
    var buf := raw;
    while |buf| > 0
      invariant |buf| <= |raw|
      invariant ParseEntries(raw) == Prepend(entries, ParseEntries(buf))
    {
      var total := FieldLen(buf);
      if total.None? {
        return Malformed;
      }
      HasTag(buf);
      var tag := ConsumeTag(buf).value;
      var e := Entry(tag.num, tag.typ, None, buf[..total.value]);
      if tag.typ == BYTES {
        var d := ConsumeBytes(buf[tag.len..]);
        if d.None? {
          return Malformed;
        }
        e := e.(payload := Some(d.value.content));
      } else if tag.typ == START_GROUP {
        if total.value - tag.len < tag.len {
          return SliceFault;
        }
        e := e.(payload := Some(buf[tag.len..total.value - tag.len]));
      }
      assert HeadEntry(buf) == Field(e);
      PrependStep(entries, e, buf);
      entries := entries + [e];
      buf := buf[total.value..];
    }
    assert entries + [] == entries;
    p := Entries(entries);
  }

  lemma {:induction false} HasTag(buf: Bytes)
    requires FieldLen(buf).Some?
    ensures ConsumeTag(buf).Some? && ConsumeTag(buf).value.len <= FieldLen(buf).value <= |buf|
    ensures 0 < FieldLen(buf).value
  {
  }

  lemma {:induction false} PrependStep(entries: seq<Entry>, e: Entry, buf: Bytes)
    requires buf != [] && HeadEntry(buf) == Field(e)
    ensures Prepend(entries, ParseEntries(buf)) == Prepend(entries + [e], ParseEntries(buf[|e.raw|..]))
  {
    hide HeadEntry;
    var p := ParseEntries(buf[|e.raw|..]);
    if p.Entries? {
      assert entries + ([e] + p.entries) == (entries + [e]) + p.entries;
    }
  }

  function After(out: Bytes, rest: Option<Bytes>): Option<Bytes> {
    match rest
    case Some(b) => Some(out + b)
    case None => None
  }

  method CanonicalizeUnknown(raw: Bytes, owner: string, fields: OptionFields) returns (r: Option<Bytes>)
    ensures r == Canon(raw, owner, fields)
    decreases |raw|, 1
  {
    hide Emit, Canon, EmitAll;
    CanonCases(raw, owner, fields);
    if |raw| == 0 {
      EmitEmpty(owner, fields);
      return Some(raw);
    }
    var parse := SplitEntries(raw);
    if parse.Malformed? {
      return Some(raw);
    } else if parse.SliceFault? {
      return None;
    }
    var entries := SortByNum(parse.entries);
    r := EmitEntries(entries, owner, fields);
  }

  /** The second loop: write the sorted entries, merging the run of a singular submessage. */
  method EmitEntries(entries: seq<Entry>, owner: string, fields: OptionFields) returns (r: Option<Bytes>)
    requires AllShrink(entries)
    ensures r == EmitAll(entries, owner, fields)
    decreases TotalRaw(entries), 0
  {
    hide Emit, Canon, EmitAll, RunLength, MergedPayload;
    var out: Bytes := [];
    var i := 0;
    EmptyAfter(EmitAll(entries, owner, fields));
    assert entries[0..] == entries;
    while i < |entries|
      invariant 0 <= i <= |entries| && AllShrink(entries[i..])
      invariant TotalRaw(entries[i..]) <= TotalRaw(entries)
      invariant EmitAll(entries, owner, fields) == After(out, EmitAll(entries[i..], owner, fields))
    {
      var e := entries[i];
      ghost var es := entries[i..];
      assert e == es[0] && Shrinks(e);
      var f := fields.Submessage(owner, e.num);
      if e.payload.None? || f.None? {
        RawStep(es, out, owner, fields);
        out := out + e.raw;
        i := i + 1;
        assert es[1..] == entries[i..];
      } else if f.value.repeated {
        var body := CanonicalizeUnknown(e.payload.value, TrimLeadingDot(f.value.typeName), fields);
        RepeatedStep(es, out, owner, fields);
        if body.None? {
          return None;
        }
        out := out + Emit(f.value, e.num, body.value, owner, fields);
        i := i + 1;
        assert es[1..] == entries[i..];
      } else {
        MergedShrinks(es, e.num);
        var merged, j := MergeRun(entries, i);
        var body := CanonicalizeUnknown(merged, TrimLeadingDot(f.value.typeName), fields);
        SingularStep(es, out, owner, fields);
        if body.None? {
          return None;
        }
        out := out + Emit(f.value, e.num, body.value, owner, fields);
        assert es[j - i..] == entries[j..];
        i := j;
      }
    }
    assert entries[i..] == [];
    EmitEmpty(owner, fields);
    assert out + [] == out;
    r := Some(out);
  }

  /** The inner loop: the bodies of the entries from i on that share its number, end to end. */
  method MergeRun(entries: seq<Entry>, i: nat) returns (merged: Bytes, j: nat)
    requires i < |entries|
    ensures j == i + RunLength(entries[i..], entries[i].num) <= |entries|
    ensures merged == MergedPayload(entries[i..][..j - i])
  {
    ghost var es := entries[i..];
    var num := entries[i].num;
    merged := [];
    j := i;
    while j < |entries| && entries[j].num == num
      invariant i <= j <= i + RunLength(es, num) <= |entries|
      invariant merged == MergedPayload(es[..j - i])
    {
      assert entries[j] == es[j - i];
      MergedExtend(es[..j - i], es[j - i]);
      assert es[..j + 1 - i] == es[..j - i] + [es[j - i]];
      merged := merged + (if entries[j].payload.Some? then entries[j].payload.value else []);
      j := j + 1;
    }
    assert j < |entries| ==> entries[j] == es[j - i];
  }

  lemma {:induction false} CanonCases(raw: Bytes, owner: string, fields: OptionFields)
    ensures match ParseEntries(raw)
            case Malformed => Canon(raw, owner, fields) == Some(raw)
            case SliceFault => Canon(raw, owner, fields) == None
            case Entries(es) =>
              && AllShrink(SortByNum(es)) && TotalRaw(SortByNum(es)) == |raw|
              && Canon(raw, owner, fields) == EmitAll(SortByNum(es), owner, fields)
  {
    if ParseEntries(raw).Entries? {
      var es := ParseEntries(raw).entries;
      EntriesShrink(raw);
      SortDecodes(es, owner, fields);
      SortIsStable(es, 0);
    }
  }

  lemma {:induction false} EmitEmpty(owner: string, fields: OptionFields)
    ensures EmitAll([], owner, fields) == Some([])
  {
  }

  lemma {:induction false} EmptyAfter(rest: Option<Bytes>)
    ensures After([], rest) == rest
  {
    if rest.Some? {
      assert [] + rest.value == rest.value;
    }
  }

  lemma {:induction false} RawStep(es: seq<Entry>, out: Bytes, owner: string, fields: OptionFields)
    requires es != [] && AllShrink(es)
    requires es[0].payload.None? || fields.Submessage(owner, es[0].num).None?
    ensures After(out, EmitAll(es, owner, fields)) == After(out + es[0].raw, EmitAll(es[1..], owner, fields))
  {
    hide Emit, Canon;
    var rest := EmitAll(es[1..], owner, fields);
    if rest.Some? {
      assert out + (es[0].raw + rest.value) == (out + es[0].raw) + rest.value;
    }
  }

  lemma {:induction false} RepeatedStep(es: seq<Entry>, out: Bytes, owner: string, fields: OptionFields)
    requires es != [] && AllShrink(es) && es[0].payload.Some?
    requires fields.Submessage(owner, es[0].num).Some? && fields.Submessage(owner, es[0].num).value.repeated
    ensures var f := fields.Submessage(owner, es[0].num).value;
            var body := Canon(es[0].payload.value, TrimLeadingDot(f.typeName), fields);
            After(out, EmitAll(es, owner, fields)) ==
            if body.None? then None
            else After(out + Emit(f, es[0].num, body.value, owner, fields), EmitAll(es[1..], owner, fields))
  {
    hide Emit, Canon;
    var f := fields.Submessage(owner, es[0].num).value;
    var body := Canon(es[0].payload.value, TrimLeadingDot(f.typeName), fields);
    var rest := EmitAll(es[1..], owner, fields);
    if body.Some? && rest.Some? {
      var one := Emit(f, es[0].num, body.value, owner, fields);
      assert out + (one + rest.value) == (out + one) + rest.value;
    }
  }

  lemma {:induction false} SingularStep(es: seq<Entry>, out: Bytes, owner: string, fields: OptionFields)
    requires es != [] && AllShrink(es) && es[0].payload.Some?
    requires fields.Submessage(owner, es[0].num).Some? && !fields.Submessage(owner, es[0].num).value.repeated
    ensures var f := fields.Submessage(owner, es[0].num).value;
            var j := RunLength(es, es[0].num);
            var body := Canon(MergedPayload(es[..j]), TrimLeadingDot(f.typeName), fields);
            After(out, EmitAll(es, owner, fields)) ==
            if body.None? then None
            else After(out + Emit(f, es[0].num, body.value, owner, fields), EmitAll(es[j..], owner, fields))
  {
    hide Emit, Canon;
    var f := fields.Submessage(owner, es[0].num).value;
    var j := RunLength(es, es[0].num);
    MergedShrinks(es, es[0].num);
    var body := Canon(MergedPayload(es[..j]), TrimLeadingDot(f.typeName), fields);
    var rest := EmitAll(es[j..], owner, fields);
    if body.Some? && rest.Some? {
      var one := Emit(f, es[0].num, body.value, owner, fields);
      assert out + (one + rest.value) == (out + one) + rest.value;
    }
  }

  lemma {:induction false} MergedExtend(es: seq<Entry>, e: Entry)
    ensures MergedPayload(es + [e]) == MergedPayload(es) + (if e.payload.Some? then e.payload.value else [])
  {
    if es == [] {
      assert [e][1..] == [];
    } else {
      assert (es + [e])[1..] == es[1..] + [e];
      MergedExtend(es[1..], e);
    }
  }
}
