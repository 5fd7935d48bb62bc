/** The byte rewrite strips exactly the source-retention fields of the tree the bytes encode. */
module StripTheorems {
  import opened Wrappers
  import opened Wire
  import opened SourceRetention

  /** f is one complete field. */
  predicate OneField(f: Bytes) {
    FieldLen(f) == Some(|f|)
  }

  /** buf is complete fields to its end. */
  predicate WellFormed(buf: Bytes)
    decreases |buf|
  {
    buf == [] || (FieldLen(buf).Some? && WellFormed(buf[FieldLen(buf).value..]))
  }

  lemma {:induction false} ReadPrepend(r: Retention, owner: string, f: Bytes, rest: Bytes)
    requires OneField(f)
    ensures Read(r, owner, f + rest) == [ReadField(r, owner, f)] + Read(r, owner, rest)
    ensures WellFormed(f + rest) <==> WellFormed(rest)
  {
    hide ConsumeTag, ReadField;
    FieldLocal(f, f + rest);
    assert (f + rest)[..|f|] == f;
    assert (f + rest)[|f|..] == rest;
  }

  lemma {:induction false} FirstField(buf: Bytes)
    requires FieldLen(buf).Some?
    ensures OneField(buf[..FieldLen(buf).value])
  {
    FieldLocal(buf, buf[..FieldLen(buf).value]);
  }

  lemma {:induction false} RewrittenField(num: nat, body: Bytes)
    requires 1 <= num <= MAX_FIELD_NUMBER && |body| < MAX_LENGTH
    ensures var f := AppendTag(num, BYTES) + AppendBytes(body);
            && OneField(f)
            && ConsumeTag(f) == Some(Tag(num, BYTES, |AppendTag(num, BYTES)|))
            && ConsumeBytes(f[|AppendTag(num, BYTES)|..]) == Some(Delimited(body, |AppendBytes(body)|))
  {
    hide AppendTag, AppendBytes, VarintAt;
    var tag, val := AppendTag(num, BYTES), AppendBytes(body);
    TagRoundTrip(num, BYTES, val);
    BytesRoundTrip(body, []);
    assert val + [] == val;
    assert (tag + val)[|tag|..] == val;
  }

  lemma {:induction false} PayloadFacts(r: Retention, owner: string, field: Bytes)
    requires OneField(field)
    ensures var t, p := ReadField(r, owner, field), Payload(r, owner, field);
            && (p.Dropped? ==> p.num == t.num && t.num in r.Stripped(owner))
            && (p.Opaque? ==> t.Leaf? && t.num !in r.Stripped(owner))
            && (p.Message? ==>
                  && p.num !in r.Stripped(owner) && p.nested == r.Nested(owner, p.num) != ""
                  && t == Node(p.num, Read(r, p.nested, p.content))
                  && 1 <= p.num <= MAX_FIELD_NUMBER)
  {
    hide Read, StripEncoded;
  }

  lemma {:induction false} StripReads(r: Retention, owner: string, buf: Bytes)
    requires |buf| < MAX_LENGTH
    ensures var o := StripEncoded(r, owner, buf);
            && (o.changed <==> HasSource(r, owner, Read(r, owner, buf)))
            && |o.kept| <= |buf|
            && Read(r, owner, o.kept) == Sift(r, owner, Read(r, owner, buf))
    decreases |buf|, 2
  {
    hide StripFields, Read, Sift;
    if |r.Stripped(owner)| == 0 && |r.Messages(owner)| == 0 {
      NothingToStrip(r, owner, buf);
      SiftCount(r, owner, Read(r, owner, buf));
    } else {
      StripFieldsReads(r, owner, buf);
    }
  }

  lemma {:induction false} NothingToStrip(r: Retention, owner: string, buf: Bytes)
    requires r.Stripped(owner) == {} && r.Messages(owner) == map[]
    ensures !HasSource(r, owner, Read(r, owner, buf))
    decreases |buf|
  {
    hide ConsumeTag, FieldLen, ConsumeBytes;
    if FieldLen(buf).Some? {
      FirstField(buf);
      FieldLenPositive(buf);
      NothingToStrip(r, owner, buf[FieldLen(buf).value..]);
    }
  }

  lemma {:induction false} FieldLenPositive(buf: Bytes)
    requires FieldLen(buf).Some?
    ensures 0 < FieldLen(buf).value <= |buf|
  {
  }

  lemma {:induction false} StripFieldsReads(r: Retention, owner: string, buf: Bytes)
    requires |buf| < MAX_LENGTH
    ensures var o := StripFields(r, owner, buf);
            && (o.changed <==> HasSource(r, owner, Read(r, owner, buf)))
            && |o.kept| <= |buf|
            && Read(r, owner, o.kept) == Sift(r, owner, Read(r, owner, buf))
            && WellFormed(o.kept)
            && o.dropped == DroppedNumbers(r, owner, Read(r, owner, buf))
    decreases |buf|, 1
  {
    hide FieldLen, StripField, ReadField, SiftTree, TreeHasSource, OneField;
    match FieldLen(buf)
    case None =>
      EmptyReads(r, owner);
    case Some(n) =>
      FieldLenPositive(buf);
      FirstField(buf);
      var f, tail := buf[..n], buf[n..];
      StripFieldReads(r, owner, f);
      StripFieldsReads(r, owner, tail);
      var a, b := StripField(r, owner, f), StripFields(r, owner, tail);
      var t, ts := ReadField(r, owner, f), Read(r, owner, tail);
      assert ([t] + ts)[1..] == ts;
      if a.kept == [] {
        assert a.kept + b.kept == b.kept;
      } else {
        ReadPrepend(r, owner, a.kept, b.kept);
      }
  }

  lemma {:induction false} EmptyReads(r: Retention, owner: string)
    ensures Read(r, owner, []) == []
  {
  }

  /** The numbers of the source-retention fields at the top of the tree. */
  function DroppedNumbers(r: Retention, owner: string, ts: seq<Tree>): seq<int> {
    if ts == [] then []
    else (if ts[0].num in r.Stripped(owner) then [ts[0].num] else []) + DroppedNumbers(r, owner, ts[1..])
  }

  lemma {:induction false} StripFieldReads(r: Retention, owner: string, field: Bytes)
    requires OneField(field) && field != [] && |field| < MAX_LENGTH
    ensures var o, t := StripField(r, owner, field), ReadField(r, owner, field);
            && (o.changed <==> TreeHasSource(r, owner, t))
            && |o.kept| <= |field|
            && if t.num in r.Stripped(owner) then o.kept == [] && o.dropped == [t.num]
               else o.kept != [] && o.dropped == [] && OneField(o.kept)
                    && ReadField(r, owner, o.kept) == SiftTree(r, owner, t)
    decreases |field|, 0
  {
    hide OneField, ReadField, Payload, StripEncoded, Read, Sift;
    PayloadFacts(r, owner, field);
    var p := Payload(r, owner, field);
    if p.Message? {
      PayloadShorter(r, owner, field);
      StripReads(r, p.nested, p.content);
      SiftCount(r, p.nested, Read(r, p.nested, p.content));
      var inner := StripEncoded(r, p.nested, p.content);
      if inner.changed {
        RewrittenReads(r, owner, field, inner.kept);
      }
    }
  }

  lemma {:induction false} PayloadShorter(r: Retention, owner: string, field: Bytes)
    requires Payload(r, owner, field).Message?
    ensures |Payload(r, owner, field).content| < |field|
  {
  }

  lemma {:induction false} RewrittenReads(r: Retention, owner: string, field: Bytes, body: Bytes)
    requires OneField(field) && Payload(r, owner, field).Message? && |field| < MAX_LENGTH
    requires |body| <= |Payload(r, owner, field).content|
    ensures var m := Payload(r, owner, field);
            var f := AppendTag(m.num, BYTES) + AppendBytes(body);
            && OneField(f) && f != [] && |f| <= |field|
            && ReadField(r, owner, f) == Node(m.num, Read(r, m.nested, body))
  {
    hide AppendTag, AppendBytes, Read;
    PayloadFacts(r, owner, field);
    var m := Payload(r, owner, field);
    RewrittenField(m.num, body);
    RewrittenNotLonger(field, body);
  }

  // ---------------------------------------------------------------------------
  // The theorems.

  /**
   Stripping removes exactly the source-retention fields, keeps every other field
   in place with a matching enclosing length, and reports a change exactly when
   there was one to remove.
   */
  lemma {:induction false} StripRemovesExactly(r: Retention, owner: string, buf: Bytes)
    requires |buf| < MAX_LENGTH
    ensures var o := StripEncoded(r, owner, buf);
            && (o.changed <==> HasSource(r, owner, Read(r, owner, buf)))
            && Read(r, owner, o.kept) == Sift(r, owner, Read(r, owner, buf))
            && (o.changed ==> WellFormed(o.kept) && o.dropped == DroppedNumbers(r, owner, Read(r, owner, buf)))
            && |o.kept| <= |buf|
  {
    hide StripFields, Read, Sift, HasSource, WellFormed;
    StripReads(r, owner, buf);
    StripFieldsReads(r, owner, buf);
  }

  /** A second strip finds nothing. */
  lemma {:induction false} StripIdempotent(r: Retention, owner: string, buf: Bytes)
    requires |buf| < MAX_LENGTH
    ensures !StripEncoded(r, owner, StripEncoded(r, owner, buf).kept).changed
  {
    hide StripEncoded, Read, Sift, HasSource;
    StripReads(r, owner, buf);
    StripReads(r, owner, StripEncoded(r, owner, buf).kept);
    SiftCount(r, owner, Read(r, owner, buf));
  }

  /** A reported change is a change of the bytes. */
  lemma {:induction false} ChangedBytesDiffer(r: Retention, owner: string, buf: Bytes)
    requires |buf| < MAX_LENGTH && StripEncoded(r, owner, buf).changed
    ensures StripEncoded(r, owner, buf).kept != buf
  {
    hide StripEncoded, Read, Sift, HasSource;
    StripReads(r, owner, buf);
    SiftCount(r, owner, Read(r, owner, buf));
  }
}
