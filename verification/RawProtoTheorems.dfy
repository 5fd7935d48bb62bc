/** What the raw grammar is, how it relates to the wire format, and that the printed text nests. */
module RawProtoTheorems {
  import opened Wrappers
  import opened Wire
  import opened RawProto

  // ---------------------------------------------------------------------------
  // A field's length depends on its own bytes only.

  lemma {:induction false} EndLocal(b: Bytes, c: Bytes, k: nat)
    requires VarintEnd(b, k).Some? && VarintEnd(b, k).value <= |c|
    requires b[..VarintEnd(b, k).value] == c[..VarintEnd(b, k).value]
    ensures VarintEnd(c, k) == VarintEnd(b, k)
    decreases |b|
  {
    var n := VarintEnd(b, k).value;
    assert b[0] == b[..n][0] == c[..n][0] == c[0];
    if b[0] >= 128 {
      PrefixShift(b, c, n, 1);
      EndLocal(b[1..], c[1..], k + 1);
    }
  }

  lemma {:induction false} RawValueLocal(num: int, typ: int, b: Bytes, c: Bytes)
    requires RawValueLen(num, typ, b).Some? && RawValueLen(num, typ, b).value <= |c|
    requires b[..RawValueLen(num, typ, b).value] == c[..RawValueLen(num, typ, b).value]
    ensures RawValueLen(num, typ, c) == RawValueLen(num, typ, b)
    decreases |b|, 2
  {
    hide ConsumeBytes;
    if typ == VARINT {
      EndLocal(b, c, 0);
    } else if typ == BYTES {
      assert b[..ConsumeBytes(b).value.len] <= c;
      BytesLocal(b, c);
    } else if typ == START_GROUP {
      RawGroupLocal(num, b, c);
    }
  }

  lemma {:induction false} RawFieldLocal(b: Bytes, c: Bytes)
    requires RawFieldLen(b).Some? && RawFieldLen(b).value <= |c|
    requires b[..RawFieldLen(b).value] == c[..RawFieldLen(b).value]
    ensures RawFieldLen(c) == RawFieldLen(b) && ConsumeTag(c) == ConsumeTag(b)
    decreases |b|, 0
  {
    hide RawValueLen;
    var n := RawFieldLen(b).value;
    var t := ConsumeTag(b).value;
    PrefixShift(b, c, n, t.len);
    TagLocal(b, c);
    RawValueLocal(t.num, t.typ, b[t.len..], c[t.len..]);
  }

  lemma {:induction false} RawGroupLocal(num: int, b: Bytes, c: Bytes)
    requires RawGroupLen(num, b).Some? && RawGroupLen(num, b).value <= |c|
    requires b[..RawGroupLen(num, b).value] == c[..RawGroupLen(num, b).value]
    ensures RawGroupLen(num, c) == RawGroupLen(num, b)
    decreases |b|, 1
  {
    hide RawFieldLen, ConsumeTag;
    var n := RawGroupLen(num, b).value;
    var t := ConsumeTag(b).value;
    if t.typ == END_GROUP && t.num == num {
      TagLocal(b, c);
    } else {
      var f := RawFieldLen(b).value;
      PrefixShift(b, c, n, f);
      RawFieldLocal(b, c);
      RawGroupLocal(num, b[f..], c[f..]);
    }
  }

  // ---------------------------------------------------------------------------
  // The grammar of a whole message.

  function Join(parts: seq<Bytes>): Bytes {
    if parts == [] then [] else parts[0] + Join(parts[1..])
  }

  /** part is one field and nothing else. */
  predicate WholeField(part: Bytes) {
    RawFieldLen(part) == Some(|part|)
  }

  lemma {:induction false} FieldsAreAccepted(parts: seq<Bytes>)
    requires forall p <- parts :: WholeField(p)
    ensures Accepted(Join(parts))
  {
    hide RawFieldLen;
    if parts != [] {
      var p, rest := parts[0], Join(parts[1..]);
      assert p in parts && WholeField(p);
      FieldsAreAccepted(parts[1..]);
      assert (p + rest)[..|p|] == p[..|p|];
      RawFieldLocal(p, p + rest);
      assert (p + rest)[|p|..] == rest;
    }
  }

  lemma {:induction false} AcceptedAreFields(b: Bytes) returns (parts: seq<Bytes>)
    requires Accepted(b)
    ensures Join(parts) == b && forall p <- parts :: WholeField(p)
    decreases |b|
  {
    hide RawFieldLen;
    if b == [] {
      parts := [];
    } else {
      var n := RawFieldLen(b).value;
      var rest := AcceptedAreFields(b[n..]);
      assert b[..n] == b[..n][..n];
      RawFieldLocal(b, b[..n]);
      parts := [b[..n]] + rest;
      assert parts[1..] == rest;
      assert b == b[..n] + b[n..];
    }
  }

  /** Accepted data is exactly the concatenations of single accepted fields. */
  lemma {:induction false} AcceptedExactlyFields(b: Bytes)
    ensures Accepted(b) <==> exists parts :: Join(parts) == b && forall p <- parts :: WholeField(p)
  {
    if Accepted(b) {
      var parts := AcceptedAreFields(b);
    }
    if exists parts :: Join(parts) == b && forall p <- parts :: WholeField(p) {
      var parts :| Join(parts) == b && forall p <- parts :: WholeField(p);
      FieldsAreAccepted(parts);
    }
  }

  /** So accepted data may be cut at a field boundary, or continued, freely. */
  lemma {:induction false} AcceptedConcat(a: Bytes, b: Bytes)
    requires Accepted(a)
    ensures Accepted(a + b) <==> Accepted(b)
    decreases |a|
  {
    hide RawFieldLen;
    if a == [] {
      assert a + b == b;
    } else {
      var n := RawFieldLen(a).value;
      assert a[..n] == (a + b)[..n];
      RawFieldLocal(a, a + b);
      assert (a + b)[n..] == a[n..] + b;
      AcceptedConcat(a[n..], b);
    }
  }

  // ---------------------------------------------------------------------------
  // Varints: every wire-format varint is read alike.

  lemma {:induction false} EndOfVarint(b: Bytes, k: nat)
    requires VarintAt(b, k).Some?
    ensures VarintEnd(b, k) == Some(VarintAt(b, k).value.len)
    ensures GroupSum(b[..VarintAt(b, k).value.len]) == VarintAt(b, k).value.value < Room(k)
    decreases |b|
  {
    var n := VarintAt(b, k).value.len;
    if b[0] < 128 {
      assert b[..1][1..] == [];
    } else {
      EndOfVarint(b[1..], k + 1);
      assert b[..n][1..] == b[1..][..n - 1];
    }
  }

  /** Where the wire format accepts a varint, the truncating reader gives the same value and length. */
  lemma {:induction false} TruncatedExtendsVarint(b: Bytes)
    requires ConsumeVarint(b).Some?
    ensures TruncatedVarint(b) == ConsumeVarint(b)
  {
    EndOfVarint(b, 0);
    RoomIs64Bits();
  }

  /** What it accepts beyond the wire format is exactly a tenth byte that does not fit 64 bits. */
  lemma {:induction false} BeyondVarint(b: Bytes, k: nat)
    requires k <= 9
    ensures VarintEnd(b, k).Some? && VarintAt(b, k).None? <==>
              VarintEnd(b, k) == Some(10 - k) && b[9 - k] > 1
    decreases |b|
  {
    if |b| > 0 && b[0] >= 128 && k < 9 {
      BeyondVarint(b[1..], k + 1);
    }
  }

  // ---------------------------------------------------------------------------
  // Fields: the raw grammar and the wire format

  /** The value at the head of b is a varint that does not fit 64 bits. */
  predicate Oversized(b: Bytes) {
    VarintEnd(b, 0) == Some(10) && b[9] > 1
  }

  /** Somewhere in the field, groups included, a varint value is oversized. */
  predicate FieldOversized(b: Bytes)
    requires RawFieldLen(b).Some?
    decreases |b|, 0
  {
    var t := ConsumeTag(b).value;
    var rest := b[t.len..];
    assert RawValueLen(t.num, t.typ, rest).Some?;
    (t.typ == VARINT && Oversized(rest)) || (t.typ == START_GROUP && GroupOversized(t.num, rest))
  }

  predicate GroupOversized(num: int, b: Bytes)
    requires RawGroupLen(num, b).Some?
    decreases |b|, 1
  {
    var t := ConsumeTag(b).value;
    !(t.typ == END_GROUP && t.num == num) && (FieldOversized(b) || GroupOversized(num, b[RawFieldLen(b).value..]))
  }

  lemma {:induction false} VarintValue(b: Bytes)
    ensures ConsumeVarint(b).Some? ==> VarintEnd(b, 0) == Some(ConsumeVarint(b).value.len)
    ensures VarintEnd(b, 0).Some? ==> (ConsumeVarint(b).None? <==> Oversized(b))
  {
    hide VarintEnd, VarintAt;
    BeyondVarint(b, 0);
    if ConsumeVarint(b).Some? {
      EndOfVarint(b, 0);
    }
  }

  lemma {:induction false} DelimitedLength(b: Bytes)
    ensures ConsumeBytes(b).Some? ==> ValueLen(0, BYTES, b) == Some(ConsumeBytes(b).value.len)
    ensures ConsumeBytes(b).None? ==> ValueLen(0, BYTES, b) == None
  {
  }

  /** The raw grammar takes every field of the wire format for a field of that length. */
  lemma {:induction false} RawExtendsWire(b: Bytes)
    ensures FieldLen(b).Some? ==> RawFieldLen(b) == FieldLen(b)
    decreases |b|, 0
  {
    hide VarintEnd, VarintAt, ConsumeBytes, ConsumeTag, GroupLen, RawGroupLen;
    if FieldLen(b).Some? {
      var t := ConsumeTag(b).value;
      var rest := b[t.len..];
      VarintValue(rest);
      DelimitedLength(rest);
      RawGroupExtends(t.num, rest);
    }
  }

  lemma {:induction false} RawGroupExtends(num: int, b: Bytes)
    ensures GroupLen(num, b).Some? ==> RawGroupLen(num, b) == GroupLen(num, b)
    decreases |b|, 1
  {
    hide ConsumeTag, ValueLen, RawFieldLen;
    if GroupLen(num, b).Some? {
      var t := ConsumeTag(b).value;
      if t.typ != END_GROUP {
        var v := ValueLen(t.num, t.typ, b[t.len..]).value;
        assert FieldLen(b) == Some(t.len + v);
        RawExtendsWire(b);
        RawGroupExtends(num, b[t.len + v..]);
      }
    }
  }

  /** Beyond those it takes exactly the fields with an oversized varint in them. */
  lemma {:induction false} BeyondWire(b: Bytes)
    requires RawFieldLen(b).Some?
    ensures FieldLen(b).None? <==> FieldOversized(b)
    decreases |b|, 0
  {
    hide VarintEnd, VarintAt, ConsumeBytes, ConsumeTag, GroupLen, RawGroupLen, GroupOversized, Oversized;
    var t := ConsumeTag(b).value;
    var rest := b[t.len..];
    VarintValue(rest);
    DelimitedLength(rest);
    if t.typ == START_GROUP {
      BeyondGroup(t.num, rest);
    }
  }

  lemma {:induction false} BeyondGroup(num: int, b: Bytes)
    requires RawGroupLen(num, b).Some?
    ensures GroupLen(num, b).None? <==> GroupOversized(num, b)
    decreases |b|, 1
  {
    hide ConsumeTag, ValueLen, RawFieldLen, FieldOversized, RawValueLen;
    var t := ConsumeTag(b).value;
    if !(t.typ == END_GROUP && t.num == num) {
      var n := RawFieldLen(b).value;
      NotAnEnd(b);
      BeyondWire(b);
      RawExtendsWire(b);
      BeyondGroup(num, b[n..]);
    }
  }

  lemma {:induction false} NotAnEnd(b: Bytes)
    requires RawFieldLen(b).Some?
    ensures ConsumeTag(b).value.typ != END_GROUP
  {
  }

  // ---------------------------------------------------------------------------
  // The printed text is balanced.

  /** The nesting depth after the lines, or None when a line is out of step with its indent. */
  function Depth(lines: seq<Line>, d: nat): Option<nat>
    decreases |lines|
  {
    if lines == [] then Some(d)
    else
      match lines[0]
      case Scalar(indent, _) => if indent == d then Depth(lines[1..], d) else None
      case Open(indent, _) => if indent == d then Depth(lines[1..], d + 1) else None
      case Close(indent) => if d > 0 && indent == d - 1 then Depth(lines[1..], d - 1) else None
  }

  lemma {:induction false} DepthAppend(a: seq<Line>, b: seq<Line>, d: nat)
    ensures Depth(a + b, d) == match Depth(a, d)
                               case Some(e) => Depth(b, e)
                               case None => None
    decreases |a|
  {
    if a == [] {
      assert a + b == b;
    } else {
      assert (a + b)[1..] == a[1..] + b;
      match a[0] {
        case Scalar(_, _) => DepthAppend(a[1..], b, d);
        case Open(_, _) => DepthAppend(a[1..], b, d + 1);
        case Close(_) =>
          if d > 0 {
            DepthAppend(a[1..], b, d - 1);
          }
      }
    }
  }

  /** Every opened block is closed at its own indent, and everything inside is one level further in. */
  lemma {:induction false} RenderBalanced(ns: seq<Node>, indent: nat)
    ensures Depth(Render(ns, indent), indent) == Some(indent)
    decreases ns
  {
    if ns != [] {
      RenderNodeBalanced(ns[0], indent);
      RenderBalanced(ns[1..], indent);
      DepthAppend(RenderNode(ns[0], indent), Render(ns[1..], indent), indent);
    }
  }

  lemma {:induction false} RenderNodeBalanced(n: Node, indent: nat)
    ensures Depth(RenderNode(n, indent), indent) == Some(indent)
    decreases n
  {
    if n.Block? {
      var open, inner, close := [Open(indent, n.num)], Render(n.children, indent + 1), [Close(indent)];
      RenderBalanced(n.children, indent + 1);
      assert open[1..] == [] && close[1..] == [];
      DepthAppend(open, inner, indent);
      DepthAppend(open + inner, close, indent);
    } else {
      assert [Scalar(indent, n)][1..] == [];
    }
  }
}
