/**
 What each kind of field prints as, over its encoding with the wire types spelled out,
 and that data prints field by field.
 */
module RawProtoPrint {
  import opened Wrappers
  import opened Wire
  import opened RawProto
  import opened RawProtoTheorems

  // ---------------------------------------------------------------------------
  // A field's node depends on its own bytes only.

  lemma {:induction false} SumLocal(b: Bytes, c: Bytes)
    requires VarintEnd(b, 0).Some? && VarintEnd(b, 0).value <= |c|
    requires b[..VarintEnd(b, 0).value] == c[..VarintEnd(b, 0).value]
    ensures TruncatedVarint(c) == TruncatedVarint(b)
  {
    hide VarintEnd, GroupSum;
    EndLocal(b, c, 0);
  }

  lemma {:induction false} FieldNodeLocal(b: Bytes, c: Bytes)
    requires RawFieldLen(b).Some? && RawFieldLen(b).value <= |c|
    requires b[..RawFieldLen(b).value] == c[..RawFieldLen(b).value]
    ensures RawFieldLen(c) == RawFieldLen(b) && FieldNode(c) == FieldNode(b)
    decreases |b|, 0
  {
    hide ConsumeTag, VarintEnd, RawGroupLen, GroupTree, ConsumeBytes, Accepted, Tree, TruncatedVarint;
    var n := RawFieldLen(b).value;
    var t := ConsumeTag(b).value;
    RawFieldLocal(b, c);
    PrefixShift(b, c, n, t.len);
    ValueNodeLocal(t, b[t.len..], c[t.len..]);
  }

  lemma {:induction false} ValueNodeLocal(t: Tag, b: Bytes, c: Bytes)
    requires RawValueLen(t.num, t.typ, b).Some? && RawValueLen(t.num, t.typ, b).value <= |c|
    requires b[..RawValueLen(t.num, t.typ, b).value] == c[..RawValueLen(t.num, t.typ, b).value]
    ensures t.typ == VARINT ==> TruncatedVarint(c) == TruncatedVarint(b)
    ensures t.typ == FIXED64 ==> |b| >= 8 && |c| >= 8 && b[..8] == c[..8]
    ensures t.typ == FIXED32 ==> |b| >= 4 && |c| >= 4 && b[..4] == c[..4]
    ensures t.typ == BYTES ==> ConsumeBytes(c) == ConsumeBytes(b)
    ensures t.typ == START_GROUP ==>
              RawGroupLen(t.num, b).Some? && RawGroupLen(t.num, c) == RawGroupLen(t.num, b)
              && GroupTree(t.num, c) == GroupTree(t.num, b)
    decreases |b|, 2
  {
    hide VarintEnd, RawGroupLen, GroupTree, ConsumeBytes, TruncatedVarint;
    if t.typ == VARINT {
      SumLocal(b, c);
    } else if t.typ == BYTES {
      assert b[..ConsumeBytes(b).value.len] <= c;
      BytesLocal(b, c);
    } else if t.typ == START_GROUP {
      RawGroupLocal(t.num, b, c);
      GroupTreeLocal(t.num, b, c);
    }
  }

  lemma {:induction false} GroupTreeLocal(num: int, b: Bytes, c: Bytes)
    requires RawGroupLen(num, b).Some? && RawGroupLen(num, b).value <= |c|
    requires b[..RawGroupLen(num, b).value] == c[..RawGroupLen(num, b).value]
    ensures RawGroupLen(num, c) == RawGroupLen(num, b) && GroupTree(num, c) == GroupTree(num, b)
    decreases |b|, 1
  {
    hide ConsumeTag, RawFieldLen, FieldNode;
    RawGroupLocal(num, b, c);
    var n := RawGroupLen(num, b).value;
    var t := ConsumeTag(b).value;
    if t.typ == END_GROUP && t.num == num {
      TagLocal(b, c);
    } else {
      var f := RawFieldLen(b).value;
      PrefixShift(b, c, n, f);
      FieldNodeLocal(b, c);
      RawFieldLocal(b, c);
      GroupTreeLocal(num, b[f..], c[f..]);
    }
  }

  /** Data is printed field by field. */
  lemma {:induction false} TreeJoin(a: Bytes, b: Bytes)
    requires Accepted(a) && Accepted(b)
    ensures Accepted(a + b) && Tree(a + b) == Tree(a) + Tree(b)
    decreases |a|
  {
    hide RawFieldLen, FieldNode;
    AcceptedConcat(a, b);
    if a == [] {
      assert a + b == b;
    } else {
      var n := RawFieldLen(a).value;
      assert a[..n] == (a + b)[..n];
      FieldNodeLocal(a, a + b);
      assert (a + b)[n..] == a[n..] + b;
      TreeJoin(a[n..], b);
    }
  }

  // ---------------------------------------------------------------------------
  // One field

  lemma {:induction false} OneFieldTree(raw: Bytes)
    requires raw != [] && RawFieldLen(raw) == Some(|raw|)
    ensures Accepted(raw) && Tree(raw) == [FieldNode(raw)]
  {
    hide RawFieldLen, FieldNode;
    assert raw[|raw|..] == [];
  }

  lemma {:induction false} TagRead(num: nat, typ: nat, value: Bytes)
    requires 1 <= num <= MAX_FIELD_NUMBER && typ < 8
    ensures
      var raw := AppendVarint(num * 8 + typ) + value;
      ConsumeTag(raw) == Some(Tag(num, typ, |AppendVarint(num * 8 + typ)|))
      && raw[|AppendVarint(num * 8 + typ)|..] == value
  {
    hide ConsumeTag;
    TagRoundTrip(num, typ, value);
  }

  /** Wire type 0 prints as its number. */
  lemma {:induction false} NumberPrints(num: nat, v: nat)
    requires 1 <= num <= MAX_FIELD_NUMBER && v < 0x1_0000_0000_0000_0000
    ensures
      var raw := AppendVarint(num * 8) + AppendVarint(v);
      Accepted(raw) && Tree(raw) == [Number(num, v)]
  {
    hide AppendVarint, ConsumeTag, VarintEnd, VarintAt, TruncatedVarint;
    var val := AppendVarint(v);
    TagRead(num, 0, val);
    RoomIs64Bits();
    VarintRoundTrip(v, 0, []);
    assert val + [] == val;
    TruncatedExtendsVarint(val);
    EndOfTruncated(val);
    OneFieldTree(AppendVarint(num * 8) + val);
  }

  lemma {:induction false} EndOfTruncated(b: Bytes)
    requires TruncatedVarint(b).Some?
    ensures VarintEnd(b, 0) == Some(TruncatedVarint(b).value.len)
  {
    hide VarintEnd, GroupSum;
  }

  /** Wire types 1 and 5 print as their eight and four bytes. */
  lemma {:induction false} FixedPrints(num: nat, bits: Bytes)
    requires 1 <= num <= MAX_FIELD_NUMBER
    ensures |bits| == 8 ==>
              var raw := AppendVarint(num * 8 + 1) + bits; Accepted(raw) && Tree(raw) == [Fixed64(num, bits)]
    ensures |bits| == 4 ==>
              var raw := AppendVarint(num * 8 + 5) + bits; Accepted(raw) && Tree(raw) == [Fixed32(num, bits)]
  {
    hide AppendVarint, ConsumeTag, Accepted, Tree;
    assert bits[..|bits|] == bits;
    if |bits| == 8 {
      TagRead(num, 1, bits);
      OneFieldTree(AppendVarint(num * 8 + 1) + bits);
    } else if |bits| == 4 {
      TagRead(num, 5, bits);
      OneFieldTree(AppendVarint(num * 8 + 5) + bits);
    }
  }

  /** Wire type 2 prints as a block when its content is data itself, and else as text. */
  lemma {:induction false} DelimitedPrints(num: nat, content: Bytes)
    requires 1 <= num <= MAX_FIELD_NUMBER && |content| < MAX_LENGTH
    ensures
      var raw := AppendVarint(num * 8 + 2) + AppendVarint(|content|) + content;
      Accepted(raw)
      && Tree(raw) == [if Accepted(content) && content != [] then Block(num, Tree(content)) else Text(num, content)]
  {
    hide AppendVarint, ConsumeTag, ConsumeBytes, Accepted, Tree;
    var val := AppendBytes(content);
    var raw := AppendVarint(num * 8 + 2) + val;
    assert raw == AppendVarint(num * 8 + 2) + AppendVarint(|content|) + content;
    TagRead(num, 2, val);
    BytesRoundTrip(content, []);
    assert val + [] == val;
    OneFieldTree(raw);
  }

  lemma {:induction false} InsideGroup(num: nat, inside: Bytes)
    requires 1 <= num <= MAX_FIELD_NUMBER && Accepted(inside)
    ensures
      var end := AppendVarint(num * 8 + 4);
      RawGroupLen(num, inside + end) == Some(|inside| + |end|) && GroupTree(num, inside + end) == Tree(inside)
    decreases |inside|
  {
    hide AppendVarint, ConsumeTag, RawFieldLen, FieldNode;
    var end := AppendVarint(num * 8 + 4);
    if inside == [] {
      assert inside + end == end + [];
      TagRead(num, 4, []);
    } else {
      var n := RawFieldLen(inside).value;
      assert inside[..n] == (inside + end)[..n];
      FieldNodeLocal(inside, inside + end);
      NotAnEnd(inside);
      RawFieldLocal(inside, inside + end);
      assert (inside + end)[n..] == inside[n..] + end;
      InsideGroup(num, inside[n..]);
      HasTag(inside + end);
    }
  }

  lemma {:induction false} HasTag(b: Bytes)
    requires RawFieldLen(b).Some?
    ensures ConsumeTag(b).Some?
  {
  }

  /** Wire types 3 and 4 enclose data that prints as a block. */
  lemma {:induction false} GroupPrints(num: nat, inside: Bytes)
    requires 1 <= num <= MAX_FIELD_NUMBER && Accepted(inside)
    ensures
      var raw := AppendVarint(num * 8 + 3) + inside + AppendVarint(num * 8 + 4);
      Accepted(raw) && Tree(raw) == [Block(num, Tree(inside))]
  {
    hide AppendVarint, ConsumeTag, Accepted, Tree, RawGroupLen, GroupTree;
    var end := AppendVarint(num * 8 + 4);
    var raw := AppendVarint(num * 8 + 3) + (inside + end);
    assert raw == AppendVarint(num * 8 + 3) + inside + end;
    TagRead(num, 3, inside + end);
    InsideGroup(num, inside);
    OneFieldTree(raw);
  }
}
