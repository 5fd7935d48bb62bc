/**
 The loops that validate and print raw data. Each of the four functions has its own
 switch over wire types and its own loop over a group's fields; that they follow one
 grammar is what the contracts say.
 */
module RawProtoDecoder {
  import opened Wrappers
  import opened Wire
  import opened RawProto

  method ValidateRawProto(data: Bytes) returns (valid: bool)
    ensures valid == Accepted(data)
    decreases |data|, 1
  {
    hide RawFieldLen, RawGroupLen, ConsumeBytes, VarintEnd, Accepted, ConsumeTag, Inside;
    var rest := data;
    EmptyAccepted();
    while |rest| > 0
      invariant |rest| <= |data|
      invariant Accepted(data) == Accepted(rest)
    {
      AcceptedStep(rest);
      var t := ConsumeTag(rest);
      if t.None? {
        return false;
      }
      var tag := t.value;
      rest := rest[tag.len..];
      if tag.typ == VARINT {
        var _, vn := ConsumeVarintTruncated(rest);
        if vn < 0 {
          return false;
        }
        rest := rest[vn..];
      } else if tag.typ == FIXED64 {
        if |rest| < 8 {
          return false;
        }
        rest := rest[8..];
      } else if tag.typ == FIXED32 {
        if |rest| < 4 {
          return false;
        }
        rest := rest[4..];
      } else if tag.typ == BYTES {
        var d := ConsumeBytes(rest);
        if d.None? {
          return false;
        }
        rest := rest[d.value.len..];
      } else if tag.typ == START_GROUP {
        ghost var body := rest;
        WholeInside(tag.num, body);
        var found := false;
        while |rest| > 0
          invariant !found && |rest| <= |body| && Inside(tag.num, body, rest)
        {
          InsideStep(tag.num, body, rest);
          var g := ConsumeTag(rest);
          if g.None? {
            return false;
          }
          if g.value.typ == END_GROUP && g.value.num == tag.num {
            rest := rest[g.value.len..];
            found := true;
            break;
          }
          var innerN := ValidateRawField(rest);
          if innerN < 0 {
            return false;
          }
          rest := rest[innerN..];
        }
        if !found {
          InsideStep(tag.num, body, rest);
          return false;
        }
      } else {
        return false;
      }
    }
    valid := true;
  }

  ghost predicate TailOf(rest: Bytes, body: Bytes) {
    |rest| <= |body| && rest == body[|body| - |rest|..]
  }

  lemma {:induction false} WholeTail(body: Bytes)
    ensures TailOf(body, body)
  {
  }

  lemma {:induction false} TailAt(rest: Bytes, body: Bytes)
    requires TailOf(rest, body)
    ensures |rest| <= |body| && rest == body[|body| - |rest|..]
  {
  }

  lemma {:induction false} TailDrop(rest: Bytes, body: Bytes, n: nat)
    requires TailOf(rest, body) && n <= |rest|
    ensures TailOf(rest[n..], body)
  {
  }

  /** rest is what is left of body, and of the group it starts with. */
  ghost predicate Inside(num: int, body: Bytes, rest: Bytes) {
    TailOf(rest, body) && RawGroupLen(num, body) == EndAfter(|body| - |rest|, RawGroupLen(num, rest))
  }

  lemma {:induction false} WholeInside(num: int, body: Bytes)
    ensures Inside(num, body, body)
  {
    hide RawGroupLen;
    WholeAfter(RawGroupLen(num, body));
  }

  /** The end tag, or one field more, or no group. */
  lemma {:induction false} InsideStep(num: int, body: Bytes, rest: Bytes)
    requires Inside(num, body, rest)
    ensures rest == [] || ConsumeTag(rest).None? ==> RawGroupLen(num, body).None?
    ensures ConsumeTag(rest).Some? ==>
              var t := ConsumeTag(rest).value;
              if t.typ == END_GROUP && t.num == num then
                RawGroupLen(num, body).Some? && t.len <= |rest| && rest[t.len..] == body[RawGroupLen(num, body).value..]
              else if RawFieldLen(rest).None? then RawGroupLen(num, body).None?
              else Inside(num, body, rest[RawFieldLen(rest).value..])
  {
    hide RawFieldLen, RawGroupLen, ConsumeTag;
    GroupCases(num, rest);
    if ConsumeTag(rest).Some? {
      var t := ConsumeTag(rest).value;
      TailDrop(rest, body, t.len);
      if RawFieldLen(rest).Some? {
        TailDrop(rest, body, RawFieldLen(rest).value);
      }
    }
  }

  lemma {:induction false} EmptyAccepted()
    ensures Accepted([])
  {
  }

  /** Acceptance is acceptance of what follows the first field's value. */
  lemma {:induction false} AcceptedStep(b: Bytes)
    requires b != []
    ensures ConsumeTag(b).None? ==> !Accepted(b)
    ensures ConsumeTag(b).Some? ==>
              var t := ConsumeTag(b).value;
              var v := RawValueLen(t.num, t.typ, b[t.len..]);
              if v.None? then !Accepted(b) else Accepted(b) == Accepted(b[t.len..][v.value..])
  {
    hide RawValueLen, ConsumeTag;
    if RawFieldLen(b).Some? {
      var t := ConsumeTag(b).value;
      var v := RawValueLen(t.num, t.typ, b[t.len..]).value;
      assert b[t.len..][v..] == b[t.len + v..];
    }
  }

  /** The bytes consumed, or -1. */
  method ValidateRawField(data: Bytes) returns (n: int)
    ensures n >= 0 <==> RawFieldLen(data).Some?
    ensures n >= 0 ==> RawFieldLen(data) == Some(n)
    decreases |data|, 0
  {
    hide RawGroupLen, ConsumeBytes, VarintEnd, ConsumeTag;
    var t := ConsumeTag(data);
    if t.None? {
      return -1;
    }
    var tag := t.value;
    var rest := data[tag.len..];
    if tag.typ == VARINT {
      var _, vn := ConsumeVarintTruncated(rest);
      return if vn < 0 then -1 else tag.len + vn;
    } else if tag.typ == FIXED64 {
      return if |rest| < 8 then -1 else tag.len + 8;
    } else if tag.typ == FIXED32 {
      return if |rest| < 4 then -1 else tag.len + 4;
    } else if tag.typ == BYTES {
      var d := ConsumeBytes(rest);
      return if d.None? then -1 else tag.len + d.value.len;
    } else if tag.typ == START_GROUP {
      hide RawFieldLen, RawValueLen;
      assert RawFieldLen(data) == EndAfter(tag.len, RawGroupLen(tag.num, rest)) by {
        FieldOfGroup(data);
      }
      var rest2 := rest;
      WholeAfter(RawGroupLen(tag.num, rest));
      while true
        invariant |rest2| <= |rest|
        invariant RawGroupLen(tag.num, rest) == EndAfter(|rest| - |rest2|, RawGroupLen(tag.num, rest2))
        decreases |rest2|
      {
        GroupCases(tag.num, rest2);
        if |rest2| == 0 {
          return -1;
        }
        var g := ConsumeTag(rest2);
        if g.None? {
          return -1;
        }
        if g.value.typ == END_GROUP && g.value.num == tag.num {
          return tag.len + (|rest| - |rest2|) + g.value.len;
        }
        var innerN := ValidateRawField(rest2);
        if innerN < 0 {
          return -1;
        }
        rest2 := rest2[innerN..];
      }
    } else {
      return -1;
    }
  }

  lemma {:induction false} FieldOfGroup(b: Bytes)
    requires ConsumeTag(b).Some? && ConsumeTag(b).value.typ == START_GROUP
    ensures
      var t := ConsumeTag(b).value;
      RawFieldLen(b) == EndAfter(t.len, RawGroupLen(t.num, b[t.len..]))
  {
  }

  lemma {:induction false} WholeAfter(r: Option<nat>)
    ensures EndAfter(0, r) == r
  {
  }

  lemma {:induction false} GroupCases(num: int, b: Bytes)
    ensures ConsumeTag(b).None? ==> RawGroupLen(num, b).None?
    ensures b == [] ==> RawGroupLen(num, b).None?
    ensures ConsumeTag(b).Some? ==>
              var t := ConsumeTag(b).value;
              && t.len <= |b|
              && RawGroupLen(num, b) ==
                 if t.typ == END_GROUP && t.num == num then Some(t.len)
                 else if RawFieldLen(b).None? then None
                 else EndAfter(RawFieldLen(b).value, RawGroupLen(num, b[RawFieldLen(b).value..]))
  {
  }

  // ---------------------------------------------------------------------------

  /** Prints data's fields; ok is false where the source returns an error. */
  method DecodeRawProto(data: Bytes, indent: nat) returns (ok: bool, out: seq<Line>)
    ensures Accepted(data) ==> ok && out == Render(Tree(data), indent)
    decreases |data|, 1
  {
    hide RawFieldLen, RawGroupLen, FieldNode, GroupTree, Tree, Render, RenderNode, ConsumeTag, ConsumeBytes, VarintEnd;
    hide Accepted, GroupSum, Left, TailOf;
    var rest := data;
    ok, out := true, [];
    EmptyTree(indent);
    NothingBefore(if Accepted(data) then Render(Tree(data), indent) else []);
    while |rest| > 0
      invariant |rest| <= |data| && ok
      invariant Accepted(data) ==> Accepted(rest) && Render(Tree(data), indent) == out + Render(Tree(rest), indent)
    {
      AcceptedStep(rest);
      var t := ConsumeTag(rest);
      if t.None? {
        return false, out;
      }
      var tag := t.value;
      ghost var field, before := rest, out;
      rest := rest[tag.len..];
      ghost var body := rest;
      if Accepted(field) {
        TreeStep(field, indent, before);
        LinesOf(field, indent);
      }
      if tag.typ == VARINT {
        var v, vn := ConsumeVarintTruncated(rest);
        if vn < 0 {
          return false, out;
        }
        rest := rest[vn..];
        out := out + [Scalar(indent, Number(tag.num, v))];
      } else if tag.typ == FIXED64 {
        if |rest| < 8 {
          return false, out;
        }
        out := out + [Scalar(indent, Fixed64(tag.num, rest[..8]))];
        rest := rest[8..];
      } else if tag.typ == FIXED32 {
        if |rest| < 4 {
          return false, out;
        }
        out := out + [Scalar(indent, Fixed32(tag.num, rest[..4]))];
        rest := rest[4..];
      } else if tag.typ == BYTES {
        var d := ConsumeBytes(rest);
        if d.None? {
          return false, out;
        }
        rest := rest[d.value.len..];
        var v := d.value.content;
        var valid := ValidateRawProto(v);
        if valid && |v| > 0 {
          var _, inner := DecodeRawProto(v, indent + 1);
          out := out + ([Open(indent, tag.num)] + inner + [Close(indent)]);
        } else {
          out := out + [Scalar(indent, Text(tag.num, v))];
        }
      } else if tag.typ == START_GROUP {
        var inner: seq<Line> := [];
        ghost var ended := false;
        GroupStarts(tag.num, body, indent + 1);
        WholeTail(body);
        while |rest| > 0
          invariant !ended && |rest| <= |body| && TailOf(rest, body)
          invariant Left(tag.num, body, rest, inner, indent + 1)
          decreases |rest|
        {
          LeftStep(tag.num, body, rest, inner, indent + 1);
          var g := ConsumeTag(rest);
          if g.None? {
            return false, out + inner;
          }
          if g.value.typ == END_GROUP && g.value.num == tag.num {
            TailDrop(rest, body, g.value.len);
            rest := rest[g.value.len..];
            ended := true;
            break;
          }
          var consumed, fieldOk, lines := DecodeRawField(rest, indent + 1);
          if !fieldOk {
            return false, out + inner;
          }
          inner := inner + lines;
          TailDrop(rest, body, consumed);
          rest := rest[consumed..];
          LeftOfNone(tag.num, body, rest, inner, indent + 1);
        }
        if !ended {
          LeftStep(tag.num, body, rest, inner, indent + 1);
        }
        TailAt(rest, body);
        assert RawGroupLen(tag.num, body).Some? ==>
            |rest| == |body| - RawGroupLen(tag.num, body).value && inner == Render(GroupTree(tag.num, body), indent + 1);
        out := out + ([Open(indent, tag.num)] + inner + [Close(indent)]);
      } else {
        return false, out;
      }
    }
    assert out + [] == out;
  }

  lemma {:induction false} EmptyTree(indent: nat)
    ensures Accepted([]) && Render(Tree([]), indent) == []
  {
  }

  lemma {:induction false} NothingBefore(lines: seq<Line>)
    ensures [] + lines == lines
  {
  }

  /** Accepted data prints as its first field's lines and then the rest. */
  lemma {:induction false} TreeStep(b: Bytes, indent: nat, before: seq<Line>)
    requires b != [] && Accepted(b)
    ensures ConsumeTag(b).Some? && RawFieldLen(b).Some?
    ensures
      var t := ConsumeTag(b).value;
      var v := RawValueLen(t.num, t.typ, b[t.len..]);
      && v.Some? && Accepted(b[t.len..][v.value..])
      && before + Render(Tree(b), indent)
      == (before + RenderNode(FieldNode(b), indent)) + Render(Tree(b[t.len..][v.value..]), indent)
  {
    hide RawValueLen, ConsumeTag, FieldNode, RenderNode, Render;
    AcceptedStep(b);
    var t := ConsumeTag(b).value;
    var v := RawValueLen(t.num, t.typ, b[t.len..]).value;
    assert b[t.len..][v..] == b[t.len + v..];
    RenderFirst(FieldNode(b), Tree(b[t.len..][v..]), indent, before);
  }

  lemma {:induction false} RenderFirst(n: Node, ns: seq<Node>, indent: nat, out: seq<Line>)
    ensures out + Render([n] + ns, indent) == (out + RenderNode(n, indent)) + Render(ns, indent)
  {
    assert ([n] + ns)[1..] == ns;
  }

  /** The lines of one field, by wire type. */
  lemma {:induction false} LinesOf(b: Bytes, indent: nat)
    requires RawFieldLen(b).Some?
    ensures ConsumeTag(b).Some?
    ensures
      var t := ConsumeTag(b).value;
      var rest := b[t.len..];
      && RawValueLen(t.num, t.typ, rest).Some?
      && RawFieldLen(b).value == t.len + RawValueLen(t.num, t.typ, rest).value
      && RenderNode(FieldNode(b), indent) ==
         if t.typ == VARINT then
           [Scalar(indent, Number(t.num, GroupSum(rest[..VarintEnd(rest, 0).value]) % TWO64))]
         else if t.typ == FIXED64 then [Scalar(indent, Fixed64(t.num, rest[..8]))]
         else if t.typ == FIXED32 then [Scalar(indent, Fixed32(t.num, rest[..4]))]
         else if t.typ == BYTES then
           var v := ConsumeBytes(rest).value.content;
           if Accepted(v) && |v| > 0 then
             [Open(indent, t.num)] + Render(Tree(v), indent + 1) + [Close(indent)]
           else [Scalar(indent, Text(t.num, v))]
         else [Open(indent, t.num)] + Render(GroupTree(t.num, rest), indent + 1) + [Close(indent)]
  {
    hide Accepted, Tree, GroupTree, RawGroupLen, ConsumeTag, ConsumeBytes, GroupSum, VarintEnd, Render;
  }

  // ---------------------------------------------------------------------------

  /** If body is a group's, so is rest, it ends where body does, and inner is what is printed before it. */
  ghost predicate Left(num: int, body: Bytes, rest: Bytes, inner: seq<Line>, indent: nat) {
    RawGroupLen(num, body).Some? ==>
      && RawGroupLen(num, rest).Some?
      && |body| - RawGroupLen(num, body).value == |rest| - RawGroupLen(num, rest).value
      && Render(GroupTree(num, body), indent) == inner + Render(GroupTree(num, rest), indent)
  }

  lemma {:induction false} GroupStarts(num: int, body: Bytes, indent: nat)
    ensures Left(num, body, body, [], indent)
  {
    hide RawGroupLen, GroupTree, Render;
    if RawGroupLen(num, body).Some? {
      NothingBefore(Render(GroupTree(num, body), indent));
    }
  }

  lemma {:induction false} LeftOfNone(num: int, body: Bytes, rest: Bytes, inner: seq<Line>, indent: nat)
    ensures RawGroupLen(num, body).None? ==> Left(num, body, rest, inner, indent)
  {
  }

  /** The end tag, or one field more. */
  lemma {:induction false} LeftStep(num: int, body: Bytes, rest: Bytes, inner: seq<Line>, indent: nat)
    requires Left(num, body, rest, inner, indent)
    ensures rest == [] || ConsumeTag(rest).None? ==> RawGroupLen(num, body).None?
    ensures ConsumeTag(rest).Some? ==>
              var t := ConsumeTag(rest).value;
              && t.len <= |rest|
              && if t.typ == END_GROUP && t.num == num then
                   RawGroupLen(num, body).Some? ==>
                     && |rest| - t.len == |body| - RawGroupLen(num, body).value
                     && inner == Render(GroupTree(num, body), indent)
                 else
                   RawGroupLen(num, body).Some? ==>
                     && RawFieldLen(rest).Some?
                     && Left(num, body, rest[RawFieldLen(rest).value..],
                             inner + RenderNode(FieldNode(rest), indent), indent)
  {
    hide RawFieldLen, RawGroupLen, GroupTree, Render, RenderNode, FieldNode, ConsumeTag;
    GroupCases(num, rest);
    if RawGroupLen(num, body).Some? {
      GroupTreeCases(num, rest);
      var t := ConsumeTag(rest).value;
      if t.typ == END_GROUP && t.num == num {
        NothingRendered(indent);
        assert inner + [] == inner;
      } else {
        RenderFirst(FieldNode(rest), GroupTree(num, rest[RawFieldLen(rest).value..]), indent, inner);
      }
    }
  }

  lemma {:induction false} NothingRendered(indent: nat)
    ensures Render([], indent) == []
  {
  }

  /** Prints the field at the head of data and reports its length. */
  method DecodeRawField(data: Bytes, indent: nat) returns (consumed: nat, ok: bool, out: seq<Line>)
    ensures ok ==> 0 < consumed <= |data|
    ensures RawFieldLen(data).Some? ==>
              ok && RawFieldLen(data) == Some(consumed) && out == RenderNode(FieldNode(data), indent)
    decreases |data|, 0
  {
    hide RawGroupLen, ConsumeBytes, VarintEnd, Render, RenderNode, Tree, GroupTree, FieldNode, Accepted, ConsumeTag;
    hide GroupSum, Left;
    consumed, ok, out := 0, false, [];
    var t := ConsumeTag(data);
    if t.None? {
      return;
    }
    if RawFieldLen(data).Some? {
      LinesOf(data, indent);
    }
    var tag := t.value;
    var rest := data[tag.len..];
    if tag.typ == VARINT {
      var v, vn := ConsumeVarintTruncated(rest);
      if vn >= 0 {
        return tag.len + vn, true, [Scalar(indent, Number(tag.num, v))];
      }
    } else if tag.typ == FIXED64 {
      if |rest| >= 8 {
        return tag.len + 8, true, [Scalar(indent, Fixed64(tag.num, rest[..8]))];
      }
    } else if tag.typ == FIXED32 {
      if |rest| >= 4 {
        return tag.len + 4, true, [Scalar(indent, Fixed32(tag.num, rest[..4]))];
      }
    } else if tag.typ == BYTES {
      var d := ConsumeBytes(rest);
      if d.Some? {
        var v := d.value.content;
        var valid := ValidateRawProto(v);
        if valid && |v| > 0 {
          var _, inner := DecodeRawProto(v, indent + 1);
          return tag.len + d.value.len, true, [Open(indent, tag.num)] + inner + [Close(indent)];
        }
        return tag.len + d.value.len, true, [Scalar(indent, Text(tag.num, v))];
      }
    } else if tag.typ == START_GROUP {
      FieldOfGroup(data);
      hide RawFieldLen;
      ghost var body, ended := rest, false;
      var inner: seq<Line> := [];
      GroupStarts(tag.num, body, indent + 1);
      while |rest| > 0
        invariant !ended && |rest| <= |body|
        invariant Left(tag.num, body, rest, inner, indent + 1)
        decreases |rest|
      {
        LeftStep(tag.num, body, rest, inner, indent + 1);
        var g := ConsumeTag(rest);
        if g.None? {
          return;
        }
        if g.value.typ == END_GROUP && g.value.num == tag.num {
          rest := rest[g.value.len..];
          ended := true;
          break;
        }
        var innerConsumed, fieldOk, lines := DecodeRawField(rest, indent + 1);
        if !fieldOk {
          return;
        }
        inner := inner + lines;
        rest := rest[innerConsumed..];
        LeftOfNone(tag.num, body, rest, inner, indent + 1);
      }
      if !ended {
        LeftStep(tag.num, body, rest, inner, indent + 1);
      }
      return |data| - |rest|, true, [Open(indent, tag.num)] + inner + [Close(indent)];
    }
  }

  lemma {:induction false} GroupTreeCases(num: int, b: Bytes)
    requires RawGroupLen(num, b).Some?
    ensures ConsumeTag(b).Some?
    ensures var t := ConsumeTag(b).value;
            if t.typ == END_GROUP && t.num == num then GroupTree(num, b) == []
            else
              && RawFieldLen(b).Some?
              && RawGroupLen(num, b[RawFieldLen(b).value..]).Some?
              && GroupTree(num, b) == [FieldNode(b)] + GroupTree(num, b[RawFieldLen(b).value..])
  {
  }
}
