/**
 The recursive-descent loops over a token cursor. Every method leaves the cursor where
 the specification says, on every token sequence; the tokens themselves never change.
 */
module LiteralParser {
  import opened MessageLiteral

  class Parser {
    const tokens: seq<Token>
    var idx: nat

    constructor (tokens: seq<Token>)
      ensures Valid() && this.tokens == tokens && idx == 0
    {
      this.tokens := tokens;
      idx := 0;
    }

    ghost predicate Valid()
      reads this
    {
      idx <= |tokens|
    }

    function Current(): Token
      reads this
    {
      Peek(tokens, idx)
    }

    method Advance() returns (t: Token)
      requires Valid()
      modifies this
      ensures Valid() && t == Peek(tokens, old(idx)) && idx == Next(tokens, old(idx))
    {
      t := Current();
      if idx < |tokens| {
        idx := idx + 1;
      }
    }

    method ConsumeName() returns (name: string, isExtension: bool)
      requires Valid() && idx < |tokens|
      modifies this
      ensures Valid() && Named(name, isExtension, idx) == FieldName(tokens, old(idx))
    {
      isExtension := Current().value == "[";
      var key := Advance();
      name := key.value;
      if isExtension {
        var first := Advance();
        name := first.value;
        ghost var rest := NameParts(tokens, idx, name);
        while Current().value == "." || Current().value == "/"
          invariant Valid() && NameParts(tokens, idx, name) == rest
          decreases |tokens| - idx
        {
          var sep := Advance();
          var part := Advance();
          name := name + sep.value + part.value;
        }
        var close := Advance();
      }
    }

    method ConsumeScalar(name: string, isExtension: bool) returns (f: AggregateField)
      requires Valid()
      modifies this
      ensures Valid() && f == ScalarField(name, isExtension, Scalar(tokens, old(idx)))
      ensures idx == Scalar(tokens, old(idx)).next
    {
      var tok := Advance();
      var negative, positive := tok.value == "-", tok.value == "+";
      if negative || positive {
        tok := Advance();
      }
      var text := tok.value;
      if tok.kind == Str {
        ghost var rest := Strings(tokens, idx);
        while Current().kind == Str
          invariant Valid()
          invariant text + Strings(tokens, idx).text == tok.value + rest.text
          invariant Strings(tokens, idx).next == rest.next
          decreases |tokens| - idx
        {
          var more := Advance();
          text := text + more.value;
        }
      }
      f := AggregateField(name, text, tok.kind, negative, positive, [], isExtension, false);
    }

    /** A nested message or a scalar. */
    method ConsumeSingle(name: string, isExtension: bool) returns (r: Parsed)
      requires Valid()
      modifies this
      ensures Valid() && r == Single(tokens, old(idx), name, isExtension)
      ensures r.Good? ==> idx == r.next
      decreases |tokens| - idx, 1
    {
      if Current().value == "{" || Current().value == "<" {
        var bracket := Advance();
        var sub := ConsumeAggregate(if bracket.value == "{" then "}" else ">");
        if sub.Bad? {
          return sub;
        }
        var close := Advance();
        return Good([MessageField(name, isExtension, sub.fields)], idx);
      }
      var f := ConsumeScalar(name, isExtension);
      r := Good([f], idx);
    }

    /** The elements of a list and its closing bracket. */
    method ConsumeList(name: string, isExtension: bool) returns (r: Parsed)
      requires Valid() && idx < |tokens| && Current().value == "["
      modifies this
      ensures Valid() && r == Value(tokens, old(idx), name, isExtension)
      ensures r.Good? ==> idx == r.next
      decreases |tokens| - idx, 0
    {
      var bracket := Advance();
      var fields: seq<AggregateField> := [];
      ghost var start := idx;
      hide List, Single;
      while Current().value != "]" && Current().kind != Eof
        invariant Valid() && start <= idx && |tokens| - start < old(|tokens| - idx)
        invariant List(tokens, start, name, isExtension) == Prepend(fields, List(tokens, idx, name, isExtension))
        decreases |tokens| - idx
      {
        ListTurn(tokens, idx, fields, name, isExtension);
        var v := ConsumeSingle(name, isExtension);
        if v.Bad? {
          return v;
        }
        fields := fields + v.fields;
        if Current().value == "," {
          var comma := Advance();
          if Current().value == "]" {
            fields := fields + [TrailingComma(name, isExtension)];
            break;
          }
        }
      }
      ListTurn(tokens, idx, fields, name, isExtension);
      var close := Advance();
      r := Good(fields, idx);
    }

    /** The fields up to closer; the cursor ends on closer or at the end of the tokens. */
    method ConsumeAggregate(closer: string) returns (r: Parsed)
      requires Valid()
      modifies this
      ensures Valid() && r == Aggregate(tokens, old(idx), closer)
      ensures r.Good? ==> idx == r.next
      decreases |tokens| - idx, 2
    {
      var fields: seq<AggregateField> := [];
      hide Aggregate, Value, Single, FieldName, NameParts;
      while Current().value != closer && Current().kind != Eof
        invariant Valid() && old(idx) <= idx
        invariant Aggregate(tokens, old(idx), closer) == Prepend(fields, Aggregate(tokens, idx, closer))
        decreases |tokens| - idx
      {
        AggregateTurn(tokens, idx, fields, closer);
        var name, isExtension := ConsumeName();
        if Current().value == ":" {
          var colon := Advance();
        } else if Current().value != "{" && Current().value != "<" {
          return Bad(Current());
        }
        var v;
        ghost var at := idx;
        if Current().value == "[" {
          v := ConsumeList(name, isExtension);
        } else {
          v := ConsumeSingle(name, isExtension);
          ValueIsSingle(tokens, at, name, isExtension);
        }
        if v.Bad? {
          return v;
        }
        fields := fields + v.fields;
        if Current().value == ";" || Current().value == "," {
          var separator := Advance();
        }
      }
      AggregateTurn(tokens, idx, fields, closer);
      r := Good(fields, idx);
    }
  }

  ghost function Prepend(fields: seq<AggregateField>, r: Parsed): Parsed {
    if r.Bad? then r else Good(fields + r.fields, r.next)
  }

  lemma {:induction false} ValueIsSingle(ts: seq<Token>, i: nat, name: string, isExtension: bool)
    requires i <= |ts| && Peek(ts, i).value != "["
    ensures Value(ts, i, name, isExtension) == Single(ts, i, name, isExtension)
  {
  }

  lemma {:induction false} PrependTwice(a: seq<AggregateField>, b: seq<AggregateField>, r: Parsed)
    ensures Prepend(a, Prepend(b, r)) == Prepend(a + b, r)
  {
    if r.Good? {
      assert a + (b + r.fields) == a + b + r.fields;
    }
  }

  /** One turn of the list loop, or its end. */
  lemma {:induction false} ListTurn(
    ts: seq<Token>, i: nat, fields: seq<AggregateField>, name: string, isExtension: bool)
    requires i <= |ts|
    ensures
      var list := Prepend(fields, List(ts, i, name, isExtension));
      var v := Single(ts, i, name, isExtension);
      if Peek(ts, i).value == "]" || Peek(ts, i).kind == Eof then list == Good(fields, i)
      else if v.Bad? then list == v
      else if Peek(ts, v.next).value != "," then
        list == Prepend(fields + v.fields, List(ts, v.next, name, isExtension))
      else if Peek(ts, Next(ts, v.next)).value != "]" then
        list == Prepend(fields + v.fields, List(ts, Next(ts, v.next), name, isExtension))
      else list == Good(fields + v.fields + [TrailingComma(name, isExtension)], Next(ts, v.next))
  {
    hide Single, TrailingComma;
    var v := Single(ts, i, name, isExtension);
    assert fields + [] == fields;
    if i < |ts| && v.Good? {
      PrependTwice(fields, v.fields, List(ts, v.next, name, isExtension));
      PrependTwice(fields, v.fields, List(ts, Next(ts, v.next), name, isExtension));
      var mark := [TrailingComma(name, isExtension)];
      assert fields + (v.fields + mark) == fields + v.fields + mark;
    }
  }

  /** One turn of the field loop, or its end. */
  lemma {:induction false} AggregateTurn(ts: seq<Token>, i: nat, fields: seq<AggregateField>, closer: string)
    requires i <= |ts|
    ensures
      var all := Prepend(fields, Aggregate(ts, i, closer));
      if Peek(ts, i).value == closer || Peek(ts, i).kind == Eof then all == Good(fields, i)
      else
        var n := FieldName(ts, i);
        var sep := Peek(ts, n.next);
        if sep.value != ":" && sep.value != "{" && sep.value != "<" then all == Bad(sep)
        else
          var v := Value(ts, if sep.value == ":" then Next(ts, n.next) else n.next, n.name, n.isExtension);
          if v.Bad? then all == v
          else all == Prepend(fields + v.fields, Aggregate(ts, AfterSeparator(ts, v.next), closer))
  {
    hide FieldName, Value;
    assert fields + [] == fields;
    if Peek(ts, i).value != closer && Peek(ts, i).kind != Eof {
      var n := FieldName(ts, i);
      var v := Value(ts, if Peek(ts, n.next).value == ":" then Next(ts, n.next) else n.next, n.name, n.isExtension);
      if v.Good? {
        PrependTwice(fields, v.fields, Aggregate(ts, AfterSeparator(ts, v.next), closer));
      }
    }
  }
}
