/**
 Message literals of option values, `{ name: value, ... }` and `< ... >`: what the
 parser makes of any token sequence. Positions index the token sequence; peeking
 past its end gives an end-of-file token.
 */
module MessageLiteral {
  datatype Kind = Ident | Str | Int | Float | Symbol | Eof

  /** The value of a string token is its content, without quotes. */
  datatype Token = Token(kind: Kind, value: string)

  const END := Token(Eof, "")

  /** One name and value; a message value has subFields and no scalar. */
  datatype AggregateField = AggregateField(
    name: string,
    value: string,
    valueKind: Kind,
    negative: bool,
    positive: bool,
    subFields: seq<AggregateField>,
    isExtension: bool,
    trailingComma: bool)

  function MessageField(name: string, isExtension: bool, subFields: seq<AggregateField>): AggregateField {
    AggregateField(name, "", Ident, false, false, subFields, isExtension, false)
  }

  function TrailingComma(name: string, isExtension: bool): AggregateField {
    AggregateField(name, "", Ident, false, false, [], isExtension, true)
  }

  function Peek(ts: seq<Token>, i: nat): Token {
    if i < |ts| then ts[i] else END
  }

  function Next(ts: seq<Token>, i: nat): nat {
    if i < |ts| then i + 1 else i
  }

  datatype Named = Named(name: string, isExtension: bool, next: nat)

  /** A field name, or a bracketed extension name or type URL. */
  function FieldName(ts: seq<Token>, i: nat): (r: Named)
    requires i < |ts|
    ensures i < r.next <= |ts|
  {
    if ts[i].value == "[" then
      var r := NameParts(ts, Next(ts, i + 1), Peek(ts, i + 1).value);
      Named(r.name, true, Next(ts, r.next))
    else Named(ts[i].value, false, i + 1)
  }

  /** The separators and parts that continue a bracketed name. */
  function NameParts(ts: seq<Token>, i: nat, name: string): (r: Named)
    requires i <= |ts|
    ensures i <= r.next <= |ts|
    decreases |ts| - i
  {
    if Peek(ts, i).value == "." || Peek(ts, i).value == "/" then
      NameParts(ts, Next(ts, i + 1), name + Peek(ts, i).value + Peek(ts, i + 1).value)
    else Named(name, true, i)
  }

  datatype ScalarValue = ScalarValue(value: string, kind: Kind, negative: bool, positive: bool, next: nat)

  /** An optional sign, a value token, and the string tokens that follow a string. */
  function Scalar(ts: seq<Token>, i: nat): (r: ScalarValue)
    requires i <= |ts|
    ensures i <= r.next <= |ts|
    ensures i < |ts| ==> i < r.next
  {
    var first := Peek(ts, i);
    var negative, positive := first.value == "-", first.value == "+";
    var at := if negative || positive then Next(ts, i) else i;
    var tok := Peek(ts, at);
    var more := if tok.kind == Str then Strings(ts, Next(ts, at)) else Pieces("", Next(ts, at));
    ScalarValue(tok.value + more.text, tok.kind, negative, positive, more.next)
  }

  datatype Pieces = Pieces(text: string, next: nat)

  function Strings(ts: seq<Token>, i: nat): (r: Pieces)
    requires i <= |ts|
    ensures i <= r.next <= |ts|
    decreases |ts| - i
  {
    if i < |ts| && ts[i].kind == Str then
      var rest := Strings(ts, i + 1);
      Pieces(ts[i].value + rest.text, rest.next)
    else Pieces("", i)
  }

  function ScalarField(name: string, isExtension: bool, s: ScalarValue): AggregateField {
    AggregateField(name, s.value, s.kind, s.negative, s.positive, [], isExtension, false)
  }

  datatype Parsed = Bad(found: Token) | Good(fields: seq<AggregateField>, next: nat)

  /** The fields up to closer, which is not consumed. */
  function Aggregate(ts: seq<Token>, i: nat, closer: string): (r: Parsed)
    requires i <= |ts|
    ensures r.Good? ==> i <= r.next <= |ts|
    decreases |ts| - i, 0
  {
    if Peek(ts, i).value == closer || Peek(ts, i).kind == Eof then Good([], i)
    else
      var n := FieldName(ts, i);
      var sep := Peek(ts, n.next).value;
      if sep != ":" && sep != "{" && sep != "<" then Bad(Peek(ts, n.next))
      else
        var v := Value(ts, if sep == ":" then Next(ts, n.next) else n.next, n.name, n.isExtension);
        if v.Bad? then v
        else
          var rest := Aggregate(ts, AfterSeparator(ts, v.next), closer);
          if rest.Bad? then rest else Good(v.fields + rest.fields, rest.next)
  }

  function AfterSeparator(ts: seq<Token>, i: nat): nat {
    if Peek(ts, i).value == ";" || Peek(ts, i).value == "," then Next(ts, i) else i
  }

  /** The fields one value stands for: one, or one per element of a list. */
  function Value(ts: seq<Token>, i: nat, name: string, isExtension: bool): (r: Parsed)
    requires i <= |ts|
    ensures r.Good? ==> i <= r.next <= |ts|
    decreases |ts| - i, 2
  {
    if Peek(ts, i).value == "[" then
      var r := List(ts, i + 1, name, isExtension);
      if r.Bad? then r else Good(r.fields, Next(ts, r.next))
    else Single(ts, i, name, isExtension)
  }

  function Single(ts: seq<Token>, i: nat, name: string, isExtension: bool): (r: Parsed)
    requires i <= |ts|
    ensures r.Good? ==> i <= r.next <= |ts|
    ensures r.Good? && i < |ts| ==> i < r.next
    decreases |ts| - i, 1
  {
    if Peek(ts, i).value == "{" || Peek(ts, i).value == "<" then
      var sub := Aggregate(ts, i + 1, if Peek(ts, i).value == "{" then "}" else ">");
      if sub.Bad? then sub else Good([MessageField(name, isExtension, sub.fields)], Next(ts, sub.next))
    else
      var s := Scalar(ts, i);
      Good([ScalarField(name, isExtension, s)], s.next)
  }

  /** The elements up to the closing bracket, which is not consumed. */
  function List(ts: seq<Token>, i: nat, name: string, isExtension: bool): (r: Parsed)
    requires i <= |ts|
    ensures r.Good? ==> i <= r.next <= |ts|
    decreases |ts| - i, 2
  {
    if Peek(ts, i).value == "]" || Peek(ts, i).kind == Eof then Good([], i)
    else
      var v := Single(ts, i, name, isExtension);
      if v.Bad? then v
      else if Peek(ts, v.next).value == "," && Peek(ts, Next(ts, v.next)).value == "]" then
        Good(v.fields + [TrailingComma(name, isExtension)], Next(ts, v.next))
      else
        var rest := List(ts, if Peek(ts, v.next).value == "," then Next(ts, v.next) else v.next, name, isExtension);
        if rest.Bad? then rest else Good(v.fields + rest.fields, rest.next)
  }
}
