/**
 Encoding a message literal as the value of an option field: every field of the
 literal is encoded on its own, the pieces are stably sorted by field number, and the
 result is wrapped as one field.
 */
module AggregateEncoder {
  import opened Wrappers
  import opened Wire
  import opened WireEntries
  import opened OptionSchema
  import opened EntrySort
  import opened OptionCanon
  import opened CanonicalShape
  import Literal = MessageLiteral

  type Agg = Literal.AggregateField

  datatype Error =
    | UnknownType(typeName: string)
    | UnknownField(name: string)
    | Duplicate(name: string)
    | TrailingComma(field: FieldDesc)
    | PositiveSign(field: FieldDesc)
    | BadValue(name: string)

  datatype Encoded = Failed(error: Error) | Done(bytes: Bytes)

  datatype Pieces = Rejected(error: Error) | Accepted(pieces: seq<Entry>)

  /**
   What the encoder looks up: fields by name, extensions of a message by name, the
   messages there are, the encoding of one scalar value, and a string's bytes.
   */
  datatype Env = Env(
    fields: OptionFields,
    known: set<string>,
    named: (string, string) -> Option<FieldDesc>,
    extension: (string, string) -> Option<FieldDesc>,
    scalar: (FieldDesc, string, Literal.Kind) -> Option<Bytes>,
    text: string -> Bytes)
  {
    function FieldOf(owner: string, name: string, isExtension: bool): Option<FieldDesc> {
      if isExtension then extension(owner, name) else named(owner, name)
    }
  }

  const ANY := "google.protobuf.Any"

  /** The position after the last slash, or 0. */
  function AfterSlash(s: string): (n: nat)
    ensures n <= |s|
    ensures n > 0 ==> s[n - 1] == '/'
    ensures forall i :: n <= i < |s| ==> s[i] != '/'
  {
    if s == [] then 0 else if s[|s| - 1] == '/' then |s| else AfterSlash(s[..|s| - 1])
  }

  /** A type URL inside an Any stands for the message it names. */
  predicate Expands(owner: string, a: Agg, top: bool) {
    !top && a.isExtension && owner == ANY && '/' in a.name
  }

  function AnyValueField(url: string): FieldDesc {
    FieldDesc(2, Message, false, "." + url[AfterSlash(url)..])
  }

  /** An encoded extension as the item group of a MessageSet. */
  function MessageSetItem(num: nat, field: Bytes): Bytes {
    match ConsumeTag(field)
    case None => field
    case Some(t) =>
      match ConsumeBytes(field[t.len..])
      case None => field
      case Some(d) =>
        AppendTag(1, START_GROUP) + AppendTag(2, VARINT) + AppendVarint(num)
        + AppendTag(3, BYTES) + AppendBytes(d.content) + AppendTag(1, END_GROUP)
  }

  function Piece(num: nat, data: Bytes): Entry {
    Entry(num, BYTES, None, data)
  }

  function Signed(a: Agg): string {
    if a.negative then "-" + a.value else a.value
  }

  /** The literal as the value of f. */
  function EncodeField(f: FieldDesc, aggs: seq<Agg>, env: Env, top: bool): Encoded
    decreases aggs, 2
  {
    var owner := TrimLeadingDot(f.typeName);
    if owner !in env.known then Failed(UnknownType(f.typeName))
    else
      match EncodePieces(owner, aggs, {}, env, top)
      case Rejected(e) => Failed(e)
      case Accepted(ps) => Done(AppendSubmessage(f, f.number, Raws(SortByNum(ps))))
  }

  /** One piece per field, in the order written; seen holds the names of singular fields. */
  function EncodePieces(owner: string, aggs: seq<Agg>, seen: set<string>, env: Env, top: bool): Pieces
    decreases aggs, 1
  {
    if aggs == [] then Accepted([])
    else
      match EncodePiece(owner, aggs[0], seen, env, top)
      case Failed(e) => Rejected(e)
      case Done(data) =>
        match EncodePieces(owner, aggs[1..], Seen(owner, aggs[0], seen, env, top), env, top)
        case Rejected(e) => Rejected(e)
        case Accepted(ps) => Accepted([Piece(PieceNumber(owner, aggs[0], env, top), data)] + ps)
  }

  function PieceNumber(owner: string, a: Agg, env: Env, top: bool): nat {
    if Expands(owner, a, top) then 1
    else
      var f := env.FieldOf(owner, a.name, a.isExtension);
      if f.Some? then f.value.number else 0
  }

  function Seen(owner: string, a: Agg, seen: set<string>, env: Env, top: bool): set<string> {
    var f := env.FieldOf(owner, a.name, a.isExtension);
    if Expands(owner, a, top) || f.None? || f.value.repeated then seen else seen + {a.name}
  }

  function EncodePiece(owner: string, a: Agg, seen: set<string>, env: Env, top: bool): Encoded
    decreases a, 3
  {
    if Expands(owner, a, top) then
      match EncodeField(AnyValueField(a.name), a.subFields, env, false)
      case Failed(e) => Failed(e)
      case Done(value) => Done(AppendTag(1, BYTES) + AppendBytes(env.text(a.name)) + value)
    else
      match env.FieldOf(owner, a.name, a.isExtension)
      case None => Failed(UnknownField(a.name))
      case Some(f) =>
        if !f.repeated && a.name in seen then Failed(Duplicate(a.name))
        else if a.trailingComma then Failed(TrailingComma(f))
        else if a.subFields != [] then
          match EncodeField(f, a.subFields, env, false)
          case Failed(e) => Failed(e)
          case Done(data) =>
            Done(if a.isExtension && owner in env.fields.messageSet then MessageSetItem(f.number, data) else data)
        else if a.positive then Failed(PositiveSign(f))
        else
          match env.scalar(f, Signed(a), a.valueKind)
          case None => Failed(BadValue(a.name))
          case Some(data) => Done(data)
  }

  /** A scalar field is what the scalar encoder makes of the value, a minus sign in front when there is one. */
  lemma {:induction false} ScalarEncoded(owner: string, a: Agg, seen: set<string>, env: Env, top: bool)
    requires a.subFields == [] && !a.trailingComma && !a.positive && !(a.isExtension && '/' in a.name)
    requires
      var f := if a.isExtension then env.extension(owner, a.name) else env.named(owner, a.name);
      f.Some? && (f.value.repeated || a.name !in seen)
    ensures
      var f := if a.isExtension then env.extension(owner, a.name) else env.named(owner, a.name);
      var data := env.scalar(f.value, if a.negative then "-" + a.value else a.value, a.valueKind);
      EncodePiece(owner, a, seen, env, top) == if data.Some? then Done(data.value) else Failed(BadValue(a.name))
  {
  }

  /**
   A field other than a type URL is accepted exactly when its name is known, it does not
   repeat a singular field and has no trailing comma, and its value is a message that is
   encoded, or a scalar without a plus sign that is.
   */
  lemma {:induction false} PieceAccepted(owner: string, a: Agg, seen: set<string>, env: Env, top: bool)
    requires !(a.isExtension && '/' in a.name)
    ensures
      var f := if a.isExtension then env.extension(owner, a.name) else env.named(owner, a.name);
      EncodePiece(owner, a, seen, env, top).Done? <==>
      && f.Some? && (f.value.repeated || a.name !in seen) && !a.trailingComma
      && if a.subFields != [] then EncodeField(f.value, a.subFields, env, false).Done?
         else !a.positive && env.scalar(f.value, if a.negative then "-" + a.value else a.value, a.valueKind).Some?
  {
    hide EncodeField;
  }

  // ---------------------------------------------------------------------------

  /** The field loop, the sort and the join of encodeAggregateOption and encodeAggregateFields. */
  method EncodeAggregate(f: FieldDesc, aggs: seq<Agg>, env: Env, top: bool) returns (r: Encoded)
    ensures r == EncodeField(f, aggs, env, top)
    decreases aggs, 2
  {
    var owner := TrimLeadingDot(f.typeName);
    if owner !in env.known {
      return Failed(UnknownType(f.typeName));
    }
    var seen: set<string> := {};
    var entries: seq<Entry> := [];
    ghost var all := EncodePieces(owner, aggs, {}, env, top);
    var i := 0;
    while i < |aggs|
      invariant 0 <= i <= |aggs|
      invariant all == Prepend(entries, EncodePieces(owner, aggs[i..], seen, env, top))
    {
      var a := aggs[i];
      PiecesStep(owner, aggs[i..], seen, env, top, entries);
      assert aggs[i..][1..] == aggs[i + 1..];
      var data := EncodeOne(owner, a, seen, env, top);
      if data.Failed? {
        return data;
      }
      entries := entries + [Piece(PieceNumber(owner, a, env, top), data.bytes)];
      seen := Seen(owner, a, seen, env, top);
      i := i + 1;
    }
    assert aggs[i..] == [];
    assert entries + [] == entries;
    entries := SortByNum(entries);
    var inner: Bytes := [];
    i := 0;
    while i < |entries|
      invariant 0 <= i <= |entries|
      invariant inner + Raws(entries[i..]) == Raws(entries)
    {
      inner := inner + entries[i].raw;
      assert entries[i..][1..] == entries[i + 1..];
      i := i + 1;
    }
    assert entries[i..] == [] && inner + [] == inner;
    r := Done(AppendSubmessage(f, f.number, inner));
  }

  method EncodeOne(owner: string, a: Agg, seen: set<string>, env: Env, top: bool) returns (r: Encoded)
    ensures r == EncodePiece(owner, a, seen, env, top)
    decreases a, 3
  {
    if Expands(owner, a, top) {
      var value := EncodeAggregate(AnyValueField(a.name), a.subFields, env, false);
      if value.Failed? {
        return value;
      }
      return Done(AppendTag(1, BYTES) + AppendBytes(env.text(a.name)) + value.bytes);
    }
    var found := env.FieldOf(owner, a.name, a.isExtension);
    if found.None? {
      return Failed(UnknownField(a.name));
    }
    var f := found.value;
    if !f.repeated && a.name in seen {
      return Failed(Duplicate(a.name));
    }
    if a.trailingComma {
      return Failed(TrailingComma(f));
    }
    if |a.subFields| > 0 {
      r := EncodeAggregate(f, a.subFields, env, false);
      if r.Done? && a.isExtension && owner in env.fields.messageSet {
        r := Done(MessageSetItem(f.number, r.bytes));
      }
      return;
    }
    if a.positive {
      return Failed(PositiveSign(f));
    }
    var encoded := env.scalar(f, Signed(a), a.valueKind);
    r := if encoded.None? then Failed(BadValue(a.name)) else Done(encoded.value);
  }

  ghost function Prepend(done: seq<Entry>, rest: Pieces): Pieces {
    if rest.Rejected? then rest else Accepted(done + rest.pieces)
  }

  lemma {:induction false} PiecesStep(
    owner: string, aggs: seq<Agg>, seen: set<string>, env: Env, top: bool, done: seq<Entry>)
    requires aggs != []
    ensures
      var head := EncodePiece(owner, aggs[0], seen, env, top);
      Prepend(done, EncodePieces(owner, aggs, seen, env, top)) ==
      if head.Failed? then Rejected(head.error)
      else
        Prepend(done + [Piece(PieceNumber(owner, aggs[0], env, top), head.bytes)],
                EncodePieces(owner, aggs[1..], Seen(owner, aggs[0], seen, env, top), env, top))
  {
    hide EncodePiece;
    var rest := EncodePieces(owner, aggs[1..], Seen(owner, aggs[0], seen, env, top), env, top);
    var head := EncodePiece(owner, aggs[0], seen, env, top);
    if head.Done? && rest.Accepted? {
      var p := Piece(PieceNumber(owner, aggs[0], env, top), head.bytes);
      assert done + ([p] + rest.pieces) == (done + [p]) + rest.pieces;
    }
  }
}
