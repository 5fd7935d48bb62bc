/**
 An accepted message literal is encoded as a well-formed field that decodes to the
 literal's value, and as a canonical one exactly when no singular message is set twice.
 */
module AggregateTheorems {
  import opened Wrappers
  import opened Wire
  import opened WireEntries
  import opened OptionSchema
  import opened OptionValue
  import opened EntrySort
  import opened OptionDecode
  import opened OptionCanon
  import opened CanonicalForm
  import opened CanonicalRoundTrip
  import opened CanonicalShape
  import opened AggregateEncoder
  import Literal = MessageLiteral

  // ---------------------------------------------------------------------------
  // What the lookups of a linked file set satisfy
  // ---------------------------------------------------------------------------

  ghost predicate FieldKnown(f: FieldDesc, owner: string, env: Env) {
    && env.fields.Lookup(owner, f.number) == Some(f)
    && 1 <= f.number <= MAX_FIELD_NUMBER
    && (f.kind == Scalar ==> TrimLeadingDot(f.typeName) !in env.known)
  }

  /** The fields found by name are the schema's, and an extension is listed as one. */
  ghost predicate NamesAgree(env: Env) {
    forall owner, name, ext ::
      var f := env.FieldOf(owner, name, ext);
      f.Some? ==>
        FieldKnown(f.value, owner, env) &&
        (ext && owner in env.fields.messageSet && f.value.kind != Scalar ==> env.fields.AsItem(owner, f.value.number))
  }

  /** A scalar value is one well-formed field of that number; messages have no scalar form. */
  ghost predicate ScalarsAgree(env: Env) {
    forall f, value, kind ::
      env.scalar(f, value, kind).Some? ==>
        f.kind == Scalar && LeafField(env.scalar(f, value, kind).value, f.number)
  }

  ghost predicate Linked(env: Env) {
    NamesAgree(env) && ScalarsAgree(env)
  }

  /** No type URL, at any depth. */
  predicate NoUrls(aggs: seq<Agg>)
    decreases aggs
  {
    aggs != [] ==>
      && !(aggs[0].isExtension && '/' in aggs[0].name)
      && NoUrls(aggs[0].subFields)
      && NoUrls(aggs[1..])
  }

  // ---------------------------------------------------------------------------
  // The value of a literal
  // ---------------------------------------------------------------------------

  /** The fields of the literal, merged into one value. */
  function LiteralValue(owner: string, aggs: seq<Agg>, env: Env): Msg
    decreases aggs, 1
  {
    if aggs == [] then Nil else Merge(FieldValue(owner, aggs[0], env), LiteralValue(owner, aggs[1..], env))
  }

  function FieldValue(owner: string, a: Agg, env: Env): Msg
    decreases a, 2
  {
    match env.FieldOf(owner, a.name, a.isExtension)
    case None => Nil
    case Some(f) =>
      if a.subFields != [] then
        Holding(f, LiteralValue(TrimLeadingDot(f.typeName), a.subFields, env))
      else
        match env.scalar(f, if a.negative then "-" + a.value else a.value, a.valueKind)
        case None => Nil
        case Some(data) => Single(f.number, Val([data], [], None))
  }

  /** The value of a message whose field f holds m. */
  function Holding(f: FieldDesc, m: Msg): Msg {
    Single(f.number, if f.repeated then Val([], [m], None) else Val([], [], Some(m)))
  }

  // ---------------------------------------------------------------------------
  // Pieces
  // ---------------------------------------------------------------------------

  /** The piece is one clean field of its number. */
  predicate GoodPiece(p: Entry, owner: string, fields: OptionFields) {
    var h := HeadEntry(p.raw);
    && h.Field? && IsField(p.raw, h.entry) && h.entry.num == p.num
    && Shrinks(h.entry) && CleanEntry(h.entry, owner, fields)
  }

  /** The piece is canonical as an entry: a message inside it is, at every level. */
  predicate CanonicalPiece(p: Entry, owner: string, fields: OptionFields) {
    var h := HeadEntry(p.raw);
    h.Field? && CanonicalEntry(h.entry, owner, fields)
  }

  ghost predicate CanonicalPieces(ps: seq<Entry>, owner: string, fields: OptionFields) {
    forall p <- ps :: CanonicalPiece(p, owner, fields)
  }

  ghost predicate GoodPieces(ps: seq<Entry>, owner: string, fields: OptionFields) {
    forall p <- ps :: GoodPiece(p, owner, fields)
  }

  /** A singular message field has at most one piece. */
  ghost predicate OncePerSingular(ps: seq<Entry>, owner: string, fields: OptionFields) {
    forall num :: Singular(owner, num, fields) ==> |OfNum(ps, num)| <= 1
  }

  lemma {:induction false} GoodPieceDecodes(p: Entry, owner: string, fields: OptionFields)
    requires GoodPiece(p, owner, fields)
    ensures Clean(p.raw, owner, fields)
    ensures var m := Decode(p.raw, owner, fields); m.Cons? && m == Single(p.num, m.val)
  {
    hide HeadEntry, CleanEntry, Clean, Decode;
    FieldDecodes(p.raw, HeadEntry(p.raw).entry, owner, fields);
  }

  function PiecesValue(ps: seq<Entry>, owner: string, fields: OptionFields): Msg {
    if ps == [] then Nil else Merge(Decode(ps[0].raw, owner, fields), PiecesValue(ps[1..], owner, fields))
  }

  lemma {:induction false} PiecesDecode(ps: seq<Entry>, owner: string, fields: OptionFields)
    requires GoodPieces(ps, owner, fields)
    ensures Clean(Raws(ps), owner, fields)
    ensures Decode(Raws(ps), owner, fields) == PiecesValue(ps, owner, fields)
  {
    hide Clean, Decode, GoodPiece;
    if ps == [] {
      EmptyDecodes(owner, fields);
    } else {
      assert ps[0] in ps;
      GoodPieceDecodes(ps[0], owner, fields);
      PiecesDecode(ps[1..], owner, fields);
      DecodeConcat(ps[0].raw, Raws(ps[1..]), owner, fields);
    }
  }

  lemma {:induction false} InsertPieceValue(p: Entry, ps: seq<Entry>, owner: string, fields: OptionFields)
    requires GoodPiece(p, owner, fields) && GoodPieces(ps, owner, fields)
    ensures GoodPieces(InsertEntry(p, ps), owner, fields)
    ensures PiecesValue(InsertEntry(p, ps), owner, fields)
         == Merge(Decode(p.raw, owner, fields), PiecesValue(ps, owner, fields))
  {
    hide Decode, GoodPiece;
    if ps == [] || p.num <= ps[0].num {
      assert ([p] + ps)[1..] == ps;
    } else {
      var q := ps[0];
      assert q in ps;
      var r := InsertEntry(p, ps[1..]);
      InsertPieceValue(p, ps[1..], owner, fields);
      assert ([q] + r)[1..] == r;
      GoodPieceDecodes(p, owner, fields);
      GoodPieceDecodes(q, owner, fields);
      MergeSwap(p.num, Decode(p.raw, owner, fields).val, q.num, Decode(q.raw, owner, fields).val,
                PiecesValue(ps[1..], owner, fields));
    }
  }

  /** Sorting the pieces does not change the value they add up to. */
  lemma {:induction false} SortPiecesValue(ps: seq<Entry>, owner: string, fields: OptionFields)
    requires GoodPieces(ps, owner, fields)
    ensures GoodPieces(SortByNum(ps), owner, fields)
    ensures PiecesValue(SortByNum(ps), owner, fields) == PiecesValue(ps, owner, fields)
  {
    hide Decode, GoodPiece;
    if ps != [] {
      assert ps[0] in ps;
      SortPiecesValue(ps[1..], owner, fields);
      InsertPieceValue(ps[0], SortByNum(ps[1..]), owner, fields);
    }
  }

  /** A field in front of canonical fields. */
  lemma {:induction false} PrependIff(first: Bytes, e: Entry, raw: Bytes, owner: string, fields: OptionFields)
    requires IsField(first, e) && Shrinks(e) && ParseEntries(raw).Entries?
    ensures
      var es := ParseEntries(raw).entries;
      && ParseEntries(first + raw) == Entries([e] + es)
      && (Canonical(first + raw, owner, fields) <==>
            CanonicalEntry(e, owner, fields) && Canonical(raw, owner, fields)
            && (es != [] ==> Follows(e.num, es[0].num, owner, fields)))
  {
    hide CanonicalEntry, HeadEntry;
    SingleField(first, e);
    ParseAppend(first, raw);
    EntriesShrink(raw);
    EntriesShrink(first + raw);
    assert ([e] + ParseEntries(raw).entries)[1..] == ParseEntries(raw).entries;
  }

  /** Sorted pieces in a row are canonical exactly when each is and singular messages occur once. */
  lemma {:induction false} SortedPiecesCanonical(ps: seq<Entry>, owner: string, fields: OptionFields)
    requires GoodPieces(ps, owner, fields) && Sorted(ps)
    ensures ParseEntries(Raws(ps)).Entries? && |ParseEntries(Raws(ps)).entries| == |ps|
    ensures ps != [] ==> ParseEntries(Raws(ps)).entries[0].num == ps[0].num
    ensures Canonical(Raws(ps), owner, fields)
       <==> CanonicalPieces(ps, owner, fields) && OncePerSingular(ps, owner, fields)
  {
    hide Canonical, HeadEntry, CanonicalEntry, CleanEntry, Follows, OncePerSingular;
    if ps == [] {
      EmptyCanonical(owner, fields);
      NoPieceTwice(owner, fields);
    } else {
      assert ps[0] in ps;
      SortedPiecesCanonical(ps[1..], owner, fields);
      OnceBySteps(ps, owner, fields);
      PrependIff(ps[0].raw, HeadEntry(ps[0].raw).entry, Raws(ps[1..]), owner, fields);
      assert ps == [ps[0]] + ps[1..];
    }
  }

  lemma {:induction false} NoPieceTwice(owner: string, fields: OptionFields)
    ensures OncePerSingular([], owner, fields)
  {
  }

  /** In sorted pieces it is enough to look at neighbours. */
  lemma {:induction false} OnceBySteps(ps: seq<Entry>, owner: string, fields: OptionFields)
    requires ps != [] && Sorted(ps)
    ensures OncePerSingular(ps, owner, fields)
       <==> OncePerSingular(ps[1..], owner, fields) && (|ps| > 1 ==> Follows(ps[0].num, ps[1].num, owner, fields))
  {
    hide Singular;
    var p, rest := ps[0], ps[1..];
    assert ps == [p] + rest;
    OnceMore(p, rest, owner, fields);
    if |ps| > 1 {
      if p.num == ps[1].num {
        assert OfNum(rest, p.num) == [ps[1]] + OfNum(rest[1..], p.num);
      } else {
        SortedAbove(ps);
        SortedAbove(rest);
        NoneOfNum(rest, p.num);
      }
    }
  }

  lemma {:induction false} NoneOfNum(es: seq<Entry>, num: int)
    ensures OfNum(es, num) == [] <==> forall k :: 0 <= k < |es| ==> es[k].num != num
  {
    if es != [] {
      NoneOfNum(es[1..], num);
      if OfNum(es, num) == [] {
        forall k | 0 <= k < |es|
          ensures es[k].num != num
        {
          assert k > 0 ==> es[k] == es[1..][k - 1];
        }
      }
      assert forall k :: 0 <= k < |es[1..]| ==> es[1..][k] == es[k + 1];
    }
  }

  /** One piece more: its number is new, or does not belong to a singular message. */
  lemma {:induction false} OnceMore(p: Entry, rest: seq<Entry>, owner: string, fields: OptionFields)
    ensures OncePerSingular([p] + rest, owner, fields)
       <==> OncePerSingular(rest, owner, fields) && (Singular(owner, p.num, fields) ==> OfNum(rest, p.num) == [])
  {
    hide Singular;
    var ps := [p] + rest;
    assert ps[1..] == rest;
    assert forall num :: OfNum(ps, num) == (if p.num == num then [p] else []) + OfNum(rest, num);
    if OncePerSingular(ps, owner, fields) {
      forall num | Singular(owner, num, fields)
        ensures |OfNum(rest, num)| <= 1
      {
        assert |OfNum(ps, num)| <= 1;
      }
      assert Singular(owner, p.num, fields) ==> |OfNum(ps, p.num)| <= 1;
    }
  }

  lemma {:induction false} RawsLength(ps: seq<Entry>)
    ensures |Raws(ps)| == TotalRaw(ps)
  {
    if ps != [] {
      RawsLength(ps[1..]);
    }
  }

  // ---------------------------------------------------------------------------
  // One field of a literal
  // ---------------------------------------------------------------------------

  lemma {:induction false} ScalarPiece(f: FieldDesc, data: Bytes, owner: string, fields: OptionFields)
    requires fields.Submessage(owner, f.number).None? && LeafField(data, f.number)
    ensures GoodPiece(Piece(f.number, data), owner, fields) && CanonicalPiece(Piece(f.number, data), owner, fields)
    ensures Decode(data, owner, fields) == Single(f.number, Val([data], [], None))
  {
    LeafShrinks(data, f.number);
    LeafDecodes(data, f.number, owner, fields);
  }

  /** A nested message: its body, wrapped, is one field holding the body's value, and as canonical as the body. */
  lemma {:induction false} MessagePiece(f: FieldDesc, body: Bytes, owner: string, fields: OptionFields)
    requires !fields.AsItem(owner, f.number) && fields.Submessage(owner, f.number) == Some(f)
    requires 1 <= f.number <= MAX_FIELD_NUMBER && |body| < MAX_LENGTH
    requires Clean(body, TrimLeadingDot(f.typeName), fields)
    ensures
      var data, sub := AppendSubmessage(f, f.number, body), TrimLeadingDot(f.typeName);
      && GoodPiece(Piece(f.number, data), owner, fields)
      && (CanonicalPiece(Piece(f.number, data), owner, fields) <==> Canonical(body, sub, fields))
      && Decode(data, owner, fields) == Holding(f, Decode(body, sub, fields))
  {
    hide HeadEntry, Content, Canonical, Clean, Decode, AppendTag, AppendBytes;
    var data := AppendSubmessage(f, f.number, body);
    var e := Entry(f.number, if f.kind == Group then START_GROUP else BYTES, Some(body), data);
    assert ParseEntries(body).Entries? by {
      ParsesWhenClean(body, TrimLeadingDot(f.typeName), fields);
    }
    assert IsField(data, e) && Content(data) == Some(body) by {
      if f.kind == Group {
        GroupFieldParses(f.number, body);
      } else {
        BytesFieldParses(f.number, body);
      }
    }
    ContentShorter(data);
    SubmessageDecodes(f, f.number, body, owner, fields);
  }

  // ---------------------------------------------------------------------------
  // Literals
  // ---------------------------------------------------------------------------

  function FieldNumber(owner: string, a: Agg, env: Env): nat {
    var f := env.FieldOf(owner, a.name, a.isExtension);
    if f.Some? then f.value.number else 0
  }

  /** No singular message is set by two entries of one literal, under whatever names, at any depth. */
  predicate OnceEach(owner: string, aggs: seq<Agg>, env: Env)
    decreases aggs, 1
  {
    aggs != [] ==>
      && (Singular(owner, FieldNumber(owner, aggs[0], env), env.fields) ==>
            forall k :: 0 < k < |aggs| ==> FieldNumber(owner, aggs[k], env) != FieldNumber(owner, aggs[0], env))
      && OnceInside(owner, aggs[0], env)
      && OnceEach(owner, aggs[1..], env)
  }

  predicate OnceInside(owner: string, a: Agg, env: Env)
    decreases a, 2
  {
    var f := env.FieldOf(owner, a.name, a.isExtension);
    f.Some? && a.subFields != [] ==> OnceEach(TrimLeadingDot(f.value.typeName), a.subFields, env)
  }

  /** What an accepted list of fields has been encoded to. */
  ghost predicate Represents(ps: seq<Entry>, owner: string, aggs: seq<Agg>, env: Env) {
    && GoodPieces(ps, owner, env.fields)
    && PiecesValue(ps, owner, env.fields) == LiteralValue(owner, aggs, env)
    && |ps| == |aggs| && (forall k :: 0 <= k < |ps| ==> ps[k].num == FieldNumber(owner, aggs[k], env))
    && (CanonicalPieces(ps, owner, env.fields) && OncePerSingular(ps, owner, env.fields) <==> OnceEach(owner, aggs, env))
  }

  lemma {:induction false} PiecesRepresent(
    owner: string, aggs: seq<Agg>, seen: set<string>, env: Env, top: bool, ps: seq<Entry>)
    requires Linked(env) && NoUrls(aggs) && Plain(LiteralValue(owner, aggs, env), owner, env.fields)
    requires EncodePieces(owner, aggs, seen, env, top) == Accepted(ps) && TotalRaw(ps) < MAX_LENGTH
    ensures Represents(ps, owner, aggs, env)
    decreases aggs, 1
  {
    hide Decode, GoodPiece, CanonicalPiece, EncodePiece, FieldValue, Linked, Singular, Plain, OncePerSingular, OnceInside;
    if aggs == [] {
      NoPieceTwice(owner, env.fields);
    } else {
      var a := aggs[0];
      var p, rest := ps[0], ps[1..];
      assert ps == [p] + rest;
      PlainMerge(FieldValue(owner, a, env), LiteralValue(owner, aggs[1..], env), owner, env.fields);
      PieceRepresents(owner, a, seen, env, top, p);
      PiecesRepresent(owner, aggs[1..], Seen(owner, a, seen, env, top), env, top, rest);
      OnceMore(p, rest, owner, env.fields);
      NoneOfNum(rest, p.num);
      FirstRepresents(owner, aggs, env, ps);
    }
  }

  /** The first piece and the rest, for the pieces' numbers. */
  lemma {:induction false} FirstRepresents(owner: string, aggs: seq<Agg>, env: Env, ps: seq<Entry>)
    requires aggs != [] && |ps| == |aggs| && ps[0].num == FieldNumber(owner, aggs[0], env)
    requires forall k :: 0 <= k < |ps| - 1 ==> ps[1..][k].num == FieldNumber(owner, aggs[1..][k], env)
    ensures forall k :: 0 <= k < |ps| ==> ps[k].num == FieldNumber(owner, aggs[k], env)
    ensures (forall k :: 0 <= k < |ps| - 1 ==> ps[1..][k].num != ps[0].num)
       <==> forall k :: 0 < k < |aggs| ==> FieldNumber(owner, aggs[k], env) != FieldNumber(owner, aggs[0], env)
  {
    hide FieldNumber;
    forall k | 0 < k < |ps|
      ensures ps[k] == ps[1..][k - 1] && aggs[k] == aggs[1..][k - 1]
      ensures ps[k].num == FieldNumber(owner, aggs[k], env)
    {
      assert ps[1..][k - 1].num == FieldNumber(owner, aggs[1..][k - 1], env);
    }
    assert forall k :: 0 <= k < |ps| - 1 ==> ps[1..][k] == ps[k + 1];
  }

  lemma {:induction false} PieceRepresents(
    owner: string, a: Agg, seen: set<string>, env: Env, top: bool, p: Entry)
    requires Linked(env) && NoUrls(a.subFields) && !(a.isExtension && '/' in a.name)
    requires Plain(FieldValue(owner, a, env), owner, env.fields)
    requires EncodePiece(owner, a, seen, env, top) == Done(p.raw) && |p.raw| < MAX_LENGTH
    requires p == Piece(PieceNumber(owner, a, env, top), p.raw)
    ensures p.num == FieldNumber(owner, a, env)
    ensures GoodPiece(p, owner, env.fields)
    ensures Decode(p.raw, owner, env.fields) == FieldValue(owner, a, env)
    ensures CanonicalPiece(p, owner, env.fields) <==> OnceInside(owner, a, env)
    decreases a, 2
  {
    hide Decode, GoodPiece, CanonicalPiece, LeafField, EncodePieces, LiteralValue, AppendSubmessage, Canonical, Clean;
    hide OnceEach;
    var f := env.FieldOf(owner, a.name, a.isExtension).value;
    assert FieldKnown(f, owner, env);
    if a.subFields == [] {
      assert env.scalar(f, Signed(a), a.valueKind).Some?;
      ScalarPiece(f, p.raw, owner, env.fields);
    } else {
      assert EncodeField(f, a.subFields, env, false).Done?;
      var data := EncodeField(f, a.subFields, env, false).bytes;
      NestedKind(f, a.subFields, env, owner, data);
      PlainHolding(f, LiteralValue(TrimLeadingDot(f.typeName), a.subFields, env), owner, env.fields);
      FieldEncodes(f, a.subFields, env, false, owner, data);
    }
  }

  lemma {:induction false} NestedKind(f: FieldDesc, aggs: seq<Agg>, env: Env, owner: string, data: Bytes)
    requires FieldKnown(f, owner, env) && EncodeField(f, aggs, env, false) == Done(data)
    ensures f.kind != Scalar && env.fields.Submessage(owner, f.number) == Some(f)
  {
    hide EncodePieces, AppendSubmessage;
  }

  lemma {:induction false} PlainHolding(f: FieldDesc, m: Msg, owner: string, fields: OptionFields)
    requires fields.Submessage(owner, f.number) == Some(f) && Plain(Holding(f, m), owner, fields)
    ensures !fields.AsItem(owner, f.number) && Plain(m, TrimLeadingDot(f.typeName), fields)
  {
    var v := Holding(f, m).val;
    assert f.repeated ==> v.items == [m] && m in v.items;
  }

  /**
   A literal accepted as the value of f, a field of owner, is a clean field of owner
   holding its value, and canonical exactly when no singular message in it is set twice.
   */
  lemma {:induction false} FieldEncodes(
    f: FieldDesc, aggs: seq<Agg>, env: Env, top: bool, owner: string, data: Bytes)
    requires Linked(env) && NoUrls(aggs) && FieldKnown(f, owner, env)
    requires Plain(Holding(f, LiteralValue(TrimLeadingDot(f.typeName), aggs, env)), owner, env.fields)
    requires EncodeField(f, aggs, env, top) == Done(data) && |data| < MAX_LENGTH
    ensures f.kind != Scalar
    ensures GoodPiece(Piece(f.number, data), owner, env.fields)
    ensures Decode(data, owner, env.fields) == Holding(f, LiteralValue(TrimLeadingDot(f.typeName), aggs, env))
    ensures CanonicalPiece(Piece(f.number, data), owner, env.fields)
       <==> OnceEach(TrimLeadingDot(f.typeName), aggs, env)
    decreases aggs, 2
  {
    hide Decode, GoodPiece, CanonicalPiece, Canonical, Clean, EncodePieces, AppendSubmessage, LiteralValue;
    hide NamesAgree, ScalarsAgree, OnceEach, Plain, OncePerSingular, CanonicalPieces;
    var sub := TrimLeadingDot(f.typeName);
    PlainHolding(f, LiteralValue(sub, aggs, env), owner, env.fields);
    var ps := EncodePieces(sub, aggs, {}, env, top).pieces;
    var body := Raws(SortByNum(ps));
    SortIsStable(ps, 0);
    RawsLength(SortByNum(ps));
    assert |body| < |data|;
    PiecesRepresent(sub, aggs, {}, env, top, ps);
    PiecesInOrder(ps, sub, env.fields);
    MessagePiece(f, body, owner, env.fields);
  }

  lemma {:induction false} PiecesInOrder(ps: seq<Entry>, owner: string, fields: OptionFields)
    requires GoodPieces(ps, owner, fields)
    ensures
      var body := Raws(SortByNum(ps));
      && Clean(body, owner, fields) && Decode(body, owner, fields) == PiecesValue(ps, owner, fields)
      && (Canonical(body, owner, fields)
          <==> CanonicalPieces(ps, owner, fields) && OncePerSingular(ps, owner, fields))
  {
    hide *;
    SortPiecesValue(ps, owner, fields);
    PiecesDecode(SortByNum(ps), owner, fields);
    SortIsStable(ps, 0);
    SortedPiecesCanonical(SortByNum(ps), owner, fields);
    SortKeepsOnce(ps, owner, fields);
    SortKeepsCanonical(ps, owner, fields);
  }

  lemma {:induction false} SortKeepsOnce(ps: seq<Entry>, owner: string, fields: OptionFields)
    ensures OncePerSingular(SortByNum(ps), owner, fields) <==> OncePerSingular(ps, owner, fields)
  {
    hide Singular, SortByNum, OfNum;
    forall num
      ensures OfNum(SortByNum(ps), num) == OfNum(ps, num)
    {
      SortIsStable(ps, num);
    }
  }

  lemma {:induction false} SortKeepsCanonical(ps: seq<Entry>, owner: string, fields: OptionFields)
    ensures CanonicalPieces(SortByNum(ps), owner, fields) <==> CanonicalPieces(ps, owner, fields)
  {
    hide CanonicalPiece, SortByNum;
    SortIsStable(ps, 0);
    forall p
      ensures p in SortByNum(ps) <==> p in ps
    {
      assert p in multiset(SortByNum(ps)) <==> p in multiset(ps);
    }
  }

  // ---------------------------------------------------------------------------
  // Acceptance
  // ---------------------------------------------------------------------------

  /** a sets a field that may be set once. */
  predicate SetsSingular(owner: string, a: Agg, env: Env, top: bool) {
    var f := env.FieldOf(owner, a.name, a.isExtension);
    !Expands(owner, a, top) && f.Some? && !f.value.repeated
  }

  ghost predicate AllEncode(owner: string, aggs: seq<Agg>, env: Env, top: bool) {
    forall i :: 0 <= i < |aggs| ==> EncodePiece(owner, aggs[i], {}, env, top).Done?
  }

  ghost predicate NoneTwice(owner: string, aggs: seq<Agg>, env: Env, top: bool) {
    forall i, j :: 0 <= i < j < |aggs| && SetsSingular(owner, aggs[i], env, top) && SetsSingular(owner, aggs[j], env, top)
      ==> aggs[i].name != aggs[j].name
  }

  ghost predicate NoneSeen(owner: string, aggs: seq<Agg>, seen: set<string>, env: Env, top: bool) {
    forall i :: 0 <= i < |aggs| && SetsSingular(owner, aggs[i], env, top) ==> aggs[i].name !in seen
  }

  /** A literal is accepted exactly when every field is on its own and no singular field is set twice. */
  lemma {:induction false} AcceptedExactlyWhen(owner: string, aggs: seq<Agg>, env: Env, top: bool)
    ensures EncodePieces(owner, aggs, {}, env, top).Accepted?
       <==> AllEncode(owner, aggs, env, top) && NoneTwice(owner, aggs, env, top)
  {
    hide EncodePieces, AllEncode, NoneTwice;
    AcceptedFrom(owner, aggs, {}, env, top);
  }

  lemma {:induction false} AcceptedFrom(owner: string, aggs: seq<Agg>, seen: set<string>, env: Env, top: bool)
    ensures EncodePieces(owner, aggs, seen, env, top).Accepted?
       <==> AllEncode(owner, aggs, env, top) && NoneTwice(owner, aggs, env, top) && NoneSeen(owner, aggs, seen, env, top)
    decreases |aggs|
  {
    hide EncodePiece, SetsSingular;
    if aggs != [] {
      var a, rest := aggs[0], aggs[1..];
      var next := Seen(owner, a, seen, env, top);
      SeenMatters(owner, a, seen, env, top);
      AcceptedFrom(owner, rest, next, env, top);
      FirstEncodes(owner, aggs, env, top);
      FirstSeen(owner, aggs, seen, env, top);
      hide AllEncode, NoneTwice, NoneSeen;
    }
  }

  /** Being seen matters to a singular field only, and fails it. */
  lemma {:induction false} SeenMatters(owner: string, a: Agg, seen: set<string>, env: Env, top: bool)
    ensures EncodePiece(owner, a, seen, env, top).Done?
       <==> EncodePiece(owner, a, {}, env, top).Done? && (SetsSingular(owner, a, env, top) ==> a.name !in seen)
    ensures Seen(owner, a, seen, env, top) == if SetsSingular(owner, a, env, top) then seen + {a.name} else seen
  {
    hide EncodeField, MessageSetItem;
  }

  lemma {:induction false} FirstEncodes(owner: string, aggs: seq<Agg>, env: Env, top: bool)
    requires aggs != []
    ensures AllEncode(owner, aggs, env, top)
       <==> EncodePiece(owner, aggs[0], {}, env, top).Done? && AllEncode(owner, aggs[1..], env, top)
  {
    hide EncodePiece;
    var rest := aggs[1..];
    if AllEncode(owner, aggs, env, top) {
      forall i | 0 <= i < |rest|
        ensures EncodePiece(owner, rest[i], {}, env, top).Done?
      {
        assert rest[i] == aggs[i + 1];
      }
    }
    if EncodePiece(owner, aggs[0], {}, env, top).Done? && AllEncode(owner, rest, env, top) {
      forall i | 0 <= i < |aggs|
        ensures EncodePiece(owner, aggs[i], {}, env, top).Done?
      {
        assert i > 0 ==> aggs[i] == rest[i - 1];
      }
    }
  }

  /** The names seen so far and the pairs of fields, told apart by the first field. */
  lemma {:induction false} FirstSeen(owner: string, aggs: seq<Agg>, seen: set<string>, env: Env, top: bool)
    requires aggs != []
    ensures
      var a, rest := aggs[0], aggs[1..];
      var next := if SetsSingular(owner, a, env, top) then seen + {a.name} else seen;
      NoneTwice(owner, aggs, env, top) && NoneSeen(owner, aggs, seen, env, top)
      <==> NoneTwice(owner, rest, env, top) && NoneSeen(owner, rest, next, env, top)
           && (SetsSingular(owner, a, env, top) ==> a.name !in seen)
  {
    hide SetsSingular;
    var a, rest := aggs[0], aggs[1..];
    assert forall i :: 0 < i < |aggs| ==> aggs[i] == rest[i - 1];
    assert forall i :: 0 <= i < |rest| ==> rest[i] == aggs[i + 1];
  }

  // ---------------------------------------------------------------------------
  // Main results
  // ---------------------------------------------------------------------------

  /**
   Whatever literal the encoder accepts, the bytes are well formed and decode to the
   option value holding the literal's fields. They are that value's serialization, and
   the canonicalizer returns them unchanged, exactly when no singular message in the
   literal is set twice.
   */
  lemma {:induction false} AcceptedLiteralEncoded(
    f: FieldDesc, aggs: seq<Agg>, env: Env, top: bool, owner: string, data: Bytes)
    requires Linked(env) && NoUrls(aggs) && FieldKnown(f, owner, env)
    requires Plain(Holding(f, LiteralValue(TrimLeadingDot(f.typeName), aggs, env)), owner, env.fields)
    requires EncodeField(f, aggs, env, top) == Done(data) && |data| < MAX_INPUT
    ensures
      var sub := TrimLeadingDot(f.typeName);
      var value := Holding(f, LiteralValue(sub, aggs, env));
      && Clean(data, owner, env.fields)
      && Decode(data, owner, env.fields) == value
      && (Serialize(value, owner, env.fields) == data <==> OnceEach(sub, aggs, env))
      && (Canon(data, owner, env.fields) == Some(data) <==> OnceEach(sub, aggs, env))
  {
    hide Decode, GoodPiece, CanonicalPiece, Canonical, Clean, EncodeField, LiteralValue, NamesAgree, ScalarsAgree;
    hide Serialize, Canon, OnceEach, Plain;
    FieldEncodes(f, aggs, env, top, owner, data);
    var p := Piece(f.number, data);
    GoodPieceDecodes(p, owner, env.fields);
    OnePieceCanonical(p, owner, env.fields);
    CanonSerializes(data, owner, env.fields);
    CanonFixedPoints(data, owner, env.fields);
  }

  lemma {:induction false} OnePieceCanonical(p: Entry, owner: string, fields: OptionFields)
    requires GoodPiece(p, owner, fields)
    ensures Canonical(p.raw, owner, fields) <==> CanonicalPiece(p, owner, fields)
  {
    hide Canonical, CanonicalEntry, CleanEntry, HeadEntry;
    EmptyCanonical(owner, fields);
    PrependIff(p.raw, HeadEntry(p.raw).entry, [], owner, fields);
    assert p.raw + [] == p.raw;
  }

  // ---------------------------------------------------------------------------
  // A group under both of its names
  // ---------------------------------------------------------------------------

  const GROUP := FieldDesc(1, OptionSchema.Group, false, ".M.Inner")
  const COUNT := FieldDesc(1, OptionSchema.Scalar, false, "")
  const HOLDER := FieldDesc(5, OptionSchema.Message, false, ".M")

  /** A message M with one group, which the field table lists as inner and as Inner. */
  function GroupEnv(): Env {
    Env(
      OptionFields(map["O" := map[5 := HOLDER], "M" := map[1 := GROUP], "M.Inner" := map[1 := COUNT]], map[], {}),
      {"M", "M.Inner"},
      (owner, name) =>
        if owner == "M" && name in ["inner", "Inner"] then Some(GROUP)
        else if owner == "M.Inner" && name == "count" then Some(COUNT)
        else None,
      (owner, name) => None,
      (f, value, kind) => if f == COUNT then Some([0x08, 0x01]) else None,
      s => [])
  }

  function Counted(name: string): Agg {
    Literal.MessageField(name, false, [Literal.AggregateField("count", "1", Literal.Int, false, false, [], false, false)])
  }

  lemma {:induction false} GroupEnvLinked()
    ensures Linked(GroupEnv()) && FieldKnown(HOLDER, "O", GroupEnv())
  {
    var env := GroupEnv();
    assert LeafField([0x08, 0x01], 1) by {
      CountField();
    }
    assert TrimLeadingDot("") == "" && "" !in env.known;
    assert TrimLeadingDot(".M") == "M";
  }

  lemma {:induction false} CountField()
    ensures LeafField([0x08, 0x01], 1)
  {
    var raw: Bytes := [0x08, 0x01];
    assert VarintAt(raw, 0) == Some(Varint(8, 1));
    assert raw[1..] == [0x01];
    assert VarintAt(raw[1..], 0) == Some(Varint(1, 1));
    assert raw[..2] == raw;
  }

  const INNER: Bytes := [0x0b, 0x08, 0x01, 0x0c]
  const TWO_INNERS: Bytes := [0x2a, 0x08, 0x0b, 0x08, 0x01, 0x0c, 0x0b, 0x08, 0x01, 0x0c]

  /** Without a MessageSet there are no items. */
  lemma {:induction false} AllPlain(m: Msg, owner: string, fields: OptionFields)
    requires fields.messageSet == {}
    ensures Plain(m, owner, fields)
    decreases m
  {
    if m.Cons? {
      AllPlain(m.rest, owner, fields);
      AllPlainVal(m.num, m.val, owner, fields);
    }
  }

  lemma {:induction false} AllPlainVal(num: nat, v: Val, owner: string, fields: OptionFields)
    requires fields.messageSet == {}
    ensures PlainVal(num, v, owner, fields)
    decreases v
  {
    var f := fields.Submessage(owner, num);
    if f.Some? {
      var sub := TrimLeadingDot(f.value.typeName);
      forall i <- v.items
        ensures Plain(i, sub, fields)
      {
        AllPlain(i, sub, fields);
      }
      if v.merged.Some? {
        AllPlain(v.merged.value, sub, fields);
      }
    }
  }

  lemma {:induction false} InnerEncodes(name: string)
    ensures EncodeField(GROUP, Counted(name).subFields, GroupEnv(), false) == Done(INNER)
  {
    hide Linked, FieldKnown;
    var aggs, env := Counted(name).subFields, GroupEnv();
    assert TrimLeadingDot(".M.Inner") == "M.Inner";
    var p := Piece(1, [0x08, 0x01]);
    assert EncodePieces("M.Inner", aggs[1..], {"count"}, env, false) == Accepted([]);
    assert EncodePiece("M.Inner", aggs[0], {}, env, false) == Done(p.raw);
    assert EncodePieces("M.Inner", aggs, {}, env, false) == Accepted([p]);
    assert SortByNum([p][1..]) == [];
    assert Raws([p][1..]) == [];
    assert Raws(SortByNum([p])) == p.raw;
  }

  lemma {:induction false} CountedEncodes(name: string, seen: set<string>)
    requires name in ["inner", "Inner"] && name !in seen
    ensures EncodePiece("M", Counted(name), seen, GroupEnv(), true) == Done(INNER)
  {
    hide EncodeField;
    InnerEncodes(name);
  }

  lemma {:induction false} TwiceEncodes()
    ensures EncodeField(HOLDER, [Counted("inner"), Counted("Inner")], GroupEnv(), true) == Done(TWO_INNERS)
  {
    hide EncodePiece;
    var aggs, env := [Counted("inner"), Counted("Inner")], GroupEnv();
    var p := Piece(1, INNER);
    assert aggs[1..] == [Counted("Inner")] && aggs[1..][1..] == [];
    CountedEncodes("Inner", {"inner"});
    assert EncodePieces("M", aggs[1..], {"inner"}, env, true) == Accepted([p]);
    CountedEncodes("inner", {});
    assert Seen("M", aggs[0], {}, env, true) == {"inner"};
    assert [p] + [p] == [p, p];
    assert EncodePieces("M", aggs, {}, env, true) == Accepted([p, p]);
    assert TrimLeadingDot(".M") == "M";
    TwoPieces(p);
  }

  lemma {:induction false} TwoPieces(p: Entry)
    ensures Raws(SortByNum([p, p])) == p.raw + p.raw
  {
    assert [p, p][1..] == [p] && [p][1..] == [];
    assert SortByNum([p]) == [p];
    assert Raws([p]) == p.raw;
  }

  lemma {:induction false} TwiceNotOnce()
    ensures !OnceEach("M", [Counted("inner"), Counted("Inner")], GroupEnv())
  {
    hide OnceInside;
    var aggs := [Counted("inner"), Counted("Inner")];
    assert FieldNumber("M", aggs[0], GroupEnv()) == FieldNumber("M", aggs[1], GroupEnv()) == 1;
  }

  /**
   A group given once under each of its two names is accepted, since the names differ,
   and written twice, which the canonicalizer does not leave as it is.
   */
  lemma {:induction false} GroupTwice()
    ensures EncodeField(HOLDER, [Counted("inner"), Counted("Inner")], GroupEnv(), true) == Done(TWO_INNERS)
    ensures Clean(TWO_INNERS, "O", GroupEnv().fields) && Canon(TWO_INNERS, "O", GroupEnv().fields) != Some(TWO_INNERS)
  {
    hide *;
    var aggs, env := [Counted("inner"), Counted("Inner")], GroupEnv();
    TwiceEncodes();
    TwiceNotOnce();
    GroupEnvLinked();
    HolderOfM(aggs);
    AllPlain(Holding(HOLDER, LiteralValue("M", aggs, env)), "O", env.fields);
    AcceptedLiteralEncoded(HOLDER, aggs, env, true, "O", TWO_INNERS);
  }

  lemma {:induction false} HolderOfM(aggs: seq<Agg>)
    requires aggs == [Counted("inner"), Counted("Inner")]
    ensures TrimLeadingDot(HOLDER.typeName) == "M" && GroupEnv().fields.messageSet == {} && NoUrls(aggs)
    ensures |TWO_INNERS| < MAX_INPUT
  {
    assert aggs[1..][1..] == [];
    forall name | name in ["inner", "Inner"]
      ensures NoUrls(Counted(name).subFields)
    {
      assert Counted(name).subFields[1..] == [];
      assert NoUrls(Counted(name).subFields[0].subFields);
    }
  }
}
