/**
 Option values with their scalars read off the wire, and the normal-form theorem
 in those terms: inputs whose scalars are written with the shortest tags, varints
 and lengths, and that mean the same, canonicalize to identical bytes.
 */
module ScalarMeaning {
  import opened Wrappers
  import opened Wire
  import opened WireEntries
  import opened OptionSchema
  import opened OptionValue
  import opened OptionDecode
  import opened OptionCanon
  import opened CanonicalForm
  import opened NormalForm

  datatype ScalarValue = Number(n: nat) | Fixed(bits: Bytes) | Text(content: Bytes) | UnknownGroup(body: Bytes)

  datatype ScalarField = ScalarField(tag: nat, value: ScalarValue)

  /** The number and value of one scalar field. */
  function ReadScalar(raw: Bytes): Option<ScalarField> {
    var t :- ConsumeTag(raw);
    var rest := raw[t.len..];
    var tag := t.num * 8 + t.typ;
    if t.typ == VARINT then
      var v :- ConsumeVarint(rest);
      Some(ScalarField(tag, Number(v.value)))
    else if t.typ == BYTES || t.typ == START_GROUP then
      var c :- Content(raw);
      Some(ScalarField(tag, if t.typ == BYTES then Text(c) else UnknownGroup(c)))
    else Some(ScalarField(tag, Fixed(rest)))
  }

  /** The scalar with the shortest tag, varint and length. */
  function WriteScalar(s: ScalarField): Bytes {
    AppendVarint(s.tag) + match s.value
                          case Number(n) => AppendVarint(n)
                          case Fixed(bits) => bits
                          case Text(content) => AppendBytes(content)
                          case UnknownGroup(body) => body + AppendVarint(s.tag + 1)
  }

  predicate ShortestScalar(raw: Bytes) {
    ReadScalar(raw).Some? && WriteScalar(ReadScalar(raw).value) == raw
  }

  datatype MeaningVal = MeaningVal(scalars: seq<Option<ScalarField>>, items: seq<Meaning>, merged: Option<Meaning>)

  datatype Meaning = End | Part(num: nat, val: MeaningVal, rest: Meaning)

  /** The value with every scalar read. */
  function Mean(m: Msg): Meaning
    decreases m
  {
    if m.Nil? then End else Part(m.num, MeanVal(m.val), Mean(m.rest))
  }

  function MeanVal(v: Val): MeaningVal
    decreases v, 1
  {
    MeaningVal(MeanScalars(v.raws), MeanItems(v.items), if v.merged.Some? then Some(Mean(v.merged.value)) else None)
  }

  function MeanScalars(raws: seq<Bytes>): (r: seq<Option<ScalarField>>)
    ensures |r| == |raws|
    ensures forall i :: 0 <= i < |raws| ==> r[i] == ReadScalar(raws[i])
  {
    if raws == [] then [] else [ReadScalar(raws[0])] + MeanScalars(raws[1..])
  }

  function MeanItems(items: seq<Msg>): (r: seq<Meaning>)
    ensures |r| == |items|
    decreases items
  {
    if items == [] then [] else [Mean(items[0])] + MeanItems(items[1..])
  }

  predicate Shortest(m: Msg)
    decreases m
  {
    m.Cons? ==>
      && (forall r <- m.val.raws :: ShortestScalar(r))
      && ShortestItems(m.val.items)
      && (m.val.merged.Some? ==> Shortest(m.val.merged.value))
      && Shortest(m.rest)
  }

  predicate ShortestItems(items: seq<Msg>)
    decreases items
  {
    items != [] ==> Shortest(items[0]) && ShortestItems(items[1..])
  }

  lemma {:induction false} MeaningDetermines(a: Msg, b: Msg)
    requires Shortest(a) && Shortest(b) && Mean(a) == Mean(b)
    ensures a == b
    decreases a
  {
    hide ShortestScalar, ReadScalar;
    if a.Cons? {
      MeaningDeterminesRaws(a.val.raws, b.val.raws);
      MeaningDeterminesItems(a.val.items, b.val.items);
      if a.val.merged.Some? {
        MeaningDetermines(a.val.merged.value, b.val.merged.value);
      }
      MeaningDetermines(a.rest, b.rest);
    }
  }

  lemma {:induction false} MeaningDeterminesRaws(a: seq<Bytes>, b: seq<Bytes>)
    requires MeanScalars(a) == MeanScalars(b)
    requires (forall r <- a :: ShortestScalar(r)) && (forall r <- b :: ShortestScalar(r))
    ensures a == b
  {
    hide ReadScalar, WriteScalar;
    assert |a| == |MeanScalars(a)| == |b|;
    forall i | 0 <= i < |a|
      ensures a[i] == b[i]
    {
      assert MeanScalars(a)[i] == MeanScalars(b)[i];
      assert ShortestScalar(a[i]) && ShortestScalar(b[i]);
    }
  }

  lemma {:induction false} MeaningDeterminesItems(a: seq<Msg>, b: seq<Msg>)
    requires ShortestItems(a) && ShortestItems(b) && MeanItems(a) == MeanItems(b)
    ensures a == b
    decreases a
  {
    assert |a| == |MeanItems(a)| == |b|;
    if a != [] {
      assert MeanItems(a)[0] == MeanItems(b)[0];
      assert MeanItems(a)[1..] == MeanItems(a[1..]);
      assert MeanItems(b)[1..] == MeanItems(b[1..]);
      MeaningDetermines(a[0], b[0]);
      MeaningDeterminesItems(a[1..], b[1..]);
      assert a == [a[0]] + a[1..];
      assert b == [b[0]] + b[1..];
    }
  }

  /** Shortest scalars and equal meaning give identical canonical bytes, and only equal meaning does. */
  lemma {:induction false} SameMeaningSameBytes(a: Bytes, b: Bytes, owner: string, fields: OptionFields)
    requires Clean(a, owner, fields) && Clean(b, owner, fields)
    requires Plain(Decode(a, owner, fields), owner, fields) && Plain(Decode(b, owner, fields), owner, fields)
    requires |a| < MAX_INPUT && |b| < MAX_INPUT
    requires Shortest(Decode(a, owner, fields)) && Shortest(Decode(b, owner, fields))
    ensures Canon(a, owner, fields) == Canon(b, owner, fields)
       <==> Mean(Decode(a, owner, fields)) == Mean(Decode(b, owner, fields))
  {
    hide Clean, Decode, Canon, Mean, Shortest;
    CanonIsNormalForm(a, b, owner, fields);
    if Mean(Decode(a, owner, fields)) == Mean(Decode(b, owner, fields)) {
      MeaningDetermines(Decode(a, owner, fields), Decode(b, owner, fields));
    }
  }
}
