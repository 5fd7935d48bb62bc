/** What the canonicalizer guarantees: a meaning-preserving, idempotent normal form. */
module NormalForm {
  import opened Wrappers
  import opened Wire
  import opened OptionSchema
  import opened OptionValue
  import opened OptionDecode
  import opened OptionCanon
  import opened CanonGrowth
  import opened CanonicalForm
  import opened CanonicalRoundTrip

  /** Inputs of this length keep every re-encoded length prefix within 64 bits. */
  lemma {:induction false} CanonLength(raw: Bytes, owner: string, fields: OptionFields)
    requires Clean(raw, owner, fields) && |raw| < MAX_INPUT
    ensures |Serialize(Decode(raw, owner, fields), owner, fields)| < MAX_LENGTH
  {
    hide Clean, Decode, Serialize, Canon;
    CanonSerializes(raw, owner, fields);
    CanonGrows(raw, owner, fields);
  }

  // ---------------------------------------------------------------------------
  // The theorems.

  /** Canonicalizing clean input succeeds, and the output carries the same value. */
  lemma {:induction false} CanonPreservesMeaning(raw: Bytes, owner: string, fields: OptionFields)
    requires Clean(raw, owner, fields) && |raw| < MAX_INPUT && Plain(Decode(raw, owner, fields), owner, fields)
    ensures Canon(raw, owner, fields).Some?
    ensures Clean(Canon(raw, owner, fields).value, owner, fields)
    ensures Decode(Canon(raw, owner, fields).value, owner, fields) == Decode(raw, owner, fields)
  {
    hide Clean, Decode, Canon, Serialize;
    CanonSerializes(raw, owner, fields);
    CanonLength(raw, owner, fields);
    DecodeTyped(raw, owner, fields);
    SerializeDecodes(Decode(raw, owner, fields), 0, owner, fields);
  }

  /** Inputs have one canonical form exactly when they carry one value. */
  lemma {:induction false} CanonIsNormalForm(a: Bytes, b: Bytes, owner: string, fields: OptionFields)
    requires Clean(a, owner, fields) && Clean(b, owner, fields)
    requires Plain(Decode(a, owner, fields), owner, fields) && Plain(Decode(b, owner, fields), owner, fields)
    requires |a| < MAX_INPUT && |b| < MAX_INPUT
    ensures Canon(a, owner, fields) == Canon(b, owner, fields)
       <==> Decode(a, owner, fields) == Decode(b, owner, fields)
  {
    hide Clean, Decode, Canon, Serialize;
    CanonSerializes(a, owner, fields);
    CanonSerializes(b, owner, fields);
    CanonPreservesMeaning(a, owner, fields);
    CanonPreservesMeaning(b, owner, fields);
  }

  /** A second pass changes nothing. */
  lemma {:induction false} CanonIdempotent(raw: Bytes, owner: string, fields: OptionFields)
    requires Clean(raw, owner, fields) && |raw| < MAX_INPUT && Plain(Decode(raw, owner, fields), owner, fields)
    ensures Canon(raw, owner, fields).Some?
    ensures Canon(Canon(raw, owner, fields).value, owner, fields) == Canon(raw, owner, fields)
  {
    hide Clean, Decode, Canon, Serialize;
    CanonSerializes(raw, owner, fields);
    CanonPreservesMeaning(raw, owner, fields);
    CanonSerializes(Canon(raw, owner, fields).value, owner, fields);
  }
}
