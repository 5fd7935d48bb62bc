/**
 The purpose of the canonicalizer: fragments appended one per option statement
 become the bytes of an option value that was built once, statement by statement.
 */
module OptionBuild {
  import opened Wrappers
  import opened Wire
  import opened OptionSchema
  import opened OptionValue
  import opened OptionDecode
  import opened OptionCanon
  import opened CanonicalForm
  import opened CanonicalRoundTrip
  import opened OptionStatements

  /**
   Set a value inside m: descend along chain, entering the existing value of a
   singular field (or creating it) and starting a new entry of a repeated one.
   */
  function Place(m: Msg, chain: seq<FieldDesc>, leaf: Msg): Msg
    decreases |chain|, 1, m
  {
    if chain == [] then Merge(m, leaf)
    else
      var f := chain[0];
      if m.Nil? || f.number < m.num then Cons(f.number, PlaceVal(Val([], [], None), chain, leaf), m)
      else if m.num == f.number then Cons(m.num, PlaceVal(m.val, chain, leaf), m.rest)
      else Cons(m.num, m.val, Place(m.rest, chain, leaf))
  }

  function PlaceVal(v: Val, chain: seq<FieldDesc>, leaf: Msg): Val
    requires chain != []
    decreases |chain|, 0
  {
    if chain[0].repeated then v.(items := v.items + [Place(Nil, chain[1..], leaf)])
    else
      var inner := if v.merged.Some? then v.merged.value else Nil;
      v.(merged := Some(Place(inner, chain[1..], leaf)))
  }

  /** The value of one statement alone. */
  function PathMsg(chain: seq<FieldDesc>, leaf: Msg): Msg {
    if chain == [] then leaf
    else
      var inner := PathMsg(chain[1..], leaf);
      Single(chain[0].number, if chain[0].repeated then Val([], [inner], None) else Val([], [], Some(inner)))
  }

  /** Setting a value in place is merging the value of the statement alone. */
  lemma {:induction false} PlaceIsMerge(m: Msg, chain: seq<FieldDesc>, leaf: Msg)
    ensures Place(m, chain, leaf) == Merge(m, PathMsg(chain, leaf))
    decreases |chain|, m
  {
    if chain != [] {
      var f := chain[0];
      if m.Nil? || f.number < m.num {
        PlaceIsMerge(Nil, chain[1..], leaf);
        assert [] + [PathMsg(chain[1..], leaf)] == [PathMsg(chain[1..], leaf)];
      } else if m.num == f.number {
        PlaceIsMerge(Nil, chain[1..], leaf);
        PlaceIsMerge(if m.val.merged.Some? then m.val.merged.value else Nil, chain[1..], leaf);
        assert m.val.raws + [] == m.val.raws;
        assert m.val.items + [] == m.val.items;
        MergeNil(m.rest);
      } else {
        PlaceIsMerge(m.rest, chain, leaf);
      }
    }
  }

  /** Every element of chain is a submessage field of the message before it. */
  predicate ValidChain(chain: seq<FieldDesc>, owner: string, fields: OptionFields) {
    chain != [] ==>
      && fields.Submessage(owner, chain[0].number) == Some(chain[0])
      && 1 <= chain[0].number <= MAX_FIELD_NUMBER
      && ValidChain(chain[1..], TrimLeadingDot(chain[0].typeName), fields)
  }

  /** The message the leaf field belongs to. */
  function LeafOwner(chain: seq<FieldDesc>, owner: string): string {
    if chain == [] then owner else LeafOwner(chain[1..], TrimLeadingDot(chain[0].typeName))
  }

  lemma {:induction false} WrapDecodes(chain: seq<FieldDesc>, leaf: Bytes, owner: string, fields: OptionFields)
    requires ValidChain(chain, owner, fields)
    requires Clean(leaf, LeafOwner(chain, owner), fields)
    requires |Wrap(chain, leaf)| < MAX_LENGTH
    ensures Clean(Wrap(chain, leaf), owner, fields)
    ensures Decode(Wrap(chain, leaf), owner, fields)
         == PathMsg(chain, Decode(leaf, LeafOwner(chain, owner), fields))
  {
    hide Clean, Decode, AppendSubmessage;
    if chain != [] {
      var body := Wrap(chain[1..], leaf);
      WrapDecodes(chain[1..], leaf, TrimLeadingDot(chain[0].typeName), fields);
      SubmessageDecodes(chain[0], chain[0].number, body, owner, fields);
    }
  }

  // ---------------------------------------------------------------------------

  ghost predicate ValidSetting(s: Setting, owner: string, fields: OptionFields) {
    ValidChain(s.chain, owner, fields) && Clean(s.leaf, LeafOwner(s.chain, owner), fields)
  }

  function Fragments(ss: seq<Setting>): Bytes {
    if ss == [] then [] else Fragments(ss[..|ss| - 1]) + Wrap(ss[|ss| - 1].chain, ss[|ss| - 1].leaf)
  }

  /** The option value, built by setting one statement after the other. */
  function BuildValue(ss: seq<Setting>, owner: string, fields: OptionFields): Msg {
    if ss == [] then Nil
    else
      var s := ss[|ss| - 1];
      Place(BuildValue(ss[..|ss| - 1], owner, fields), s.chain, Decode(s.leaf, LeafOwner(s.chain, owner), fields))
  }

  lemma {:induction false} FragmentsDecode(ss: seq<Setting>, owner: string, fields: OptionFields)
    requires forall s <- ss :: ValidSetting(s, owner, fields)
    requires |Fragments(ss)| < MAX_LENGTH
    ensures Clean(Fragments(ss), owner, fields)
    ensures Decode(Fragments(ss), owner, fields) == BuildValue(ss, owner, fields)
  {
    hide Clean, Decode, Wrap, Place, ValidChain;
    if ss == [] {
      EmptyDecodes(owner, fields);
    } else {
      var s, init := ss[|ss| - 1], ss[..|ss| - 1];
      FragmentsDecode(init, owner, fields);
      assert ValidSetting(s, owner, fields);
      WrapDecodes(s.chain, s.leaf, owner, fields);
      DecodeConcat(Fragments(init), Wrap(s.chain, s.leaf), owner, fields);
      PlaceIsMerge(BuildValue(init, owner, fields), s.chain, Decode(s.leaf, LeafOwner(s.chain, owner), fields));
    }
  }

  /** Canonicalized fragments are the value built once and serialized in number order. */
  lemma {:induction false} CanonicalFragments(ss: seq<Setting>, owner: string, fields: OptionFields)
    requires forall s <- ss :: ValidSetting(s, owner, fields)
    requires |Fragments(ss)| < MAX_LENGTH
    ensures Canon(Fragments(ss), owner, fields)
         == Some(Serialize(BuildValue(ss, owner, fields), owner, fields))
  {
    hide Clean, Decode, Canon, Serialize;
    FragmentsDecode(ss, owner, fields);
    CanonSerializes(Fragments(ss), owner, fields);
  }

  // ---------------------------------------------------------------------------
  // From statements as written to settings.

  /** The lookup agrees with the schema, and finds nothing inside a scalar or enum. */
  ghost predicate LookupAgrees(lookup: Lookup, fields: OptionFields) {
    forall owner, seg :: lookup(owner, seg).Some? ==> FieldAgrees(lookup(owner, seg).value, owner, lookup, fields)
  }

  ghost predicate FieldAgrees(f: FieldDesc, owner: string, lookup: Lookup, fields: OptionFields) {
    && fields.Lookup(owner, f.number) == Some(f)
    && 1 <= f.number <= MAX_FIELD_NUMBER
    && (f.kind == Scalar ==> forall seg :: lookup(TrimLeadingDot(f.typeName), seg).None?)
  }

  lemma {:induction false} ResolvedChainValid(
    typeName: string, path: seq<string>, lookup: Lookup, chain: seq<FieldDesc>, fields: OptionFields)
    requires LookupAgrees(lookup, fields) && path != []
    requires ResolvePath(typeName, path, lookup) == Some(chain)
    ensures |chain| == |path| && ValidChain(chain[..|path| - 1], typeName, fields)
    decreases |path|
  {
    var f := lookup(typeName, path[0]).value;
    var rest := chain[1..];
    assert FieldAgrees(f, typeName, lookup, fields);
    ResolveLength(typeName, path, lookup);
    if |path| > 1 {
      assert lookup(TrimLeadingDot(f.typeName), path[1..][0]).Some?;
      ResolvedChainValid(TrimLeadingDot(f.typeName), path[1..], lookup, rest, fields);
      assert chain[..|path| - 1][1..] == rest[..|path| - 2];
    }
  }

  /** The statement compiles, its extension belongs to owner, and its value is a clean field. */
  ghost predicate Compiles(st: Statement, owner: string, lookup: Lookup, fields: OptionFields) {
    && Resolve(st, lookup).Some?
    && fields.Lookup(owner, st.ext.number) == Some(st.ext)
    && 1 <= st.ext.number <= MAX_FIELD_NUMBER
    && Clean(Resolve(st, lookup).value.leaf, LeafOwner(Resolve(st, lookup).value.chain, owner), fields)
  }

  lemma {:induction false} StatementIsSetting(st: Statement, owner: string, lookup: Lookup, fields: OptionFields)
    requires LookupAgrees(lookup, fields) && Compiles(st, owner, lookup, fields)
    ensures ValidSetting(Resolve(st, lookup).value, owner, fields)
  {
    hide Clean;
    if st.path != [] {
      var typeName := TrimLeadingDot(st.ext.typeName);
      var chain := ResolvePath(typeName, st.path, lookup).value;
      ResolvedChainValid(typeName, st.path, lookup, chain, fields);
      assert ([st.ext] + chain[..|chain| - 1])[1..] == chain[..|chain| - 1];
    }
  }

  /**
   Whatever option statements a file has, canonicalizing the fragments they were
   compiled to gives the option value built from them, in number order.
   */
  lemma {:induction false} CompiledOptionsCanonical(
    sts: seq<Statement>, ss: seq<Setting>, owner: string, lookup: Lookup, fields: OptionFields)
    requires LookupAgrees(lookup, fields) && |ss| == |sts|
    requires forall i :: 0 <= i < |sts| ==> Compiles(sts[i], owner, lookup, fields)
    requires forall i :: 0 <= i < |sts| ==> Resolve(sts[i], lookup) == Some(ss[i])
    requires |Fragments(ss)| < MAX_LENGTH
    ensures Canon(Fragments(ss), owner, fields) == Some(Serialize(BuildValue(ss, owner, fields), owner, fields))
  {
    hide Canon, Serialize, Fragments, BuildValue, Resolve;
    forall s | s in ss
      ensures ValidSetting(s, owner, fields)
    {
      var i :| 0 <= i < |ss| && s == ss[i];
      StatementIsSetting(sts[i], owner, lookup, fields);
    }
    CanonicalFragments(ss, owner, fields);
  }
}
