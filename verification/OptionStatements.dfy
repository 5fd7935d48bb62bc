/**
 Option statements. Each statement `option (ext).a.b = value` appends one wire
 fragment: the value's field wrapped, innermost first, in one submessage per path
 element. OptionBuild says what the canonicalizer makes of the fragments of any number
 of statements.
 */
module OptionStatements {
  import opened Wrappers
  import opened Wire
  import opened OptionSchema
  import opened OptionCanon

  /** One option statement: the extension, the path below it, and how each field would encode the value. */
  datatype Statement = Statement(ext: FieldDesc, path: seq<string>, leafOf: FieldDesc -> Option<Bytes>)

  /** A resolved statement: the submessage fields on its way, and its encoded leaf field. */
  datatype Setting = Setting(chain: seq<FieldDesc>, leaf: Bytes)

  /** Finds the field a path segment names in a message. */
  type Lookup = (string, string) -> Option<FieldDesc>

  /** The field each segment names, walking from typeName into each field's message. */
  function ResolvePath(typeName: string, path: seq<string>, lookup: Lookup): Option<seq<FieldDesc>>
    decreases |path|
  {
    if path == [] then Some([])
    else
      var f :- lookup(typeName, path[0]);
      var rest :- ResolvePath(TrimLeadingDot(f.typeName), path[1..], lookup);
      Some([f] + rest)
  }

  /** leaf wrapped in one submessage per element of chain. */
  function Wrap(chain: seq<FieldDesc>, leaf: Bytes): Bytes {
    if chain == [] then leaf else AppendSubmessage(chain[0], chain[0].number, Wrap(chain[1..], leaf))
  }

  /** The fragment of one statement, or None when its path or value is rejected. */
  method CompileStatement(st: Statement, lookup: Lookup) returns (fragment: Option<Bytes>)
    ensures fragment.Some? <==> Resolve(st, lookup).Some?
    ensures fragment.Some? ==>
              fragment.value == Wrap(Resolve(st, lookup).value.chain, Resolve(st, lookup).value.leaf)
  {
    hide ResolvePath, Wrap, ChainResolves, AppendSubmessage, TrimLeadingDot;
    var ext, path := st.ext, st.path;
    if |path| == 0 {
      fragment := st.leafOf(ext);
      if fragment.Some? {
        WrapNothing(fragment.value);
      }
      return;
    }
    if ext.kind == Scalar {
      return None;
    }
    var leafField, chain := CheckSubPath(ext, path, lookup);
    if leafField.None? {
      return None;
    }
    ResolveLength(TrimLeadingDot(ext.typeName), path, lookup);
    var leafBytes := st.leafOf(leafField.value);
    if leafBytes.None? {
      return None;
    }
    var encoded := WrapSubPath(ext, path, leafBytes.value, lookup, chain);
    WrapFirst(ext, chain[..|path| - 1], leafBytes.value);
    fragment := Some(AppendSubmessage(ext, ext.number, encoded));
  }

  lemma {:induction false} WrapFirst(f: FieldDesc, chain: seq<FieldDesc>, leaf: Bytes)
    ensures Wrap([f] + chain, leaf) == AppendSubmessage(f, f.number, Wrap(chain, leaf))
  {
    hide AppendSubmessage;
    assert ([f] + chain)[1..] == chain;
  }

  /** The path is checked from the outside in. */
  method CheckSubPath(ext: FieldDesc, path: seq<string>, lookup: Lookup)
    returns (leafField: Option<FieldDesc>, ghost chain: seq<FieldDesc>)
    requires path != []
    ensures leafField.None? ==> ResolvePath(TrimLeadingDot(ext.typeName), path, lookup).None?
    ensures leafField.Some? ==>
              && ResolvePath(TrimLeadingDot(ext.typeName), path, lookup) == Some(chain)
              && ChainResolves(TrimLeadingDot(ext.typeName), path, lookup, chain)
              && leafField.value == chain[|path| - 1]
  {
    hide ResolvePath, ChainResolves, OwnerOf;
    var typeName := TrimLeadingDot(ext.typeName);
    var currentTypeName := typeName;
    leafField := None;
    var k := 0;
    chain := [];
    ChainStart(ext, path, lookup);
    while k < |path|
      invariant 0 <= k <= |path| && |chain| == k
      invariant currentTypeName == OwnerOf(ext, chain)
      invariant ChainResolves(typeName, path[..k], lookup, chain)
      invariant k > 0 ==> leafField == Some(chain[k - 1])
      invariant ResolvePath(typeName, path, lookup) == Continue(chain, ResolvePath(currentTypeName, path[k..], lookup))
    {
      var f := lookup(currentTypeName, path[k]);
      if f.None? {
        ResolveFails(currentTypeName, path[k..], lookup);
        return None, chain;
      }
      ResolveStep(ext, path, lookup, chain, k, f.value);
      chain := chain + [f.value];
      leafField := f;
      currentTypeName := TrimLeadingDot(f.value.typeName);
      k := k + 1;
    }
    assert path[..|path|] == path;
    assert path[k..] == [];
    ResolveEnd(currentTypeName, lookup);
    assert chain + [] == chain;
  }

  /** The leaf is wrapped from the inside out; each step looks its field up again from the extension's type. */
  method WrapSubPath(ext: FieldDesc, path: seq<string>, leafBytes: Bytes, lookup: Lookup, ghost chain: seq<FieldDesc>)
    returns (encoded: Bytes)
    requires path != [] && ChainResolves(TrimLeadingDot(ext.typeName), path, lookup, chain)
    ensures |chain| == |path| && encoded == Wrap(chain[..|path| - 1], leafBytes)
  {
    hide AppendSubmessage, TrimLeadingDot, Wrap;
    encoded := leafBytes;
    var i := |path| - 2;
    ghost var inner := chain[..|path| - 1];
    assert inner[|path| - 1..] == [];
    WrapNothing(leafBytes);
    while i >= 0
      invariant -1 <= i <= |path| - 2
      invariant encoded == Wrap(inner[i + 1..], leafBytes)
    {
      var parentTypeName := ParentType(ext, path, i, lookup, chain);
      var parentField := lookup(parentTypeName, path[i]);
      assert inner[i..] == [chain[i]] + inner[i + 1..];
      WrapOnce(chain[i], inner[i + 1..], leafBytes);
      encoded := AppendSubmessage(parentField.value, parentField.value.number, encoded);
      i := i - 1;
    }
    assert inner[0..] == inner;
  }

  lemma {:induction false} WrapNothing(leaf: Bytes)
    ensures Wrap([], leaf) == leaf
  {
  }

  lemma {:induction false} WrapOnce(f: FieldDesc, chain: seq<FieldDesc>, leaf: Bytes)
    ensures Wrap([f] + chain, leaf) == AppendSubmessage(f, f.number, Wrap(chain, leaf))
  {
    hide AppendSubmessage;
    assert ([f] + chain)[1..] == chain;
  }

  method ParentType(ext: FieldDesc, path: seq<string>, i: nat, lookup: Lookup, ghost chain: seq<FieldDesc>)
    returns (parentTypeName: string)
    requires ChainResolves(TrimLeadingDot(ext.typeName), path, lookup, chain) && i < |path|
    ensures lookup(parentTypeName, path[i]) == Some(chain[i])
  {
    hide TrimLeadingDot;
    parentTypeName := TrimLeadingDot(ext.typeName);
    var j := 0;
    while j < i
      invariant 0 <= j <= i
      invariant parentTypeName == SegmentType(TrimLeadingDot(ext.typeName), chain, j)
    {
      var parentField := lookup(parentTypeName, path[j]);
      parentTypeName := TrimLeadingDot(parentField.value.typeName);
      j := j + 1;
    }
  }

  function Resolve(st: Statement, lookup: Lookup): Option<Setting> {
    if st.path == [] then
      var leaf :- st.leafOf(st.ext);
      Some(Setting([], leaf))
    else if st.ext.kind == Scalar then None
    else
      var chain :- ResolvePath(TrimLeadingDot(st.ext.typeName), st.path, lookup);
      ResolveLength(TrimLeadingDot(st.ext.typeName), st.path, lookup);
      var leaf :- st.leafOf(chain[|chain| - 1]);
      Some(Setting([st.ext] + chain[..|chain| - 1], leaf))
  }

  lemma {:induction false} ResolveLength(typeName: string, path: seq<string>, lookup: Lookup)
    ensures ResolvePath(typeName, path, lookup).Some? ==> |ResolvePath(typeName, path, lookup).value| == |path|
    decreases |path|
  {
    if path != [] {
      var f := lookup(typeName, path[0]);
      if f.Some? {
        ResolveLength(TrimLeadingDot(f.value.typeName), path[1..], lookup);
      }
    }
  }

  /** The message type the field after chain is looked up in. */
  function OwnerOf(ext: FieldDesc, chain: seq<FieldDesc>): string {
    TrimLeadingDot(if chain == [] then ext.typeName else chain[|chain| - 1].typeName)
  }

  function Continue(chain: seq<FieldDesc>, rest: Option<seq<FieldDesc>>): Option<seq<FieldDesc>> {
    match rest
    case Some(fs) => Some(chain + fs)
    case None => None
  }

  /** chain[k] is what path[k] names in the message of chain[k-1]. */
  ghost predicate ChainResolves(typeName: string, path: seq<string>, lookup: Lookup, chain: seq<FieldDesc>) {
    && |chain| == |path|
    && forall k :: 0 <= k < |path| ==> lookup(SegmentType(typeName, chain, k), path[k]) == Some(chain[k])
  }

  /** The message the k-th segment is looked up in. */
  function SegmentType(typeName: string, chain: seq<FieldDesc>, k: nat): string
    requires k <= |chain|
  {
    if k == 0 then typeName else TrimLeadingDot(chain[k - 1].typeName)
  }

  lemma {:induction false} ChainStart(ext: FieldDesc, path: seq<string>, lookup: Lookup)
    ensures OwnerOf(ext, []) == TrimLeadingDot(ext.typeName)
    ensures ChainResolves(TrimLeadingDot(ext.typeName), path[..0], lookup, [])
    ensures var r := ResolvePath(TrimLeadingDot(ext.typeName), path, lookup);
            r == Continue([], ResolvePath(TrimLeadingDot(ext.typeName), path[0..], lookup))
  {
    assert path[0..] == path;
    var r := ResolvePath(TrimLeadingDot(ext.typeName), path, lookup);
    if r.Some? {
      assert [] + r.value == r.value;
    }
  }

  lemma {:induction false} ResolveFails(typeName: string, path: seq<string>, lookup: Lookup)
    requires path != [] && lookup(typeName, path[0]).None?
    ensures ResolvePath(typeName, path, lookup).None?
  {
  }

  lemma {:induction false} ResolveEnd(typeName: string, lookup: Lookup)
    ensures ResolvePath(typeName, [], lookup) == Some([])
  {
  }

  lemma {:induction false} ResolveStep(
    ext: FieldDesc, path: seq<string>, lookup: Lookup, chain: seq<FieldDesc>, k: nat, f: FieldDesc)
    requires k == |chain| < |path|
    requires ChainResolves(TrimLeadingDot(ext.typeName), path[..k], lookup, chain)
    requires lookup(OwnerOf(ext, chain), path[k]) == Some(f)
    ensures OwnerOf(ext, chain + [f]) == TrimLeadingDot(f.typeName)
    ensures ChainResolves(TrimLeadingDot(ext.typeName), path[..k + 1], lookup, chain + [f])
    ensures Continue(chain, ResolvePath(OwnerOf(ext, chain), path[k..], lookup))
         == Continue(chain + [f], ResolvePath(TrimLeadingDot(f.typeName), path[k + 1..], lookup))
  {
    assert path[k..][0] == path[k] && path[k..][1..] == path[k + 1..];
    var rest := ResolvePath(TrimLeadingDot(f.typeName), path[k + 1..], lookup);
    if rest.Some? {
      assert chain + ([f] + rest.value) == (chain + [f]) + rest.value;
    }
    ChainExtend(ext, path, lookup, chain, k, f);
  }

  lemma {:induction false} ChainExtend(
    ext: FieldDesc, path: seq<string>, lookup: Lookup, chain: seq<FieldDesc>, k: nat, f: FieldDesc)
    requires k == |chain| < |path|
    requires ChainResolves(TrimLeadingDot(ext.typeName), path[..k], lookup, chain)
    requires lookup(OwnerOf(ext, chain), path[k]) == Some(f)
    ensures ChainResolves(TrimLeadingDot(ext.typeName), path[..k + 1], lookup, chain + [f])
  {
    hide TrimLeadingDot, SegmentType;
    forall i | 0 <= i < k + 1
      ensures lookup(SegmentType(TrimLeadingDot(ext.typeName), chain + [f], i), path[..k + 1][i]) == Some((chain + [f])[i])
    {
      ChainExtendAt(ext, path, lookup, chain, k, f, i);
    }
  }

  lemma {:induction false} ChainExtendAt(
    ext: FieldDesc, path: seq<string>, lookup: Lookup, chain: seq<FieldDesc>, k: nat, f: FieldDesc, i: nat)
    requires i <= k == |chain| < |path|
    requires ChainResolves(TrimLeadingDot(ext.typeName), path[..k], lookup, chain)
    requires lookup(OwnerOf(ext, chain), path[k]) == Some(f)
    ensures lookup(SegmentType(TrimLeadingDot(ext.typeName), chain + [f], i), path[..k + 1][i]) == Some((chain + [f])[i])
  {
    hide TrimLeadingDot;
    var typeName := TrimLeadingDot(ext.typeName);
    SameSegmentType(typeName, chain, f, i);
    assert path[..k + 1][i] == path[i];
    if i < k {
      assert path[..k][i] == path[i];
      assert lookup(SegmentType(typeName, chain, i), path[..k][i]) == Some(chain[i]);
    } else {
      assert SegmentType(typeName, chain, k) == OwnerOf(ext, chain);
    }
  }

  lemma {:induction false} SameSegmentType(typeName: string, chain: seq<FieldDesc>, f: FieldDesc, i: nat)
    requires i <= |chain|
    ensures SegmentType(typeName, chain + [f], i) == SegmentType(typeName, chain, i)
  {
    hide TrimLeadingDot;
    if i > 0 {
      assert (chain + [f])[i - 1] == chain[i - 1];
    }
  }
}
