/**
 Raw wire data: the grammar --decode_raw accepts, and the text tree it prints. The
 grammar is the wire format with varints of up to ten bytes taken modulo 2^64 and
 groups nested to any depth.
 */
module RawProto {
  import opened Wrappers
  import opened Wire

  const TWO64 := 0x1_0000_0000_0000_0000

  /** The length of the varint at the head of b, whose first byte is the k-th: its end is a byte below 128. */
  function VarintEnd(b: Bytes, k: nat): (n: Option<nat>)
    ensures n.Some? ==> 0 < n.value <= |b| && k + n.value <= 10
    decreases |b|
  {
    if |b| == 0 || k >= 10 then None
    else if b[0] < 128 then Some(1)
    else
      var n :- VarintEnd(b[1..], k + 1);
      Some(n + 1)
  }

  /** The value of 7-bit groups, least significant first. */
  function GroupSum(b: Bytes): nat {
    if b == [] then 0 else b[0] % 128 + 128 * GroupSum(b[1..])
  }

  function TruncatedVarint(b: Bytes): (v: Option<Varint>)
    ensures v.Some? ==> 0 < v.value.len <= |b|
  {
    var n :- VarintEnd(b, 0);
    Some(Varint(GroupSum(b[..n]) % TWO64, n))
  }

  // ---------------------------------------------------------------------------
  // The grammar.

  function RawValueLen(num: int, typ: int, b: Bytes): (n: Option<nat>)
    ensures n.Some? ==> n.value <= |b|
    decreases |b|, 2
  {
    if typ == VARINT then VarintEnd(b, 0)
    else if typ == FIXED64 then (if |b| < 8 then None else Some(8))
    else if typ == FIXED32 then (if |b| < 4 then None else Some(4))
    else if typ == BYTES then
      var d :- ConsumeBytes(b);
      Some(d.len)
    else if typ == START_GROUP then RawGroupLen(num, b)
    else None
  }

  /** One field, tag and value. */
  function RawFieldLen(b: Bytes): (n: Option<nat>)
    ensures n.Some? ==> 0 < n.value <= |b|
    decreases |b|, 0
  {
    var t :- ConsumeTag(b);
    var v :- RawValueLen(t.num, t.typ, b[t.len..]);
    Some(t.len + v)
  }

  /** Fields up to and including the end tag of group num. */
  function RawGroupLen(num: int, b: Bytes): (n: Option<nat>)
    ensures n.Some? ==> 0 < n.value <= |b|
    decreases |b|, 1
  {
    var t :- ConsumeTag(b);
    if t.typ == END_GROUP && t.num == num then Some(t.len)
    else
      var n :- RawFieldLen(b);
      var g :- RawGroupLen(num, b[n..]);
      Some(n + g)
  }

  /** Fields to the end of the data. */
  predicate Accepted(b: Bytes)
    decreases |b|
  {
    b == [] || (RawFieldLen(b).Some? && Accepted(b[RawFieldLen(b).value..]))
  }

  // ---------------------------------------------------------------------------
  // What is printed.

  datatype Node =
    | Number(num: int, value: nat)
    | Fixed64(num: int, bits: Bytes)
    | Fixed32(num: int, bits: Bytes)
    | Text(num: int, content: Bytes)
    | Block(num: int, children: seq<Node>)

  /** The fields of accepted data; a length-delimited value that is itself non-empty accepted data is opened. */
  function Tree(b: Bytes): seq<Node>
    requires Accepted(b)
    decreases |b|, 2
  {
    if b == [] then [] else [FieldNode(b)] + Tree(b[RawFieldLen(b).value..])
  }

  function FieldNode(b: Bytes): Node
    requires RawFieldLen(b).Some?
    decreases |b|, 0
  {
    var t := ConsumeTag(b).value;
    var rest := b[t.len..];
    assert RawValueLen(t.num, t.typ, rest).Some?;
    if t.typ == VARINT then Number(t.num, TruncatedVarint(rest).value.value)
    else if t.typ == FIXED64 then Fixed64(t.num, rest[..8])
    else if t.typ == FIXED32 then Fixed32(t.num, rest[..4])
    else if t.typ == BYTES then
      var v := ConsumeBytes(rest).value.content;
      if Accepted(v) && |v| > 0 then Block(t.num, Tree(v)) else Text(t.num, v)
    else Block(t.num, GroupTree(t.num, rest))
  }

  function GroupTree(num: int, b: Bytes): seq<Node>
    requires RawGroupLen(num, b).Some?
    decreases |b|, 1
  {
    var t := ConsumeTag(b).value;
    if t.typ == END_GROUP && t.num == num then []
    else [FieldNode(b)] + GroupTree(num, b[RawFieldLen(b).value..])
  }

  datatype Line =
    | Scalar(indent: nat, node: Node)
    | Open(indent: nat, num: int)
    | Close(indent: nat)

  /** Children between an opening and a closing line, one level further in. */
  function Render(ns: seq<Node>, indent: nat): seq<Line>
    decreases ns
  {
    if ns == [] then [] else RenderNode(ns[0], indent) + Render(ns[1..], indent)
  }

  function RenderNode(n: Node, indent: nat): seq<Line>
    decreases n
  {
    if n.Block? then [Open(indent, n.num)] + Render(n.children, indent + 1) + [Close(indent)]
    else [Scalar(indent, n)]
  }

  // ---------------------------------------------------------------------------
  // The methods.

  const TWO63 := 0x8000_0000_0000_0000

  /** The seven-bit groups occupy disjoint bits, so adding one is or-ing it in. */
  method ConsumeVarintTruncated(data: Bytes) returns (val: nat, n: int)
    ensures n == -1 <==> VarintEnd(data, 0).None?
    ensures n != -1 ==> VarintEnd(data, 0) == Some(n) && val == GroupSum(data[..n]) % TWO64
  {
    hide VarintEnd, Pow128, GroupSum;
    val := 0;
    var i := 0;
    assert data[0..] == data && data[..0] == [];
    NoGroups(data);
    while i < |data| && i < 10
      invariant 0 <= i <= 10 && i <= |data|
      invariant val == GroupSum(data[..i]) % TWO64
      invariant i <= 9 ==> val < Pow128(i)
      invariant VarintEnd(data, 0) == EndAfter(i, VarintEnd(data[i..], i))
    {
      var b := data[i];
      EndStep(data, i);
      if i < 9 {
        LowGroup(data, i, val);
        val := val + (b % 128) * Pow128(i);
      } else {
        TopGroup(data, val);
        val := val + (b % 128) * TWO63 % TWO64;
      }
      if b < 128 {
        return val, i + 1;
      }
      i := i + 1;
    }
    NoEnd(data[i..], i);
    return 0, -1;
  }

  lemma {:induction false} NoGroups(data: Bytes)
    ensures GroupSum([]) % TWO64 == 0 && Pow128(0) == 1
    ensures EndAfter(0, VarintEnd(data, 0)) == VarintEnd(data, 0)
  {
  }

  lemma {:induction false} NoEnd(b: Bytes, k: nat)
    requires b == [] || k >= 10
    ensures VarintEnd(b, k).None?
  {
  }

  lemma {:induction false} EndStep(data: Bytes, i: nat)
    requires i < |data| && i < 10
    ensures data[i] < 128 ==> VarintEnd(data[i..], i) == Some(1)
    ensures data[i] >= 128 ==>
              EndAfter(i, VarintEnd(data[i..], i)) == EndAfter(i + 1, VarintEnd(data[i + 1..], i + 1))
  {
    assert data[i..][1..] == data[i + 1..];
  }

  lemma {:induction false} LowGroup(data: Bytes, i: nat, val: nat)
    requires i < |data| && i < 9 && val == GroupSum(data[..i]) % TWO64
    ensures var next := val + (data[i] % 128) * Pow128(i);
            next == GroupSum(data[..i + 1]) % TWO64 && next < Pow128(i + 1)
  {
    hide GroupSum, Pow128;
    assert data[..i + 1] == data[..i] + [data[i]];
    GroupSumSnoc(data[..i], data[i]);
    GroupSumSnoc(data[..i + 1], 0);
    SmallPowers(i);
    SmallPowers(i + 1);
    SmallMod(GroupSum(data[..i]));
    SmallMod(GroupSum(data[..i + 1]));
  }

  lemma {:induction false} SmallMod(n: nat)
    ensures n < TWO63 ==> n % TWO64 == n
  {
  }

  function EndAfter(i: nat, rest: Option<nat>): Option<nat> {
    match rest
    case Some(n) => Some(i + n)
    case None => None
  }

  lemma {:induction false} GroupSumSnoc(b: Bytes, x: Byte)
    ensures GroupSum(b + [x]) == GroupSum(b) + (x % 128) * Pow128(|b|)
    ensures GroupSum(b) < Pow128(|b|)
  {
    if b == [] {
      assert (b + [x])[1..] == [];
    } else {
      assert (b + [x])[1..] == b[1..] + [x];
      GroupSumSnoc(b[1..], x);
      var p := Pow128(|b| - 1);
      assert 128 * ((x % 128) * p) == (x % 128) * (128 * p);
    }
  }

  lemma {:induction false} SmallPowers(i: nat)
    requires i <= 9
    ensures Pow128(i) <= TWO63
    ensures Pow128(9) == TWO63
  {
    assert Pow128(3) == 0x20_0000;
    assert Pow128(6) == 0x400_0000_0000;
    assert Pow128(9) == TWO63;
    PowMonotone(i, 9);
  }

  lemma {:induction false} PowMonotone(i: nat, j: nat)
    requires i <= j
    ensures Pow128(i) <= Pow128(j)
  {
    if i > 0 {
      PowMonotone(i - 1, j - 1);
    } else if j > 0 {
      PowMonotone(0, j - 1);
    }
  }

  /** Of the tenth group only the lowest bit fits. */
  lemma {:induction false} TopGroup(data: Bytes, val: nat)
    requires 9 < |data| && val == GroupSum(data[..9]) % TWO64 && val < Pow128(9)
    ensures val + (data[9] % 128) * TWO63 % TWO64 == GroupSum(data[..10]) % TWO64
  {
    hide GroupSum;
    assert data[..10] == data[..9] + [data[9]];
    GroupSumSnoc(data[..9], data[9]);
    SmallPowers(9);
    LowestBit(val, data[9] % 128);
  }

  lemma {:induction false} LowestBit(v: nat, c: nat)
    requires v < TWO63
    ensures v + c * TWO63 % TWO64 == (v + c * TWO63) % TWO64
  {
    var q, r := c / 2, c % 2;
    assert c == 2 * q + r;
    assert c * TWO63 == q * TWO64 + r * TWO63;
    assert v + c * TWO63 == q * TWO64 + (v + r * TWO63);
    assert 0 <= v + r * TWO63 < TWO64;
  }
}
