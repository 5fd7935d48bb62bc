/**
 The protobuf wire format, as much of it as the compiler's byte-level rewrites
 use: base-128 varints, tags, length-delimited payloads and nested groups.

 Consuming functions return None where the library returns a negative length.
 A tag carries a field number of 1 to 2^31-1; a varint has at most ten bytes and
 fits 64 bits.
 */
module Wire {
  import opened Wrappers

  type Byte = x: int | 0 <= x < 256
  type Bytes = seq<Byte>

  const VARINT := 0
  const FIXED64 := 1
  const BYTES := 2
  const START_GROUP := 3
  const END_GROUP := 4
  const FIXED32 := 5
  const MAX_FIELD_NUMBER := 0x7fff_ffff

  datatype Varint = Varint(value: nat, len: nat)
  datatype Tag = Tag(num: nat, typ: nat, len: nat)

  /** One more than the largest value the bytes of a varint from the k-th on can carry. */
  function Room(k: nat): (r: nat)
    ensures r >= 2
    decreases 10 - k
  {
    if k >= 9 then 2 else 128 * Room(k + 1)
  }

  /** The varint at the head of b, whose first byte is the k-th byte of a longer varint. */
  function VarintAt(b: Bytes, k: nat): (r: Option<Varint>)
    ensures r.Some? ==> 0 < r.value.len <= |b| && k + r.value.len <= 10
    decreases |b|
  {
    if |b| == 0 || k >= 10 then None
    else if b[0] < 128 then (if k == 9 && b[0] > 1 then None else Some(Varint(b[0], 1)))
    else if k == 9 then None
    else
      var rest :- VarintAt(b[1..], k + 1);
      Some(Varint(b[0] - 128 + 128 * rest.value, rest.len + 1))
  }

  function ConsumeVarint(b: Bytes): Option<Varint> {
    VarintAt(b, 0)
  }

  function ConsumeTag(b: Bytes): (r: Option<Tag>)
    ensures r.Some? ==> 0 < r.value.len <= |b| && r.value.len <= 10
    ensures r.Some? ==> 1 <= r.value.num <= MAX_FIELD_NUMBER && 0 <= r.value.typ < 8
  {
    var v :- ConsumeVarint(b);
    if 1 <= v.value / 8 <= MAX_FIELD_NUMBER then Some(Tag(v.value / 8, v.value % 8, v.len)) else None
  }

  /** The length of the value that follows a tag of this number and type. */
  function ValueLen(num: int, typ: int, b: Bytes): (r: Option<nat>)
    ensures r.Some? ==> r.value <= |b|
    decreases |b|, 1
  {
    if typ == VARINT then
      var v :- ConsumeVarint(b);
      Some(v.len)
    else if typ == FIXED64 then (if |b| < 8 then None else Some(8))
    else if typ == FIXED32 then (if |b| < 4 then None else Some(4))
    else if typ == BYTES then
      var v :- ConsumeVarint(b);
      if v.len + v.value <= |b| then Some(v.len + v.value) else None
    else if typ == START_GROUP then GroupLen(num, b)
    else None
  }

  /** The length of a group's fields and its end tag. */
  function GroupLen(num: int, b: Bytes): (r: Option<nat>)
    ensures r.Some? ==> 0 < r.value <= |b|
    decreases |b|, 0
  {
    var t :- ConsumeTag(b);
    if t.typ == END_GROUP then (if t.num == num then Some(t.len) else None)
    else
      var v :- ValueLen(t.num, t.typ, b[t.len..]);
      var g :- GroupLen(num, b[t.len + v..]);
      Some(t.len + v + g)
  }

  /** The part of GroupLen taken by the group's fields, without the end tag. */
  function GroupBodyLen(num: int, b: Bytes): (n: nat)
    requires GroupLen(num, b).Some?
    ensures n < GroupLen(num, b).value
    decreases |b|
  {
    var t := ConsumeTag(b).value;
    if t.typ == END_GROUP then 0
    else
      var v := ValueLen(t.num, t.typ, b[t.len..]).value;
      t.len + v + GroupBodyLen(num, b[t.len + v..])
  }

  /** The length of the whole field, tag and value, at the head of b. */
  function FieldLen(b: Bytes): (r: Option<nat>)
    ensures r.Some? ==> ConsumeTag(b).Some? && ConsumeTag(b).value.len <= r.value <= |b|
    ensures r.Some? ==> 0 < r.value
  {
    var t :- ConsumeTag(b);
    var v :- ValueLen(t.num, t.typ, b[t.len..]);
    Some(t.len + v)
  }

  /** The length prefix and content of a length-delimited value. */
  datatype Delimited = Delimited(content: Bytes, len: nat)

  function ConsumeBytes(b: Bytes): (r: Option<Delimited>)
    ensures r.Some? ==> |r.value.content| < r.value.len <= |b|
  {
    var v :- ConsumeVarint(b);
    if v.len + v.value <= |b| then Some(Delimited(b[v.len..v.len + v.value], v.len + v.value)) else None
  }

  function AppendVarint(v: nat): (r: Bytes)
    ensures |r| > 0
  {
    if v < 128 then [v] else [v % 128 + 128] + AppendVarint(v / 128)
  }

  function AppendTag(num: nat, typ: nat): (r: Bytes)
    ensures |r| > 0
  {
    AppendVarint(num * 8 + typ)
  }

  function AppendBytes(content: Bytes): Bytes {
    AppendVarint(|content|) + content
  }

  // ---------------------------------------------------------------------------
  // What a consuming function reads lies inside the length it reports: any other
  // input that agrees on those bytes is read the same way.

  lemma {:induction false} VarintLocal(b: Bytes, c: Bytes, k: nat)
    requires VarintAt(b, k).Some?
    requires VarintAt(b, k).value.len <= |c|
    requires b[..VarintAt(b, k).value.len] == c[..VarintAt(b, k).value.len]
    ensures VarintAt(c, k) == VarintAt(b, k)
    decreases |b|
  {
    var n := VarintAt(b, k).value.len;
    assert b[0] == b[..n][0] == c[..n][0] == c[0];
    if b[0] >= 128 {
      assert b[1..][..n - 1] == b[..n][1..] == c[..n][1..] == c[1..][..n - 1];
      VarintLocal(b[1..], c[1..], k + 1);
    }
  }

  lemma {:induction false} TagLocal(b: Bytes, c: Bytes)
    requires ConsumeTag(b).Some?
    requires ConsumeTag(b).value.len <= |c|
    requires b[..ConsumeTag(b).value.len] == c[..ConsumeTag(b).value.len]
    ensures ConsumeTag(c) == ConsumeTag(b)
  {
    VarintLocal(b, c, 0);
  }

  lemma {:induction false} PrefixShift(b: Bytes, c: Bytes, n: nat, t: nat)
    requires t <= n <= |b| && n <= |c|
    requires b[..n] == c[..n]
    ensures b[..t] == c[..t]
    ensures b[t..][..n - t] == c[t..][..n - t]
  {
    assert b[..t] == b[..n][..t];
    assert c[..t] == c[..n][..t];
    assert b[t..][..n - t] == b[..n][t..];
    assert c[t..][..n - t] == c[..n][t..];
  }

  lemma {:induction false} PrefixSplit(b: Bytes, c: Bytes, n: nat, t: nat, v: nat)
    requires t + v <= n <= |b| && n <= |c|
    requires b[..n] == c[..n]
    ensures b[..t] == c[..t]
    ensures b[t..][..v] == c[t..][..v]
    ensures b[t + v..][..n - t - v] == c[t + v..][..n - t - v]
  {
    PrefixShift(b, c, n, t);
    PrefixShift(b[t..], c[t..], n - t, v);
    assert b[t..][v..] == b[t + v..];
    assert c[t..][v..] == c[t + v..];
  }

  lemma {:induction false} ValueLocal(num: int, typ: int, b: Bytes, c: Bytes)
    requires ValueLen(num, typ, b).Some?
    requires ValueLen(num, typ, b).value <= |c|
    requires b[..ValueLen(num, typ, b).value] == c[..ValueLen(num, typ, b).value]
    ensures ValueLen(num, typ, c) == ValueLen(num, typ, b)
    decreases |b|, 1
  {
    var n := ValueLen(num, typ, b).value;
    if typ == VARINT || typ == BYTES {
      PrefixShift(b, c, n, ConsumeVarint(b).value.len);
      VarintLocal(b, c, 0);
    } else if typ == START_GROUP {
      GroupLocal(num, b, c);
    }
  }

  lemma {:induction false} GroupLocal(num: int, b: Bytes, c: Bytes)
    requires GroupLen(num, b).Some?
    requires GroupLen(num, b).value <= |c|
    requires b[..GroupLen(num, b).value] == c[..GroupLen(num, b).value]
    ensures GroupLen(num, c) == GroupLen(num, b)
    decreases |b|, 0
  {
    hide ConsumeTag, ValueLen;
    var n := GroupLen(num, b).value;
    var t := ConsumeTag(b).value;
    var v := if t.typ == END_GROUP then 0 else ValueLen(t.num, t.typ, b[t.len..]).value;
    PrefixSplit(b, c, n, t.len, v);
    assert ConsumeTag(c) == Some(t) by {
      TagLocal(b, c);
    }
    if t.typ != END_GROUP {
      var b1, c1 := b[t.len..], c[t.len..];
      assert ValueLen(t.num, t.typ, c1) == Some(v) by {
        ValueLocal(t.num, t.typ, b1, c1);
      }
      var b2, c2 := b[t.len + v..], c[t.len + v..];
      assert GroupLen(num, b2) == GroupLen(num, c2) by {
        GroupLocal(num, b2, c2);
      }
    }
  }

  /** A field's length, number and type depend on the field's own bytes only. */
  lemma {:induction false} FieldLocal(b: Bytes, c: Bytes)
    requires FieldLen(b).Some?
    requires FieldLen(b).value <= |c|
    requires b[..FieldLen(b).value] == c[..FieldLen(b).value]
    ensures FieldLen(c) == FieldLen(b) && ConsumeTag(c) == ConsumeTag(b)
  {
    var n := FieldLen(b).value;
    var t := ConsumeTag(b).value;
    PrefixShift(b, c, n, t.len);
    TagLocal(b, c);
    ValueLocal(t.num, t.typ, b[t.len..], c[t.len..]);
  }

  lemma {:induction false} BytesLocal(b: Bytes, c: Bytes)
    requires ConsumeBytes(b).Some?
    requires b[..ConsumeBytes(b).value.len] <= c
    ensures ConsumeBytes(c) == ConsumeBytes(b)
  {
    var v := ConsumeVarint(b).value;
    var n := ConsumeBytes(b).value.len;
    PrefixShift(b, c, n, v.len);
    VarintLocal(b, c, 0);
    assert b[v.len..n] == b[v.len..][..n - v.len];
    assert c[v.len..n] == c[v.len..][..n - v.len];
  }

  // ---------------------------------------------------------------------------
  // What is appended is read back.

  lemma {:induction false} VarintRoundTrip(v: nat, k: nat, rest: Bytes)
    requires k <= 9 && v < Room(k)
    ensures VarintAt(AppendVarint(v) + rest, k) == Some(Varint(v, |AppendVarint(v)|))
    decreases 10 - k
  {
    var b := AppendVarint(v) + rest;
    if v >= 128 {
      assert b[0] == v % 128 + 128;
      assert b[1..] == AppendVarint(v / 128) + rest;
      VarintRoundTrip(v / 128, k + 1, rest);
    }
  }

  const MAX_LENGTH: nat := 0x1000_0000_0000_0000

  /** Canonicalizing input below this length stays below MAX_LENGTH. */
  const MAX_INPUT: nat := MAX_LENGTH / 16

  lemma {:induction false} RoomIs64Bits()
    ensures Room(0) == 0x1_0000_0000_0000_0000
  {
    assert Room(9) == 2;
    assert Room(8) == 0x100;
    assert Room(7) == 0x8000;
    assert Room(6) == 0x40_0000;
    assert Room(5) == 0x2000_0000;
    assert Room(4) == 0x10_0000_0000;
    assert Room(3) == 0x800_0000_0000;
    assert Room(2) == 0x4_0000_0000_0000;
    assert Room(1) == 0x200_0000_0000_0000;
  }

  lemma {:induction false} TagRoundTrip(num: nat, typ: nat, rest: Bytes)
    requires 1 <= num <= MAX_FIELD_NUMBER && typ < 8
    ensures ConsumeTag(AppendTag(num, typ) + rest) == Some(Tag(num, typ, |AppendTag(num, typ)|))
  {
    RoomIs64Bits();
    VarintRoundTrip(num * 8 + typ, 0, rest);
  }

  lemma {:induction false} BytesRoundTrip(content: Bytes, rest: Bytes)
    requires |content| < MAX_LENGTH
    ensures ConsumeBytes(AppendBytes(content) + rest) == Some(Delimited(content, |AppendBytes(content)|))
  {
    RoomIs64Bits();
    var n := |AppendVarint(|content|)|;
    assert AppendBytes(content) + rest == AppendVarint(|content|) + (content + rest);
    VarintRoundTrip(|content|, 0, content + rest);
    assert (AppendBytes(content) + rest)[n..n + |content|] == content;
  }

  function Pow128(n: nat): nat {
    if n == 0 then 1 else 128 * Pow128(n - 1)
  }

  /** A value of at most 7*n bits takes at most n bytes. */
  lemma {:induction false} VarintLength(v: nat, n: nat)
    requires 1 <= n && v < Pow128(n)
    ensures |AppendVarint(v)| <= n
  {
    if v >= 128 {
      assert n > 1 && v / 128 < Pow128(n - 1);
      VarintLength(v / 128, n - 1);
    }
  }

  lemma {:induction false} TagLength(num: nat, typ: nat)
    requires 1 <= num <= MAX_FIELD_NUMBER && typ < 8
    ensures |AppendTag(num, typ)| <= 5
  {
    assert Pow128(1) == 0x80 && Pow128(3) == 0x20_0000 && Pow128(5) == 0x8_0000_0000;
    VarintLength(num * 8 + typ, 5);
  }

  lemma {:induction false} LengthPrefixLength(n: nat)
    requires n < MAX_LENGTH
    ensures |AppendVarint(n)| <= 9
  {
    assert Pow128(3) == 0x20_0000 && Pow128(6) == 0x400_0000_0000 && Pow128(9) == 0x8000_0000_0000_0000;
    VarintLength(n, 9);
  }

  // ---------------------------------------------------------------------------
  // Appending writes the shortest encoding.

  lemma {:induction false} VarintShortest(b: Bytes, k: nat)
    requires VarintAt(b, k).Some?
    ensures |AppendVarint(VarintAt(b, k).value.value)| <= VarintAt(b, k).value.len
    decreases |b|
  {
    if b[0] >= 128 {
      VarintShortest(b[1..], k + 1);
    }
  }

  lemma {:induction false} VarintMonotone(a: nat, b: nat)
    requires a <= b
    ensures |AppendVarint(a)| <= |AppendVarint(b)|
  {
    if a >= 128 {
      VarintMonotone(a / 128, b / 128);
    }
  }

  /** A length-delimited field re-encoded around a body no longer than its own does not grow. */
  lemma {:induction false} RewrittenNotLonger(field: Bytes, inner: Bytes)
    requires FieldLen(field) == Some(|field|) && ConsumeTag(field).value.typ == BYTES
    requires var t := ConsumeTag(field).value;
             ConsumeBytes(field[t.len..]).Some? && |inner| <= |ConsumeBytes(field[t.len..]).value.content|
    ensures |AppendTag(ConsumeTag(field).value.num, BYTES) + AppendBytes(inner)| <= |field|
  {
    hide VarintAt;
    var t := ConsumeTag(field).value;
    var rest := field[t.len..];
    VarintShortest(field, 0);
    VarintShortest(rest, 0);
    VarintMonotone(|inner|, ConsumeVarint(rest).value.value);
  }
}
