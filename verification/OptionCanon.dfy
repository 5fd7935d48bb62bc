/**
 canonicalizeUnknown: re-serializing encoded option fields in field-number order,
 with the fragments of a singular submessage merged.

 Canon is the specification of the method and follows the source branch by
 branch. None stands for the runtime fault of a group whose body bounds cross.
 */
module OptionCanon {
  import opened Wrappers
  import opened Wire
  import opened WireEntries
  import opened OptionSchema
  import opened EntrySort
  import opened OptionDecode

  function Canon(raw: Bytes, owner: string, fields: OptionFields): Option<Bytes>
    decreases |raw|, 1
  {
    match ParseEntries(raw)
    case Malformed => Some(raw)
    case SliceFault => None
    case Entries(es) =>
      EntriesShrink(raw);
      SortDecodes(es, owner, fields);
      SortIsStable(es, 0);
      EmitAll(SortByNum(es), owner, fields)
  }

  function EmitAll(es: seq<Entry>, owner: string, fields: OptionFields): Option<Bytes>
    requires AllShrink(es)
    decreases TotalRaw(es), 0
  {
    if es == [] then Some([])
    else
      var e := es[0];
      assert Shrinks(e);
      match fields.Submessage(owner, e.num)
      case Some(f) =>
        if e.payload.None? then
          var rest :- EmitAll(es[1..], owner, fields);
          Some(e.raw + rest)
        else if f.repeated then
          var body :- Canon(e.payload.value, TrimLeadingDot(f.typeName), fields);
          var rest :- EmitAll(es[1..], owner, fields);
          Some(Emit(f, e.num, body, owner, fields) + rest)
        else
          var j := RunLength(es, e.num);
          MergedShrinks(es, e.num);
          var body :- Canon(MergedPayload(es[..j]), TrimLeadingDot(f.typeName), fields);
          var rest :- EmitAll(es[j..], owner, fields);
          Some(Emit(f, e.num, body, owner, fields) + rest)
      case None =>
        var rest :- EmitAll(es[1..], owner, fields);
        Some(e.raw + rest)
  }

  /** One canonical submessage, in the encoding its field calls for. */
  function Emit(f: FieldDesc, num: nat, body: Bytes, owner: string, fields: OptionFields): (r: Bytes)
    ensures r != []
  {
    if fields.AsItem(owner, num) then
      AppendTag(1, START_GROUP)
      + AppendTag(2, VARINT) + AppendVarint(num)
      + AppendTag(3, BYTES) + AppendBytes(body)
      + AppendTag(1, END_GROUP)
    else AppendSubmessage(f, num, body)
  }

  /** body as the value of field num: as a group for a group field, else length-delimited. */
  function AppendSubmessage(f: FieldDesc, num: nat, body: Bytes): (r: Bytes)
    ensures |body| < |r|
  {
    if f.kind == Group then
      AppendTag(num, START_GROUP) + body + AppendTag(num, END_GROUP)
    else
      AppendTag(num, BYTES) + AppendBytes(body)
  }

  /** The number of leading entries that carry field number num. */
  function RunLength(es: seq<Entry>, num: int): (n: nat)
    ensures n <= |es|
    ensures es != [] && es[0].num == num ==> n > 0
    ensures forall i :: 0 <= i < n ==> es[i].num == num
    ensures n < |es| ==> es[n].num != num
  {
    if es == [] || es[0].num != num then 0 else 1 + RunLength(es[1..], num)
  }

  /** The entries' bodies end to end; an entry without a body adds nothing. */
  function MergedPayload(es: seq<Entry>): Bytes {
    if es == [] then []
    else (if es[0].payload.Some? then es[0].payload.value else []) + MergedPayload(es[1..])
  }

  lemma {:induction false} PayloadBound(es: seq<Entry>)
    requires AllShrink(es)
    ensures |MergedPayload(es)| + |es| <= TotalRaw(es)
  {
    if es != [] {
      assert Shrinks(es[0]);
      PayloadBound(es[1..]);
    }
  }

  /** The merged bodies are strictly shorter than the entries they came from, so the recursion ends. */
  lemma {:induction false} MergedShrinks(es: seq<Entry>, num: int)
    requires AllShrink(es) && es != [] && es[0].num == num
    ensures |MergedPayload(es[..RunLength(es, num)])| < TotalRaw(es)
    ensures TotalRaw(es[RunLength(es, num)..]) < TotalRaw(es)
  {
    var j := RunLength(es, num);
    assert es == es[..j] + es[j..];
    TotalRawAppend(es[..j], es[j..]);
    PayloadBound(es[..j]);
  }
}
