/**
 Stripping source-retention options from encoded option values: what the rewrite
 computes, and what it means for the tree of fields the bytes encode.
 */
module SourceRetention {
  import opened Wrappers
  import opened Wire

  /** Per message: the numbers of its source-retention fields, and the types of its message fields. */
  datatype Retention = Retention(strip: map<string, set<int>>, msgTypes: map<string, map<int, string>>) {
    function Stripped(owner: string): set<int> {
      if owner in strip then strip[owner] else {}
    }

    function Messages(owner: string): map<int, string> {
      if owner in msgTypes then msgTypes[owner] else map[]
    }

    /** The message type to walk into for a field, or "". */
    function Nested(owner: string, num: int): string {
      if num in Messages(owner) then Messages(owner)[num] else ""
    }
  }

  datatype Outcome = Outcome(kept: Bytes, dropped: seq<int>, changed: bool)

  function Join(a: Outcome, b: Outcome): Outcome {
    Outcome(a.kept + b.kept, a.dropped + b.dropped, a.changed || b.changed)
  }

  function StripEncoded(r: Retention, owner: string, buf: Bytes): Outcome
    decreases |buf|, 2
  {
    if |r.Stripped(owner)| == 0 && |r.Messages(owner)| == 0 then Outcome(buf, [], false)
    else StripFields(r, owner, buf)
  }

  /** The rewrite without its shortcut. A malformed field ends it, and the bytes from there on are not kept. */
  function StripFields(r: Retention, owner: string, buf: Bytes): Outcome
    decreases |buf|, 1
  {
    match FieldLen(buf)
    case None => Outcome([], [], false)
    case Some(n) => Join(StripField(r, owner, buf[..n]), StripFields(r, owner, buf[n..]))
  }

  function StripField(r: Retention, owner: string, field: Bytes): Outcome
    decreases |field|, 0
  {
    match Payload(r, owner, field)
    case Dropped(num) => Outcome([], [num], true)
    case Opaque => Outcome(field, [], false)
    case Message(num, nested, content) =>
      var inner := StripEncoded(r, nested, content);
      if !inner.changed then Outcome(field, [], false)
      else Outcome(AppendTag(num, BYTES) + AppendBytes(inner.kept), [], true)
  }

  /** How the rewrite treats a field. */
  datatype Treatment = Dropped(num: nat) | Opaque | Message(num: nat, nested: string, content: Bytes)

  function Payload(r: Retention, owner: string, field: Bytes): (t: Treatment)
    ensures t.Message? ==> |t.content| < |field|
  {
    match ConsumeTag(field)
    case None => Opaque
    case Some(tag) =>
      if tag.num in r.Stripped(owner) then Dropped(tag.num)
      else if tag.typ != BYTES || r.Nested(owner, tag.num) == "" then Opaque
      else
        match ConsumeBytes(field[tag.len..])
        case None => Opaque
        case Some(d) => Message(tag.num, r.Nested(owner, tag.num), d.content)
  }

  // ---------------------------------------------------------------------------
  // The tree of fields, and stripping said of the tree.

  datatype Tree = Leaf(num: int, raw: Bytes) | Node(num: int, children: seq<Tree>)

  /** The fields buf encodes, message-valued ones opened; reading ends at a malformed field. */
  function Read(r: Retention, owner: string, buf: Bytes): seq<Tree>
    decreases |buf|, 1
  {
    match FieldLen(buf)
    case None => []
    case Some(n) => [ReadField(r, owner, buf[..n])] + Read(r, owner, buf[n..])
  }

  function ReadField(r: Retention, owner: string, field: Bytes): Tree
    decreases |field|, 0
  {
    match ConsumeTag(field)
    case None => Leaf(0, field)
    case Some(tag) =>
      if tag.typ != BYTES || r.Nested(owner, tag.num) == "" then Leaf(tag.num, field)
      else
        match ConsumeBytes(field[tag.len..])
        case None => Leaf(tag.num, field)
        case Some(d) => Node(tag.num, Read(r, r.Nested(owner, tag.num), d.content))
  }

  /** The tree without the source-retention fields, at any depth. */
  function Sift(r: Retention, owner: string, ts: seq<Tree>): seq<Tree>
    decreases ts
  {
    if ts == [] then []
    else if ts[0].num in r.Stripped(owner) then Sift(r, owner, ts[1..])
    else [SiftTree(r, owner, ts[0])] + Sift(r, owner, ts[1..])
  }

  function SiftTree(r: Retention, owner: string, t: Tree): Tree
    decreases t
  {
    match t
    case Leaf(_, _) => t
    case Node(num, children) => Node(num, Sift(r, r.Nested(owner, num), children))
  }

  /** Some source-retention field occurs, at any depth. */
  predicate HasSource(r: Retention, owner: string, ts: seq<Tree>)
    decreases ts
  {
    ts != [] && (TreeHasSource(r, owner, ts[0]) || HasSource(r, owner, ts[1..]))
  }

  predicate TreeHasSource(r: Retention, owner: string, t: Tree)
    decreases t
  {
    t.num in r.Stripped(owner) || (t.Node? && HasSource(r, r.Nested(owner, t.num), t.children))
  }

  // ---------------------------------------------------------------------------

  lemma {:induction false} SiftCount(r: Retention, owner: string, ts: seq<Tree>)
    ensures HasSource(r, owner, ts) <==> Sift(r, owner, ts) != ts
    ensures |Sift(r, owner, ts)| <= |ts|
    ensures !HasSource(r, owner, Sift(r, owner, ts))
    decreases ts
  {
    if ts != [] {
      SiftCount(r, owner, ts[1..]);
      if ts[0].num !in r.Stripped(owner) {
        var rest := Sift(r, owner, ts[1..]);
        SiftTreeCount(r, owner, ts[0]);
        assert ([SiftTree(r, owner, ts[0])] + rest)[1..] == rest;
        assert ts == [ts[0]] + ts[1..];
      }
    }
  }

  lemma {:induction false} SiftTreeCount(r: Retention, owner: string, t: Tree)
    requires t.num !in r.Stripped(owner)
    ensures TreeHasSource(r, owner, t) <==> SiftTree(r, owner, t) != t
    ensures !TreeHasSource(r, owner, SiftTree(r, owner, t))
    decreases t
  {
    if t.Node? {
      SiftCount(r, r.Nested(owner, t.num), t.children);
    }
  }
}
