/** What the full strip leaves of a file, node by node. */
module StripResult {
  import opened Wrappers
  import opened Wire
  import opened SourceRetention
  import opened StripTheorems
  import opened DescriptorStrip
  import opened StripLocations

  // ---------------------------------------------------------------------------
  // The nodes of a walked file

  function Walked(p: Pass, n: Node): Node {
    match n
    case Plain(path, owner, o) => Plain(path, owner, Apply(p, owner, o))
    case Range(path, o) => Range(path, ApplyRange(p, o))
  }

  function AllWalked(p: Pass, ns: seq<Node>): (r: seq<Node>)
    ensures |r| == |ns| && forall k :: 0 <= k < |ns| ==> r[k] == Walked(p, ns[k])
  {
    if ns == [] then [] else [Walked(p, ns[0])] + AllWalked(p, ns[1..])
  }

  lemma {:induction false} WalkedJoin(p: Pass, a: seq<Node>, b: seq<Node>)
    ensures AllWalked(p, a + b) == AllWalked(p, a) + AllWalked(p, b)
  {
    hide Walked;
  }

  lemma {:induction false} WalkedOne(p: Pass, n: Node)
    ensures AllWalked(p, [n]) == [Walked(p, n)]
  {
  }

  lemma {:induction false} ListWalked(
    p: Pass, owner: string, os: seq<Option<Options>>, base: Path, field: int, i: nat, num: int)
    ensures ListNodes(owner, WalkAll(p, owner, os), base, field, i, num)
         == AllWalked(p, ListNodes(owner, os, base, field, i, num))
    decreases |os|
  {
    hide Apply;
    if os != [] {
      ListWalked(p, owner, os[1..], base, field, i + 1, num);
      assert WalkAll(p, owner, os)[1..] == WalkAll(p, owner, os[1..]);
      WalkedOne(p, Plain(base + [field, i, num], owner, os[0]));
      WalkedJoin(p, [Plain(base + [field, i, num], owner, os[0])], ListNodes(owner, os[1..], base, field, i + 1, num));
    }
  }

  lemma {:induction false} RangesWalked(p: Pass, os: seq<Option<RangeOptions>>, base: Path, i: nat)
    ensures RangeNodes(WalkRanges(p, os), base, i) == AllWalked(p, RangeNodes(os, base, i))
    decreases |os|
  {
    hide ApplyRange;
    if os != [] {
      RangesWalked(p, os[1..], base, i + 1);
      assert WalkRanges(p, os)[1..] == WalkRanges(p, os[1..]);
      WalkedOne(p, Range(base + [5, i, 3], os[0]));
      WalkedJoin(p, [Range(base + [5, i, 3], os[0])], RangeNodes(os[1..], base, i + 1));
    }
  }

  lemma {:induction false} EnumsWalked(p: Pass, es: seq<Enum>, base: Path, i: nat)
    ensures EnumNodes(WalkEnums(p, es), base, i) == AllWalked(p, EnumNodes(es, base, i))
    decreases |es|
  {
    hide Apply, ListNodes, WalkAll, AllWalked;
    if es == [] {
      NoneWalked(p);
    } else {
      var first := Plain(base + [i, 3], ENUM, es[0].options);
      var values := ListNodes(ENUM_VALUE, es[0].values, base + [i], 2, 0, 3);
      ListWalked(p, ENUM_VALUE, es[0].values, base + [i], 2, 0, 3);
      EnumsWalked(p, es[1..], base, i + 1);
      assert WalkEnums(p, es)[1..] == WalkEnums(p, es[1..]);
      WalkedOne(p, first);
      WalkedJoin(p, [first], values);
      WalkedJoin(p, [first] + values, EnumNodes(es[1..], base, i + 1));
    }
  }

  lemma {:induction false} NoneWalked(p: Pass)
    ensures AllWalked(p, []) == []
  {
  }

  lemma {:induction false} ServicesWalked(p: Pass, ss: seq<Service>, i: nat)
    ensures ServiceNodes(WalkServices(p, ss), i) == AllWalked(p, ServiceNodes(ss, i))
    decreases |ss|
  {
    hide Apply, ListNodes, WalkAll, AllWalked;
    if ss == [] {
      NoneWalked(p);
    } else {
      var first := Plain([6, i, 3], SERVICE, ss[0].options);
      var methods := ListNodes(METHOD, ss[0].methods, [6, i], 2, 0, 4);
      ListWalked(p, METHOD, ss[0].methods, [6, i], 2, 0, 4);
      ServicesWalked(p, ss[1..], i + 1);
      assert WalkServices(p, ss)[1..] == WalkServices(p, ss[1..]);
      WalkedOne(p, first);
      WalkedJoin(p, [first], methods);
      WalkedJoin(p, [first] + methods, ServiceNodes(ss[1..], i + 1));
    }
  }

  lemma {:induction false} MessagesWalked(p: Pass, ms: seq<MessageDesc>, base: Path, i: nat)
    ensures MessagesNodes(WalkMessages(p, ms), base, i) == AllWalked(p, MessagesNodes(ms, base, i))
    decreases ms
  {
    hide MessageNodes, WalkMessage, AllWalked;
    if ms == [] {
      NoneWalked(p);
    } else {
      MessageWalked(p, ms[0], base + [i]);
      MessagesWalked(p, ms[1..], base, i + 1);
      assert WalkMessages(p, ms)[1..] == WalkMessages(p, ms[1..]);
      WalkedJoin(p, MessageNodes(ms[0], base + [i]), MessagesNodes(ms[1..], base, i + 1));
    }
  }

  lemma {:induction false} MessageWalked(p: Pass, m: MessageDesc, path: Path)
    ensures MessageNodes(WalkMessage(p, m), path) == AllWalked(p, MessageNodes(m, path))
    decreases m
  {
    hide Apply, AllWalked, ListNodes, RangeNodes, EnumNodes, MessagesNodes, WalkAll, WalkRanges, WalkEnums, WalkMessages;
    var o := Plain(path + [7], MESSAGE, m.options);
    var a, b := ListNodes(FIELD, m.fields, path, 2, 0, 8), ListNodes(ONEOF, m.oneofs, path, 8, 0, 2);
    var d, e := RangeNodes(m.ranges, path, 0), ListNodes(FIELD, m.extensions, path, 6, 0, 8);
    var g, h := EnumNodes(m.enums, path + [4], 0), MessagesNodes(m.nested, path + [3], 0);
    ListWalked(p, FIELD, m.fields, path, 2, 0, 8);
    ListWalked(p, ONEOF, m.oneofs, path, 8, 0, 2);
    RangesWalked(p, m.ranges, path, 0);
    ListWalked(p, FIELD, m.extensions, path, 6, 0, 8);
    EnumsWalked(p, m.enums, path + [4], 0);
    MessagesWalked(p, m.nested, path + [3], 0);
    WalkedOne(p, o);
    WalkedJoin(p, [o], a);
    WalkedJoin(p, [o] + a, b);
    WalkedJoin(p, [o] + a + b, d);
    WalkedJoin(p, [o] + a + b + d, e);
    WalkedJoin(p, [o] + a + b + d + e, g);
    WalkedJoin(p, [o] + a + b + d + e + g, h);
  }

  lemma {:induction false} FileWalked(p: Pass, fd: File)
    ensures FileNodes(Walk(p, fd)) == AllWalked(p, FileNodes(fd))
  {
    hide Apply, AllWalked, ListNodes, ServiceNodes, EnumNodes, MessagesNodes, WalkAll, WalkServices, WalkEnums;
    hide WalkMessages;
    var o := Plain([8], FILE, fd.options);
    var a, b := MessagesNodes(fd.messages, [4], 0), EnumNodes(fd.enums, [5], 0);
    var d, e := ServiceNodes(fd.services, 0), ListNodes(FIELD, fd.extensions, [], 7, 0, 8);
    MessagesWalked(p, fd.messages, [4], 0);
    EnumsWalked(p, fd.enums, [5], 0);
    ServicesWalked(p, fd.services, 0);
    ListWalked(p, FIELD, fd.extensions, [], 7, 0, 8);
    WalkedOne(p, o);
    WalkedJoin(p, [o], a);
    WalkedJoin(p, [o] + a, b);
    WalkedJoin(p, [o] + a + b, d);
    WalkedJoin(p, [o] + a + b + d, e);
  }

  // ---------------------------------------------------------------------------
  // What is left of one node

  function Minus(features: Option<set<int>>, src: set<int>): Option<set<int>> {
    if features.Some? then Some(features.value - src) else None
  }

  /** Some source-retention option is among the unknown fields, and nothing else is. */
  predicate OnlySource(r: Retention, owner: string, unknown: Bytes) {
    var ts := Read(r, owner, unknown);
    HasSource(r, owner, ts) && Sift(r, owner, ts) == []
  }

  /** left is what remains of the options o: the same known fields, and the rest without what is source-retention. */
  ghost predicate Remains(r: Retention, src: set<int>, owner: string, o: Options, left: Options) {
    && left.known == o.known
    && left.features == Minus(o.features, src)
    && Read(r, owner, left.unknown) == Sift(r, owner, Read(r, owner, o.unknown))
    && (!HasSource(r, owner, Read(r, owner, o.unknown)) ==> left.unknown == o.unknown)
  }

  /** before became after: absent options stay absent, and options go exactly when a strip left nothing. */
  ghost predicate NodeStripped(r: Retention, src: set<int>, before: Node, after: Node) {
    match before
    case Plain(path, owner, o) =>
      && after.Plain? && after.path == path && after.owner == owner
      && (after.options.None? <==>
            o.None? || (o.value.known == 0 && o.value.features.None? && OnlySource(r, owner, o.value.unknown)))
      && (after.options.Some? ==> Remains(r, src, owner, o.value, after.options.value))
    case Range(path, o) =>
      && after.Range? && after.path == path
      && (after.range.None? <==>
            o.None? ||
            (var c := o.value.common;
             && c.known == 0 && c.features.None?
             && (c.unknown == [] || OnlySource(r, RANGE, c.unknown))))
      && (after.range.Some? ==>
            && !after.range.value.verification && after.range.value.declarations == 0
            && Remains(r, src, RANGE, o.value.common, after.range.value.common))
  }

  lemma {:induction false} UnknownLeft(r: Retention, owner: string, unknown: Bytes)
    requires |unknown| < MAX_LENGTH
    ensures
      var out, ts := StripEncoded(r, owner, unknown), Read(r, owner, unknown);
      && (out.changed <==> HasSource(r, owner, ts))
      && (out.changed ==> Read(r, owner, out.kept) == Sift(r, owner, ts))
      && (out.changed ==> (out.kept == [] <==> Sift(r, owner, ts) == []))
      && (!out.changed ==> Read(r, owner, unknown) == Sift(r, owner, ts))
  {
    hide StripEncoded, Read, Sift, HasSource, WellFormed;
    StripRemovesExactly(r, owner, unknown);
    var out := StripEncoded(r, owner, unknown);
    if out.changed {
      NothingRead(r, owner, out.kept);
    } else {
      SiftCount(r, owner, Read(r, owner, unknown));
    }
  }

  /** Well-formed bytes hold nothing exactly when there are none. */
  lemma {:induction false} NothingRead(r: Retention, owner: string, buf: Bytes)
    requires WellFormed(buf)
    ensures Read(r, owner, buf) == [] <==> buf == []
  {
    hide FieldLen, ReadField;
    if buf == [] {
      assert FieldLen(buf) == None by {
        NoField();
      }
    }
  }

  lemma {:induction false} NoField()
    ensures FieldLen([]) == None
  {
  }

  lemma {:induction false} PlainStripped(r: Retention, src: set<int>, path: Path, owner: string, o: Option<Options>)
    requires o.Some? ==> |o.value.unknown| < MAX_LENGTH
    ensures NodeStripped(r, src, Plain(path, owner, o), Plain(path, owner, Apply(Full(r, src), owner, o)))
  {
    hide StripEncoded, Read, Sift, HasSource;
    if o.Some? {
      UnknownLeft(r, owner, o.value.unknown);
    }
  }

  lemma {:induction false} RangeStripped(r: Retention, src: set<int>, path: Path, o: Option<RangeOptions>)
    requires o.Some? ==> |o.value.common.unknown| < MAX_LENGTH
    ensures NodeStripped(r, src, Range(path, o), Range(path, ApplyRange(Full(r, src), o)))
  {
    hide StripEncoded, Read, Sift, HasSource;
    if o.Some? {
      UnknownLeft(r, RANGE, o.value.common.unknown);
    }
  }

  // ---------------------------------------------------------------------------
  // The file

  /**
   The stripped file has the same nodes in the same places, and each is what remains of
   the one before.
   */
  lemma {:induction false} StripLeaves(r: Retention, src: set<int>, fd: File)
    requires !InFile(TooLong, fd)
    ensures
      var before, after := FileNodes(fd), FileNodes(StripFile(r, src, fd));
      |after| == |before| && forall k :: 0 <= k < |before| ==> NodeStripped(r, src, before[k], after[k])
  {
    hide Walk, Walked, FileNodes, NodeStripped, InFile, AskNode, StripFile;
    StripFileIsWalk(r, src, fd);
    FileWalked(Full(r, src), fd);
    FileAsked(TooLong, fd);
    var before := FileNodes(fd);
    forall k | 0 <= k < |before|
      ensures NodeStripped(r, src, before[k], Walked(Full(r, src), before[k]))
    {
      assert before[k] in before;
      WalkedStripped(r, src, before[k]);
    }
  }

  lemma {:induction false} WalkedStripped(r: Retention, src: set<int>, n: Node)
    requires !AskNode(TooLong, n)
    ensures NodeStripped(r, src, n, Walked(Full(r, src), n))
  {
    hide NodeStripped, Apply, ApplyRange;
    match n
    case Plain(path, owner, o) => PlainStripped(r, src, path, owner, o);
    case Range(path, o) => RangeStripped(r, src, path, o);
  }

  // ---------------------------------------------------------------------------
  // The lists

  ghost predicate SameEnums(a: seq<Enum>, b: seq<Enum>) {
    |a| == |b| && forall k :: 0 <= k < |a| ==> |a[k].values| == |b[k].values|
  }

  ghost predicate SameMessage(a: MessageDesc, b: MessageDesc)
    decreases a
  {
    && |a.fields| == |b.fields| && |a.oneofs| == |b.oneofs| && |a.ranges| == |b.ranges|
    && |a.extensions| == |b.extensions|
    && SameEnums(a.enums, b.enums)
    && SameMessages(a.nested, b.nested)
  }

  ghost predicate SameMessages(a: seq<MessageDesc>, b: seq<MessageDesc>)
    decreases a
  {
    |a| == |b| && (a != [] ==> SameMessage(a[0], b[0]) && SameMessages(a[1..], b[1..]))
  }

  ghost predicate SameLists(a: File, b: File) {
    && SameMessages(a.messages, b.messages)
    && SameEnums(a.enums, b.enums)
    && |a.services| == |b.services|
    && (forall k :: 0 <= k < |a.services| ==> |a.services[k].methods| == |b.services[k].methods|)
    && |a.extensions| == |b.extensions|
  }

  lemma {:induction false} ListLength(p: Pass, owner: string, os: seq<Option<Options>>)
    ensures |WalkAll(p, owner, os)| == |os|
  {
    hide Apply;
    if os != [] {
      ListLength(p, owner, os[1..]);
    }
  }

  lemma {:induction false} RangesLength(p: Pass, os: seq<Option<RangeOptions>>)
    ensures |WalkRanges(p, os)| == |os|
  {
    hide ApplyRange;
    if os != [] {
      RangesLength(p, os[1..]);
    }
  }

  lemma {:induction false} EnumsSame(p: Pass, es: seq<Enum>)
    ensures SameEnums(es, WalkEnums(p, es))
  {
    hide Apply, WalkAll;
    if es != [] {
      ListLength(p, ENUM_VALUE, es[0].values);
      EnumsSame(p, es[1..]);
      assert forall k :: 0 < k < |es| ==> es[k] == es[1..][k - 1];
    }
  }

  lemma {:induction false} ServicesSame(p: Pass, ss: seq<Service>)
    ensures |WalkServices(p, ss)| == |ss|
    ensures forall k :: 0 <= k < |ss| ==> |WalkServices(p, ss)[k].methods| == |ss[k].methods|
  {
    hide Apply, WalkAll;
    if ss != [] {
      ListLength(p, METHOD, ss[0].methods);
      ServicesSame(p, ss[1..]);
      assert forall k :: 0 < k < |ss| ==> ss[k] == ss[1..][k - 1];
    }
  }

  lemma {:induction false} MessagesSame(p: Pass, ms: seq<MessageDesc>)
    ensures SameMessages(ms, WalkMessages(p, ms))
    decreases ms
  {
    hide SameMessage, WalkMessage;
    if ms != [] {
      MessageSame(p, ms[0]);
      MessagesSame(p, ms[1..]);
      assert WalkMessages(p, ms)[1..] == WalkMessages(p, ms[1..]);
    }
  }

  lemma {:induction false} MessageSame(p: Pass, m: MessageDesc)
    ensures SameMessage(m, WalkMessage(p, m))
    decreases m
  {
    hide Apply, ApplyRange, WalkAll, WalkRanges, WalkEnums, WalkMessages, SameEnums, SameMessages;
    ListLength(p, FIELD, m.fields);
    ListLength(p, ONEOF, m.oneofs);
    RangesLength(p, m.ranges);
    ListLength(p, FIELD, m.extensions);
    EnumsSame(p, m.enums);
    MessagesSame(p, m.nested);
  }

  /** No list of the file gets longer or shorter. */
  lemma {:induction false} StripKeepsLists(r: Retention, src: set<int>, fd: File)
    ensures SameLists(fd, StripFile(r, src, fd))
  {
    hide StripFile, Apply, WalkAll, WalkEnums, WalkServices, WalkMessages, SameEnums, SameMessages;
    var p := Full(r, src);
    StripFileIsWalk(r, src, fd);
    MessagesSame(p, fd.messages);
    EnumsSame(p, fd.enums);
    ServicesSame(p, fd.services);
    ListLength(p, FIELD, fd.extensions);
  }
}
