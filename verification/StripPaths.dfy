/**
 Every options message stands where its path points: following the path down the
 descriptor, by the field numbers of descriptor.proto, leads to it.
 */
module StripPaths {
  import opened Wrappers
  import opened SourceRetention
  import opened DescriptorStrip
  import opened StripLocations

  /** Element i of a list, when the path goes on with its options field alone. */
  function ElementAt(owner: string, os: seq<Option<Options>>, path: Path, k: nat, num: int): Option<Node> {
    if |path| == k + 2 && 0 <= path[k] < |os| && path[k + 1] == num then Some(Plain(path, owner, os[path[k]]))
    else None
  }

  function EnumAt(e: Enum, path: Path, k: nat): Option<Node> {
    if k >= |path| then None
    else if path[k] == 2 then ElementAt(".google.protobuf.EnumValueOptions", e.values, path, k + 1, 3)
    else if path[k] == 3 && |path| == k + 1 then Some(Plain(path, ".google.protobuf.EnumOptions", e.options))
    else None
  }

  function MessageAt(m: MessageDesc, path: Path, k: nat): Option<Node>
    decreases m
  {
    if k >= |path| then None
    else if path[k] == 7 && |path| == k + 1 then Some(Plain(path, ".google.protobuf.MessageOptions", m.options))
    else if path[k] == 2 then ElementAt(".google.protobuf.FieldOptions", m.fields, path, k + 1, 8)
    else if path[k] == 8 then ElementAt(".google.protobuf.OneofOptions", m.oneofs, path, k + 1, 2)
    else if path[k] == 6 then ElementAt(".google.protobuf.FieldOptions", m.extensions, path, k + 1, 8)
    else if k + 1 >= |path| then None
    else if path[k] == 5 then
      if |path| == k + 3 && 0 <= path[k + 1] < |m.ranges| && path[k + 2] == 3 then
        Some(Range(path, m.ranges[path[k + 1]]))
      else None
    else if path[k] == 4 && 0 <= path[k + 1] < |m.enums| then EnumAt(m.enums[path[k + 1]], path, k + 2)
    else if path[k] == 3 && 0 <= path[k + 1] < |m.nested| then MessageAt(m.nested[path[k + 1]], path, k + 2)
    else None
  }

  function ServiceAt(s: Service, path: Path, k: nat): Option<Node> {
    if k >= |path| then None
    else if path[k] == 2 then ElementAt(".google.protobuf.MethodOptions", s.methods, path, k + 1, 4)
    else if path[k] == 3 && |path| == k + 1 then Some(Plain(path, ".google.protobuf.ServiceOptions", s.options))
    else None
  }

  function FileAt(fd: File, path: Path): Option<Node> {
    if path == [8] then Some(Plain(path, ".google.protobuf.FileOptions", fd.options))
    else if |path| < 2 then None
    else if path[0] == 4 && 0 <= path[1] < |fd.messages| then MessageAt(fd.messages[path[1]], path, 2)
    else if path[0] == 5 && 0 <= path[1] < |fd.enums| then EnumAt(fd.enums[path[1]], path, 2)
    else if path[0] == 6 && 0 <= path[1] < |fd.services| then ServiceAt(fd.services[path[1]], path, 2)
    else if path[0] == 7 then ElementAt(".google.protobuf.FieldOptions", fd.extensions, path, 1, 8)
    else None
  }

  // ---------------------------------------------------------------------------

  lemma {:induction false} ListStands(
    owner: string, os: seq<Option<Options>>, base: Path, field: int, i: nat, num: int, n: Node)
    requires n in ListNodes(owner, os, base, field, i, num)
    ensures |n.path| == |base| + 3 && base <= n.path && n.path[|base|] == field && n.path[|base| + 2] == num
    ensures i <= n.path[|base| + 1] < i + |os|
    ensures n == Plain(n.path, owner, os[n.path[|base| + 1] - i])
    decreases |os|
  {
    if n != Plain(base + [field, i, num], owner, os[0]) {
      ListStands(owner, os[1..], base, field, i + 1, num, n);
    }
  }

  lemma {:induction false} RangesStand(os: seq<Option<RangeOptions>>, base: Path, i: nat, n: Node)
    requires n in RangeNodes(os, base, i)
    ensures |n.path| == |base| + 3 && base <= n.path && n.path[|base|] == 5 && n.path[|base| + 2] == 3
    ensures i <= n.path[|base| + 1] < i + |os|
    ensures n == Range(n.path, os[n.path[|base| + 1] - i])
    decreases |os|
  {
    if n != Range(base + [5, i, 3], os[0]) {
      RangesStand(os[1..], base, i + 1, n);
    }
  }

  lemma {:induction false} EnumsStand(es: seq<Enum>, base: Path, i: nat, n: Node)
    requires n in EnumNodes(es, base, i)
    ensures |n.path| >= |base| + 2 && base <= n.path
    ensures i <= n.path[|base|] < i + |es|
    ensures EnumAt(es[n.path[|base|] - i], n.path, |base| + 1) == Some(n)
    decreases |es|
  {
    hide ListNodes;
    var values := ListNodes(ENUM_VALUE, es[0].values, base + [i], 2, 0, 3);
    if n in values {
      ListStands(ENUM_VALUE, es[0].values, base + [i], 2, 0, 3, n);
      assert (base + [i])[|base|] == n.path[|base|];
    } else if n != Plain(base + [i, 3], ENUM, es[0].options) {
      EnumsStand(es[1..], base, i + 1, n);
    }
  }

  lemma {:induction false} ServicesStand(ss: seq<Service>, i: nat, n: Node)
    requires n in ServiceNodes(ss, i)
    ensures |n.path| >= 3 && n.path[0] == 6
    ensures i <= n.path[1] < i + |ss|
    ensures ServiceAt(ss[n.path[1] - i], n.path, 2) == Some(n)
    decreases |ss|
  {
    hide ListNodes;
    if n in ListNodes(METHOD, ss[0].methods, [6, i], 2, 0, 4) {
      ListStands(METHOD, ss[0].methods, [6, i], 2, 0, 4, n);
      assert [6, i][0] == n.path[0] && [6, i][1] == n.path[1];
    } else if n != Plain([6, i, 3], SERVICE, ss[0].options) {
      ServicesStand(ss[1..], i + 1, n);
    }
  }

  lemma {:induction false} MessagesStand(ms: seq<MessageDesc>, base: Path, i: nat, n: Node)
    requires n in MessagesNodes(ms, base, i)
    ensures |n.path| >= |base| + 2 && base <= n.path
    ensures i <= n.path[|base|] < i + |ms|
    ensures MessageAt(ms[n.path[|base|] - i], n.path, |base| + 1) == Some(n)
    decreases ms
  {
    hide MessageNodes, MessageAt;
    if n in MessageNodes(ms[0], base + [i]) {
      MessageStands(ms[0], base + [i], n);
      assert (base + [i])[|base|] == n.path[|base|];
    } else {
      MessagesStand(ms[1..], base, i + 1, n);
    }
  }

  lemma {:induction false} MessageStands(m: MessageDesc, path: Path, n: Node)
    requires n in MessageNodes(m, path)
    ensures |n.path| > |path| && path <= n.path
    ensures MessageAt(m, n.path, |path|) == Some(n)
    decreases m
  {
    hide ListNodes, RangeNodes, EnumNodes, MessagesNodes, EnumAt;
    if n == Plain(path + [7], MESSAGE, m.options) {
    } else if n in ListNodes(FIELD, m.fields, path, 2, 0, 8) {
      ListStands(FIELD, m.fields, path, 2, 0, 8, n);
    } else if n in ListNodes(ONEOF, m.oneofs, path, 8, 0, 2) {
      ListStands(ONEOF, m.oneofs, path, 8, 0, 2, n);
    } else if n in RangeNodes(m.ranges, path, 0) {
      RangesStand(m.ranges, path, 0, n);
    } else if n in ListNodes(FIELD, m.extensions, path, 6, 0, 8) {
      ListStands(FIELD, m.extensions, path, 6, 0, 8, n);
    } else if n in EnumNodes(m.enums, path + [4], 0) {
      EnumsStand(m.enums, path + [4], 0, n);
      assert (path + [4])[|path|] == n.path[|path|];
    } else {
      MessagesStand(m.nested, path + [3], 0, n);
      assert (path + [3])[|path|] == n.path[|path|];
    }
  }

  /** The options of the file, each at the end of its path. */
  lemma {:induction false} NodesStand(fd: File, n: Node)
    requires n in FileNodes(fd)
    ensures FileAt(fd, n.path) == Some(n)
  {
    hide ListNodes, EnumNodes, MessagesNodes, ServiceNodes, EnumAt, MessageAt, ServiceAt;
    if n == Plain([8], FILE, fd.options) {
    } else if n in MessagesNodes(fd.messages, [4], 0) {
      MessagesStand(fd.messages, [4], 0, n);
      assert [4][0] == n.path[0];
    } else if n in EnumNodes(fd.enums, [5], 0) {
      EnumsStand(fd.enums, [5], 0, n);
      assert [5][0] == n.path[0];
    } else if n in ServiceNodes(fd.services, 0) {
      ServicesStand(fd.services, 0, n);
    } else {
      ListStands(FIELD, fd.extensions, [], 7, 0, 8, n);
    }
  }

  // ---------------------------------------------------------------------------
  // Features

  /** The field of an options message that holds its features. */
  function FeaturesField(owner: string): int {
    if owner == ".google.protobuf.FileOptions" then 50
    else if owner == ".google.protobuf.MessageOptions" then 12
    else if owner == ".google.protobuf.FieldOptions" then 21
    else if owner == ".google.protobuf.OneofOptions" then 1
    else if owner == ".google.protobuf.EnumOptions" then 7
    else if owner == ".google.protobuf.EnumValueOptions" then 2
    else if owner == ".google.protobuf.ServiceOptions" then 34
    else if owner == ".google.protobuf.MethodOptions" then 35
    else 50
  }

  function OwnerOf(n: Node): string {
    if n.Plain? then n.owner else ".google.protobuf.ExtensionRangeOptions"
  }

  lemma {:induction false} FeatureListed(r: Retention, nums: seq<int>, n: Node, num: int)
    requires num in nums && num in FeaturesOf(Stripped(r, n))
    ensures n.path + [FeaturesNum(n), num] in Features(r, nums, n)
    decreases |nums|
  {
    hide FeaturesOf, Stripped, FeaturesNum;
    if num != nums[0] {
      FeatureListed(r, nums[1..], n, num);
    }
  }

  lemma {:induction false} OwnerKnown(fd: File, n: Node)
    requires n in FileNodes(fd)
    ensures FeaturesNum(n) == FeaturesField(OwnerOf(n))
  {
    hide FileNodes;
    NodesStand(fd, n);
    SomeOwner(fd, n.path);
  }

  predicate KnownOwner(n: Node) {
    n.Plain? ==> n.owner in [".google.protobuf.FileOptions", ".google.protobuf.MessageOptions",
                             ".google.protobuf.FieldOptions", ".google.protobuf.OneofOptions",
                             ".google.protobuf.EnumOptions", ".google.protobuf.EnumValueOptions",
                             ".google.protobuf.ServiceOptions", ".google.protobuf.MethodOptions"]
  }

  lemma {:induction false} SomeOwner(fd: File, path: Path)
    ensures FileAt(fd, path).Some? ==> KnownOwner(FileAt(fd, path).value)
  {
    hide MessageAt;
    if |path| >= 2 && path[0] == 4 && 0 <= path[1] < |fd.messages| {
      SomeMessageOwner(fd.messages[path[1]], path, 2);
    }
  }

  lemma {:induction false} SomeMessageOwner(m: MessageDesc, path: Path, k: nat)
    ensures MessageAt(m, path, k).Some? ==> KnownOwner(MessageAt(m, path, k).value)
    decreases m
  {
    if k + 1 < |path| && path[k] == 3 && 0 <= path[k + 1] < |m.nested| {
      SomeMessageOwner(m.nested[path[k + 1]], path, k + 2);
    }
  }

  /** num is set among the features of the options. */
  predicate SetsFeature(o: Option<Options>, num: int) {
    o.Some? && o.value.features.Some? && num in o.value.features.value
  }

  /** Stripping the other options does not take the features away. */
  lemma {:induction false} FeatureStays(r: Retention, n: Node, num: int)
    requires if n.Plain? then SetsFeature(n.options, num)
             else n.range.Some? && SetsFeature(Some(n.range.value.common), num)
    ensures num in FeaturesOf(Stripped(r, n))
  {
    hide StripEncoded;
  }

  /** The location of a source-retention feature goes with it, wherever it was set. */
  lemma {:induction false} FeatureLocationGoes(r: Retention, nums: seq<int>, fd: File, n: Node, num: int)
    requires n in FileNodes(fd) && num in nums
    requires if n.Plain? then SetsFeature(n.options, num)
             else n.range.Some? && SetsFeature(Some(n.range.value.common), num)
    ensures Removed(r, nums, fd, n.path + [FeaturesField(OwnerOf(n)), num])
  {
    hide FileNodes, Collect, Features, Unknown, Emptied, Verification, FeaturesOf, Stripped, FeaturesNum, FeaturesField;
    var ns := FileNodes(fd);
    var p := n.path + [FeaturesNum(n), num];
    OwnerKnown(fd, n);
    FeatureStays(r, n, num);
    FeatureListed(r, nums, n, num);
    InCollect(ns, n => Features(r, nums, n), p);
  }
}
