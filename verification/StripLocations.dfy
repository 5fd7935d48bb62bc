/**
 Source locations of stripped options. The three passes over a descriptor collect the
 paths of what they remove, and the locations of those paths go with it.
 */
module StripLocations {
  import opened Wrappers
  import opened Wire
  import opened SourceRetention
  import opened DescriptorStrip

  type Path = seq<int>

  /** A location: where in the descriptor it points, and the rest of it. */
  datatype Location = Location(path: Path, rest: int)

  // ---------------------------------------------------------------------------
  // The options of a file and their paths

  datatype Node =
    | Plain(path: Path, owner: string, options: Option<Options>)
    | Range(path: Path, range: Option<RangeOptions>)

  /** The options of elements i and on of a list that is field of base; num leads from element to options. */
  function ListNodes(owner: string, os: seq<Option<Options>>, base: Path, field: int, i: nat, num: int): seq<Node>
    decreases |os|
  {
    if os == [] then []
    else [Plain(base + [field, i, num], owner, os[0])] + ListNodes(owner, os[1..], base, field, i + 1, num)
  }

  function RangeNodes(os: seq<Option<RangeOptions>>, base: Path, i: nat): seq<Node>
    decreases |os|
  {
    if os == [] then [] else [Range(base + [5, i, 3], os[0])] + RangeNodes(os[1..], base, i + 1)
  }

  function EnumNodes(es: seq<Enum>, base: Path, i: nat): seq<Node>
    decreases |es|
  {
    if es == [] then []
    else
      [Plain(base + [i, 3], ENUM, es[0].options)] + ListNodes(ENUM_VALUE, es[0].values, base + [i], 2, 0, 3)
      + EnumNodes(es[1..], base, i + 1)
  }

  function MessagesNodes(ms: seq<MessageDesc>, base: Path, i: nat): seq<Node>
    decreases ms
  {
    if ms == [] then [] else MessageNodes(ms[0], base + [i]) + MessagesNodes(ms[1..], base, i + 1)
  }

  function MessageNodes(m: MessageDesc, path: Path): seq<Node>
    decreases m
  {
    [Plain(path + [7], MESSAGE, m.options)]
    + ListNodes(FIELD, m.fields, path, 2, 0, 8)
    + ListNodes(ONEOF, m.oneofs, path, 8, 0, 2)
    + RangeNodes(m.ranges, path, 0)
    + ListNodes(FIELD, m.extensions, path, 6, 0, 8)
    + EnumNodes(m.enums, path + [4], 0)
    + MessagesNodes(m.nested, path + [3], 0)
  }

  function ServiceNodes(ss: seq<Service>, i: nat): seq<Node>
    decreases |ss|
  {
    if ss == [] then []
    else
      [Plain([6, i, 3], SERVICE, ss[0].options)] + ListNodes(METHOD, ss[0].methods, [6, i], 2, 0, 4)
      + ServiceNodes(ss[1..], i + 1)
  }

  function FileNodes(fd: File): seq<Node> {
    [Plain([8], FILE, fd.options)]
    + MessagesNodes(fd.messages, [4], 0)
    + EnumNodes(fd.enums, [5], 0)
    + ServiceNodes(fd.services, 0)
    + ListNodes(FIELD, fd.extensions, [], 7, 0, 8)
  }

  // ---------------------------------------------------------------------------
  // The paths the passes collect

  predicate IsMethod(n: Node) {
    n.Plain? && n.owner == METHOD
  }

  /** The path the strip records for the options: for those of a method it is the path of the output type. */
  function Recorded(n: Node): Path {
    if IsMethod(n) && |n.path| > 0 then n.path[..|n.path| - 1] + [3] else n.path
  }

  /** The field number of the features within the options. */
  function FeaturesNum(n: Node): int {
    if n.Range? || n.owner == FILE then 50
    else if n.owner == MESSAGE then 12
    else if n.owner == FIELD then 21
    else if n.owner == ONEOF then 1
    else if n.owner == ENUM then 7
    else if n.owner == ENUM_VALUE then 2
    else if n.owner == SERVICE then 34
    else 35
  }

  function Emptied(n: Node): seq<Path> {
    if n.Range? && n.range.Some? && ClearRange(n.range).None? then [n.path] else []
  }

  /** What stripping the unknown fields of the options does, once the range options are cleared. */
  function UnknownOutcome(r: Retention, n: Node): Outcome {
    var none := Outcome([], [], false);
    match n
    case Plain(_, owner, o) => if o.Some? then StripEncoded(r, owner, o.value.unknown) else none
    case Range(_, o) =>
      var left := ClearRange(o);
      if left.Some? then StripEncoded(r, RANGE, left.value.common.unknown) else none
  }

  /** The node after the first two passes; the second is not made when there is nothing to strip. */
  function Stripped(r: Retention, n: Node): Node {
    match n
    case Plain(path, owner, o) => Plain(path, owner, if |r.strip| == 0 then o else StripOptions(r, owner, o))
    case Range(path, o) => Range(path, if |r.strip| == 0 then ClearRange(o) else StripRange(r, ClearRange(o)))
  }

  predicate HasOptions(n: Node) {
    if n.Plain? then n.options.Some? else n.range.Some?
  }

  function Each(base: Path, nums: seq<int>): seq<Path> {
    if nums == [] then [] else [base + [nums[0]]] + Each(base, nums[1..])
  }

  function Unknown(r: Retention, n: Node): seq<Path> {
    var out := UnknownOutcome(r, n);
    if |r.strip| == 0 || !out.changed then []
    else Each(Recorded(n), out.dropped) + (if HasOptions(Stripped(r, n)) then [] else [Recorded(n)])
  }

  function FeaturesOf(n: Node): set<int> {
    var o := if n.Plain? then n.options else if n.range.Some? then Some(n.range.value.common) else None;
    if o.Some? && o.value.features.Some? then o.value.features.value else {}
  }

  /** nums: the source-retention features, in whatever order the pass looks for them. */
  function Features(r: Retention, nums: seq<int>, n: Node): seq<Path> {
    if nums == [] then []
    else
      (if nums[0] in FeaturesOf(Stripped(r, n)) then [n.path + [FeaturesNum(n), nums[0]]] else [])
      + Features(r, nums[1..], n)
  }

  function Collect(ns: seq<Node>, paths: Node -> seq<Path>): seq<Path> {
    if ns == [] then [] else paths(ns[0]) + Collect(ns[1..], paths)
  }

  function ToSet(nums: seq<int>): set<int> {
    set n | n in nums
  }

  // ---------------------------------------------------------------------------
  // Filtering

  /** path is the verification field of some extension range's options, or below it. */
  predicate VerificationAt(path: Path, depth: nat) {
    && 2 * depth + 6 <= |path|
    && path[0] == 4
    && (forall k :: 0 <= k < depth ==> path[2 * k + 2] == 3)
    && path[2 * depth + 2] == 5 && path[2 * depth + 4] == 3 && path[2 * depth + 5] == 3
  }

  ghost predicate Verification(path: Path) {
    exists depth: nat :: VerificationAt(path, depth)
  }

  method IsVerificationPath(path: Path) returns (found: bool)
    ensures found <==> Verification(path)
  {
    if |path| < 6 || path[0] != 4 {
      assert forall depth: nat :: !VerificationAt(path, depth);
      return false;
    }
    var i := 2;
    ghost var depth := 0;
    while i + 3 < |path|
      invariant i == 2 * depth + 2 <= |path|
      invariant forall k :: 0 <= k < depth ==> path[2 * k + 2] == 3
      invariant forall d: nat :: d < depth ==> !VerificationAt(path, d)
    {
      if path[i] == 5 && path[i + 2] == 3 && path[i + 3] == 3 {
        assert VerificationAt(path, depth);
        return true;
      }
      if path[i] == 3 {
        i := i + 2;
        depth := depth + 1;
      } else {
        assert forall d: nat :: d > depth ==> path[2 * depth + 2] != 3 && !VerificationAt(path, d);
        return false;
      }
    }
    assert forall d: nat :: d >= depth ==> !VerificationAt(path, d);
    found := false;
  }

  predicate Under(path: Path, ps: seq<Path>) {
    exists p <- ps :: p <= path
  }

  method IsUnder(path: Path, ps: seq<Path>) returns (found: bool)
    ensures found <==> Under(path, ps)
  {
    for k := 0 to |ps|
      invariant forall i :: 0 <= i < k ==> !(ps[i] <= path)
    {
      if |path| >= |ps[k]| {
        var prefix := PathPrefix(path, ps[k]);
        if prefix {
          assert ps[k] in ps;
          return true;
        }
      }
    }
    found := false;
  }

  method PathIn(path: Path, ps: seq<Path>) returns (found: bool)
    ensures found <==> path in ps
  {
    for k := 0 to |ps|
      invariant path !in ps[..k]
    {
      if |ps[k]| == |path| {
        var prefix := PathPrefix(path, ps[k]);
        if prefix {
          assert ps[k] == path;
          return true;
        }
      }
    }
    found := false;
  }

  method PathPrefix(path: Path, prefix: Path) returns (same: bool)
    requires |prefix| <= |path|
    ensures same <==> prefix <= path
  {
    for k := 0 to |prefix|
      invariant prefix[..k] == path[..k]
    {
      if path[k] != prefix[k] {
        return false;
      }
    }
    same := true;
  }

  ghost predicate Goes(path: Path, emptied: seq<Path>, stripped: seq<Path>, features: seq<Path>) {
    Verification(path) || Under(path, emptied) || Under(path, stripped) || path in features
  }

  ghost function Remaining(
    locs: seq<Location>, emptied: seq<Path>, stripped: seq<Path>, features: seq<Path>): seq<Location>
  {
    if locs == [] then []
    else
      (if Goes(locs[0].path, emptied, stripped, features) then [] else [locs[0]])
      + Remaining(locs[1..], emptied, stripped, features)
  }

  /** The filter of stripSourceRetention. */
  method FilterLocations(locs: seq<Location>, emptied: seq<Path>, stripped: seq<Path>, features: seq<Path>)
    returns (filtered: seq<Location>)
    ensures filtered == Remaining(locs, emptied, stripped, features)
  {
    hide Goes;
    filtered := [];
    var i := 0;
    assert locs[0..] == locs;
    while i < |locs|
      invariant 0 <= i <= |locs|
      invariant Remaining(locs, emptied, stripped, features)
             == filtered + Remaining(locs[i..], emptied, stripped, features)
    {
      assert locs[i..][0] == locs[i] && locs[i..][1..] == locs[i + 1..];
      RemainingStep(locs[i..], emptied, stripped, features, filtered);
      var goes := PathGoes(locs[i].path, emptied, stripped, features);
      if !goes {
        filtered := filtered + [locs[i]];
      }
      i := i + 1;
    }
    assert locs[i..] == [];
  }

  method PathGoes(path: Path, emptied: seq<Path>, stripped: seq<Path>, features: seq<Path>) returns (goes: bool)
    ensures goes <==> Goes(path, emptied, stripped, features)
  {
    goes := IsVerificationPath(path);
    if !goes {
      goes := IsUnder(path, emptied);
    }
    if !goes {
      goes := IsUnder(path, stripped);
    }
    if !goes {
      goes := PathIn(path, features);
    }
  }

  lemma {:induction false} RemainingStep(
    locs: seq<Location>, emptied: seq<Path>, stripped: seq<Path>, features: seq<Path>, done: seq<Location>)
    requires locs != []
    ensures
      done + Remaining(locs, emptied, stripped, features) ==
      (if Goes(locs[0].path, emptied, stripped, features) then done else done + [locs[0]])
      + Remaining(locs[1..], emptied, stripped, features)
  {
    hide Goes;
    var rest := Remaining(locs[1..], emptied, stripped, features);
    assert done + ([] + rest) == done + rest;
    assert done + ([locs[0]] + rest) == (done + [locs[0]]) + rest;
  }

  /** A path whose location is removed along with what the strip takes out of fd. */
  ghost predicate Removed(r: Retention, nums: seq<int>, fd: File, path: Path) {
    Goes(path, Collect(FileNodes(fd), Emptied), Collect(FileNodes(fd), n => Unknown(r, n)),
         Collect(FileNodes(fd), n => Features(r, nums, n)))
  }

  // ---------------------------------------------------------------------------
  // What the lists contain

  lemma {:induction false} InCollect(ns: seq<Node>, paths: Node -> seq<Path>, p: Path)
    ensures p in Collect(ns, paths) <==> exists n <- ns :: p in paths(n)
  {
    if ns != [] {
      InCollect(ns[1..], paths, p);
      assert ns == [ns[0]] + ns[1..];
    }
  }

  lemma {:induction false} InEach(base: Path, nums: seq<int>, p: Path)
    ensures p in Each(base, nums) <==> exists i :: 0 <= i < |nums| && p == base + [nums[i]]
  {
    if nums != [] {
      InEach(base, nums[1..], p);
      assert forall i :: 0 <= i < |nums[1..]| ==> nums[1..][i] == nums[i + 1];
      if exists i :: 0 <= i < |nums| && p == base + [nums[i]] {
        var i :| 0 <= i < |nums| && p == base + [nums[i]];
        assert i > 0 ==> nums[1..][i - 1] == nums[i];
      }
    }
  }

  /** The paths of a node's features. */
  lemma {:induction false} InFeatures(r: Retention, nums: seq<int>, n: Node, p: Path)
    ensures p in Features(r, nums, n) ==>
      && |p| == |n.path| + 2 && n.path <= p
      && p[|p| - 1] in nums && p[|p| - 1] in FeaturesOf(Stripped(r, n))
    decreases |nums|
  {
    hide FeaturesOf, Stripped, FeaturesNum;
    if nums != [] {
      InFeatures(r, nums[1..], n, p);
    }
  }

  // ---------------------------------------------------------------------------
  // A question asked of the descriptor is asked of its nodes.

  predicate AskNode(c: Check, n: Node) {
    if n.Plain? then Ask(c, n.owner, n.options) else AskRange(c, n.range)
  }

  ghost predicate AnyNode(c: Check, ns: seq<Node>) {
    exists n <- ns :: AskNode(c, n)
  }

  lemma {:induction false} AnyJoin(c: Check, a: seq<Node>, b: seq<Node>)
    ensures AnyNode(c, a + b) <==> AnyNode(c, a) || AnyNode(c, b)
  {
    hide AskNode;
    assert forall n :: n in a + b <==> n in a || n in b;
  }

  lemma {:induction false} AnyFirst(c: Check, n: Node, ns: seq<Node>)
    ensures AnyNode(c, [n] + ns) <==> AskNode(c, n) || AnyNode(c, ns)
  {
    hide AskNode;
    assert forall m :: m in [n] + ns <==> m == n || m in ns;
  }

  lemma {:induction false} ListAsked(
    c: Check, owner: string, os: seq<Option<Options>>, base: Path, field: int, i: nat, num: int)
    ensures AnyOf(c, owner, os) <==> AnyNode(c, ListNodes(owner, os, base, field, i, num))
    decreases |os|
  {
    hide Ask, AnyNode;
    if os == [] {
      NoneAsked(c);
    } else {
      ListAsked(c, owner, os[1..], base, field, i + 1, num);
      AnyFirst(c, Plain(base + [field, i, num], owner, os[0]), ListNodes(owner, os[1..], base, field, i + 1, num));
    }
  }

  lemma {:induction false} NoneAsked(c: Check)
    ensures !AnyNode(c, [])
  {
  }

  lemma {:induction false} RangesAsked(c: Check, os: seq<Option<RangeOptions>>, base: Path, i: nat)
    ensures AnyRange(c, os) <==> AnyNode(c, RangeNodes(os, base, i))
    decreases |os|
  {
    hide AskRange, AnyNode;
    if os == [] {
      NoneAsked(c);
    } else {
      RangesAsked(c, os[1..], base, i + 1);
      AnyFirst(c, Range(base + [5, i, 3], os[0]), RangeNodes(os[1..], base, i + 1));
    }
  }

  lemma {:induction false} EnumsAsked(c: Check, es: seq<Enum>, base: Path, i: nat)
    ensures AnyEnum(c, es) <==> AnyNode(c, EnumNodes(es, base, i))
    decreases |es|
  {
    hide Ask, AnyNode, AnyOf, ListNodes;
    if es == [] {
      NoneAsked(c);
    } else {
      var first := Plain(base + [i, 3], ENUM, es[0].options);
      var values := ListNodes(ENUM_VALUE, es[0].values, base + [i], 2, 0, 3);
      ListAsked(c, ENUM_VALUE, es[0].values, base + [i], 2, 0, 3);
      EnumsAsked(c, es[1..], base, i + 1);
      AnyFirst(c, first, values);
      AnyJoin(c, [first] + values, EnumNodes(es[1..], base, i + 1));
    }
  }

  lemma {:induction false} ServicesAsked(c: Check, ss: seq<Service>, i: nat)
    ensures AnyService(c, ss) <==> AnyNode(c, ServiceNodes(ss, i))
    decreases |ss|
  {
    hide Ask, AnyNode, AnyOf, ListNodes;
    if ss == [] {
      NoneAsked(c);
    } else {
      var first := Plain([6, i, 3], SERVICE, ss[0].options);
      var methods := ListNodes(METHOD, ss[0].methods, [6, i], 2, 0, 4);
      ListAsked(c, METHOD, ss[0].methods, [6, i], 2, 0, 4);
      ServicesAsked(c, ss[1..], i + 1);
      AnyFirst(c, first, methods);
      AnyJoin(c, [first] + methods, ServiceNodes(ss[1..], i + 1));
    }
  }

  lemma {:induction false} MessagesAsked(c: Check, ms: seq<MessageDesc>, base: Path, i: nat)
    ensures AnyMessage(c, ms) <==> AnyNode(c, MessagesNodes(ms, base, i))
    decreases ms
  {
    hide AnyNode, InMessage, MessageNodes;
    if ms == [] {
      NoneAsked(c);
    } else {
      MessageAsked(c, ms[0], base + [i]);
      MessagesAsked(c, ms[1..], base, i + 1);
      AnyJoin(c, MessageNodes(ms[0], base + [i]), MessagesNodes(ms[1..], base, i + 1));
    }
  }

  lemma {:induction false} MessageAsked(c: Check, m: MessageDesc, path: Path)
    ensures InMessage(c, m) <==> AnyNode(c, MessageNodes(m, path))
    decreases m
  {
    hide Ask, AnyNode, AnyOf, AnyRange, AnyEnum, AnyMessage, ListNodes, RangeNodes, EnumNodes, MessagesNodes;
    var o := Plain(path + [7], MESSAGE, m.options);
    var a, b := ListNodes(FIELD, m.fields, path, 2, 0, 8), ListNodes(ONEOF, m.oneofs, path, 8, 0, 2);
    var d, e := RangeNodes(m.ranges, path, 0), ListNodes(FIELD, m.extensions, path, 6, 0, 8);
    var g, h := EnumNodes(m.enums, path + [4], 0), MessagesNodes(m.nested, path + [3], 0);
    ListAsked(c, FIELD, m.fields, path, 2, 0, 8);
    ListAsked(c, ONEOF, m.oneofs, path, 8, 0, 2);
    RangesAsked(c, m.ranges, path, 0);
    ListAsked(c, FIELD, m.extensions, path, 6, 0, 8);
    EnumsAsked(c, m.enums, path + [4], 0);
    MessagesAsked(c, m.nested, path + [3], 0);
    AnyFirst(c, o, a);
    AnyJoin(c, [o] + a, b);
    AnyJoin(c, [o] + a + b, d);
    AnyJoin(c, [o] + a + b + d, e);
    AnyJoin(c, [o] + a + b + d + e, g);
    AnyJoin(c, [o] + a + b + d + e + g, h);
  }

  lemma {:induction false} FileAsked(c: Check, fd: File)
    ensures InFile(c, fd) <==> AnyNode(c, FileNodes(fd))
  {
    hide Ask, AnyNode, AnyOf, AnyEnum, AnyMessage, AnyService, ListNodes, EnumNodes, MessagesNodes, ServiceNodes;
    var o := Plain([8], FILE, fd.options);
    var a, b := MessagesNodes(fd.messages, [4], 0), EnumNodes(fd.enums, [5], 0);
    var d, e := ServiceNodes(fd.services, 0), ListNodes(FIELD, fd.extensions, [], 7, 0, 8);
    MessagesAsked(c, fd.messages, [4], 0);
    EnumsAsked(c, fd.enums, [5], 0);
    ServicesAsked(c, fd.services, 0);
    ListAsked(c, FIELD, fd.extensions, [], 7, 0, 8);
    AnyFirst(c, o, a);
    AnyJoin(c, [o] + a, b);
    AnyJoin(c, [o] + a + b, d);
    AnyJoin(c, [o] + a + b + d, e);
  }

  // ---------------------------------------------------------------------------
  // A file handed on uncopied

  /** Nothing is collected at a node that trips none of the checks. */
  lemma {:induction false} QuietNode(r: Retention, nums: seq<int>, n: Node)
    requires !AskNode(RangeOptionsPresent, n)
    requires !AskNode(SourceUnknown(r), n) && !AskNode(SourceFeature(ToSet(nums)), n)
    ensures Emptied(n) == [] && Unknown(r, n) == [] && Features(r, nums, n) == []
  {
    hide StripEncoded;
    assert Stripped(r, n) == n;
    FeaturesMeet(r, nums, n);
  }

  lemma {:induction false} FeaturesMeet(r: Retention, nums: seq<int>, n: Node)
    ensures Features(r, nums, n) != [] ==> FeaturesOf(Stripped(r, n)) * ToSet(nums) != {}
    decreases |nums|
  {
    hide FeaturesOf, Stripped, FeaturesNum;
    if nums != [] {
      FeaturesMeet(r, nums[1..], n);
      var here := FeaturesOf(Stripped(r, n));
      assert here * ToSet(nums[1..]) <= here * ToSet(nums);
      if nums[0] in here {
        assert nums[0] in here * ToSet(nums);
      }
    }
  }

  lemma {:induction false} CollectNothing(ns: seq<Node>, paths: Node -> seq<Path>)
    requires forall n <- ns :: paths(n) == []
    ensures Collect(ns, paths) == []
  {
    if ns != [] {
      CollectNothing(ns[1..], paths);
    }
  }

  /** With nothing collected only verification paths go. */
  lemma {:induction false} UncopiedKeeps(r: Retention, nums: seq<int>, fd: File, path: Path)
    requires !NeedsClone(r, ToSet(nums), fd)
    ensures Removed(r, nums, fd, path) <==> Verification(path)
  {
    hide AskNode, FileNodes, Emptied, Unknown, Features, InFile, Ask, AskRange, AnyMessage, Verification;
    var ns := FileNodes(fd);
    SkippedChecks(r, ToSet(nums), fd);
    FileAsked(RangeOptionsPresent, fd);
    FileAsked(SourceUnknown(r), fd);
    FileAsked(SourceFeature(ToSet(nums)), fd);
    forall n <- ns
      ensures Emptied(n) == [] && Unknown(r, n) == [] && Features(r, nums, n) == []
    {
      QuietNode(r, nums, n);
    }
    CollectNothing(ns, Emptied);
    CollectNothing(ns, n => Unknown(r, n));
    CollectNothing(ns, n => Features(r, nums, n));
  }

  /** Nothing goes exactly when no path goes. */
  lemma {:induction false} AllRemain(
    locs: seq<Location>, emptied: seq<Path>, stripped: seq<Path>, features: seq<Path>)
    ensures |Remaining(locs, emptied, stripped, features)| <= |locs|
    ensures Remaining(locs, emptied, stripped, features) == locs
       <==> forall loc <- locs :: !Goes(loc.path, emptied, stripped, features)
  {
    hide Goes;
    if locs != [] {
      AllRemain(locs[1..], emptied, stripped, features);
      assert locs == [locs[0]] + locs[1..];
    }
  }

  /**
   Not copying a file also leaves the locations as the filter would have, unless one
   points to the verification of an extension range that has no options.
   */
  lemma {:induction false} NoCopyLocations(r: Retention, nums: seq<int>, fd: File, locs: seq<Location>)
    requires !NeedsClone(r, ToSet(nums), fd)
    ensures
      var ns := FileNodes(fd);
      Remaining(locs, Collect(ns, Emptied), Collect(ns, n => Unknown(r, n)), Collect(ns, n => Features(r, nums, n)))
      == locs
      <==> forall loc <- locs :: !Verification(loc.path)
  {
    hide Goes, Remaining, NeedsClone, FileNodes, Collect, Unknown, Features, Emptied, Verification;
    var ns := FileNodes(fd);
    AllRemain(locs, Collect(ns, Emptied), Collect(ns, n => Unknown(r, n)), Collect(ns, n => Features(r, nums, n)));
    forall loc <- locs
      ensures Removed(r, nums, fd, loc.path) <==> Verification(loc.path)
    {
      UncopiedKeeps(r, nums, fd, loc.path);
    }
  }

  // ---------------------------------------------------------------------------
  // Where the nodes are

  /** Only services and methods are below 6, and which of them is told by the path. */
  predicate Placed(n: Node) {
    && |n.path| > 0
    && (IsMethod(n) ==> |n.path| == 5 && n.path[0] == 6 && n.path[2] == 2 && n.path[4] == 4)
    && (n.path[0] == 6 && !IsMethod(n) ==> |n.path| == 3 && n.path[2] == 3)
  }

  ghost predicate AllPlaced(ns: seq<Node>) {
    forall n <- ns :: Placed(n)
  }

  /** Below another number than 6. */
  ghost predicate Elsewhere(ns: seq<Node>) {
    forall n <- ns :: |n.path| > 0 && n.path[0] != 6 && !IsMethod(n)
  }

  lemma {:induction false} OwnersDiffer()
    ensures METHOD !in [FILE, MESSAGE, FIELD, ONEOF, ENUM, ENUM_VALUE, SERVICE]
  {
    assert |METHOD| == 30 && |FILE| == |ENUM| == 28 && |FIELD| == |ONEOF| == 29;
    assert |MESSAGE| == |SERVICE| == 31 && |ENUM_VALUE| == 33;
  }

  lemma {:induction false} ListElsewhere(
    owner: string, os: seq<Option<Options>>, base: Path, field: int, i: nat, num: int)
    requires owner != METHOD && (base + [field])[0] != 6
    ensures Elsewhere(ListNodes(owner, os, base, field, i, num))
    decreases |os|
  {
    if os != [] {
      ListElsewhere(owner, os[1..], base, field, i + 1, num);
      assert (base + [field, i, num])[0] == (base + [field])[0];
    }
  }

  lemma {:induction false} RangesElsewhere(os: seq<Option<RangeOptions>>, base: Path, i: nat)
    requires base != [] && base[0] != 6
    ensures Elsewhere(RangeNodes(os, base, i))
    decreases |os|
  {
    if os != [] {
      RangesElsewhere(os[1..], base, i + 1);
    }
  }

  lemma {:induction false} EnumsElsewhere(es: seq<Enum>, base: Path, i: nat)
    requires base != [] && base[0] != 6
    ensures Elsewhere(EnumNodes(es, base, i))
    decreases |es|
  {
    hide ListNodes;
    if es != [] {
      OwnersDiffer();
      ListElsewhere(ENUM_VALUE, es[0].values, base + [i], 2, 0, 3);
      EnumsElsewhere(es[1..], base, i + 1);
    }
  }

  lemma {:induction false} MessagesElsewhere(ms: seq<MessageDesc>, base: Path, i: nat)
    requires base != [] && base[0] != 6
    ensures Elsewhere(MessagesNodes(ms, base, i))
    decreases ms
  {
    hide MessageNodes;
    if ms != [] {
      MessageElsewhere(ms[0], base + [i]);
      MessagesElsewhere(ms[1..], base, i + 1);
    }
  }

  lemma {:induction false} MessageElsewhere(m: MessageDesc, path: Path)
    requires path != [] && path[0] != 6
    ensures Elsewhere(MessageNodes(m, path))
    decreases m
  {
    hide ListNodes, RangeNodes, EnumNodes, MessagesNodes;
    OwnersDiffer();
    ListElsewhere(FIELD, m.fields, path, 2, 0, 8);
    ListElsewhere(ONEOF, m.oneofs, path, 8, 0, 2);
    RangesElsewhere(m.ranges, path, 0);
    ListElsewhere(FIELD, m.extensions, path, 6, 0, 8);
    EnumsElsewhere(m.enums, path + [4], 0);
    MessagesElsewhere(m.nested, path + [3], 0);
  }

  lemma {:induction false} MethodsPlaced(os: seq<Option<Options>>, s: nat, i: nat)
    ensures AllPlaced(ListNodes(METHOD, os, [6, s], 2, i, 4))
    decreases |os|
  {
    if os != [] {
      MethodsPlaced(os[1..], s, i + 1);
      assert [6, s] + [2, i, 4] == [6, s, 2, i, 4];
    }
  }

  lemma {:induction false} ServicesPlaced(ss: seq<Service>, i: nat)
    ensures AllPlaced(ServiceNodes(ss, i))
    decreases |ss|
  {
    hide ListNodes;
    if ss != [] {
      OwnersDiffer();
      MethodsPlaced(ss[0].methods, i, 0);
      ServicesPlaced(ss[1..], i + 1);
    }
  }

  lemma {:induction false} FilePlaced(fd: File)
    ensures AllPlaced(FileNodes(fd))
  {
    hide ListNodes, EnumNodes, MessagesNodes, ServiceNodes;
    OwnersDiffer();
    MessagesElsewhere(fd.messages, [4], 0);
    EnumsElsewhere(fd.enums, [5], 0);
    ServicesPlaced(fd.services, 0);
    ListElsewhere(FIELD, fd.extensions, [], 7, 0, 8);
  }

  // ---------------------------------------------------------------------------
  // A removed option and its location

  /** The locations of a method's options stay, those of source-retention features apart. */
  lemma {:induction false} MethodOptionsStay(r: Retention, nums: seq<int>, fd: File, path: Path)
    requires 5 <= |path| <= 6 && path[0] == 6 && path[2] == 2 && path[4] == 4
    ensures !Removed(r, nums, fd, path)
  {
    hide FileNodes, Collect, Features, Unknown, Emptied, Placed, Each, StripEncoded;
    var ns := FileNodes(fd);
    var unknown := Collect(ns, n => Unknown(r, n));
    FilePlaced(fd);
    assert !Under(path, Collect(ns, Emptied)) by {
      forall p | p in Collect(ns, Emptied)
        ensures !(p <= path)
      {
        InCollect(ns, Emptied, p);
        var n :| n in ns && p in Emptied(n);
        EmptiedElsewhere(n, p, path);
      }
    }
    assert !Under(path, unknown) by {
      forall p | p in unknown
        ensures !(p <= path)
      {
        InCollect(ns, n => Unknown(r, n), p);
        var n :| n in ns && p in Unknown(r, n);
        UnknownElsewhere(r, n, p, path);
      }
    }
    if path in Collect(ns, n => Features(r, nums, n)) {
      InCollect(ns, n => Features(r, nums, n), path);
      var n :| n in ns && path in Features(r, nums, n);
      FeaturesElsewhere(r, nums, n, path);
    }
  }

  lemma {:induction false} EmptiedElsewhere(n: Node, p: Path, path: Path)
    requires Placed(n) && p in Emptied(n)
    requires |path| >= 5 && path[0] == 6 && path[2] == 2 && path[4] == 4
    ensures !(p <= path)
  {
  }

  lemma {:induction false} UnknownElsewhere(r: Retention, n: Node, p: Path, path: Path)
    requires Placed(n) && p in Unknown(r, n)
    requires |path| >= 5 && path[0] == 6 && path[2] == 2 && path[4] == 4
    ensures !(p <= path)
  {
    hide UnknownOutcome, Stripped;
    var out := UnknownOutcome(r, n);
    InEach(Recorded(n), out.dropped, p);
    assert Recorded(n) <= p;
  }

  lemma {:induction false} FeaturesElsewhere(r: Retention, nums: seq<int>, n: Node, path: Path)
    requires Placed(n) && |path| <= 6 && |path| > 2 && path[0] == 6 && path[2] == 2
    ensures path !in Features(r, nums, n)
  {
    hide Features;
    InFeatures(r, nums, n, path);
  }

  lemma {:induction false} RecordedGoes(r: Retention, nums: seq<int>, fd: File, n: Node, p: Path)
    requires n in FileNodes(fd) && p in Unknown(r, n)
    ensures Removed(r, nums, fd, p)
  {
    hide FileNodes, Collect, Features, Unknown, Emptied, Verification;
    var ns := FileNodes(fd);
    InCollect(ns, n => Unknown(r, n), p);
    assert p <= p;
  }

  /**
   The location of a dropped option goes with it, except in the options of a method:
   their field is 4, and the strip records 3.
   */
  lemma {:induction false} OptionLocationGoes(r: Retention, nums: seq<int>, fd: File, n: Node, i: nat)
    requires n in FileNodes(fd) && |r.strip| != 0
    requires UnknownOutcome(r, n).changed && i < |UnknownOutcome(r, n).dropped|
    ensures Removed(r, nums, fd, n.path + [UnknownOutcome(r, n).dropped[i]]) <==> !IsMethod(n)
  {
    hide FileNodes, Removed, UnknownOutcome, Stripped;
    var out := UnknownOutcome(r, n);
    var p := n.path + [out.dropped[i]];
    FilePlaced(fd);
    assert Placed(n);
    if IsMethod(n) {
      MethodOptionsStay(r, nums, fd, p);
    } else {
      InEach(Recorded(n), out.dropped, p);
      RecordedGoes(r, nums, fd, n, p);
    }
  }

  /**
   The location of options that are stripped to nothing goes with them, except for a
   method, which keeps it and loses the location of its output type.
   */
  lemma {:induction false} EmptiedLocationGoes(r: Retention, nums: seq<int>, fd: File, n: Node)
    requires n in FileNodes(fd) && HasOptions(n) && !HasOptions(Stripped(r, n))
    ensures Removed(r, nums, fd, n.path) <==> !IsMethod(n)
    ensures IsMethod(n) ==> |n.path| == 5 && Removed(r, nums, fd, n.path[..4] + [3])
  {
    hide FileNodes, Removed, StripEncoded;
    FilePlaced(fd);
    assert Placed(n);
    NothingLeft(r, n);
    if n.path in Emptied(n) {
      EmptiedGoes(r, nums, fd, n);
    } else {
      RecordedGoes(r, nums, fd, n, Recorded(n));
    }
    if IsMethod(n) {
      MethodOptionsStay(r, nums, fd, n.path);
    }
  }

  lemma {:induction false} NothingLeft(r: Retention, n: Node)
    requires HasOptions(n) && !HasOptions(Stripped(r, n))
    ensures n.path in Emptied(n) || Recorded(n) in Unknown(r, n)
    ensures IsMethod(n) ==> n.path !in Emptied(n)
  {
    hide StripEncoded, Recorded, Each;
  }

  lemma {:induction false} EmptiedGoes(r: Retention, nums: seq<int>, fd: File, n: Node)
    requires n in FileNodes(fd) && n.path in Emptied(n)
    ensures Removed(r, nums, fd, n.path)
  {
    hide FileNodes, Collect, Features, Unknown, Emptied, Verification;
    InCollect(FileNodes(fd), Emptied, n.path);
    assert n.path <= n.path;
  }

  /** A service with one method, whose one option is stripped. */
  function OneMethod(): File {
    File(None, [], [], [Service(None, [Some(Options(0, None, [0x08, 0x01]))])], [])
  }

  function MethodOption(): Retention {
    Retention(map[METHOD := {1}], map[])
  }

  /** The option goes and its location stays; the location of the output type goes. */
  lemma {:induction false} OutputTypeLocationLost()
    ensures StripOptions(MethodOption(), METHOD, OneMethod().services[0].methods[0]) == None
    ensures Removed(MethodOption(), [], OneMethod(), [6, 0, 2, 0, 3])
    ensures !Removed(MethodOption(), [], OneMethod(), [6, 0, 2, 0, 4])
    ensures !Removed(MethodOption(), [], OneMethod(), [6, 0, 2, 0, 4, 1])
  {
    hide Removed, StripEncoded, ListNodes;
    var r, fd := MethodOption(), OneMethod();
    var n := Plain([6, 0, 2, 0, 4], METHOD, Some(Options(0, None, [0x08, 0x01])));
    OneOptionDropped();
    assert n in FileNodes(fd) by {
      MethodNode(n);
    }
    assert METHOD in r.strip && |r.strip| != 0;
    EmptiedLocationGoes(r, [], fd, n);
    assert n.path[..4] + [3] == [6, 0, 2, 0, 3];
    MethodOptionsStay(r, [], fd, [6, 0, 2, 0, 4, 1]);
  }

  lemma {:induction false} MethodNode(n: Node)
    requires n == Plain([6, 0, 2, 0, 4], METHOD, OneMethod().services[0].methods[0])
    ensures n in FileNodes(OneMethod())
  {
    var fd := OneMethod();
    assert [6, 0] + [2, 0, 4] == [6, 0, 2, 0, 4];
    assert ListNodes(METHOD, fd.services[0].methods, [6, 0], 2, 0, 4)[0] == n;
    assert n in ServiceNodes(fd.services, 0);
  }

  lemma {:induction false} OneOptionDropped()
    ensures StripEncoded(MethodOption(), METHOD, [0x08, 0x01]) == Outcome([], [1], true)
  {
    var r, raw: Bytes := MethodOption(), [0x08, 0x01];
    assert VarintAt(raw, 0) == Some(Varint(8, 1));
    assert raw[1..] == [0x01];
    assert VarintAt(raw[1..], 0) == Some(Varint(1, 1));
    assert FieldLen(raw) == Some(2) && raw[..2] == raw && raw[2..] == [];
    assert StripFields(r, METHOD, []) == Outcome([], [], false);
    assert 1 in r.Stripped(METHOD);
    assert StripField(r, METHOD, raw) == Outcome([], [1], true);
  }
}
