/**
 Stripping a whole file descriptor, and the check that lets it skip copying one
 nothing would be stripped from. The strip makes three passes over the descriptor
 tree; the check looks at three conditions, each over its own set of nodes.

 known stands for the encoded size of the option fields the passes never touch.
 */
module DescriptorStrip {
  import opened Wrappers
  import opened Wire
  import opened SourceRetention
  import opened StripTheorems
  import opened RetentionPrune

  datatype Options = Options(known: nat, features: Option<set<int>>, unknown: Bytes) {
    predicate Empty() {
      known == 0 && features.None? && unknown == []
    }
  }

  datatype RangeOptions = RangeOptions(common: Options, verification: bool, declarations: nat) {
    predicate Empty() {
      common.Empty() && !verification && declarations == 0
    }
  }

  datatype Enum = Enum(options: Option<Options>, values: seq<Option<Options>>)

  datatype MessageDesc = MessageDesc(
    options: Option<Options>,
    fields: seq<Option<Options>>,
    oneofs: seq<Option<Options>>,
    ranges: seq<Option<RangeOptions>>,
    extensions: seq<Option<Options>>,
    enums: seq<Enum>,
    nested: seq<MessageDesc>)

  datatype Service = Service(options: Option<Options>, methods: seq<Option<Options>>)

  datatype File = File(
    options: Option<Options>,
    messages: seq<MessageDesc>,
    enums: seq<Enum>,
    services: seq<Service>,
    extensions: seq<Option<Options>>)

  const FILE := ".google.protobuf.FileOptions"
  const MESSAGE := ".google.protobuf.MessageOptions"
  const FIELD := ".google.protobuf.FieldOptions"
  const ONEOF := ".google.protobuf.OneofOptions"
  const RANGE := ".google.protobuf.ExtensionRangeOptions"
  const ENUM := ".google.protobuf.EnumOptions"
  const ENUM_VALUE := ".google.protobuf.EnumValueOptions"
  const SERVICE := ".google.protobuf.ServiceOptions"
  const METHOD := ".google.protobuf.MethodOptions"

  // ---------------------------------------------------------------------------
  // The passes.

  /** What one pass does to the options it visits; the last two are passes in sequence. */
  datatype Pass =
    | ClearRanges
    | StripUnknown(r: Retention)
    | StripFeatures(src: set<int>)
    | ClearThenStrip(r: Retention)
    | Full(r: Retention, src: set<int>)

  function StripOptions(r: Retention, owner: string, o: Option<Options>): Option<Options> {
    match o
    case None => None
    case Some(opts) =>
      var out := StripEncoded(r, owner, opts.unknown);
      if !out.changed then o
      else
        var left := opts.(unknown := out.kept);
        if |out.kept| == 0 && left.Empty() then None else Some(left)
  }

  function ClearFeatures(src: set<int>, o: Option<Options>): Option<Options> {
    if o.Some? && o.value.features.Some? then
      Some(o.value.(features := Some(o.value.features.value - src)))
    else o
  }

  function Apply(p: Pass, owner: string, o: Option<Options>): Option<Options> {
    match p
    case ClearRanges => o
    case StripUnknown(r) => StripOptions(r, owner, o)
    case StripFeatures(src) => ClearFeatures(src, o)
    case ClearThenStrip(r) => StripOptions(r, owner, o)
    case Full(r, src) => ClearFeatures(src, StripOptions(r, owner, o))
  }

  function ClearRange(o: Option<RangeOptions>): Option<RangeOptions> {
    match o
    case None => None
    case Some(opts) =>
      var left := opts.(verification := false, declarations := 0);
      if left.Empty() then None else Some(left)
  }

  function StripRange(r: Retention, o: Option<RangeOptions>): Option<RangeOptions> {
    match o
    case None => None
    case Some(opts) =>
      var out := StripEncoded(r, RANGE, opts.common.unknown);
      if !out.changed then o
      else
        var left := opts.(common := opts.common.(unknown := out.kept));
        if |out.kept| == 0 && left.Empty() then None else Some(left)
  }

  function ClearRangeFeatures(src: set<int>, o: Option<RangeOptions>): Option<RangeOptions> {
    match o
    case None => None
    case Some(opts) => Some(opts.(common := ClearFeatures(src, Some(opts.common)).value))
  }

  function ApplyRange(p: Pass, o: Option<RangeOptions>): Option<RangeOptions> {
    match p
    case ClearRanges => ClearRange(o)
    case StripUnknown(r) => StripRange(r, o)
    case StripFeatures(src) => ClearRangeFeatures(src, o)
    case ClearThenStrip(r) => StripRange(r, ClearRange(o))
    case Full(r, src) => ClearRangeFeatures(src, StripRange(r, ClearRange(o)))
  }

  function WalkAll(p: Pass, owner: string, os: seq<Option<Options>>): seq<Option<Options>> {
    if os == [] then [] else [Apply(p, owner, os[0])] + WalkAll(p, owner, os[1..])
  }

  function WalkRanges(p: Pass, os: seq<Option<RangeOptions>>): seq<Option<RangeOptions>> {
    if os == [] then [] else [ApplyRange(p, os[0])] + WalkRanges(p, os[1..])
  }

  function WalkEnums(p: Pass, es: seq<Enum>): seq<Enum> {
    if es == [] then []
    else [Enum(Apply(p, ENUM, es[0].options), WalkAll(p, ENUM_VALUE, es[0].values))] + WalkEnums(p, es[1..])
  }

  function WalkMessages(p: Pass, ms: seq<MessageDesc>): seq<MessageDesc>
    decreases ms
  {
    if ms == [] then [] else [WalkMessage(p, ms[0])] + WalkMessages(p, ms[1..])
  }

  function WalkMessage(p: Pass, m: MessageDesc): MessageDesc
    decreases m
  {
    MessageDesc(
      Apply(p, MESSAGE, m.options),
      WalkAll(p, FIELD, m.fields),
      WalkAll(p, ONEOF, m.oneofs),
      WalkRanges(p, m.ranges),
      WalkAll(p, FIELD, m.extensions),
      WalkEnums(p, m.enums),
      WalkMessages(p, m.nested))
  }

  function WalkServices(p: Pass, ss: seq<Service>): seq<Service> {
    if ss == [] then []
    else [Service(Apply(p, SERVICE, ss[0].options), WalkAll(p, METHOD, ss[0].methods))] + WalkServices(p, ss[1..])
  }

  function Walk(p: Pass, fd: File): File {
    File(
      Apply(p, FILE, fd.options),
      WalkMessages(p, fd.messages),
      WalkEnums(p, fd.enums),
      WalkServices(p, fd.services),
      WalkAll(p, FIELD, fd.extensions))
  }

  /** The full strip; a pass with nothing to look for is not made. */
  function StripFile(r: Retention, src: set<int>, fd: File): File {
    var cleared := Walk(ClearRanges, fd);
    var stripped := if |r.strip| == 0 then cleared else Walk(StripUnknown(r), cleared);
    if |src| == 0 then stripped else Walk(StripFeatures(src), stripped)
  }

  // ---------------------------------------------------------------------------
  // The checks.

  /** A question asked of nodes: the three checks, whether a pass changes it, and whether it is too long. */
  datatype Check =
    | RangeOptionsPresent
    | SourceUnknown(r: Retention)
    | SourceFeature(src: set<int>)
    | Changed(p: Pass)
    | TooLong
    | Never

  predicate Ask(c: Check, owner: string, o: Option<Options>) {
    match c
    case RangeOptionsPresent => false
    case SourceUnknown(r) => o.Some? && StripEncoded(r, owner, o.value.unknown).changed
    case SourceFeature(src) => o.Some? && o.value.features.Some? && o.value.features.value * src != {}
    case Changed(p) => Apply(p, owner, o) != o
    case TooLong => o.Some? && |o.value.unknown| >= MAX_LENGTH
    case Never => false
  }

  /** The check for source-retention unknowns does not visit extension ranges. */
  predicate AskRange(c: Check, o: Option<RangeOptions>) {
    match c
    case RangeOptionsPresent => o.Some?
    case SourceUnknown(r) => false
    case SourceFeature(src) => o.Some? && Ask(c, RANGE, Some(o.value.common))
    case Changed(p) => ApplyRange(p, o) != o
    case TooLong => o.Some? && |o.value.common.unknown| >= MAX_LENGTH
    case Never => false
  }

  predicate AnyOf(c: Check, owner: string, os: seq<Option<Options>>) {
    os != [] && (Ask(c, owner, os[0]) || AnyOf(c, owner, os[1..]))
  }

  predicate AnyRange(c: Check, os: seq<Option<RangeOptions>>) {
    os != [] && (AskRange(c, os[0]) || AnyRange(c, os[1..]))
  }

  predicate AnyEnum(c: Check, es: seq<Enum>) {
    es != [] && (Ask(c, ENUM, es[0].options) || AnyOf(c, ENUM_VALUE, es[0].values) || AnyEnum(c, es[1..]))
  }

  predicate AnyMessage(c: Check, ms: seq<MessageDesc>)
    decreases ms
  {
    ms != [] && (InMessage(c, ms[0]) || AnyMessage(c, ms[1..]))
  }

  predicate InMessage(c: Check, m: MessageDesc)
    decreases m
  {
    || Ask(c, MESSAGE, m.options)
    || AnyOf(c, FIELD, m.fields)
    || AnyOf(c, ONEOF, m.oneofs)
    || AnyRange(c, m.ranges)
    || AnyOf(c, FIELD, m.extensions)
    || AnyEnum(c, m.enums)
    || AnyMessage(c, m.nested)
  }

  predicate AnyService(c: Check, ss: seq<Service>) {
    ss != [] && (Ask(c, SERVICE, ss[0].options) || AnyOf(c, METHOD, ss[0].methods) || AnyService(c, ss[1..]))
  }

  predicate InFile(c: Check, fd: File) {
    || Ask(c, FILE, fd.options)
    || AnyMessage(c, fd.messages)
    || AnyEnum(c, fd.enums)
    || AnyService(c, fd.services)
    || AnyOf(c, FIELD, fd.extensions)
  }

  predicate NeedsClone(r: Retention, src: set<int>, fd: File) {
    || AnyMessage(RangeOptionsPresent, fd.messages)
    || (|r.strip| != 0 && InFile(SourceUnknown(r), fd))
    || (|src| != 0 && InFile(SourceFeature(src), fd))
  }

  /** The file handed on: itself when the checks find nothing, else a stripped copy. */
  function StripSourceRetention(r: Retention, src: set<int>, fd: File): File {
    if !NeedsClone(r, src, fd) then fd else StripFile(r, src, fd)
  }

  // ---------------------------------------------------------------------------
  // The three passes are one walk.

  /** q after p is what f does, at every node. */
  ghost predicate Composes(p: Pass, q: Pass, f: Pass) {
    && (forall owner, o :: Apply(q, owner, Apply(p, owner, o)) == Apply(f, owner, o))
    && (forall o :: ApplyRange(q, ApplyRange(p, o)) == ApplyRange(f, o))
  }

  lemma {:induction false} FuseAll(p: Pass, q: Pass, f: Pass, owner: string, os: seq<Option<Options>>)
    requires Composes(p, q, f)
    ensures WalkAll(q, owner, WalkAll(p, owner, os)) == WalkAll(f, owner, os)
  {
    hide Apply;
    if os != [] {
      FuseAll(p, q, f, owner, os[1..]);
    }
  }

  lemma {:induction false} FuseRanges(p: Pass, q: Pass, f: Pass, os: seq<Option<RangeOptions>>)
    requires Composes(p, q, f)
    ensures WalkRanges(q, WalkRanges(p, os)) == WalkRanges(f, os)
  {
    hide ApplyRange;
    if os != [] {
      FuseRanges(p, q, f, os[1..]);
    }
  }

  lemma {:induction false} FuseEnums(p: Pass, q: Pass, f: Pass, es: seq<Enum>)
    requires Composes(p, q, f)
    ensures WalkEnums(q, WalkEnums(p, es)) == WalkEnums(f, es)
  {
    hide Apply, WalkAll;
    if es != [] {
      FuseAll(p, q, f, ENUM_VALUE, es[0].values);
      FuseEnums(p, q, f, es[1..]);
    }
  }

  lemma {:induction false} FuseMessages(p: Pass, q: Pass, f: Pass, ms: seq<MessageDesc>)
    requires Composes(p, q, f)
    ensures WalkMessages(q, WalkMessages(p, ms)) == WalkMessages(f, ms)
    decreases ms
  {
    hide WalkMessage;
    if ms != [] {
      FuseMessage(p, q, f, ms[0]);
      FuseMessages(p, q, f, ms[1..]);
    }
  }

  lemma {:induction false} FuseMessage(p: Pass, q: Pass, f: Pass, m: MessageDesc)
    requires Composes(p, q, f)
    ensures WalkMessage(q, WalkMessage(p, m)) == WalkMessage(f, m)
    decreases m
  {
    hide Apply, ApplyRange, WalkAll, WalkRanges, WalkEnums, WalkMessages;
    FuseAll(p, q, f, FIELD, m.fields);
    FuseAll(p, q, f, ONEOF, m.oneofs);
    FuseRanges(p, q, f, m.ranges);
    FuseAll(p, q, f, FIELD, m.extensions);
    FuseEnums(p, q, f, m.enums);
    FuseMessages(p, q, f, m.nested);
  }

  lemma {:induction false} FuseServices(p: Pass, q: Pass, f: Pass, ss: seq<Service>)
    requires Composes(p, q, f)
    ensures WalkServices(q, WalkServices(p, ss)) == WalkServices(f, ss)
  {
    hide Apply, WalkAll;
    if ss != [] {
      FuseAll(p, q, f, METHOD, ss[0].methods);
      FuseServices(p, q, f, ss[1..]);
    }
  }

  lemma {:induction false} Fuse(p: Pass, q: Pass, f: Pass, fd: File)
    requires Composes(p, q, f)
    ensures Walk(q, Walk(p, fd)) == Walk(f, fd)
  {
    hide Apply, WalkAll, WalkEnums, WalkServices, WalkMessages;
    FuseMessages(p, q, f, fd.messages);
    FuseEnums(p, q, f, fd.enums);
    FuseServices(p, q, f, fd.services);
    FuseAll(p, q, f, FIELD, fd.extensions);
  }

  // ---------------------------------------------------------------------------
  // A skipped pass would have changed nothing.

  lemma {:induction false} NoStripFields(r: Retention, owner: string, buf: Bytes)
    requires r.strip == map[]
    ensures !StripEncoded(r, owner, buf).changed
  {
    hide StripEncoded;
    CleanUnchanged(r, owner, buf);
  }

  /** The full strip is one walk doing all three things at every node. */
  lemma {:induction false} StripFileIsWalk(r: Retention, src: set<int>, fd: File)
    ensures StripFile(r, src, fd) == Walk(Full(r, src), fd)
  {
    hide Walk, StripEncoded;
    var cleared := Walk(ClearRanges, fd);
    Fuse(ClearRanges, StripUnknown(r), ClearThenStrip(r), fd);
    Fuse(ClearThenStrip(r), StripFeatures(src), Full(r, src), fd);
    if |r.strip| == 0 {
      SkipUnknown(r, cleared);
    }
    if |src| == 0 {
      SkipFeatures(src, Walk(ClearThenStrip(r), fd));
    }
  }

  lemma {:induction false} SkipUnknown(r: Retention, fd: File)
    requires |r.strip| == 0
    ensures Walk(StripUnknown(r), fd) == fd
  {
    assert r.strip == map[];
    forall owner, o
      ensures !Ask(Changed(StripUnknown(r)), owner, o)
    {
      if o.Some? {
        NoStripFields(r, owner, o.value.unknown);
      }
    }
    forall o
      ensures !AskRange(Changed(StripUnknown(r)), o)
    {
      if o.Some? {
        NoStripFields(r, RANGE, o.value.common.unknown);
      }
    }
    IdleWalk(StripUnknown(r), fd);
  }

  lemma {:induction false} SkipFeatures(src: set<int>, fd: File)
    requires |src| == 0
    ensures Walk(StripFeatures(src), fd) == fd
  {
    assert src == {};
    forall o: Option<Options>
      ensures ClearFeatures(src, o) == o
    {
      if o.Some? && o.value.features.Some? {
        assert o.value.features.value - src == o.value.features.value;
      }
    }
    IdleWalk(StripFeatures(src), fd);
  }

  lemma {:induction false} IdleWalk(p: Pass, fd: File)
    requires forall owner, o :: !Ask(Changed(p), owner, o)
    requires forall o :: !AskRange(Changed(p), o)
    ensures Walk(p, fd) == fd
  {
    hide Ask, AskRange, Walk, InFile;
    WalkFixed(p, fd);
    Cover(Changed(p), [], fd);
  }

  // ---------------------------------------------------------------------------
  // A walk leaves the file alone exactly when it leaves every node alone.

  lemma {:induction false} AllFixed(p: Pass, owner: string, os: seq<Option<Options>>)
    ensures WalkAll(p, owner, os) == os <==> !AnyOf(Changed(p), owner, os)
  {
    hide Apply;
    if os != [] {
      AllFixed(p, owner, os[1..]);
      assert os == [os[0]] + os[1..];
      assert WalkAll(p, owner, os)[1..] == WalkAll(p, owner, os[1..]);
    }
  }

  lemma {:induction false} RangesFixed(p: Pass, os: seq<Option<RangeOptions>>)
    ensures WalkRanges(p, os) == os <==> !AnyRange(Changed(p), os)
  {
    hide ApplyRange;
    if os != [] {
      RangesFixed(p, os[1..]);
      assert os == [os[0]] + os[1..];
      assert WalkRanges(p, os)[1..] == WalkRanges(p, os[1..]);
    }
  }

  lemma {:induction false} EnumsFixed(p: Pass, es: seq<Enum>)
    ensures WalkEnums(p, es) == es <==> !AnyEnum(Changed(p), es)
  {
    hide Apply, WalkAll, AnyOf;
    if es != [] {
      AllFixed(p, ENUM_VALUE, es[0].values);
      EnumsFixed(p, es[1..]);
      assert es == [es[0]] + es[1..];
      assert WalkEnums(p, es)[1..] == WalkEnums(p, es[1..]);
    }
  }

  lemma {:induction false} ServicesFixed(p: Pass, ss: seq<Service>)
    ensures WalkServices(p, ss) == ss <==> !AnyService(Changed(p), ss)
  {
    hide Apply, WalkAll, AnyOf;
    if ss != [] {
      AllFixed(p, METHOD, ss[0].methods);
      ServicesFixed(p, ss[1..]);
      assert ss == [ss[0]] + ss[1..];
      assert WalkServices(p, ss)[1..] == WalkServices(p, ss[1..]);
    }
  }

  lemma {:induction false} MessagesFixed(p: Pass, ms: seq<MessageDesc>)
    ensures WalkMessages(p, ms) == ms <==> !AnyMessage(Changed(p), ms)
    decreases ms
  {
    hide WalkMessage, InMessage;
    if ms != [] {
      MessageFixed(p, ms[0]);
      MessagesFixed(p, ms[1..]);
      assert ms == [ms[0]] + ms[1..];
      assert WalkMessages(p, ms)[1..] == WalkMessages(p, ms[1..]);
    }
  }

  lemma {:induction false} MessageFixed(p: Pass, m: MessageDesc)
    ensures WalkMessage(p, m) == m <==> !InMessage(Changed(p), m)
    decreases m
  {
    hide Apply, ApplyRange, WalkAll, WalkRanges, WalkEnums, WalkMessages, AnyOf, AnyRange, AnyEnum, AnyMessage;
    AllFixed(p, FIELD, m.fields);
    AllFixed(p, ONEOF, m.oneofs);
    RangesFixed(p, m.ranges);
    AllFixed(p, FIELD, m.extensions);
    EnumsFixed(p, m.enums);
    MessagesFixed(p, m.nested);
  }

  lemma {:induction false} WalkFixed(p: Pass, fd: File)
    ensures Walk(p, fd) == fd <==> !InFile(Changed(p), fd)
  {
    hide Apply, WalkAll, WalkEnums, WalkServices, WalkMessages, AnyOf, AnyEnum, AnyService, AnyMessage;
    MessagesFixed(p, fd.messages);
    EnumsFixed(p, fd.enums);
    ServicesFixed(p, fd.services);
    AllFixed(p, FIELD, fd.extensions);
  }

  // ---------------------------------------------------------------------------
  // A question whose every positive node answers one of cs.

  ghost predicate Covers(c: Check, cs: seq<Check>) {
    && (forall owner, o :: Ask(c, owner, o) ==> exists d <- cs :: Ask(d, owner, o))
    && (forall o :: AskRange(c, o) ==> exists d <- cs :: AskRange(d, o))
  }

  lemma {:induction false} CoverAll(c: Check, cs: seq<Check>, owner: string, os: seq<Option<Options>>)
    requires Covers(c, cs) && AnyOf(c, owner, os)
    ensures exists d <- cs :: AnyOf(d, owner, os)
  {
    hide Ask, AskRange;
    if Ask(c, owner, os[0]) {
      var d :| d in cs && Ask(d, owner, os[0]);
      assert AnyOf(d, owner, os);
    } else {
      CoverAll(c, cs, owner, os[1..]);
      var d :| d in cs && AnyOf(d, owner, os[1..]);
      assert AnyOf(d, owner, os);
    }
  }

  lemma {:induction false} CoverRanges(c: Check, cs: seq<Check>, os: seq<Option<RangeOptions>>)
    requires Covers(c, cs) && AnyRange(c, os)
    ensures exists d <- cs :: AnyRange(d, os)
  {
    hide Ask, AskRange;
    if AskRange(c, os[0]) {
      var d :| d in cs && AskRange(d, os[0]);
      assert AnyRange(d, os);
    } else {
      CoverRanges(c, cs, os[1..]);
      var d :| d in cs && AnyRange(d, os[1..]);
      assert AnyRange(d, os);
    }
  }

  lemma {:induction false} CoverEnums(c: Check, cs: seq<Check>, es: seq<Enum>)
    requires Covers(c, cs) && AnyEnum(c, es)
    ensures exists d <- cs :: AnyEnum(d, es)
  {
    hide Ask, AskRange, AnyOf;
    if Ask(c, ENUM, es[0].options) {
      var d :| d in cs && Ask(d, ENUM, es[0].options);
      assert AnyEnum(d, es);
    } else if AnyOf(c, ENUM_VALUE, es[0].values) {
      CoverAll(c, cs, ENUM_VALUE, es[0].values);
      var d :| d in cs && AnyOf(d, ENUM_VALUE, es[0].values);
      assert AnyEnum(d, es);
    } else {
      CoverEnums(c, cs, es[1..]);
      var d :| d in cs && AnyEnum(d, es[1..]);
      assert AnyEnum(d, es);
    }
  }

  lemma {:induction false} CoverServices(c: Check, cs: seq<Check>, ss: seq<Service>)
    requires Covers(c, cs) && AnyService(c, ss)
    ensures exists d <- cs :: AnyService(d, ss)
  {
    hide Ask, AskRange, AnyOf;
    if Ask(c, SERVICE, ss[0].options) {
      var d :| d in cs && Ask(d, SERVICE, ss[0].options);
      assert AnyService(d, ss);
    } else if AnyOf(c, METHOD, ss[0].methods) {
      CoverAll(c, cs, METHOD, ss[0].methods);
      var d :| d in cs && AnyOf(d, METHOD, ss[0].methods);
      assert AnyService(d, ss);
    } else {
      CoverServices(c, cs, ss[1..]);
      var d :| d in cs && AnyService(d, ss[1..]);
      assert AnyService(d, ss);
    }
  }

  lemma {:induction false} CoverMessages(c: Check, cs: seq<Check>, ms: seq<MessageDesc>)
    requires Covers(c, cs) && AnyMessage(c, ms)
    ensures exists d <- cs :: AnyMessage(d, ms)
    decreases ms
  {
    hide InMessage, Covers;
    if InMessage(c, ms[0]) {
      CoverMessage(c, cs, ms[0]);
      var d :| d in cs && InMessage(d, ms[0]);
      assert AnyMessage(d, ms);
    } else {
      CoverMessages(c, cs, ms[1..]);
      var d :| d in cs && AnyMessage(d, ms[1..]);
      assert AnyMessage(d, ms);
    }
  }

  lemma {:induction false} CoverMessage(c: Check, cs: seq<Check>, m: MessageDesc)
    requires Covers(c, cs) && InMessage(c, m)
    ensures exists d <- cs :: InMessage(d, m)
    decreases m
  {
    hide Ask, AskRange, AnyOf, AnyRange, AnyEnum, AnyMessage;
    if Ask(c, MESSAGE, m.options) {
      var d :| d in cs && Ask(d, MESSAGE, m.options);
      assert InMessage(d, m);
    } else if AnyOf(c, FIELD, m.fields) {
      CoverAll(c, cs, FIELD, m.fields);
      var d :| d in cs && AnyOf(d, FIELD, m.fields);
      assert InMessage(d, m);
    } else if AnyOf(c, ONEOF, m.oneofs) {
      CoverAll(c, cs, ONEOF, m.oneofs);
      var d :| d in cs && AnyOf(d, ONEOF, m.oneofs);
      assert InMessage(d, m);
    } else if AnyRange(c, m.ranges) {
      CoverRanges(c, cs, m.ranges);
      var d :| d in cs && AnyRange(d, m.ranges);
      assert InMessage(d, m);
    } else if AnyOf(c, FIELD, m.extensions) {
      CoverAll(c, cs, FIELD, m.extensions);
      var d :| d in cs && AnyOf(d, FIELD, m.extensions);
      assert InMessage(d, m);
    } else if AnyEnum(c, m.enums) {
      CoverEnums(c, cs, m.enums);
      var d :| d in cs && AnyEnum(d, m.enums);
      assert InMessage(d, m);
    } else {
      CoverMessages(c, cs, m.nested);
      var d :| d in cs && AnyMessage(d, m.nested);
      assert InMessage(d, m);
    }
  }

  lemma {:induction false} Cover(c: Check, cs: seq<Check>, fd: File)
    requires Covers(c, cs)
    ensures InFile(c, fd) ==> exists d <- cs :: InFile(d, fd)
  {
    hide Ask, AskRange, AnyOf, AnyEnum, AnyService, AnyMessage;
    if Ask(c, FILE, fd.options) {
      var d :| d in cs && Ask(d, FILE, fd.options);
      assert InFile(d, fd);
    } else if AnyMessage(c, fd.messages) {
      CoverMessages(c, cs, fd.messages);
      var d :| d in cs && AnyMessage(d, fd.messages);
      assert InFile(d, fd);
    } else if AnyEnum(c, fd.enums) {
      CoverEnums(c, cs, fd.enums);
      var d :| d in cs && AnyEnum(d, fd.enums);
      assert InFile(d, fd);
    } else if AnyService(c, fd.services) {
      CoverServices(c, cs, fd.services);
      var d :| d in cs && AnyService(d, fd.services);
      assert InFile(d, fd);
    } else if AnyOf(c, FIELD, fd.extensions) {
      CoverAll(c, cs, FIELD, fd.extensions);
      var d :| d in cs && AnyOf(d, FIELD, fd.extensions);
      assert InFile(d, fd);
    }
  }

  // ---------------------------------------------------------------------------
  // The theorems.

  /** Every node the full strip changes trips one of the three checks. */
  lemma {:induction false} ChangesAreChecked(r: Retention, src: set<int>)
    ensures Covers(Changed(Full(r, src)), [RangeOptionsPresent, SourceUnknown(r), SourceFeature(src)])
  {
    hide StripEncoded;
    var cs := [RangeOptionsPresent, SourceUnknown(r), SourceFeature(src)];
    assert cs[0] in cs && cs[1] in cs && cs[2] in cs;
    forall owner, o | Ask(Changed(Full(r, src)), owner, o)
      ensures exists d <- cs :: Ask(d, owner, o)
    {
      if !Ask(cs[1], owner, o) && !Ask(cs[2], owner, o) {
        UntouchedFeatures(src, o);
      }
    }
    forall o | AskRange(Changed(Full(r, src)), o)
      ensures exists d <- cs :: AskRange(d, o)
    {
      assert AskRange(cs[0], o);
    }
  }

  lemma {:induction false} UntouchedFeatures(src: set<int>, o: Option<Options>)
    requires !Ask(SourceFeature(src), "", o)
    ensures ClearFeatures(src, o) == o
  {
    if o.Some? && o.value.features.Some? {
      NothingRemoved(o.value.features.value, src);
    }
  }

  lemma {:induction false} NothingRemoved<T>(a: set<T>, b: set<T>)
    requires a * b == {}
    ensures a - b == a
  {
    forall x | x in a
      ensures x in a - b
    {
      assert x in b ==> x in a * b;
    }
  }

  /** Returning the file uncopied is the same as stripping it. */
  lemma {:induction false} NoCopySound(r: Retention, src: set<int>, fd: File)
    ensures StripSourceRetention(r, src, fd) == StripFile(r, src, fd)
  {
    hide StripFile, Walk, InFile, AnyMessage, Ask, AskRange;
    if !NeedsClone(r, src, fd) {
      StripFileIsWalk(r, src, fd);
      WalkFixed(Full(r, src), fd);
      ChangesAreChecked(r, src);
      Cover(Changed(Full(r, src)), [RangeOptionsPresent, SourceUnknown(r), SourceFeature(src)], fd);
      if InFile(Changed(Full(r, src)), fd) {
        SkippedChecks(r, src, fd);
      }
    }
  }

  /** The other way round: a source-retention option or feature anywhere makes the copy differ. */
  lemma {:induction false} CopyNeeded(r: Retention, src: set<int>, fd: File)
    requires InFile(SourceUnknown(r), fd) || InFile(SourceFeature(src), fd)
    requires !InFile(TooLong, fd)
    ensures StripFile(r, src, fd) != fd
  {
    hide StripFile, Walk, InFile, Ask, AskRange;
    StripFileIsWalk(r, src, fd);
    WalkFixed(Full(r, src), fd);
    ChecksAreChanges(r, src);
    var cs := [Changed(Full(r, src)), TooLong];
    if InFile(SourceUnknown(r), fd) {
      Cover(SourceUnknown(r), cs, fd);
    } else {
      Cover(SourceFeature(src), cs, fd);
    }
  }

  /** A copy is made only for a file that has options on an extension range, or that the strip changes. */
  lemma {:induction false} CopyJustified(r: Retention, src: set<int>, fd: File)
    requires NeedsClone(r, src, fd) && !InFile(TooLong, fd)
    ensures AnyMessage(RangeOptionsPresent, fd.messages) || StripFile(r, src, fd) != fd
  {
    hide StripFile, AnyMessage, InFile;
    if !AnyMessage(RangeOptionsPresent, fd.messages) {
      CopyNeeded(r, src, fd);
    }
  }

  lemma {:induction false} ChecksAreChanges(r: Retention, src: set<int>)
    ensures Covers(SourceUnknown(r), [Changed(Full(r, src)), TooLong])
    ensures Covers(SourceFeature(src), [Changed(Full(r, src)), TooLong])
  {
    hide StripEncoded;
    var cs := [Changed(Full(r, src)), TooLong];
    assert cs[0] in cs && cs[1] in cs;
    forall owner, o | Ask(SourceUnknown(r), owner, o)
      ensures exists d <- cs :: Ask(d, owner, o)
    {
      if !Ask(TooLong, owner, o) {
        ChangedBytesDiffer(r, owner, o.value.unknown);
        assert Ask(cs[0], owner, o);
      }
    }
    forall owner, o | Ask(SourceFeature(src), owner, o)
      ensures exists d <- cs :: Ask(d, owner, o)
    {
      SomethingRemoved(o.value.features.value, src);
      assert Ask(cs[0], owner, o);
    }
    forall o | AskRange(SourceFeature(src), o)
      ensures exists d <- cs :: AskRange(d, o)
    {
      SomethingRemoved(o.value.common.features.value, src);
      assert AskRange(cs[0], o);
    }
  }

  lemma {:induction false} SomethingRemoved<T>(a: set<T>, b: set<T>)
    requires a * b != {}
    ensures a - b != a
  {
    var x :| x in a * b;
  }

  lemma {:induction false} SkippedChecks(r: Retention, src: set<int>, fd: File)
    ensures InFile(RangeOptionsPresent, fd) ==> AnyMessage(RangeOptionsPresent, fd.messages)
    ensures |r.strip| == 0 ==> !InFile(SourceUnknown(r), fd)
    ensures |src| == 0 ==> !InFile(SourceFeature(src), fd)
  {
    hide InFile, StripEncoded;
    RangesInMessages(fd);
    if |r.strip| == 0 {
      assert r.strip == map[];
      forall owner, o: Option<Options>
        ensures !Ask(SourceUnknown(r), owner, o)
      {
        if o.Some? {
          NoStripFields(r, owner, o.value.unknown);
        }
      }
      Cover(SourceUnknown(r), [], fd);
    }
    if |src| == 0 {
      assert src == {};
      Cover(SourceFeature(src), [], fd);
    }
  }

  /** Only messages have extension ranges. */
  lemma {:induction false} RangesInMessages(fd: File)
    ensures InFile(RangeOptionsPresent, fd) ==> AnyMessage(RangeOptionsPresent, fd.messages)
  {
    NoRanges(FIELD, fd.extensions);
    NoRangesInEnums(fd.enums);
    NoRangesInServices(fd.services);
  }

  lemma {:induction false} NoRanges(owner: string, os: seq<Option<Options>>)
    ensures !AnyOf(RangeOptionsPresent, owner, os)
  {
    if os != [] {
      NoRanges(owner, os[1..]);
    }
  }

  lemma {:induction false} NoRangesInEnums(es: seq<Enum>)
    ensures !AnyEnum(RangeOptionsPresent, es)
  {
    if es != [] {
      NoRanges(ENUM_VALUE, es[0].values);
      NoRangesInEnums(es[1..]);
    }
  }

  lemma {:induction false} NoRangesInServices(ss: seq<Service>)
    ensures !AnyService(RangeOptionsPresent, ss)
  {
    if ss != [] {
      NoRanges(METHOD, ss[0].methods);
      NoRangesInServices(ss[1..]);
    }
  }
}
