/**
 Free field numbers of a message: the sweep that suggests replacements in error
 messages, and the one that lists every free interval.
 */
module FieldNumbers {

  /** from is inside, to is not. */
  datatype Range = Range(from: int, to: int)

  datatype Message = Message(
    fields: seq<int>,
    extensions: seq<int>,
    reserved: seq<Range>,
    extensionRanges: seq<Range>)

  const MAX_FIELD_NUMBER := 536870911
  const FIRST_RESERVED := 19000
  const LAST_RESERVED := 19999

  predicate In(n: int, r: Range) {
    r.from <= n < r.to
  }

  predicate Covered(n: int, ranges: seq<Range>) {
    exists r <- ranges :: In(n, r)
  }

  // ---------------------------------------------------------------------------
  // Sorting
  // ---------------------------------------------------------------------------

  predicate NotAfter(a: Range, b: Range) {
    a.from < b.from || (a.from == b.from && a.to <= b.to)
  }

  function InsertRange(r: Range, rs: seq<Range>): seq<Range> {
    if rs == [] || NotAfter(r, rs[0]) then [r] + rs else [rs[0]] + InsertRange(r, rs[1..])
  }

  function SortRanges(rs: seq<Range>): seq<Range> {
    if rs == [] then [] else InsertRange(rs[0], SortRanges(rs[1..]))
  }

  predicate ByFrom(rs: seq<Range>) {
    forall i, j :: 0 <= i < j < |rs| ==> rs[i].from <= rs[j].from
  }

  lemma {:induction false} InsertRangeSorts(r: Range, rs: seq<Range>)
    requires ByFrom(rs)
    ensures ByFrom(InsertRange(r, rs))
    ensures forall x :: x in InsertRange(r, rs) <==> x == r || x in rs
  {
    if rs != [] && !NotAfter(r, rs[0]) {
      var rest := InsertRange(r, rs[1..]);
      InsertRangeSorts(r, rs[1..]);
      forall x | x in rest
        ensures rs[0].from <= x.from
      {
        if x != r {
          var k :| 0 <= k < |rs[1..]| && rs[1..][k] == x;
          assert rs[k + 1] == x;
        }
      }
      assert forall j :: 0 <= j < |rest| ==> rest[j] in rest;
    }
  }

  /** The ranges, all of them, by their lower ends. */
  lemma {:induction false} SortRangesSorts(rs: seq<Range>)
    ensures ByFrom(SortRanges(rs))
    ensures forall x :: x in SortRanges(rs) <==> x in rs
  {
    if rs != [] {
      SortRangesSorts(rs[1..]);
      InsertRangeSorts(rs[0], SortRanges(rs[1..]));
    }
  }

  lemma {:induction false} SameCover(a: seq<Range>, b: seq<Range>, n: int)
    requires forall x :: x in a <==> x in b
    ensures Covered(n, a) <==> Covered(n, b)
  {
  }

  // ---------------------------------------------------------------------------
  // Suggestions
  // ---------------------------------------------------------------------------

  /** n is a field, an extension declared here, reserved, in an extension range, or kept by protobuf. */
  predicate Taken(m: Message, n: int) {
    || n in m.fields || n in m.extensions
    || Covered(n, m.reserved) || Covered(n, m.extensionRanges)
    || 19000 <= n <= 19999
  }

  predicate Free(m: Message, n: int) {
    1 <= n < 536870911 && !Taken(m, n)
  }

  /** n clamped to the numbers a range may start or end at. */
  function Clamped(n: int): int {
    if n < 0 then 0 else if n > MAX_FIELD_NUMBER + 1 then MAX_FIELD_NUMBER + 1 else n
  }

  /** No range is empty or goes beyond the last number. */
  predicate Proper(rs: seq<Range>) {
    forall r <- rs :: r.from < r.to <= MAX_FIELD_NUMBER + 1
  }

  method AddOrdinals(used: seq<Range>, ns: seq<int>) returns (r: seq<Range>)
    ensures forall n :: 1 <= n <= MAX_FIELD_NUMBER ==> (Covered(n, r) <==> Covered(n, used) || n in ns)
    ensures Proper(used) ==> Proper(r)
  {
    r := used;
    for i := 0 to |ns|
      invariant forall n :: 1 <= n <= MAX_FIELD_NUMBER ==> (Covered(n, r) <==> Covered(n, used) || n in ns[..i])
      invariant Proper(used) ==> Proper(r)
    {
      var k := ns[i];
      assert ns[..i + 1] == ns[..i] + [k];
      if 0 < k <= MAX_FIELD_NUMBER {
        CoverOneMore(r, Range(k, k + 1));
        r := r + [Range(k, k + 1)];
      }
    }
    assert ns[..|ns|] == ns;
  }

  lemma {:induction false} CoverOneMore(rs: seq<Range>, r: Range)
    ensures forall n :: Covered(n, rs + [r]) <==> Covered(n, rs) || In(n, r)
  {
    forall n
      ensures Covered(n, rs + [r]) <==> Covered(n, rs) || In(n, r)
    {
      assert r in rs + [r];
    }
  }

  method AddRanges(used: seq<Range>, rs: seq<Range>) returns (r: seq<Range>)
    ensures forall n :: 1 <= n <= MAX_FIELD_NUMBER ==> (Covered(n, r) <==> Covered(n, used) || Covered(n, rs))
    ensures Proper(used) ==> Proper(r)
  {
    r := used;
    for i := 0 to |rs|
      invariant forall n :: 1 <= n <= MAX_FIELD_NUMBER ==> (Covered(n, r) <==> Covered(n, used) || Covered(n, rs[..i]))
      invariant Proper(used) ==> Proper(r)
    {
      assert rs[..i + 1] == rs[..i] + [rs[i]];
      CoverOneMore(rs[..i], rs[i]);
      var from, to := Clamped(rs[i].from), Clamped(rs[i].to);
      if from < to {
        CoverOneMore(r, Range(from, to));
        r := r + [Range(from, to)];
      }
    }
    assert rs[..|rs|] == rs;
  }

  /** Everything a suggestion must avoid, in order. */
  method UsedRanges(m: Message) returns (used: seq<Range>)
    ensures ByFrom(used) && Proper(used) && Range(MAX_FIELD_NUMBER, MAX_FIELD_NUMBER + 1) in used
    ensures forall n :: 1 <= n < MAX_FIELD_NUMBER ==> (Covered(n, used) <==> Taken(m, n))
  {
    used := AddOrdinals([], m.fields);
    used := AddOrdinals(used, m.extensions);
    used := AddRanges(used, m.reserved);
    used := AddRanges(used, m.extensionRanges);
    CoverOneMore(used, Range(MAX_FIELD_NUMBER, MAX_FIELD_NUMBER + 1));
    used := used + [Range(MAX_FIELD_NUMBER, MAX_FIELD_NUMBER + 1)];
    CoverOneMore(used, Range(FIRST_RESERVED, LAST_RESERVED + 1));
    used := used + [Range(FIRST_RESERVED, LAST_RESERVED + 1)];
    SortRangesSorts(used);
    var sorted := SortRanges(used);
    forall n
      ensures Covered(n, sorted) <==> Covered(n, used)
    {
      SameCover(sorted, used, n);
    }
    used := sorted;
  }

  predicate Increasing(s: seq<int>) {
    forall i, j :: 0 <= i < j < |s| ==> s[i] < s[j]
  }

  /** The smallest free numbers, as many as asked for or as there are, in increasing order. */
  method SuggestFieldNumbers(m: Message, count: int) returns (parts: seq<int>)
    ensures Increasing(parts) && forall n <- parts :: Free(m, n)
    ensures |parts| <= if count > 0 then count else 0
    ensures forall n :: Free(m, n) && n !in parts ==> |parts| >= count && forall p <- parts :: p < n
  {
    var used := UsedRanges(m);
    parts := [];
    var current := 1;
    var remaining := count;
    if count <= 0 {
      return;
    }
    var i := 0;
    while i < |used|
      invariant 0 <= i <= |used| && current >= 1 && remaining > 0
      invariant remaining + |parts| == count
      invariant forall j :: 0 <= j < i ==> used[j].to <= current
      invariant Increasing(parts) && forall n <- parts :: Free(m, n) && n < current
      invariant forall n :: 1 <= n < current && Free(m, n) ==> n in parts
    {
      var r := used[i];
      parts, current, remaining := FillGap(m, used, i, parts, current, remaining);
      if remaining == 0 {
        return;
      }
      if current < r.to {
        forall n | current <= n < r.to && Free(m, n)
          ensures false
        {
          assert In(n, r) && r in used;
        }
        current := r.to;
      }
      i := i + 1;
    }
    var last := Range(MAX_FIELD_NUMBER, MAX_FIELD_NUMBER + 1);
    var k :| 0 <= k < |used| && used[k] == last;
  }

  /** The numbers before the next range, while some are still wanted. */
  method FillGap(m: Message, used: seq<Range>, i: nat, before: seq<int>, start: int, wanted: int)
    returns (parts: seq<int>, current: int, remaining: int)
    requires i < |used| && ByFrom(used) && Proper(used) && start >= 1 && wanted > 0
    requires forall n :: 1 <= n < MAX_FIELD_NUMBER ==> (Covered(n, used) <==> Taken(m, n))
    requires forall j :: 0 <= j < i ==> used[j].to <= start
    requires Increasing(before) && forall n <- before :: Free(m, n) && n < start
    requires forall n :: 1 <= n < start && Free(m, n) ==> n in before
    ensures current >= start && remaining >= 0 && remaining + |parts| == wanted + |before|
    ensures remaining == 0 || current >= used[i].from
    ensures Increasing(parts) && forall n <- parts :: Free(m, n) && n < current
    ensures forall n :: 1 <= n < current && Free(m, n) ==> n in parts
  {
    hide Taken, Covered;
    parts, current, remaining := before, start, wanted;
    while current < used[i].from && remaining > 0
      invariant start <= current && remaining >= 0 && remaining + |parts| == wanted + |before|
      invariant Increasing(parts) && forall n <- parts :: Free(m, n) && n < current
      invariant forall n :: 1 <= n < current && Free(m, n) ==> n in parts
      decreases used[i].from - current
    {
      assert Free(m, current) by {
        GapIsFree(m, used, i, current);
      }
      assert forall k :: 0 <= k < |parts| ==> parts[k] in parts;
      parts := parts + [current];
      current := current + 1;
      remaining := remaining - 1;
    }
  }

  lemma {:induction false} GapIsFree(m: Message, used: seq<Range>, i: nat, n: int)
    requires i < |used| && ByFrom(used) && Proper(used) && 1 <= n < used[i].from
    requires forall n :: 1 <= n < MAX_FIELD_NUMBER ==> (Covered(n, used) <==> Taken(m, n))
    requires forall j :: 0 <= j < i ==> used[j].to <= n
    ensures Free(m, n)
  {
    hide Taken;
    assert !Covered(n, used) by {
      forall r <- used
        ensures !In(n, r)
      {
        var j :| 0 <= j < |used| && used[j] == r;
      }
    }
    assert used[i] in used;
  }

  // ---------------------------------------------------------------------------
  // Free intervals
  // ---------------------------------------------------------------------------

  /** Both ends are inside. */
  datatype Interval = Interval(low: int, high: int)

  predicate Within(n: int, iv: Interval) {
    iv.low <= n <= iv.high
  }

  predicate Shown(n: int, ivs: seq<Interval>) {
    exists iv <- ivs :: Within(n, iv)
  }

  /** In increasing order, none empty, none touching the one before it from below. */
  predicate Apart(ivs: seq<Interval>) {
    && (forall i :: 0 <= i < |ivs| ==> ivs[i].low <= ivs[i].high)
    && forall i, j :: 0 <= i < j < |ivs| ==> ivs[i].high < ivs[j].low
  }

  function FieldRanges(fields: seq<int>): seq<Range> {
    if fields == [] then [] else [Range(fields[0], fields[0] + 1)] + FieldRanges(fields[1..])
  }

  lemma {:induction false} FieldRangesCover(fields: seq<int>, n: int)
    ensures Covered(n, FieldRanges(fields)) <==> n in fields
    ensures forall r <- FieldRanges(fields) :: r.from <= r.to
  {
    if fields != [] {
      FieldRangesCover(fields[1..], n);
      assert Range(fields[0], fields[0] + 1) in FieldRanges(fields);
      assert n in fields <==> n == fields[0] || n in fields[1..];
    }
  }

  function AllRanges(m: Message): seq<Range> {
    FieldRanges(m.fields) + m.extensionRanges + m.reserved
  }

  predicate NoneInverted(rs: seq<Range>) {
    forall r <- rs :: r.from <= r.to
  }

  /** What the sweep over ranges adds when every number below nextFree is settled. */
  function Gaps(ranges: seq<Range>, nextFree: int): seq<Interval>
    decreases |ranges|
  {
    if ranges == [] then
      if nextFree <= MAX_FIELD_NUMBER then [Interval(nextFree, MAX_FIELD_NUMBER)] else []
    else if nextFree >= ranges[0].to then Gaps(ranges[1..], nextFree)
    else if nextFree < ranges[0].from then [Interval(nextFree, ranges[0].from - 1)] + Gaps(ranges[1..], ranges[0].to)
    else Gaps(ranges[1..], ranges[0].to)
  }

  method FreeIntervals(m: Message) returns (ivs: seq<Interval>)
    ensures ivs == Gaps(SortRanges(AllRanges(m)), 1)
  {
    var ranges := SortRanges(AllRanges(m));
    ivs := [];
    var nextFree := 1;
    for i := 0 to |ranges|
      invariant ivs + Gaps(ranges[i..], nextFree) == Gaps(ranges, 1)
    {
      var r := ranges[i];
      assert ranges[i..][0] == r && ranges[i..][1..] == ranges[i + 1..];
      if nextFree >= r.to {
        continue;
      }
      if nextFree < r.from {
        var gap := Interval(nextFree, r.from - 1);
        assert ivs + ([gap] + Gaps(ranges[i + 1..], r.to)) == (ivs + [gap]) + Gaps(ranges[i + 1..], r.to);
        ivs := ivs + [gap];
      }
      nextFree := r.to;
    }
    assert ranges[|ranges|..] == [];
    if nextFree <= MAX_FIELD_NUMBER {
      ivs := ivs + [Interval(nextFree, MAX_FIELD_NUMBER)];
    }
  }

  lemma {:induction false} GapsFrom(ranges: seq<Range>, nextFree: int)
    ensures forall iv <- Gaps(ranges, nextFree) :: nextFree <= iv.low
    decreases |ranges|
  {
    if ranges != [] {
      GapsFrom(ranges[1..], nextFree);
      GapsFrom(ranges[1..], ranges[0].to);
    }
  }

  /** The numbers from nextFree on that no range contains, and no others, inverted ranges or not. */
  lemma {:induction false} GapsExact(ranges: seq<Range>, nextFree: int, n: int)
    requires ByFrom(ranges) && nextFree <= n <= MAX_FIELD_NUMBER
    ensures Shown(n, Gaps(ranges, nextFree)) <==> !Covered(n, ranges)
    decreases |ranges|
  {
    hide Covered, Shown;
    if ranges == [] {
      LastGap(nextFree, n);
    } else {
      var r, rest := ranges[0], ranges[1..];
      assert ranges == [r] + rest;
      CoverFirst(r, rest, n);
      BelowAll(rest, r.from, n);
      GapsFrom(rest, r.to);
      NotBelow(Gaps(rest, r.to), r.to, n);
      if nextFree >= r.to {
        GapsExact(rest, nextFree, n);
      } else {
        if n >= r.to {
          GapsExact(rest, r.to, n);
        }
        if nextFree < r.from {
          ShownFirst(Interval(nextFree, r.from - 1), Gaps(rest, r.to), n);
        }
      }
    }
  }

  lemma {:induction false} LastGap(nextFree: int, n: int)
    requires nextFree <= n <= MAX_FIELD_NUMBER
    ensures Shown(n, Gaps([], nextFree)) && !Covered(n, [])
  {
    assert Interval(nextFree, MAX_FIELD_NUMBER) in Gaps([], nextFree);
  }

  lemma {:induction false} CoverFirst(r: Range, rest: seq<Range>, n: int)
    ensures Covered(n, [r] + rest) <==> In(n, r) || Covered(n, rest)
  {
    assert r in [r] + rest;
  }

  lemma {:induction false} BelowAll(ranges: seq<Range>, low: int, n: int)
    requires forall r <- ranges :: low <= r.from
    ensures n < low ==> !Covered(n, ranges)
  {
  }

  lemma {:induction false} NotBelow(ivs: seq<Interval>, low: int, n: int)
    requires forall iv <- ivs :: low <= iv.low
    ensures n < low ==> !Shown(n, ivs)
  {
  }

  lemma {:induction false} ShownFirst(first: Interval, rest: seq<Interval>, n: int)
    ensures Shown(n, [first] + rest) <==> Within(n, first) || Shown(n, rest)
  {
    assert first in [first] + rest;
  }

  /** A number is listed exactly when nothing uses it. */
  lemma {:induction false} FreeIntervalsExact(m: Message, n: int)
    requires 1 <= n <= MAX_FIELD_NUMBER
    ensures Shown(n, Gaps(SortRanges(AllRanges(m)), 1))
       <==> n !in m.fields && !Covered(n, m.extensionRanges) && !Covered(n, m.reserved)
  {
    hide Covered, Shown;
    var all := AllRanges(m);
    FieldRangesCover(m.fields, n);
    SortRangesSorts(all);
    SameCover(SortRanges(all), all, n);
    CoverJoin(FieldRanges(m.fields) + m.extensionRanges, m.reserved, n);
    CoverJoin(FieldRanges(m.fields), m.extensionRanges, n);
    GapsExact(SortRanges(all), 1, n);
  }

  lemma {:induction false} CoverJoin(a: seq<Range>, b: seq<Range>, n: int)
    ensures Covered(n, a + b) <==> Covered(n, a) || Covered(n, b)
  {
  }

  // ---------------------------------------------------------------------------
  // Inverted ranges
  // ---------------------------------------------------------------------------

  /**
   The sweep steps back at the i-th of the sorted ranges: it is inverted, nothing before
   it reaches its end, and something is listed from there on.
   */
  predicate StepsBack(rs: seq<Range>, nextFree: int, i: nat)
    requires i < |rs|
  {
    && rs[i].from > rs[i].to > nextFree
    && (forall j :: 0 <= j < i ==> rs[j].to < rs[i].to)
    && (rs[i].to <= MAX_FIELD_NUMBER || exists k :: i < k < |rs| && rs[k].to > rs[i].to)
  }

  predicate NoStepBack(rs: seq<Range>, nextFree: int) {
    forall i :: 0 <= i < |rs| ==> !StepsBack(rs, nextFree, i)
  }

  /** The intervals are disjoint and increasing exactly when the sweep never steps back. */
  lemma {:induction false} GapsApart(ranges: seq<Range>, nextFree: int)
    requires ByFrom(ranges)
    ensures Apart(Gaps(ranges, nextFree)) <==> NoStepBack(ranges, nextFree)
    decreases |ranges|
  {
    hide Apart, StepsBack;
    if ranges == [] {
      OneApart(nextFree);
    } else {
      var r, rest := ranges[0], ranges[1..];
      GapsApart(rest, nextFree);
      GapsApart(rest, r.to);
      hide NoStepBack;
      StepsBackRest(ranges, nextFree);
      if nextFree < r.to && nextFree < r.from {
        GapsFrom(rest, r.to);
        ApartFirst(Interval(nextFree, r.from - 1), Gaps(rest, r.to));
        if r.to < r.from {
          FirstGap(rest, r.to);
          OneApart(r.to);
          var gaps := Gaps(rest, r.to);
          assert gaps != [] ==> gaps[0] in gaps && gaps[0].low <= r.from - 1;
        }
      }
    }
  }

  /** Whether the sweep steps back, told by its first range and the others. */
  lemma {:induction false} StepsBackRest(rs: seq<Range>, nextFree: int)
    requires rs != [] && ByFrom(rs)
    ensures
      var r, rest := rs[0], rs[1..];
      NoStepBack(rs, nextFree) <==>
      if nextFree >= r.to then NoStepBack(rest, nextFree)
      else if r.from <= r.to then NoStepBack(rest, r.to)
      else r.to > MAX_FIELD_NUMBER && forall q <- rest :: q.to <= r.to
  {
    var r, rest := rs[0], rs[1..];
    var low := if nextFree >= r.to then nextFree else r.to;
    LaterSteps(rs, nextFree, low);
    assert StepsBack(rs, nextFree, 0) <==>
      r.from > r.to > nextFree && (r.to <= MAX_FIELD_NUMBER || exists q <- rest :: q.to > r.to) by {
      assert forall i :: 0 <= i < |rest| ==> rest[i] == rs[i + 1];
      assert forall i :: 0 < i < |rs| ==> rs[i] == rest[i - 1];
    }
    if forall q <- rest :: q.to <= r.to {
      assert forall i :: 0 <= i < |rest| ==> rest[i] in rest;
      assert r.to > nextFree ==> NoStepBack(rest, low);
    }
  }

  lemma {:induction false} LaterSteps(rs: seq<Range>, nextFree: int, low: int)
    requires rs != [] && low == if nextFree >= rs[0].to then nextFree else rs[0].to
    ensures NoStepBack(rs, nextFree) <==> !StepsBack(rs, nextFree, 0) && NoStepBack(rs[1..], low)
  {
    hide StepsBack;
    var rest := rs[1..];
    forall i | 0 <= i < |rest|
      ensures StepsBack(rs, nextFree, i + 1) <==> StepsBack(rest, low, i)
    {
      LaterStep(rs, nextFree, i);
    }
    if !StepsBack(rs, nextFree, 0) && NoStepBack(rest, low) {
      forall i | 0 <= i < |rs|
        ensures !StepsBack(rs, nextFree, i)
      {
        assert i > 0 ==> !StepsBack(rest, low, i - 1);
      }
    }
  }

  lemma {:induction false} LaterStep(rs: seq<Range>, nextFree: int, i: nat)
    requires i + 1 < |rs|
    ensures StepsBack(rs, nextFree, i + 1)
       <==> StepsBack(rs[1..], if nextFree >= rs[0].to then nextFree else rs[0].to, i)
  {
    var rest := rs[1..];
    assert forall j :: 0 <= j < |rest| ==> rest[j] == rs[j + 1];
    assert forall j :: 0 < j < |rs| ==> rs[j] == rest[j - 1];
  }

  lemma {:induction false} OneApart(nextFree: int)
    ensures Apart([]) && (nextFree <= MAX_FIELD_NUMBER ==> Apart([Interval(nextFree, MAX_FIELD_NUMBER)]))
  {
  }

  lemma {:induction false} ApartFirst(first: Interval, rest: seq<Interval>)
    requires first.low <= first.high
    ensures Apart([first] + rest) <==> Apart(rest) && forall iv <- rest :: first.high < iv.low
  {
    var all := [first] + rest;
    assert all[0] == first && forall j :: 0 < j < |all| ==> all[j] == rest[j - 1];
    if Apart(all) {
      forall iv <- rest
        ensures first.high < iv.low
      {
        var j :| 0 <= j < |rest| && rest[j] == iv;
        assert all[j + 1] == iv;
      }
      forall i, j | 0 <= i < j < |rest|
        ensures rest[i].high < rest[j].low
      {
        assert all[i + 1] == rest[i] && all[j + 1] == rest[j];
      }
      assert forall j :: 0 <= j < |rest| ==> all[j + 1] == rest[j];
    }
    if Apart(rest) && forall iv <- rest :: first.high < iv.low {
      assert forall j :: 0 <= j < |rest| ==> rest[j] in rest;
    }
  }

  /** What is listed from low on, when every range starts above it, starts at low. */
  lemma {:induction false} FirstGap(ranges: seq<Range>, low: int)
    requires forall r <- ranges :: low < r.from
    ensures
      var gaps := Gaps(ranges, low);
      if low <= MAX_FIELD_NUMBER || exists r <- ranges :: r.to > low then gaps != [] && gaps[0].low == low
      else gaps == []
    decreases |ranges|
  {
    if ranges != [] {
      assert ranges[0] in ranges;
      FirstGap(ranges[1..], low);
    }
  }

  /** For a message: disjoint increasing intervals exactly when no inverted range makes the sweep step back. */
  lemma {:induction false} FreeIntervalsApart(m: Message)
    ensures Apart(Gaps(SortRanges(AllRanges(m)), 1)) <==> NoStepBack(SortRanges(AllRanges(m)), 1)
    ensures NoneInverted(m.reserved) && NoneInverted(m.extensionRanges) ==> Apart(Gaps(SortRanges(AllRanges(m)), 1))
  {
    hide Apart;
    var all := AllRanges(m);
    SortRangesSorts(all);
    GapsApart(SortRanges(all), 1);
    FieldRangesCover(m.fields, 0);
    assert forall i :: 0 <= i < |SortRanges(all)| ==> SortRanges(all)[i] in SortRanges(all);
  }

  /** A reserved range the wrong way round: 5 to 9 are listed twice. */
  lemma {:induction false} InvertedRangeOverlaps()
    ensures
      var m := Message([], [], [Range(10, 5)], []);
      var ivs := Gaps(SortRanges(AllRanges(m)), 1);
      ivs == [Interval(1, 9), Interval(5, MAX_FIELD_NUMBER)] && !Apart(ivs)
  {
    var m := Message([], [], [Range(10, 5)], []);
    assert AllRanges(m) == [Range(10, 5)];
    assert [Range(10, 5)][1..] == [];
    assert SortRanges([]) == [];
    assert SortRanges([Range(10, 5)]) == [Range(10, 5)];
    assert Gaps([], 5) == [Interval(5, MAX_FIELD_NUMBER)];
    var ivs := [Interval(1, 9), Interval(5, MAX_FIELD_NUMBER)];
    assert ivs[0].high > ivs[1].low;
  }
}
