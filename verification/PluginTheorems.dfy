/**
 What a plugin response does to the files it names.
 */
module PluginTheorems {
  import opened Wrappers
  import opened PluginOutput

  /** The listed order names every file once. */
  ghost predicate ListedOnce(s: State) {
    && (forall i, j :: 0 <= i < j < |s.order| ==> s.order[i] != s.order[j])
    && (forall n :: n in s.order <==> n in s.files)
  }

  /** However entries fail or overwrite each other, the order stays the key set, without duplicates. */
  lemma {:induction false} OrderIsKeySet(cs: seq<Chunk>)
    ensures ListedOnce(ApplyAll(EMPTY, cs))
    decreases |cs|
  {
    hide Index, Spliced, Magic;
    if cs != [] {
      OrderIsKeySet(cs[..|cs| - 1]);
    }
  }

  /** c writes file n as a whole. */
  predicate Writes(c: Chunk, n: string) {
    c.insertionPoint == "" && c.name == n
  }

  predicate WrittenIn(cs: seq<Chunk>, n: string) {
    exists i :: 0 <= i < |cs| && Writes(cs[i], n)
  }

  lemma {:induction false} WrittenSnoc(cs: seq<Chunk>, c: Chunk, n: string)
    ensures WrittenIn(cs + [c], n) <==> WrittenIn(cs, n) || Writes(c, n)
  {
    hide Writes;
    var all := cs + [c];
    if WrittenIn(cs, n) {
      var i :| 0 <= i < |cs| && Writes(cs[i], n);
      assert Writes(all[i], n);
    }
    if Writes(c, n) {
      assert Writes(all[|cs|], n);
    }
    if WrittenIn(all, n) {
      var i :| 0 <= i < |all| && Writes(all[i], n);
      assert i < |cs| ==> Writes(cs[i], n);
    }
  }

  /** A failure is never forgotten. */
  lemma {:induction false} FailureStays(s: State, c: Chunk)
    ensures s.failed ==> Apply(s, c).failed
  {
    hide Index, Spliced, Magic;
  }

  /**
   A response without a failure writes every file exactly once, before anything is
   inserted into it, and leaves no other file behind.
   */
  lemma {:induction false} SuccessWritesOnce(cs: seq<Chunk>)
    requires !ApplyAll(EMPTY, cs).failed
    ensures forall n :: n in ApplyAll(EMPTY, cs).files <==> WrittenIn(cs, n)
    ensures forall i :: 0 <= i < |cs| ==> (cs[i].insertionPoint == "" <==> !WrittenIn(cs[..i], cs[i].name))
    decreases |cs|
  {
    hide WrittenIn, ApplyAll;
    if cs == [] {
      NothingWritten();
    } else {
      var init, c := cs[..|cs| - 1], cs[|cs| - 1];
      assert init + [c] == cs;
      var s := ApplyAll(EMPTY, init);
      ApplyLast(EMPTY, init, c);
      FailureStays(s, c);
      SuccessWritesOnce(init);
      SuccessStep(s, c);
      forall n
        ensures n in ApplyAll(EMPTY, cs).files <==> WrittenIn(cs, n)
      {
        WrittenSnoc(init, c, n);
      }
      forall i | 0 <= i < |cs|
        ensures cs[i].insertionPoint == "" <==> !WrittenIn(cs[..i], cs[i].name)
      {
        if i < |init| {
          assert cs[i] == init[i] && cs[..i] == init[..i];
        }
      }
    }
  }

  lemma {:induction false} ApplyLast(s: State, cs: seq<Chunk>, c: Chunk)
    ensures ApplyAll(s, cs + [c]) == Apply(ApplyAll(s, cs), c)
  {
    hide Apply;
    assert (cs + [c])[..|cs|] == cs;
  }

  lemma {:induction false} NothingWritten()
    ensures ApplyAll(EMPTY, []) == EMPTY && forall n :: !WrittenIn([], n)
  {
  }

  lemma {:induction false} SuccessStep(s: State, c: Chunk)
    requires !Apply(s, c).failed
    ensures c.insertionPoint == "" <==> c.name !in s.files
    ensures forall n :: n in Apply(s, c).files <==> n in s.files || Writes(c, n)
  {
    hide Index, Spliced, Magic;
  }

  // ---------------------------------------------------------------------------
  // Grouping
  // ---------------------------------------------------------------------------

  function Nameless(contents: seq<string>): seq<Chunk> {
    if contents == [] then [] else [Chunk("", "", contents[0])] + Nameless(contents[1..])
  }

  function JoinedText(contents: seq<string>): string {
    if contents == [] then "" else contents[0] + JoinedText(contents[1..])
  }

  /** However a plugin cuts an entry's content into pieces, the response means the same. */
  lemma {:induction false} CutsMakeNoDifference(e: Chunk, contents: seq<string>, rest: seq<Chunk>)
    requires Starts(e) && (rest != [] ==> Starts(rest[0]))
    ensures Groups([e] + Nameless(contents) + rest)
         == Groups([e.(data := e.data + JoinedText(contents))] + rest)
  {
    hide Starts, Groups;
    var cut := [e] + Nameless(contents) + rest;
    var whole := e.(data := e.data + JoinedText(contents));
    NamelessContinue(contents, rest);
    NamelessContents(contents);
    assert cut[1..] == Nameless(contents) + rest;
    var n := 1 + |Nameless(contents)|;
    assert cut[..n] == [e] + Nameless(contents) && cut[n..] == rest;
    assert ([e] + Nameless(contents))[1..] == Nameless(contents);
    StartsIgnoresData(e, whole.data);
    GroupsUnfold(cut, n, Groups(rest));
    assert ([whole] + rest)[1..] == rest && ([whole] + rest)[..1] == [whole];
    assert [whole][1..] == [] && whole.data + "" == whole.data;
    assert Contents([whole]) == whole.data + Contents([whole][1..]);
    GroupsUnfold([whole] + rest, 1, Groups(rest));
  }

  lemma {:induction false} StartsIgnoresData(e: Chunk, data: string)
    ensures Starts(e.(data := data)) == Starts(e)
  {
  }

  lemma {:induction false} NamelessContinue(contents: seq<string>, rest: seq<Chunk>)
    requires rest != [] ==> Starts(rest[0])
    ensures Continuing(Nameless(contents) + rest) == |Nameless(contents)|
    decreases |contents|
  {
    if contents == [] {
      assert [] + rest == rest;
      ContinuingEnds(rest);
    } else {
      hide Continuing, Starts;
      NamelessContinue(contents[1..], rest);
      var first := Chunk("", "", contents[0]);
      assert Nameless(contents) + rest == [first] + (Nameless(contents[1..]) + rest);
      ContinuingFirst(first, Nameless(contents[1..]) + rest);
    }
  }

  lemma {:induction false} ContinuingEnds(rest: seq<Chunk>)
    requires rest != [] ==> Starts(rest[0])
    ensures Continuing(rest) == 0
  {
  }

  lemma {:induction false} ContinuingFirst(e: Chunk, tail: seq<Chunk>)
    requires e.name == "" && e.insertionPoint == ""
    ensures Continuing([e] + tail) == 1 + Continuing(tail)
  {
    assert ([e] + tail)[1..] == tail;
  }

  lemma {:induction false} NamelessContents(contents: seq<string>)
    ensures Contents(Nameless(contents)) == JoinedText(contents)
    decreases |contents|
  {
    if contents != [] {
      NamelessContents(contents[1..]);
      assert Nameless(contents)[1..] == Nameless(contents[1..]);
    }
  }

  // ---------------------------------------------------------------------------
  // Indentation
  // ---------------------------------------------------------------------------

  /** Every line of text without its first n characters. */
  function Dedented(text: string, n: nat): string
    requires Terminated(text)
    decreases |text|
  {
    if text == "" then ""
    else
      var len := LineLength(text);
      (if n <= len then text[n..len] else "") + Dedented(text[len..], n)
  }

  lemma {:induction false} LineLengthIs(text: string, n: nat)
    requires text != "" && Terminated(text) && 0 < n <= |text|
    requires text[n - 1] == '\n' && forall k :: 0 <= k < n - 1 ==> text[k] != '\n'
    ensures LineLength(text) == n
    decreases n
  {
    if n > 1 {
      assert text[1..][n - 2] == text[n - 1];
      LineLengthIs(text[1..], n - 1);
    }
  }

  lemma {:induction false} IndentedTerminated(data: string, indent: string)
    requires Terminated(data)
    ensures Terminated(Indented(data, indent))
    ensures data != "" ==> Indented(data, indent) != ""
    decreases |data|
  {
    hide LineLength;
    if data != "" {
      var n := LineLength(data);
      var block := Indented(data, indent);
      var rest := Indented(data[n..], indent);
      IndentedTerminated(data[n..], indent);
      assert block == indent + data[..n] + rest;
      assert block[|block| - 1] == if rest == "" then data[n - 1] else rest[|rest| - 1];
    }
  }

  lemma {:induction false} BlanksHoldNoNewline(indent: string, k: nat)
    requires k < |indent| && forall c <- indent :: Blank(c)
    ensures indent[k] != '\n'
  {
    assert indent[k] in indent;
  }

  /** The block starts with one line carrying the indent. */
  lemma {:induction false} IndentedLine(data: string, indent: string)
    requires data != "" && Terminated(data) && forall c <- indent :: Blank(c)
    ensures
      var n := LineLength(data);
      var block := Indented(data, indent);
      && Terminated(block) && |block| >= |indent| + n
      && block[..|indent| + n] == indent + data[..n]
      && block[|indent| + n..] == Indented(data[n..], indent)
      && LineLength(block) == |indent| + n
  {
    hide LineLength, Blank;
    var n := LineLength(data);
    var line, rest := indent + data[..n], Indented(data[n..], indent);
    var block := Indented(data, indent);
    IndentedTerminated(data, indent);
    assert block == line + rest;
    hide Indented;
    FirstLineIs(data, indent, line, rest);
  }

  lemma {:induction false} FirstLineIs(data: string, indent: string, line: string, rest: string)
    requires data != "" && Terminated(data) && (forall c <- indent :: Blank(c)) && Terminated(line + rest)
    requires line == indent + data[..LineLength(data)]
    ensures LineLength(line + rest) == |line| && (line + rest)[..|line|] == line && (line + rest)[|line|..] == rest
  {
    hide LineLength, Blank;
    var n := LineLength(data);
    var block := line + rest;
    assert block[|line| - 1] == data[n - 1];
    forall k | 0 <= k < |line| - 1
      ensures block[k] != '\n'
    {
      if k < |indent| {
        BlanksHoldNoNewline(indent, k);
        assert block[k] == indent[k];
      } else {
        assert block[k] == data[k - |indent|];
      }
    }
    LineLengthIs(block, |line|);
  }

  /** Every inserted line carries the indent: taking it off each line gives the data back. */
  lemma {:induction false} IndentComesOff(data: string, indent: string)
    requires Terminated(data) && forall c <- indent :: Blank(c)
    ensures Terminated(Indented(data, indent))
    ensures Dedented(Indented(data, indent), |indent|) == data
    decreases |data|
  {
    hide LineLength, Blank, Dedented, Indented;
    IndentedTerminated(data, indent);
    if data == "" {
      NothingDedented(indent);
    } else {
      var n := LineLength(data);
      IndentedLine(data, indent);
      IndentComesOff(data[n..], indent);
      DedentedLine(Indented(data, indent), indent, data[..n]);
      assert data[..n] + data[n..] == data;
    }
  }

  lemma {:induction false} NothingDedented(indent: string)
    ensures Indented("", indent) == "" && Dedented("", |indent|) == ""
  {
  }

  lemma {:induction false} DedentedLine(block: string, indent: string, line: string)
    requires Terminated(block) && block != "" && LineLength(block) == |indent| + |line|
    requires block[..|indent| + |line|] == indent + line
    ensures Dedented(block, |indent|) == line + Dedented(block[|indent| + |line|..], |indent|)
  {
    hide LineLength;
    var width := |indent| + |line|;
    assert block[|indent|..width] == block[..width][|indent|..] == line;
  }

  // ---------------------------------------------------------------------------
  // Insertions
  // ---------------------------------------------------------------------------

  predicate Holds(text: string, pattern: string) {
    exists k :: 0 <= k < |text| && OccursAt(text, k, pattern)
  }

  /** A marker, as the replay looks for it. */
  predicate MarkerLike(pattern: string) {
    pattern != "" && !Blank(pattern[0]) && '\n' !in pattern
  }

  /** part stands in text at offset. */
  predicate PartAt(text: string, offset: nat, part: string) {
    offset + |part| <= |text| && text[offset..offset + |part|] == part
  }

  lemma {:induction false} SubSlice(s: string, a: nat, b: nat, i: nat, j: nat)
    requires a <= b <= |s| && i <= j <= b - a
    ensures s[a..b][i..j] == s[a + i..a + j]
  {
    var t := s[a..b];
    var u, v := t[i..j], s[a + i..a + j];
    forall k | 0 <= k < |u|
      ensures u[k] == v[k]
    {
      assert t[i + k] == s[a + (i + k)];
    }
  }

  lemma {:induction false} OccursInPart(text: string, offset: nat, part: string, q: nat, pattern: string)
    requires PartAt(text, offset, part) && offset <= q && q + |pattern| <= offset + |part|
    ensures OccursAt(text, q, pattern) <==> OccursAt(part, q - offset, pattern)
  {
    SubSlice(text, offset, offset + |part|, q - offset, q - offset + |pattern|);
  }

  lemma {:induction false} NoNewlineInside(text: string, q: nat, pattern: string, k: nat)
    requires OccursAt(text, q, pattern) && '\n' !in pattern && q <= k < q + |pattern|
    ensures text[k] != '\n'
  {
    assert text[q..q + |pattern|][k - q] == text[k];
    assert pattern[k - q] in pattern;
  }

  lemma {:induction false} NotInBlanks(text: string, q: nat, pattern: string)
    requires OccursAt(text, q, pattern) && pattern != "" && !Blank(pattern[0])
    ensures !Blank(text[q])
  {
    assert text[q..q + |pattern|][0] == text[q];
  }

  /** A pattern inside an indented block lies within one line of the data. */
  lemma {:induction false} MarkerInBlock(data: string, indent: string, pattern: string, q: nat)
    requires Terminated(data) && (forall c <- indent :: Blank(c)) && MarkerLike(pattern)
    requires OccursAt(Indented(data, indent), q, pattern)
    ensures Holds(data, pattern)
    decreases |data|
  {
    hide LineLength, Blank, OccursAt, Indented;
    EmptyBlock(data, indent, q, pattern);
    var n := LineLength(data);
    var block := Indented(data, indent);
    var width := |indent| + n;
    IndentedLine(data, indent);
    NotInBlanks(block, q, pattern);
    BlockParts(data, indent);
    if q < width {
      if q + |pattern| > width - 1 {
        NoNewlineInside(block, q, pattern, width - 1);
        assert false;
      } else {
        OccursInPart(block, |indent|, data[..n], q, pattern);
        OccursInPart(data, 0, data[..n], q - |indent|, pattern);
      }
    } else {
      OccursEnds(block, q, pattern);
      OccursInPart(block, width, Indented(data[n..], indent), q, pattern);
      MarkerInBlock(data[n..], indent, pattern, q - width);
      var k :| 0 <= k < |data[n..]| && OccursAt(data[n..], k, pattern);
      OccursEnds(data[n..], k, pattern);
      OccursInPart(data, n, data[n..], n + k, pattern);
    }
  }

  lemma {:induction false} EmptyBlock(data: string, indent: string, q: nat, pattern: string)
    requires Terminated(data) && pattern != "" && OccursAt(Indented(data, indent), q, pattern)
    ensures data != ""
  {
  }

  lemma {:induction false} OccursEnds(text: string, q: nat, pattern: string)
    requires OccursAt(text, q, pattern)
    ensures q + |pattern| <= |text|
  {
  }

  lemma {:induction false} BlockParts(data: string, indent: string)
    requires data != "" && Terminated(data) && forall c <- indent :: Blank(c)
    ensures
      var n := LineLength(data);
      var block := Indented(data, indent);
      && |block| >= |indent| + n && block[|indent| + n - 1] == '\n'
      && (forall k :: 0 <= k < |indent| ==> Blank(block[k]))
      && PartAt(block, |indent|, data[..n]) && PartAt(data, 0, data[..n])
      && PartAt(block, |indent| + n, Indented(data[n..], indent)) && PartAt(data, n, data[n..])
  {
    hide LineLength;
    var n := LineLength(data);
    var block := Indented(data, indent);
    assert block == indent + data[..n] + Indented(data[n..], indent);
    assert block[|indent| + n - 1] == data[n - 1];
    forall k | 0 <= k < |indent|
      ensures Blank(block[k])
    {
      assert block[k] == indent[k] && indent[k] in indent;
    }
  }

  lemma {:induction false} TerminateHolds(data: string, pattern: string)
    requires pattern != "" && '\n' !in pattern && Holds(Terminate(data), pattern)
    ensures Holds(data, pattern)
  {
    hide OccursAt;
    var t := Terminate(data);
    var k :| 0 <= k < |t| && OccursAt(t, k, pattern);
    OccursEnds(t, k, pattern);
    if !Terminated(data) {
      if k + |pattern| == |t| {
        NoNewlineInside(t, k, pattern, |t| - 1);
        assert false;
      } else {
        assert PartAt(t, 0, data);
        OccursInPart(t, 0, data, k, pattern);
      }
    }
  }

  /** block stands in front of the line that holds position pos. */
  function WithBlock(text: string, pos: nat, block: string): string
    requires pos <= |text|
  {
    var at := LineStart(text, pos);
    text[..at] + block + text[at..]
  }

  lemma {:induction false} WithBlockParts(text: string, pos: nat, block: string)
    requires pos <= |text|
    ensures
      var at := LineStart(text, pos);
      var t := WithBlock(text, pos, block);
      && PartAt(t, 0, text[..at]) && PartAt(text, 0, text[..at])
      && PartAt(t, at, block)
      && PartAt(t, at + |block|, text[at..]) && PartAt(text, at, text[at..])
  {
    hide LineStart, PartAt;
    var at := LineStart(text, pos);
    ThreeParts(text[..at], block, text[at..]);
    ThreeParts(text[..at], "", text[at..]);
    assert text[..at] + "" + text[at..] == text;
  }

  lemma {:induction false} WithBlockShift(text: string, pos: nat, block: string)
    requires pos <= |text| && Terminated(block)
    ensures
      var at := LineStart(text, pos);
      var t := WithBlock(text, pos, block);
      && |t| == |text| + |block|
      && (at > 0 ==> t[at - 1] == '\n') && (at + |block| > 0 ==> t[at + |block| - 1] == '\n')
      && (forall k :: at <= k < |text| ==> t[k + |block|] == text[k])
  {
    hide LineStart;
    var at := LineStart(text, pos);
    var t := WithBlock(text, pos, block);
    assert at > 0 ==> t[at - 1] == text[at - 1];
    assert block != "" ==> t[at + |block| - 1] == block[|block| - 1];
  }

  lemma {:induction false} ThreeParts(a: string, b: string, c: string)
    ensures PartAt(a + b + c, 0, a) && PartAt(a + b + c, |a|, b) && PartAt(a + b + c, |a| + |b|, c)
  {
    var t := a + b + c;
    assert t[0..|a|] == a && t[|a|..|a| + |b|] == b && t[|a| + |b|..|t|] == c;
  }

  /** A block without the marker, placed before the marker's line, pushes the first marker down. */
  lemma {:induction false} MarkerPushedDown(text: string, pos: nat, block: string, pattern: string, q: nat)
    requires MarkerLike(pattern) && Index(text, pattern) == Some(pos)
    requires Terminated(block) && !Holds(block, pattern)
    ensures
      var t := WithBlock(text, pos, block);
      if q == pos + |block| then OccursAt(t, q, pattern) else q < pos + |block| ==> !OccursAt(t, q, pattern)
  {
    hide OccursAt, IndexFrom, LineStart, Terminated, WithBlock;
    OccursEnds(text, pos, pattern);
    var at := LineStart(text, pos);
    var t := WithBlock(text, pos, block);
    WithBlockParts(text, pos, block);
    WithBlockShift(text, pos, block);
    hide PartAt;
    var m := |pattern|;
    if q == pos + |block| {
      OccursInPart(t, at + |block|, text[at..], q, pattern);
      OccursInPart(text, at, text[at..], pos, pattern);
    } else if q < pos + |block| && OccursAt(t, q, pattern) {
      OccursEnds(t, q, pattern);
      if q >= at + |block| {
        OccursInPart(t, at + |block|, text[at..], q, pattern);
        OccursInPart(text, at, text[at..], q - |block|, pattern);
      } else if q + m > at + |block| {
        NoNewlineInside(t, q, pattern, at + |block| - 1);
      } else if q >= at {
        OccursInPart(t, at, block, q, pattern);
      } else if q + m > at {
        NoNewlineInside(t, q, pattern, at - 1);
      } else {
        OccursInPart(t, 0, text[..at], q, pattern);
        OccursInPart(text, 0, text[..at], q, pattern);
      }
    }
  }

  lemma {:induction false} IndexIs(text: string, pattern: string, pos: nat)
    requires OccursAt(text, pos, pattern) && forall q :: 0 <= q < pos ==> !OccursAt(text, q, pattern)
    ensures Index(text, pattern) == Some(pos)
  {
    hide OccursAt;
  }

  lemma {:induction false} LineStartIs(text: string, pos: nat, n: nat)
    requires n <= pos <= |text| && (n > 0 ==> text[n - 1] == '\n')
    requires forall k :: n <= k < pos ==> text[k] != '\n'
    ensures LineStart(text, pos) == n
    decreases pos
  {
    if n < pos {
      LineStartIs(text, pos - 1, n);
    }
  }

  lemma {:induction false} IndentEndIs(text: string, i: nat, n: nat)
    requires i <= n <= |text| && (forall k :: i <= k < n ==> Blank(text[k])) && (n < |text| ==> !Blank(text[n]))
    ensures IndentEnd(text, i) == n
    decreases n - i
  {
    if i < n {
      IndentEndIs(text, i + 1, n);
    }
  }

  /** The indent of the line that holds position pos. */
  function IndentAt(text: string, pos: nat): string
    requires pos <= |text|
  {
    text[LineStart(text, pos)..IndentEnd(text, LineStart(text, pos))]
  }

  lemma {:induction false} MarkerFound(text: string, pos: nat, block: string, pattern: string)
    requires MarkerLike(pattern) && Index(text, pattern) == Some(pos) && pos <= |text|
    requires Terminated(block) && !Holds(block, pattern)
    ensures Index(WithBlock(text, pos, block), pattern) == Some(pos + |block|)
  {
    hide OccursAt, IndexFrom, LineStart, Terminated, WithBlock, Holds, Index, MarkerLike;
    var t := WithBlock(text, pos, block);
    forall q | 0 <= q <= pos + |block|
      ensures OccursAt(t, q, pattern) == (q == pos + |block|)
    {
      MarkerPushedDown(text, pos, block, pattern, q);
    }
    IndexIs(t, pattern, pos + |block|);
  }

  lemma {:induction false} LineShifts(text: string, pos: nat, block: string)
    requires pos <= |text| && Terminated(block)
    ensures |WithBlock(text, pos, block)| == |text| + |block|
    ensures LineStart(WithBlock(text, pos, block), pos + |block|) == LineStart(text, pos) + |block|
  {
    hide LineStart, Terminated, WithBlock, PartAt;
    var t := WithBlock(text, pos, block);
    WithBlockShift(text, pos, block);
    var at := LineStart(text, pos);
    forall k | at + |block| <= k < pos + |block|
      ensures t[k] != '\n'
    {
      assert t[(k - |block|) + |block|] == text[k - |block|];
    }
    LineStartIs(t, pos + |block|, at + |block|);
  }

  lemma {:induction false} IndentShifts(text: string, t: string, at: nat, shift: nat)
    requires at <= |text| && |t| == |text| + shift
    requires forall k :: at <= k < |text| ==> t[k + shift] == text[k]
    ensures IndentEnd(t, at + shift) == IndentEnd(text, at) + shift
    ensures t[at + shift..IndentEnd(t, at + shift)] == text[at..IndentEnd(text, at)]
  {
    hide IndentEnd, Blank;
    var end := IndentEnd(text, at);
    forall k | at + shift <= k < |t|
      ensures t[k] == text[k - shift]
    {
      assert t[(k - shift) + shift] == text[k - shift];
    }
    IndentEndIs(t, at + shift, end + shift);
  }

  /** After an insertion the marker, its line and its indent are the same, further down. */
  lemma {:induction false} InsertionShifts(text: string, pos: nat, block: string, pattern: string)
    requires MarkerLike(pattern) && Index(text, pattern) == Some(pos) && pos <= |text|
    requires Terminated(block) && !Holds(block, pattern)
    ensures
      var t := WithBlock(text, pos, block);
      && Index(t, pattern) == Some(pos + |block|) && |t| == |text| + |block|
      && LineStart(t, pos + |block|) == LineStart(text, pos) + |block|
      && IndentAt(t, pos + |block|) == IndentAt(text, pos)
  {
    hide OccursAt, LineStart, Terminated, WithBlock, IndentEnd, Holds, Index, MarkerLike, PartAt;
    MarkerFound(text, pos, block, pattern);
    LineShifts(text, pos, block);
    WithBlockShift(text, pos, block);
    IndentShifts(text, WithBlock(text, pos, block), LineStart(text, pos), |block|);
  }

  // ---------------------------------------------------------------------------

  /** The insertions of ds at one point of one file, in order. */
  function Insertions(name: string, point: string, ds: seq<string>): seq<Chunk>
    decreases |ds|
  {
    if ds == [] then [] else Insertions(name, point, ds[..|ds| - 1]) + [Chunk(name, point, ds[|ds| - 1])]
  }

  /** The inserted blocks in the order of the insertions. */
  function Blocks(ds: seq<string>, indent: string): string
    decreases |ds|
  {
    if ds == [] then "" else Blocks(ds[..|ds| - 1], indent) + Indented(Terminate(ds[|ds| - 1]), indent)
  }

  lemma {:induction false} MagicIsMarkerLike(point: string)
    requires '\n' !in point
    ensures MarkerLike(Magic(point))
  {
    var head := "@@protoc_insertion_point(";
    assert Magic(point)[0] == head[0] == '@';
    assert '\n' !in head && '\n' !in ")";
  }

  lemma {:induction false} BlockIsFree(d: string, indent: string, pattern: string)
    requires MarkerLike(pattern) && !Holds(d, pattern) && forall c <- indent :: Blank(c)
    ensures var block := Indented(Terminate(d), indent); Terminated(block) && !Holds(block, pattern)
  {
    hide OccursAt, Indented, Terminate, Blank, LineLength;
    var data := Terminate(d);
    var block := Indented(data, indent);
    IndentComesOff(data, indent);
    if Holds(block, pattern) {
      var q :| 0 <= q < |block| && OccursAt(block, q, pattern);
      MarkerInBlock(data, indent, pattern, q);
      TerminateHolds(d, pattern);
    }
  }

  /** Where the ds inserted so far leave the text, its marker and its indent. */
  lemma {:induction false} BlocksShift(text: string, pos: nat, pattern: string, ds: seq<string>)
    requires MarkerLike(pattern) && Index(text, pattern) == Some(pos) && pos <= |text|
    requires forall d <- ds :: !Holds(d, pattern)
    ensures
      var blocks := Blocks(ds, IndentAt(text, pos));
      var t := WithBlock(text, pos, blocks);
      && |t| == |text| + |blocks| && Index(t, pattern) == Some(pos + |blocks|)
      && LineStart(t, pos + |blocks|) == LineStart(text, pos) + |blocks|
      && IndentAt(t, pos + |blocks|) == IndentAt(text, pos)
    decreases |ds|
  {
    hide OccursAt, LineStart, IndentEnd, Holds, Index, MarkerLike, Indented, Terminate, IndentAt, Blank, WithBlock;
    var indent := IndentAt(text, pos);
    if ds == [] {
      WithNothing(text, pos);
    } else {
      var init, d := ds[..|ds| - 1], ds[|ds| - 1];
      BlocksShift(text, pos, pattern, init);
      var before := Blocks(init, indent);
      var t := WithBlock(text, pos, before);
      IndentIsBlank(text, pos);
      BlockIsFree(d, indent, pattern);
      var block := Indented(Terminate(d), indent);
      InsertionShifts(t, pos + |before|, block, pattern);
      WithBlocks(text, pos, before, block);
    }
  }

  lemma {:induction false} WithNothing(text: string, pos: nat)
    requires pos <= |text|
    ensures WithBlock(text, pos, "") == text
  {
  }

  lemma {:induction false} WithBlocks(text: string, pos: nat, a: string, b: string)
    requires pos <= |text| && |WithBlock(text, pos, a)| == |text| + |a|
    requires LineStart(WithBlock(text, pos, a), pos + |a|) == LineStart(text, pos) + |a|
    ensures WithBlock(WithBlock(text, pos, a), pos + |a|, b) == WithBlock(text, pos, a + b)
  {
    hide LineStart;
  }

  lemma {:induction false} IndentIsBlank(text: string, pos: nat)
    requires pos <= |text|
    ensures forall c <- IndentAt(text, pos) :: Blank(c)
  {
    hide Blank, IndentEnd, LineStart;
  }

  /** indent is all the spaces and tabs that text has from at on. */
  predicate LeadingBlanks(text: string, at: nat, indent: string) {
    && at + |indent| <= |text| && text[at..at + |indent|] == indent
    && (forall c <- indent :: c == ' ' || c == '\t')
    && (at + |indent| < |text| ==> text[at + |indent|] != ' ' && text[at + |indent|] != '\t')
  }

  lemma {:induction false} IndentIsLeading(text: string, pos: nat)
    requires pos <= |text|
    ensures LeadingBlanks(text, LineStart(text, pos), IndentAt(text, pos))
  {
    hide IndentEnd, LineStart;
  }

  /**
   Insertions at one point, whatever the data: the text that was there stays as it was,
   and the blocks stand in the order they were emitted just above the marker's line,
   indented by the spaces and tabs that line starts with.
   */
  lemma {:induction false} InsertionsStackAboveMarker(s: State, name: string, point: string, pos: nat, ds: seq<string>)
    requires name in s.files && point != "" && '\n' !in point
    requires pos <= |s.files[name]|
    requires Index(s.files[name], "@@protoc_insertion_point(" + point + ")") == Some(pos)
    requires forall d <- ds :: !Holds(d, "@@protoc_insertion_point(" + point + ")")
    ensures
      var text := s.files[name];
      var at, indent := LineStart(text, pos), IndentAt(text, pos);
      && LeadingBlanks(text, at, indent)
      && ApplyAll(s, Insertions(name, point, ds)) ==
         s.(files := s.files[name := text[..at] + Blocks(ds, indent) + text[at..]])
  {
    hide Holds, Index, IndentAt, LineStart, Blocks, Insertions, ApplyAll, LeadingBlanks;
    IndentIsLeading(s.files[name], pos);
    InsertionsStack(s, name, point, pos, ds);
  }

  lemma {:induction false} InsertionsStack(s: State, name: string, point: string, pos: nat, ds: seq<string>)
    requires name in s.files && point != "" && '\n' !in point
    requires Index(s.files[name], Magic(point)) == Some(pos) && pos <= |s.files[name]|
    requires forall d <- ds :: !Holds(d, Magic(point))
    ensures
      var text := s.files[name];
      ApplyAll(s, Insertions(name, point, ds)) ==
      s.(files := s.files[name := WithBlock(text, pos, Blocks(ds, IndentAt(text, pos)))])
    decreases |ds|
  {
    hide Holds, Index, Magic, IndentAt, LineStart, Indented, Terminate;
    var text := s.files[name];
    if ds == [] {
      assert WithBlock(text, pos, "") == text;
      assert s.files[name := text] == s.files;
    } else {
      hide WithBlock, Apply;
      var init, d := ds[..|ds| - 1], ds[|ds| - 1];
      InsertionsStack(s, name, point, pos, init);
      MagicIsMarkerLike(point);
      BlocksShift(text, pos, Magic(point), init);
      assert init + [d] == ds;
      InsertOneMore(s, name, point, pos, init, d);
    }
  }

  lemma {:induction false} InsertOneMore(s: State, name: string, point: string, pos: nat, init: seq<string>, d: string)
    requires name in s.files && point != "" && pos <= |s.files[name]|
    requires
      var text := s.files[name];
      var before := Blocks(init, IndentAt(text, pos));
      var t := WithBlock(text, pos, before);
      && |t| == |text| + |before| && Index(t, Magic(point)) == Some(pos + |before|)
      && LineStart(t, pos + |before|) == LineStart(text, pos) + |before|
      && IndentAt(t, pos + |before|) == IndentAt(text, pos)
      && ApplyAll(s, Insertions(name, point, init)) == s.(files := s.files[name := t])
    ensures
      var text := s.files[name];
      ApplyAll(s, Insertions(name, point, init + [d])) ==
      s.(files := s.files[name := WithBlock(text, pos, Blocks(init + [d], IndentAt(text, pos)))])
  {
    hide Index, Magic, IndentAt, LineStart, Indented, Terminate, WithBlock, Apply;
    var text := s.files[name];
    var indent := IndentAt(text, pos);
    var before := Blocks(init, indent);
    var t := WithBlock(text, pos, before);
    var now := s.(files := s.files[name := t]);
    var ds := init + [d];
    assert ds[..|init|] == init;
    var cs := Insertions(name, point, ds);
    assert cs[..|cs| - 1] == Insertions(name, point, init) && cs[|cs| - 1] == Chunk(name, point, d);
    ApplyInsertion(now, name, point, pos + |before|, d);
    WithBlocks(text, pos, before, Indented(Terminate(d), indent));
    var done := WithBlock(text, pos, Blocks(ds, indent));
    assert s.files[name := t][name := done] == s.files[name := done];
  }

  lemma {:induction false} ApplyInsertion(s: State, name: string, point: string, pos: nat, d: string)
    requires name in s.files && point != "" && pos <= |s.files[name]|
    requires Index(s.files[name], Magic(point)) == Some(pos)
    ensures
      var block := Indented(Terminate(d), IndentAt(s.files[name], pos));
      Apply(s, Chunk(name, point, d)) == s.(files := s.files[name := WithBlock(s.files[name], pos, block)])
  {
    hide Index, Magic, LineStart, IndentEnd, Indented, Terminate;
  }
}
