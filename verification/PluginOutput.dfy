/**
 Replaying a plugin response: named entries start files or insertions, nameless ones
 continue the entry before them, and an entry takes effect when the next one starts.
 */
module PluginOutput {
  import opened Wrappers

  datatype Chunk = Chunk(name: string, insertionPoint: string, data: string)

  datatype State = State(files: map<string, string>, order: seq<string>, failed: bool)

  const EMPTY := State(map[], [], false)

  // ---------------------------------------------------------------------------
  // Text
  // ---------------------------------------------------------------------------

  predicate OccursAt(text: string, i: int, pattern: string) {
    0 <= i && i + |pattern| <= |text| && text[i..i + |pattern|] == pattern
  }

  /** The first occurrence at or after i. */
  function IndexFrom(text: string, pattern: string, i: nat): (r: Option<nat>)
    ensures r.Some? ==> i <= r.value && OccursAt(text, r.value, pattern)
    ensures r.Some? ==> forall k :: i <= k < r.value ==> !OccursAt(text, k, pattern)
    ensures r.None? ==> forall k :: i <= k ==> !OccursAt(text, k, pattern)
    decreases |text| - i
  {
    if i + |pattern| > |text| then None
    else if OccursAt(text, i, pattern) then Some(i)
    else IndexFrom(text, pattern, i + 1)
  }

  function Index(text: string, pattern: string): (r: Option<nat>)
  {
    IndexFrom(text, pattern, 0)
  }

  /** Where the line that holds position pos starts. */
  function LineStart(text: string, pos: nat): (n: nat)
    requires pos <= |text|
    ensures n <= pos && (n > 0 ==> text[n - 1] == '\n')
    ensures forall k :: n <= k < pos ==> text[k] != '\n'
  {
    if pos == 0 || text[pos - 1] == '\n' then pos else LineStart(text, pos - 1)
  }

  predicate Blank(c: char) {
    c == ' ' || c == '\t'
  }

  /** The end of the blanks that start at i. */
  function IndentEnd(text: string, i: nat): (n: nat)
    requires i <= |text|
    ensures i <= n <= |text| && (forall k :: i <= k < n ==> Blank(text[k]))
    ensures n < |text| ==> !Blank(text[n])
    decreases |text| - i
  {
    if i < |text| && Blank(text[i]) then IndentEnd(text, i + 1) else i
  }

  predicate Terminated(data: string) {
    data == "" || data[|data| - 1] == '\n'
  }

  function Terminate(data: string): (r: string)
    ensures Terminated(r)
  {
    if Terminated(data) then data else data + "\n"
  }

  /** The length of the first line, its newline included. */
  function LineLength(data: string): (n: nat)
    requires data != "" && Terminated(data)
    ensures 0 < n <= |data| && data[n - 1] == '\n'
    ensures forall k :: 0 <= k < n - 1 ==> data[k] != '\n'
  {
    if data[0] == '\n' then 1 else 1 + LineLength(data[1..])
  }

  /** data with indent in front of every line. */
  function Indented(data: string, indent: string): string
    requires Terminated(data)
    decreases |data|
  {
    if data == "" then ""
    else
      var n := LineLength(data);
      indent + data[..n] + Indented(data[n..], indent)
  }

  // ---------------------------------------------------------------------------
  // One entry
  // ---------------------------------------------------------------------------

  function Magic(insertionPoint: string): string {
    "@@protoc_insertion_point(" + insertionPoint + ")"
  }

  /** data spliced in before the line that holds position pos, indented like that line. */
  function Spliced(target: string, pos: nat, data: string): string
    requires pos <= |target|
  {
    var at := LineStart(target, pos);
    target[..at] + Indented(Terminate(data), target[at..IndentEnd(target, at)]) + target[at..]
  }

  function Apply(s: State, c: Chunk): State {
    var present := c.name in s.files;
    var opened' := if present then s else State(s.files[c.name := ""], s.order + [c.name], s.failed);
    if c.insertionPoint == "" then
      if present then opened'.(failed := true) else opened'.(files := opened'.files[c.name := c.data])
    else if !present then opened'.(failed := true)
    else
      match Index(s.files[c.name], Magic(c.insertionPoint))
      case None => opened'.(failed := true)
      case Some(pos) => opened'.(files := s.files[c.name := Spliced(s.files[c.name], pos, c.data)])
  }

  function ApplyAll(s: State, cs: seq<Chunk>): State
    decreases |cs|
  {
    if cs == [] then s else Apply(ApplyAll(s, cs[..|cs| - 1]), cs[|cs| - 1])
  }

  // ---------------------------------------------------------------------------
  // Grouping
  // ---------------------------------------------------------------------------

  predicate Starts(e: Chunk) {
    e.insertionPoint != "" || e.name != ""
  }

  /** How many leading entries only continue. */
  function Continuing(es: seq<Chunk>): (n: nat)
    ensures n <= |es| && (forall k :: 0 <= k < n ==> !Starts(es[k]))
    ensures n < |es| ==> Starts(es[n])
  {
    if es == [] || Starts(es[0]) then 0 else 1 + Continuing(es[1..])
  }

  function Contents(es: seq<Chunk>): string {
    if es == [] then "" else es[0].data + Contents(es[1..])
  }

  /** Each starting entry with the contents of all that continue it; None when the first one continues. */
  function Groups(es: seq<Chunk>): Option<seq<Chunk>>
    decreases |es|
  {
    if es == [] then Some([])
    else if !Starts(es[0]) then None
    else
      var n := 1 + Continuing(es[1..]);
      var rest :- Groups(es[n..]);
      Some([es[0].(data := Contents(es[..n]))] + rest)
  }

  // ---------------------------------------------------------------------------
  // The output directory
  // ---------------------------------------------------------------------------

  class OutputDir {
    var files: map<string, string>
    var order: seq<string>
    var hadError: bool

    constructor ()
      ensures Valid() && Value() == EMPTY
    {
      files, order, hadError := map[], [], false;
    }

    /** order lists every file once. */
    ghost predicate Valid()
      reads this
    {
      && (forall i, j :: 0 <= i < j < |order| ==> order[i] != order[j])
      && (forall n :: n in order <==> n in files)
    }

    function Value(): State
      reads this
    {
      State(files, order, hadError)
    }

    method Flush(c: Chunk)
      requires Valid()
      modifies this
      ensures Valid() && Value() == Apply(old(Value()), c)
    {
      var present := c.name in files;
      if !present {
        files := files[c.name := ""];
        order := order + [c.name];
      }
      if c.insertionPoint == "" {
        if present {
          hadError := true;
          return;
        }
        files := files[c.name := c.data];
        return;
      }
      if !present {
        hadError := true;
        return;
      }
      var target := files[c.name];
      var pos := Index(target, Magic(c.insertionPoint));
      if pos.None? {
        hadError := true;
        return;
      }
      var spliced := InsertAt(target, pos.value, c.data);
      files := files[c.name := spliced];
    }
  }

  method IndentLines(data: string, indent: string) returns (r: string)
    requires Terminated(data)
    ensures r == Indented(data, indent)
  {
    hide LineLength;
    var left := data;
    r := "";
    while |left| > 0
      invariant Terminated(left)
      invariant r + Indented(left, indent) == Indented(data, indent)
    {
      var end := LineLength(left);
      assert r + (indent + left[..end] + Indented(left[end..], indent))
          == r + indent + left[..end] + Indented(left[end..], indent);
      r := r + indent;
      r := r + left[..end];
      left := left[end..];
    }
    assert r + "" == r;
  }

  method InsertAt(target: string, pos: nat, data: string) returns (r: string)
    requires pos <= |target|
    ensures r == Spliced(target, pos, data)
  {
    hide LineLength, IndexFrom;
    var left := data;
    if left != "" && left[|left| - 1] != '\n' {
      left := left + "\n";
    }
    var lineStart := LineStart(target, pos);
    var indentEnd := lineStart;
    while indentEnd < |target| && Blank(target[indentEnd])
      invariant lineStart <= indentEnd <= |target|
      invariant IndentEnd(target, indentEnd) == IndentEnd(target, lineStart)
    {
      indentEnd := indentEnd + 1;
    }
    var indent := target[lineStart..indentEnd];
    r := target[..lineStart];
    if indent == "" {
      IndentedByNothing(left);
      r := r + left;
    } else {
      var block := IndentLines(left, indent);
      r := r + block;
    }
    r := r + target[lineStart..];
  }

  lemma {:induction false} IndentedByNothing(data: string)
    requires Terminated(data)
    ensures Indented(data, "") == data
    decreases |data|
  {
    hide LineLength, Indented;
    if data == "" {
      NothingIndented("");
    } else {
      var n := LineLength(data);
      IndentedByNothing(data[n..]);
      IndentedFirst(data, "");
      assert "" + data[..n] + data[n..] == data;
    }
  }

  lemma {:induction false} NothingIndented(indent: string)
    ensures Indented("", indent) == ""
  {
  }

  lemma {:induction false} IndentedFirst(data: string, indent: string)
    requires Terminated(data) && data != ""
    ensures var n := LineLength(data); Indented(data, indent) == indent + data[..n] + Indented(data[n..], indent)
  {
    hide LineLength;
  }

  /** The last group is still being collected; the ones before it have been applied. */
  ghost predicate Pending(gs: seq<Chunk>, current: Chunk, s: State) {
    gs != [] && gs[|gs| - 1] == current && s == ApplyAll(EMPTY, gs[..|gs| - 1])
  }

  lemma {:induction false} PendingStep(gs: seq<Chunk>, current: Chunk, e: Chunk, s: State)
    requires Pending(gs, current, s)
    ensures Apply(s, current) == ApplyAll(EMPTY, gs)
    ensures Starts(e) ==> Pending(gs + [e], e, Apply(s, current))
    ensures !Starts(e) ==> Extended(gs, e).Some? && Pending(Extended(gs, e).value, current.(data := current.data + e.data), s)
  {
    hide Apply;
    assert (gs + [e])[..|gs|] == gs;
  }

  lemma {:induction false} NoGroups()
    ensures Groups([]) == Some([]) && ApplyAll(EMPTY, []) == EMPTY
  {
  }

  method CollectPluginOutput(response: seq<Chunk>) returns (out: Option<OutputDir>)
    ensures out.None? <==> response != [] && !Starts(response[0])
    ensures out.Some? ==> fresh(out.value) && out.value.Valid() && Groups(response).Some?
    ensures out.Some? ==> out.value.Value() == ApplyAll(EMPTY, Groups(response).value)
  {
    hide Groups, Apply, Starts, ApplyAll;
    NoGroups();
    var dir := new OutputDir();
    var current: Option<Chunk> := None;
    for i := 0 to |response|
      invariant dir.Valid() && fresh(dir)
      invariant current.Some? <==> i > 0
      invariant Groups(response[..i]).Some?
      invariant current.None? ==> Groups(response[..i]).value == [] && dir.Value() == EMPTY
      invariant current.Some? ==> Starts(response[0]) && Pending(Groups(response[..i]).value, current.value, dir.Value())
    {
      var f := response[i];
      assert response[..i + 1] == response[..i] + [f];
      GroupsSnoc(response[..i], f);
      if current.Some? {
        PendingStep(Groups(response[..i]).value, current.value, f, dir.Value());
      }
      if Starts(f) {
        if current.Some? {
          dir.Flush(current.value);
        }
        current := Some(f.(data := ""));
      } else if current.None? {
        return None;
      }
      assert "" + f.data == f.data;
      current := Some(current.value.(data := current.value.data + f.data));
    }
    assert response[..|response|] == response;
    if current.Some? {
      PendingStep(Groups(response).value, current.value, current.value, dir.Value());
      dir.Flush(current.value);
    }
    out := Some(dir);
  }

  /** What one more entry makes of the groups so far. */
  ghost function Extended(gs: seq<Chunk>, e: Chunk): Option<seq<Chunk>> {
    if Starts(e) then Some(gs + [e])
    else if gs == [] then None
    else Some(gs[..|gs| - 1] + [gs[|gs| - 1].(data := gs[|gs| - 1].data + e.data)])
  }

  lemma {:induction false} GroupsUnfold(es: seq<Chunk>, n: nat, rest: Option<seq<Chunk>>)
    requires es != [] && Starts(es[0]) && n == 1 + Continuing(es[1..]) && rest == Groups(es[n..])
    ensures Groups(es) == if rest.None? then None else Some([es[0].(data := Contents(es[..n]))] + rest.value)
  {
    hide Continuing, Contents;
  }

  /** One more entry opens a group or joins the last one. */
  lemma {:induction false} GroupsSnoc(es: seq<Chunk>, e: Chunk)
    requires Groups(es).Some?
    ensures Groups(es + [e]) == Extended(Groups(es).value, e)
    ensures es != [] ==> Groups(es).value != [] && Starts(es[0])
    decreases |es|
  {
    hide Contents, Continuing, Groups;
    if es == [] {
      GroupsOfOne(e);
    } else {
      assert Starts(es[0]) by {
        StartsWhenGrouped(es);
      }
      var all := es + [e];
      var n := 1 + Continuing(es[1..]);
      var head := es[0].(data := Contents(es[..n]));
      assert all[1..] == es[1..] + [e];
      ContinuingSnoc(es[1..], e);
      GroupsUnfold(es, n, Groups(es[n..]));
      if n < |es| {
        var rest := Groups(es[n..]).value;
        GroupsSnoc(es[n..], e);
        assert all[n..] == es[n..] + [e] && all[..n] == es[..n];
        GroupsUnfold(all, n, Groups(all[n..]));
        ExtendedTail(head, rest, e);
      } else {
        assert es[n..] == [];
        GroupsOfOne(e);
        var joined := head.(data := head.data + e.data);
        assert [head] + [] == [head] && [head][..0] == [] && [] + [joined] == [joined] + [] == [joined];
        if Starts(e) {
          assert all[n..] == [e] && all[..n] == es[..n];
          GroupsUnfold(all, n, Groups([e]));
        } else {
          assert all[n + 1..] == [] && all[..n + 1] == es[..n] + [e];
          ContentsSnoc(es[..n], e);
          GroupsUnfold(all, n + 1, Groups([]));
        }
      }
    }
  }

  lemma {:induction false} StartsWhenGrouped(es: seq<Chunk>)
    requires es != [] && Groups(es).Some?
    ensures Starts(es[0])
  {
  }

  lemma {:induction false} GroupsOfOne(e: Chunk)
    ensures Groups([]) == Some([])
    ensures [] + [e] == [e] && Groups([e]) == Extended([], e)
  {
    assert [e][1..] == [] && [e][..1] == [e];
    assert Contents([e]) == e.data + Contents([e][1..]);
    assert Groups([e][1..]) == Some([]);
    assert e.data + "" == e.data;
    assert [e] + [] == [e];
  }

  lemma {:induction false} ExtendedTail(head: Chunk, rest: seq<Chunk>, e: Chunk)
    requires rest != []
    ensures Extended([head] + rest, e) == Some([head] + Extended(rest, e).value)
  {
    var all, last := [head] + rest, rest[|rest| - 1];
    assert all[..|rest|] == [head] + rest[..|rest| - 1] && all[|rest|] == last;
    assert all + [e] == [head] + (rest + [e]);
    var joined := [last.(data := last.data + e.data)];
    assert [head] + rest[..|rest| - 1] + joined == [head] + (rest[..|rest| - 1] + joined);
  }

  lemma {:induction false} ContentsSnoc(es: seq<Chunk>, e: Chunk)
    ensures Contents(es + [e]) == Contents(es) + e.data
  {
    if es == [] {
      assert ([] + [e])[1..] == [];
    } else {
      assert (es + [e])[1..] == es[1..] + [e];
      ContentsSnoc(es[1..], e);
    }
  }

  lemma {:induction false} ContinuingSnoc(es: seq<Chunk>, e: Chunk)
    ensures Continuing(es + [e])
         == if Continuing(es) < |es| then Continuing(es) else if Starts(e) then |es| else |es| + 1
  {
    if es != [] {
      assert (es + [e])[1..] == es[1..] + [e];
      ContinuingSnoc(es[1..], e);
    }
  }
}
