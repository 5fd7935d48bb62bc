/**
 What becomes of each field, said over the two tables alone, and that the messages
 something can be stripped from are exactly those a source-retention field is reachable
 from.
 */
module RetentionExact {
  import opened Wrappers
  import opened Wire
  import opened SourceRetention
  import opened StripTheorems
  import opened RetentionPrune

  // ---------------------------------------------------------------------------
  // One field

  predicate Marked(r: Retention, owner: string, num: int) {
    owner in r.strip && num in r.strip[owner]
  }

  predicate HoldsMessage(r: Retention, owner: string, num: int) {
    owner in r.msgTypes && num in r.msgTypes[owner] && r.msgTypes[owner][num] != ""
  }

  lemma {:induction false} OneFieldStrip(r: Retention, owner: string, field: Bytes)
    requires OneField(field)
    ensures field != []
    ensures StripFields(r, owner, field) == StripField(r, owner, field)
  {
    hide StripField;
    FieldLenPositive(field);
    assert field[..|field|] == field && field[|field|..] == [];
    assert FieldLen([]) == None;
    var o := StripField(r, owner, field);
    assert o.kept + [] == o.kept && o.dropped + [] == o.dropped;
  }

  /** With nothing to look for, everything is kept. */
  lemma {:induction false} NothingNoted(r: Retention, owner: string, field: Bytes)
    requires |r.Stripped(owner)| == 0 && |r.Messages(owner)| == 0
    ensures StripField(r, owner, field) == Outcome(field, [], false)
  {
    hide ConsumeTag;
    assert r.Stripped(owner) == {} && r.Messages(owner) == map[];
  }

  lemma {:induction false} EncodedOneField(r: Retention, owner: string, field: Bytes)
    requires OneField(field)
    ensures StripEncoded(r, owner, field) == StripField(r, owner, field)
  {
    hide StripField, StripFields, OneField;
    OneFieldStrip(r, owner, field);
    if |r.Stripped(owner)| == 0 && |r.Messages(owner)| == 0 {
      NothingNoted(r, owner, field);
    }
  }

  /** A field marked source-retention goes, whatever it holds. */
  lemma {:induction false} MarkedGoes(r: Retention, owner: string, field: Bytes)
    requires OneField(field) && Marked(r, owner, ConsumeTag(field).value.num)
    ensures StripEncoded(r, owner, field) == Outcome([], [ConsumeTag(field).value.num], true)
  {
    hide StripEncoded;
    EncodedOneField(r, owner, field);
  }

  /** A field that is not marked and is not a length-delimited message stays. */
  lemma {:induction false} OtherStays(r: Retention, owner: string, field: Bytes)
    requires OneField(field) && !Marked(r, owner, ConsumeTag(field).value.num)
    requires ConsumeTag(field).value.typ == BYTES ==> !HoldsMessage(r, owner, ConsumeTag(field).value.num)
    ensures StripEncoded(r, owner, field) == Outcome(field, [], false)
  {
    hide StripEncoded;
    EncodedOneField(r, owner, field);
  }

  /** A message field is opened: it is rewritten around what its content becomes, or stays when that is unchanged. */
  lemma {:induction false} MessageOpened(r: Retention, owner: string, num: nat, content: Bytes)
    requires 1 <= num <= MAX_FIELD_NUMBER && |content| < MAX_LENGTH
    requires !Marked(r, owner, num) && HoldsMessage(r, owner, num)
    ensures
      var field := AppendTag(num, BYTES) + AppendBytes(content);
      var inner := StripEncoded(r, r.msgTypes[owner][num], content);
      StripEncoded(r, owner, field) ==
      if inner.changed then Outcome(AppendTag(num, BYTES) + AppendBytes(inner.kept), [], true)
      else Outcome(field, [], false)
  {
    hide StripEncoded, AppendTag, AppendBytes, OneField, ConsumeBytes, ConsumeTag;
    RewrittenField(num, content);
    EncodedOneField(r, owner, AppendTag(num, BYTES) + AppendBytes(content));
  }

  // ---------------------------------------------------------------------------
  // Fields in a row

  lemma {:induction false} UnchangedAsIs(r: Retention, owner: string, buf: Bytes)
    requires WellFormed(buf) && |r.Stripped(owner)| == 0 && |r.Messages(owner)| == 0
    ensures StripFields(r, owner, buf) == Outcome(buf, [], false)
    decreases |buf|
  {
    hide StripField, FieldLen;
    if buf != [] {
      FieldLenPositive(buf);
      var n := FieldLen(buf).value;
      NothingNoted(r, owner, buf[..n]);
      UnchangedAsIs(r, owner, buf[n..]);
      assert buf[..n] + buf[n..] == buf;
    } else {
      assert FieldLen(buf) == None by {
        EmptyHasNoField();
      }
    }
  }

  lemma {:induction false} EmptyHasNoField()
    ensures FieldLen([]) == None
  {
  }

  lemma {:induction false} EncodedIsFields(r: Retention, owner: string, buf: Bytes)
    requires WellFormed(buf)
    ensures StripEncoded(r, owner, buf) == StripFields(r, owner, buf)
  {
    hide StripFields, WellFormed;
    if |r.Stripped(owner)| == 0 && |r.Messages(owner)| == 0 {
      UnchangedAsIs(r, owner, buf);
    }
  }

  lemma {:induction false} WellFormedJoin(a: Bytes, b: Bytes)
    requires WellFormed(a) && WellFormed(b)
    ensures WellFormed(a + b)
    decreases |a|
  {
    hide FieldLen;
    if a == [] {
      assert a + b == b;
    } else {
      FieldLenPositive(a);
      var n := FieldLen(a).value;
      FieldLocal(a, a + b);
      assert (a + b)[n..] == a[n..] + b;
      WellFormedJoin(a[n..], b);
    }
  }

  lemma {:induction false} FieldsJoin(r: Retention, owner: string, a: Bytes, b: Bytes)
    requires WellFormed(a)
    ensures
      var x, y, z := StripFields(r, owner, a), StripFields(r, owner, b), StripFields(r, owner, a + b);
      z == Outcome(x.kept + y.kept, x.dropped + y.dropped, x.changed || y.changed)
    decreases |a|
  {
    hide FieldLen, StripField, StripFields;
    if a == [] {
      EmptyStrips(r, owner);
      assert a + b == b;
      var y := StripFields(r, owner, b);
      assert [] + y.kept == y.kept && [] + y.dropped == y.dropped;
    } else {
      FieldLenPositive(a);
      var n := FieldLen(a).value;
      FieldLocal(a, a + b);
      assert (a + b)[n..] == a[n..] + b && (a + b)[..n] == a[..n];
      FieldsJoin(r, owner, a[n..], b);
      FirstStrips(r, owner, a, n);
      FirstStrips(r, owner, a + b, n);
      JoinThree(StripField(r, owner, a[..n]), StripFields(r, owner, a[n..]), StripFields(r, owner, b));
    }
  }

  lemma {:induction false} EmptyStrips(r: Retention, owner: string)
    ensures StripFields(r, owner, []) == Outcome([], [], false)
  {
    EmptyHasNoField();
  }

  lemma {:induction false} FirstStrips(r: Retention, owner: string, buf: Bytes, n: nat)
    requires FieldLen(buf) == Some(n) && n <= |buf|
    ensures
      var x, y := StripField(r, owner, buf[..n]), StripFields(r, owner, buf[n..]);
      StripFields(r, owner, buf) == Outcome(x.kept + y.kept, x.dropped + y.dropped, x.changed || y.changed)
  {
    hide FieldLen, StripField;
  }

  lemma {:induction false} JoinThree(x: Outcome, y: Outcome, z: Outcome)
    ensures x.kept + (y.kept + z.kept) == (x.kept + y.kept) + z.kept
    ensures x.dropped + (y.dropped + z.dropped) == (x.dropped + y.dropped) + z.dropped
  {
  }

  /** Each field is treated on its own: stripping a row of fields is stripping its parts. */
  lemma {:induction false} StripJoins(r: Retention, owner: string, a: Bytes, b: Bytes)
    requires WellFormed(a) && WellFormed(b)
    ensures
      var x, y := StripEncoded(r, owner, a), StripEncoded(r, owner, b);
      StripEncoded(r, owner, a + b) == Outcome(x.kept + y.kept, x.dropped + y.dropped, x.changed || y.changed)
  {
    hide StripEncoded, StripFields, WellFormed;
    WellFormedJoin(a, b);
    EncodedIsFields(r, owner, a);
    EncodedIsFields(r, owner, b);
    EncodedIsFields(r, owner, a + b);
    FieldsJoin(r, owner, a, b);
  }

  // ---------------------------------------------------------------------------
  // Reachable means strippable

  /** What recording descriptors makes: numbers of fields, names of messages, and no empty set of numbers. */
  ghost predicate Recorded(r: Retention) {
    && (forall owner <- r.strip :: r.strip[owner] != {})
    && (forall owner, num :: owner in r.strip && num in r.strip[owner] ==> 1 <= num <= MAX_FIELD_NUMBER)
    && (forall owner, num :: owner in r.msgTypes && num in r.msgTypes[owner] ==>
          1 <= num <= MAX_FIELD_NUMBER && r.msgTypes[owner][num] != "")
  }

  /** A path that visits no message twice. */
  ghost predicate Simple(path: seq<string>) {
    forall i, j :: 0 <= i < j < |path| ==> path[i] != path[j]
  }

  lemma {:induction false} PathSuffix(r: Retention, path: seq<string>, k: nat)
    requires SourcePath(r, path) && k < |path|
    ensures SourcePath(r, path[k..])
  {
    hide Edge;
    forall i | 0 <= i < |path[k..]| - 1
      ensures Edge(r, path[k..][i], path[k..][i + 1])
    {
      assert Edge(r, path[k + i], path[k + i + 1]);
    }
  }

  lemma {:induction false} PathPrepend(r: Retention, owner: string, path: seq<string>)
    requires SourcePath(r, path) && Edge(r, owner, path[0])
    ensures SourcePath(r, [owner] + path)
  {
    hide Edge;
    var longer := [owner] + path;
    forall i | 0 <= i < |longer| - 1
      ensures Edge(r, longer[i], longer[i + 1])
    {
      assert i > 0 ==> Edge(r, path[i - 1], path[i]);
    }
  }

  lemma {:induction false} SimplePath(r: Retention, path: seq<string>) returns (short: seq<string>)
    requires SourcePath(r, path)
    ensures SourcePath(r, short) && short[0] == path[0] && Simple(short)
    decreases |path|
  {
    hide Edge, SourcePath;
    PathNotEmpty(r, path);
    if |path| == 1 {
      short := path;
    } else {
      PathSuffix(r, path, 1);
      FirstEdge(r, path);
      var rest := SimplePath(r, path[1..]);
      if path[0] in rest {
        var k :| 0 <= k < |rest| && rest[k] == path[0];
        PathSuffix(r, rest, k);
        short := rest[k..];
      } else {
        PathPrepend(r, path[0], rest);
        short := [path[0]] + rest;
      }
    }
  }

  lemma {:induction false} PathNotEmpty(r: Retention, path: seq<string>)
    requires SourcePath(r, path)
    ensures path != []
  {
  }

  lemma {:induction false} FirstEdge(r: Retention, path: seq<string>)
    requires SourcePath(r, path) && |path| > 1
    ensures Edge(r, path[0], path[1])
  {
  }

  /** All but the last message of a path have message fields. */
  lemma {:induction false} PathBound(r: Retention, path: seq<string>)
    requires SourcePath(r, path) && Simple(path)
    ensures |path| <= |r.msgTypes.Keys| + 1
  {
    var init := path[..|path| - 1];
    forall i | 0 <= i < |init|
      ensures init[i] in r.msgTypes.Keys
    {
      assert Edge(r, path[i], path[i + 1]);
    }
    DistinctIn(init, r.msgTypes.Keys);
  }

  lemma {:induction false} DistinctIn(s: seq<string>, keys: set<string>)
    requires Simple(s) && forall x <- s :: x in keys
    ensures |s| <= |keys|
    decreases |s|
  {
    if s != [] {
      var rest := s[1..];
      forall x <- rest
        ensures x in keys - {s[0]}
      {
        var k :| 0 <= k < |rest| && rest[k] == x;
        assert s[k + 1] != s[0];
      }
      DistinctIn(rest, keys - {s[0]});
    }
  }

  /** Bytes of the path's first message that a strip changes: its fields nested along the path. */
  lemma {:induction false} PathChanges(r: Retention, path: seq<string>) returns (buf: Bytes)
    requires Recorded(r) && SourcePath(r, path) && |path| < MAX_INPUT
    ensures StripEncoded(r, path[0], buf).changed && |buf| <= 14 * |path|
    decreases |path|
  {
    hide StripEncoded, AppendTag, Edge, SourcePath, Recorded;
    PathNotEmpty(r, path);
    if |path| == 1 {
      buf := LastChanges(r, path);
    } else {
      PathSuffix(r, path, 1);
      FirstEdge(r, path);
      var content := PathChanges(r, path[1..]);
      buf := EdgeChanges(r, path[0], path[1], content);
    }
  }

  lemma {:induction false} LastChanges(r: Retention, path: seq<string>) returns (buf: Bytes)
    requires Recorded(r) && SourcePath(r, path) && |path| == 1
    ensures StripEncoded(r, path[0], buf).changed && |buf| <= 14
  {
    hide StripEncoded, AppendTag;
    var owner := path[0];
    var num := Member(r.strip[owner]);
    buf := MarkedChanges(r, owner, num);
  }

  lemma {:induction false} Member<T>(s: set<T>) returns (x: T)
    requires s != {}
    ensures x in s
  {
    x :| x in s;
  }

  lemma {:induction false} MarkedChanges(r: Retention, owner: string, num: int) returns (buf: Bytes)
    requires Marked(r, owner, num) && 1 <= num <= MAX_FIELD_NUMBER
    ensures StripEncoded(r, owner, buf).changed && |buf| <= 14
  {
    hide StripEncoded, AppendTag, OneField, ConsumeTag;
    buf := AppendTag(num, BYTES) + AppendBytes([]);
    RewrittenField(num, []);
    TagLength(num, BYTES);
    MarkedGoes(r, owner, buf);
  }

  lemma {:induction false} EdgeChanges(r: Retention, owner: string, t: string, content: Bytes) returns (buf: Bytes)
    requires Recorded(r) && Edge(r, owner, t) && StripEncoded(r, t, content).changed && |content| < MAX_LENGTH
    ensures StripEncoded(r, owner, buf).changed && |buf| <= 14 + |content|
  {
    hide StripEncoded, AppendTag, OneField, ConsumeTag;
    var num: int :| num in r.msgTypes[owner] && r.msgTypes[owner][num] == t;
    buf := AppendTag(num, BYTES) + AppendBytes(content);
    TagLength(num, BYTES);
    LengthPrefixLength(|content|);
    RewrittenField(num, content);
    if Marked(r, owner, num) {
      MarkedGoes(r, owner, buf);
    } else {
      MessageOpened(r, owner, num, content);
    }
  }

  /** Something can be stripped from a message exactly when a source-retention field is reachable from it. */
  lemma {:induction false} DirtyExactly(r: Retention, owner: string)
    requires Recorded(r) && |r.msgTypes.Keys| < MAX_INPUT - 1
    ensures Dirty(r, owner) <==> exists buf :: StripEncoded(r, owner, buf).changed
  {
    hide StripEncoded, Edge, Recorded;
    if Dirty(r, owner) {
      var path :| SourcePath(r, path) && path[0] == owner;
      var short := SimplePath(r, path);
      PathBound(r, short);
      var buf := PathChanges(r, short);
      assert StripEncoded(r, owner, buf).changed;
    } else {
      forall buf
        ensures !StripEncoded(r, owner, buf).changed
      {
        CleanUnchanged(r, owner, buf);
      }
    }
  }
}
