/**
 Pruning the type graph down to the messages that can lead to a source-retention
 field, and why pruning cannot change what stripping does.
 */
module RetentionPrune {
  import opened Wrappers
  import opened Wire
  import opened SourceRetention

  /** Message owner has a field of message type t. */
  ghost predicate Edge(r: Retention, owner: string, t: string) {
    owner in r.msgTypes && exists num :: num in r.msgTypes[owner] && r.msgTypes[owner][num] == t
  }

  /** path leads along message fields from its first message to one with a source-retention field. */
  ghost predicate SourcePath(r: Retention, path: seq<string>) {
    && path != []
    && path[|path| - 1] in r.strip
    && forall i :: 0 <= i < |path| - 1 ==> Edge(r, path[i], path[i + 1])
  }

  /** A source-retention field is reachable from owner. */
  ghost predicate Dirty(r: Retention, owner: string) {
    exists path :: SourcePath(r, path) && path[0] == owner
  }

  lemma {:induction false} StripIsDirty(r: Retention, owner: string)
    requires owner in r.strip
    ensures Dirty(r, owner)
  {
    assert SourcePath(r, [owner]);
  }

  lemma {:induction false} EdgeIsDirty(r: Retention, owner: string, t: string)
    requires Edge(r, owner, t) && Dirty(r, t)
    ensures Dirty(r, owner)
  {
    var path :| SourcePath(r, path) && path[0] == t;
    var longer := [owner] + path;
    forall i | 0 <= i < |longer| - 1
      ensures Edge(r, longer[i], longer[i + 1])
    {
      if i > 0 {
        assert Edge(r, path[i - 1], path[i]);
      }
    }
    assert SourcePath(r, longer);
  }

  /** A set of messages closed against the edges and holding every message with a source-retention field. */
  ghost predicate Closed(r: Retention, s: set<string>) {
    r.strip.Keys <= s && forall owner, t :: Edge(r, owner, t) && t in s ==> owner in s
  }

  /** Dirty is the least such set. */
  lemma {:induction false} DirtyIsLeast(r: Retention, s: set<string>, owner: string)
    requires Closed(r, s) && Dirty(r, owner)
    ensures owner in s
  {
    var path :| SourcePath(r, path) && path[0] == owner;
    PathInside(r, s, path);
  }

  lemma {:induction false} PathInside(r: Retention, s: set<string>, path: seq<string>)
    requires Closed(r, s) && SourcePath(r, path)
    ensures path[0] in s
    decreases |path|
  {
    if |path| > 1 {
      assert Edge(r, path[0], path[1]);
      forall i | 0 <= i < |path[1..]| - 1
        ensures Edge(r, path[1..][i], path[1..][i + 1])
      {
        assert Edge(r, path[i + 1], path[i + 2]);
      }
      PathInside(r, s, path[1..]);
    }
  }

  /** p keeps of r's message fields exactly those whose type is dirty. */
  ghost predicate IsPruned(r: Retention, p: Retention) {
    && p.strip == r.strip
    && (forall owner, num :: num in p.Messages(owner) <==> num in r.Messages(owner) && Dirty(r, r.Messages(owner)[num]))
    && (forall owner, num :: num in p.Messages(owner) ==> p.Messages(owner)[num] == r.Messages(owner)[num])
  }

  // ---------------------------------------------------------------------------

  /** Nothing is stripped from a message no source-retention field is reachable from. */
  lemma {:induction false} CleanUnchanged(r: Retention, owner: string, buf: Bytes)
    requires !Dirty(r, owner)
    ensures !StripEncoded(r, owner, buf).changed
    decreases |buf|, 2
  {
    hide StripFields, Dirty;
    CleanFieldsUnchanged(r, owner, buf);
  }

  lemma {:induction false} CleanFieldsUnchanged(r: Retention, owner: string, buf: Bytes)
    requires !Dirty(r, owner)
    ensures !StripFields(r, owner, buf).changed
    decreases |buf|, 1
  {
    hide StripField, Dirty, FieldLen;
    FieldLenFits(buf);
    if FieldLen(buf).Some? {
      var n := FieldLen(buf).value;
      CleanFieldUnchanged(r, owner, buf[..n]);
      CleanFieldsUnchanged(r, owner, buf[n..]);
    }
  }

  lemma {:induction false} FieldLenFits(buf: Bytes)
    ensures FieldLen(buf).Some? ==> 0 < FieldLen(buf).value <= |buf|
  {
  }

  lemma {:induction false} CleanFieldUnchanged(r: Retention, owner: string, field: Bytes)
    requires !Dirty(r, owner)
    ensures !StripField(r, owner, field).changed
    decreases |field|, 0
  {
    hide StripEncoded, Dirty;
    if owner in r.strip {
      StripIsDirty(r, owner);
    }
    var p := Payload(r, owner, field);
    if p.Message? {
      MessageEdge(r, owner, field);
      if Dirty(r, p.nested) {
        EdgeIsDirty(r, owner, p.nested);
      }
      CleanUnchanged(r, p.nested, p.content);
    }
  }

  lemma {:induction false} MessageEdge(r: Retention, owner: string, field: Bytes)
    requires Payload(r, owner, field).Message?
    ensures var p := Payload(r, owner, field);
            && p.num in r.Messages(owner) && r.Messages(owner)[p.num] == p.nested
            && Edge(r, owner, p.nested)
  {
  }

  /** Stripping with the pruned graph reports the same, and returns the same when there is a change. */
  lemma {:induction false} PruneKeepsStrip(r: Retention, p: Retention, owner: string, buf: Bytes)
    requires IsPruned(r, p)
    ensures StripEncoded(p, owner, buf).changed == StripEncoded(r, owner, buf).changed
    ensures StripEncoded(r, owner, buf).changed ==> StripEncoded(p, owner, buf) == StripEncoded(r, owner, buf)
    decreases |buf|, 2
  {
    hide StripFields, Dirty, IsPruned;
    PruneKeepsFields(r, p, owner, buf);
    ShortcutSound(p, owner, buf);
    ShortcutSound(r, owner, buf);
  }

  /** When the shortcut is taken, the full rewrite would have changed nothing. */
  lemma {:induction false} ShortcutSound(r: Retention, owner: string, buf: Bytes)
    ensures |r.Stripped(owner)| == 0 && |r.Messages(owner)| == 0 ==> !StripFields(r, owner, buf).changed
    decreases |buf|
  {
    hide FieldLen, ConsumeTag, StripEncoded;
    FieldLenFits(buf);
    if |r.Stripped(owner)| == 0 && |r.Messages(owner)| == 0 && FieldLen(buf).Some? {
      ShortcutSound(r, owner, buf[FieldLen(buf).value..]);
    }
  }

  lemma {:induction false} PruneKeepsFields(r: Retention, p: Retention, owner: string, buf: Bytes)
    requires IsPruned(r, p)
    ensures StripFields(p, owner, buf) == StripFields(r, owner, buf)
    decreases |buf|, 1
  {
    hide StripField, Dirty, FieldLen, IsPruned;
    FieldLenFits(buf);
    if FieldLen(buf).Some? {
      var n := FieldLen(buf).value;
      PruneKeepsField(r, p, owner, buf[..n]);
      PruneKeepsFields(r, p, owner, buf[n..]);
    }
  }

  lemma {:induction false} PruneKeepsField(r: Retention, p: Retention, owner: string, field: Bytes)
    requires IsPruned(r, p)
    ensures StripField(p, owner, field) == StripField(r, owner, field)
    decreases |field|, 0
  {
    hide StripEncoded, Dirty, Payload, IsPruned;
    PayloadPruned(r, p, owner, field);
    var m := Payload(r, owner, field);
    if m.Message? {
      ContentFits(r, owner, field);
      if Dirty(r, m.nested) {
        PruneKeepsStrip(r, p, m.nested, m.content);
      } else {
        CleanUnchanged(r, m.nested, m.content);
      }
    }
  }

  lemma {:induction false} ContentFits(r: Retention, owner: string, field: Bytes)
    requires Payload(r, owner, field).Message?
    ensures |Payload(r, owner, field).content| < |field|
  {
  }

  lemma {:induction false} PayloadPruned(r: Retention, p: Retention, owner: string, field: Bytes)
    requires IsPruned(r, p)
    ensures var m := Payload(r, owner, field);
            if m.Message? && !Dirty(r, m.nested) then Payload(p, owner, field) == Opaque
            else Payload(p, owner, field) == m
  {
    hide Dirty;
    var tag := ConsumeTag(field);
    if tag.Some? {
      var num := tag.value.num;
      assert num in p.Messages(owner) <==> num in r.Messages(owner) && Dirty(r, r.Messages(owner)[num]);
    }
  }
}
