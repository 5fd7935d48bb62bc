/** The table of source-retention fields, as it is filled, pruned and consulted. */
module SourceRetentionFields {
  import opened Wrappers
  import opened Wire
  import opened SourceRetention
  import opened RetentionPrune

  datatype FieldInfo = FieldInfo(number: nat, sourceRetention: bool, isMessage: bool, typeName: string)

  class Fields {
    var strip: map<string, set<int>>
    var msgTypes: map<string, map<int, string>>

    function Table(): Retention
      reads this
    {
      Retention(strip, msgTypes)
    }

    constructor ()
      ensures Table() == Retention(map[], map[])
    {
      strip, msgTypes := map[], map[];
    }

    /** Notes one field under owner. */
    method Record(owner: string, field: FieldInfo)
      modifies this
      ensures forall o :: Table().Stripped(o)
                       == old(Table()).Stripped(o)
                        + (if o == owner && field.sourceRetention then {field.number} else {})
      ensures forall o :: Table().Messages(o)
                       == if o == owner && field.isMessage then old(Table()).Messages(o)[field.number := field.typeName]
                          else old(Table()).Messages(o)
    {
      if field.sourceRetention {
        if owner !in strip {
          strip := strip[owner := {}];
        }
        strip := strip[owner := strip[owner] + {field.number}];
      }
      if field.isMessage {
        if owner !in msgTypes {
          msgTypes := msgTypes[owner := map[]];
        }
        msgTypes := msgTypes[owner := msgTypes[owner][field.number := field.typeName]];
      }
    }

    /**
     Drops the message-valued fields whose type cannot lead to a source-retention
     field. The maps are visited in any order.
     */
    method PruneClean()
      modifies this`msgTypes
      ensures IsPruned(old(Table()), Table())
      ensures forall owner <- msgTypes :: msgTypes[owner] != map[]
    {
      hide SourcePath, Dirty, OnlyDirty, IsPruned;
      var dirty := FindDirty();
      msgTypes := DropCleanOwners(msgTypes, dirty);
      PrunedBy(old(Table()), Table(), dirty);
    }

    /** The least fixpoint: the messages a source-retention field is reachable from. */
    method FindDirty() returns (dirty: set<string>)
      ensures forall owner :: owner in dirty <==> Dirty(Table(), owner)
    {
      hide SourcePath, Dirty;
      dirty := strip.Keys;
      ghost var all := strip.Keys + msgTypes.Keys;
      forall o | o in dirty
        ensures Dirty(Table(), o)
      {
        StripIsDirty(Table(), o);
      }
      var changed := true;
      while changed
        invariant strip.Keys <= dirty <= all
        invariant forall o <- dirty :: Dirty(Table(), o)
        invariant !changed ==> Closed(Table(), dirty)
        decreases |all - dirty|, if changed then 1 else 0
      {
        ghost var before := dirty;
        dirty, changed := SpreadOnce(dirty);
        if changed {
          SmallerRest(all, before, dirty);
        }
      }
      forall o | Dirty(Table(), o)
        ensures o in dirty
      {
        DirtyIsLeast(Table(), dirty, o);
      }
    }

    /** One pass over the messages: those with a field of a dirty type become dirty. */
    method SpreadOnce(start: set<string>) returns (dirty: set<string>, changed: bool)
      requires strip.Keys <= start <= strip.Keys + msgTypes.Keys
      requires forall o <- start :: Dirty(Table(), o)
      ensures start <= dirty <= strip.Keys + msgTypes.Keys
      ensures forall o <- dirty :: Dirty(Table(), o)
      ensures changed ==> start != dirty
      ensures !changed ==> start == dirty && Closed(Table(), dirty)
    {
      hide SourcePath, Dirty;
      changed := false;
      dirty := start;
      var owners := msgTypes.Keys;
      while |owners| > 0
        invariant owners <= msgTypes.Keys
        invariant start <= dirty <= strip.Keys + msgTypes.Keys
        invariant forall o <- dirty :: Dirty(Table(), o)
        invariant changed <==> start != dirty
        invariant !changed ==> forall o <- msgTypes :: o !in owners ==> Settled(msgTypes[o], o, dirty)
        decreases |owners|
      {
        var owner :| owner in owners;
        owners := owners - {owner};
        if owner !in dirty {
          var found := AnyDirty(msgTypes[owner], dirty);
          if found {
            ghost var num :| num in msgTypes[owner] && msgTypes[owner][num] in dirty;
            assert num in Table().Messages(owner);
            EdgeIsDirty(Table(), owner, msgTypes[owner][num]);
            dirty := dirty + {owner};
            changed := true;
          }
        }
      }
      if !changed {
        forall o, t | Edge(Table(), o, t) && t in dirty
          ensures o in dirty
        {
          var n :| n in Table().Messages(o) && Table().Messages(o)[n] == t;
          assert Settled(msgTypes[o], o, dirty);
        }
      }
    }

    /** One field of a message: dropped, kept as it is, or written anew around its stripped content. */
    method StripOneField(owner: string, field: Bytes) returns (o: Outcome)
      ensures o == StripField(Table(), owner, field)
      decreases |field|, 0
    {
      hide Payload;
      var p := Payload(Table(), owner, field);
      match p {
        case Dropped(num) =>
          o := Outcome([], [num], true);
        case Opaque =>
          o := Outcome(field, [], false);
        case Message(num, nested, content) =>
          var inner := StripEncodedFields(nested, content);
          if !inner.changed {
            o := Outcome(field, [], false);
          } else {
            o := Outcome(AppendTag(num, BYTES) + AppendBytes(inner.kept), [], true);
          }
      }
    }

    /** The rewrite, as a loop over the encoded fields. */
    method StripEncodedFields(owner: string, buf: Bytes) returns (o: Outcome)
      ensures o == StripEncoded(Table(), owner, buf)
      decreases |buf|, 1
    {
      var stripped, msgs := Table().Stripped(owner), Table().Messages(owner);
      if |stripped| == 0 && |msgs| == 0 {
        return Outcome(buf, [], false);
      }
      hide StripFields, StripField, FieldLen;
      StartsFrom(StripFields(Table(), owner, buf));
      var rest := buf;
      var kept: Bytes := [];
      var dropped: seq<int> := [];
      var changed := false;
      while |rest| > 0 && FieldLen(rest).Some?
        invariant |rest| <= |buf|
        invariant StripFields(Table(), owner, buf)
               == Join(Outcome(kept, dropped, changed), StripFields(Table(), owner, rest))
        decreases |rest|
      {
        FieldLenFits(rest);
        var n := FieldLen(rest).value;
        var field := rest[..n];
        FieldsStep(Table(), owner, rest, Outcome(kept, dropped, changed));
        var one := StripOneField(owner, field);
        kept := kept + one.kept;
        dropped := dropped + one.dropped;
        changed := changed || one.changed;
        rest := rest[n..];
      }
      NothingLeft(Table(), owner, rest);
      o := Outcome(kept, dropped, changed);
      assert kept + [] == kept && dropped + [] == dropped;
    }
  }

  lemma {:induction false} StartsFrom(o: Outcome)
    ensures Join(Outcome([], [], false), o) == o
  {
    assert [] + o.kept == o.kept && [] + o.dropped == o.dropped;
  }

  lemma {:induction false} FieldsStep(r: Retention, owner: string, rest: Bytes, before: Outcome)
    requires FieldLen(rest).Some? && FieldLen(rest).value <= |rest|
    ensures
      var n := FieldLen(rest).value;
      Join(before, StripFields(r, owner, rest))
      == Join(Join(before, StripField(r, owner, rest[..n])), StripFields(r, owner, rest[n..]))
  {
    hide StripField, FieldLen;
    var n := FieldLen(rest).value;
    var one := StripField(r, owner, rest[..n]);
    JoinStep(before, one, StripFields(r, owner, rest[n..]), Join(before, one));
  }

  /** Either owner is dirty or none of its fields' types is. */
  ghost predicate Settled(fields: map<int, string>, owner: string, dirty: set<string>) {
    owner in dirty || forall num :: num in fields ==> fields[num] !in dirty
  }

  /** left is what remains of fields when those of a clean type are deleted. */
  ghost predicate OnlyDirty(fields: map<int, string>, dirty: set<string>, left: map<int, string>) {
    && (forall num :: num in left <==> num in fields && fields[num] in dirty)
    && (forall num :: num in left ==> left[num] == fields[num])
  }

  /** Owner's fields are pruned, and it is gone when none was left. */
  ghost predicate PrunedOwner(
    fields: map<int, string>, dirty: set<string>, msgTypes: map<string, map<int, string>>, owner: string) {
    if owner in msgTypes then OnlyDirty(fields, dirty, msgTypes[owner]) && msgTypes[owner] != map[]
    else OnlyDirty(fields, dirty, map[])
  }

  method DropCleanOwners(types: map<string, map<int, string>>, dirty: set<string>)
    returns (left: map<string, map<int, string>>)
    ensures left.Keys <= types.Keys
    ensures forall o <- types :: PrunedOwner(types[o], dirty, left, o)
  {
    hide OnlyDirty;
    left := types;
    var owners := types.Keys;
    while |owners| > 0
      invariant owners <= left.Keys <= types.Keys
      invariant forall o <- owners :: left[o] == types[o]
      invariant forall o <- types :: o !in owners ==> PrunedOwner(types[o], dirty, left, o)
      decreases |owners|
    {
      var owner :| owner in owners;
      owners := owners - {owner};
      var fields := DropClean(left[owner], dirty);
      left := left[owner := fields];
      if |fields| == 0 {
        left := left - {owner};
      }
    }
  }

  lemma {:induction false} PrunedBy(r: Retention, p: Retention, dirty: set<string>)
    requires p.strip == r.strip && p.msgTypes.Keys <= r.msgTypes.Keys
    requires forall o <- r.msgTypes :: PrunedOwner(r.msgTypes[o], dirty, p.msgTypes, o)
    requires forall o :: o in dirty <==> Dirty(r, o)
    ensures IsPruned(r, p)
  {
    hide Dirty;
    forall o
      ensures o in r.msgTypes ==> OnlyDirty(r.msgTypes[o], dirty, p.Messages(o))
      ensures o !in r.msgTypes ==> p.Messages(o) == map[] == r.Messages(o)
    {
    }
  }

  /** Deletes the fields of a clean type, in any order. */
  method DropClean(fields: map<int, string>, dirty: set<string>) returns (left: map<int, string>)
    ensures OnlyDirty(fields, dirty, left)
  {
    left := fields;
    var items := fields.Items;
    while |items| > 0
      invariant items <= fields.Items
      invariant left.Keys <= fields.Keys && forall n <- left :: left[n] == fields[n]
      invariant forall n <- fields :: (n in left <==> (n, fields[n]) in items || fields[n] in dirty)
      decreases |items|
    {
      var item :| item in items;
      items := items - {item};
      if item.1 !in dirty {
        left := left - {item.0};
      }
    }
    assert forall n <- fields :: n in left <==> fields[n] in dirty;
  }

  method AnyDirty(fields: map<int, string>, dirty: set<string>) returns (found: bool)
    ensures found <==> exists num :: num in fields && fields[num] in dirty
  {
    var items := fields.Items;
    found := false;
    while |items| > 0 && !found
      invariant items <= fields.Items
      invariant found ==> exists num :: num in fields && fields[num] in dirty
      invariant !found ==> forall num <- fields :: (num, fields[num]) in items || fields[num] !in dirty
      decreases |items|
    {
      var item :| item in items;
      items := items - {item};
      if item.1 in dirty {
        var num: int := item.0;
        assert num in fields && fields[num] in dirty;
        found := true;
      }
    }
  }

  lemma {:induction false} SmallerRest(all: set<string>, before: set<string>, dirty: set<string>)
    requires before < dirty <= all
    ensures |all - dirty| < |all - before|
  {
    assert all - before == (all - dirty) + (dirty - before);
    assert dirty - before != {};
  }

  lemma {:induction false} JoinStep(before: Outcome, field: Outcome, tail: Outcome, after: Outcome)
    requires after.kept == before.kept + field.kept
    requires after.dropped == before.dropped + field.dropped
    requires after.changed == (before.changed || field.changed)
    ensures Join(before, Join(field, tail)) == Join(after, tail)
  {
    assert before.kept + (field.kept + tail.kept) == (before.kept + field.kept) + tail.kept;
    assert before.dropped + (field.dropped + tail.dropped) == (before.dropped + field.dropped) + tail.dropped;
  }

  lemma {:induction false} NothingLeft(r: Retention, owner: string, rest: Bytes)
    requires rest == [] || FieldLen(rest).None?
    ensures StripFields(r, owner, rest) == Outcome([], [], false)
  {
  }
}
