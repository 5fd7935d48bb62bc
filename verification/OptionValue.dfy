/**
 The value an encoded options message carries, independent of how it was written
 down: per field number, the scalar occurrences, the entries of a repeated
 message, and the one value of a singular message. Merging two values is the
 meaning of concatenating their encodings.

 Field numbers of a value are listed in increasing order.
 */
module OptionValue {
  import opened Wrappers
  import opened Wire

  /** raws: each scalar occurrence, as its own encoded field. */
  datatype Val = Val(raws: seq<Bytes>, items: seq<Msg>, merged: Option<Msg>)

  datatype Msg = Nil | Cons(num: nat, val: Val, rest: Msg)

  function Merge(a: Msg, b: Msg): Msg
    decreases a, b
  {
    if a.Nil? then b
    else if b.Nil? then a
    else if a.num < b.num then Cons(a.num, a.val, Merge(a.rest, b))
    else if b.num < a.num then Cons(b.num, b.val, Merge(a, b.rest))
    else Cons(a.num, MergeVal(a.val, b.val), Merge(a.rest, b.rest))
  }

  function MergeVal(u: Val, v: Val): Val
    decreases u, v
  {
    Val(u.raws + v.raws, u.items + v.items,
        if u.merged.None? then v.merged
        else if v.merged.None? then u.merged
        else Some(Merge(u.merged.value, v.merged.value)))
  }

  function Single(num: nat, v: Val): Msg {
    Cons(num, v, Nil)
  }

  /** Every number of m is above lo, and they increase. */
  predicate Above(m: Msg, lo: int) {
    m.Cons? ==> lo < m.num && Above(m.rest, m.num)
  }

  // ---------------------------------------------------------------------------

  lemma {:induction false} MergeNil(a: Msg)
    ensures Merge(a, Nil) == a && Merge(Nil, a) == a
  {
  }

  /** Merging is associative, so a sequence of fragments has one meaning. */
  lemma {:induction false} MergeAssoc(a: Msg, b: Msg, c: Msg)
    ensures Merge(Merge(a, b), c) == Merge(a, Merge(b, c))
    decreases a, b, c
  {
    if a.Nil? || b.Nil? || c.Nil? {
    } else if a.num < b.num && a.num < c.num {
      MergeAssoc(a.rest, b, c);
    } else if b.num < a.num && b.num < c.num {
      MergeAssoc(a, b.rest, c);
    } else if c.num < a.num && c.num < b.num {
      MergeAssoc(a, b, c.rest);
    } else if a.num == b.num && a.num < c.num {
      MergeAssoc(a.rest, b.rest, c);
    } else if a.num == c.num && a.num < b.num {
      MergeAssoc(a.rest, b, c.rest);
    } else if b.num == c.num && b.num < a.num {
      MergeAssoc(a, b.rest, c.rest);
    } else {
      MergeValAssoc(a.val, b.val, c.val);
      MergeAssoc(a.rest, b.rest, c.rest);
    }
  }

  lemma {:induction false} MergeValAssoc(u: Val, v: Val, w: Val)
    ensures MergeVal(MergeVal(u, v), w) == MergeVal(u, MergeVal(v, w))
    decreases u, v, w
  {
    assert (u.raws + v.raws) + w.raws == u.raws + (v.raws + w.raws);
    assert (u.items + v.items) + w.items == u.items + (v.items + w.items);
    if u.merged.Some? && v.merged.Some? && w.merged.Some? {
      MergeAssoc(u.merged.value, v.merged.value, w.merged.value);
    }
  }

  /** Fields with different numbers may be merged in either order. */
  lemma {:induction false} MergeSwap(m: nat, u: Val, n: nat, v: Val, rest: Msg)
    requires m != n
    ensures Merge(Single(m, u), Merge(Single(n, v), rest)) == Merge(Single(n, v), Merge(Single(m, u), rest))
  {
    MergeAssoc(Single(m, u), Single(n, v), rest);
    MergeAssoc(Single(n, v), Single(m, u), rest);
    assert Merge(Single(m, u), Single(n, v)) == Merge(Single(n, v), Single(m, u));
  }

  lemma {:induction false} MergeAbove(a: Msg, b: Msg, lo: int)
    requires Above(a, lo) && Above(b, lo)
    ensures Above(Merge(a, b), lo)
    decreases a, b
  {
    if a.Cons? && b.Cons? {
      if a.num < b.num {
        MergeAbove(a.rest, b, a.num);
      } else if b.num < a.num {
        MergeAbove(a, b.rest, b.num);
      } else {
        MergeAbove(a.rest, b.rest, a.num);
      }
    }
  }
}
