/** Stable sorting of entries by field number. */
module EntrySort {
  import opened WireEntries

  function InsertEntry(e: Entry, es: seq<Entry>): seq<Entry> {
    if es == [] || e.num <= es[0].num then [e] + es else [es[0]] + InsertEntry(e, es[1..])
  }

  function SortByNum(es: seq<Entry>): seq<Entry> {
    if es == [] then [] else InsertEntry(es[0], SortByNum(es[1..]))
  }

  predicate Sorted(es: seq<Entry>) {
    |es| > 1 ==> es[0].num <= es[1].num && Sorted(es[1..])
  }

  /** The entries of one field number, in order. */
  function OfNum(es: seq<Entry>, num: int): seq<Entry> {
    if es == [] then []
    else if es[0].num == num then [es[0]] + OfNum(es[1..], num)
    else OfNum(es[1..], num)
  }

  lemma {:induction false} InsertSorted(e: Entry, es: seq<Entry>)
    requires Sorted(es)
    ensures Sorted(InsertEntry(e, es))
  {
    if es == [] || e.num <= es[0].num {
      assert ([e] + es)[1..] == es;
    } else {
      var r := InsertEntry(e, es[1..]);
      InsertSorted(e, es[1..]);
      assert ([es[0]] + r)[1..] == r;
    }
  }

  lemma {:induction false} InsertContents(e: Entry, es: seq<Entry>)
    ensures TotalRaw(InsertEntry(e, es)) == |e.raw| + TotalRaw(es)
    ensures multiset(InsertEntry(e, es)) == multiset{e} + multiset(es)
  {
    if es == [] || e.num <= es[0].num {
      assert ([e] + es)[1..] == es;
    } else {
      var r := InsertEntry(e, es[1..]);
      InsertContents(e, es[1..]);
      assert ([es[0]] + r)[1..] == r;
      assert es == [es[0]] + es[1..];
    }
  }

  lemma {:induction false} InsertOfNum(e: Entry, es: seq<Entry>, num: int)
    ensures OfNum(InsertEntry(e, es), num) == if e.num == num then [e] + OfNum(es, num) else OfNum(es, num)
  {
    if es == [] || e.num <= es[0].num {
      assert ([e] + es)[1..] == es;
    } else {
      var r := InsertEntry(e, es[1..]);
      InsertOfNum(e, es[1..], num);
      assert ([es[0]] + r)[1..] == r;
    }
  }

  lemma {:induction false} SortedAbove(es: seq<Entry>)
    requires Sorted(es)
    ensures forall i :: 0 <= i < |es| ==> es[0].num <= es[i].num
  {
    if |es| > 1 {
      SortedAbove(es[1..]);
      forall i | 0 < i < |es|
        ensures es[0].num <= es[i].num
      {
        assert es[i] == es[1..][i - 1];
      }
    }
  }

  /** The result is sorted, and entries of one number keep their order. */
  lemma {:induction false} SortIsStable(es: seq<Entry>, num: int)
    ensures Sorted(SortByNum(es))
    ensures OfNum(SortByNum(es), num) == OfNum(es, num)
    ensures TotalRaw(SortByNum(es)) == TotalRaw(es)
    ensures multiset(SortByNum(es)) == multiset(es)
  {
    if es != [] {
      SortIsStable(es[1..], num);
      InsertSorted(es[0], SortByNum(es[1..]));
      InsertOfNum(es[0], SortByNum(es[1..]), num);
      InsertContents(es[0], SortByNum(es[1..]));
      assert es == [es[0]] + es[1..];
    }
  }

  /** Those two properties leave no freedom: every stable sort returns SortByNum. */
  lemma {:induction false} StableSortIsUnique(a: seq<Entry>, b: seq<Entry>)
    requires Sorted(a) && Sorted(b)
    requires forall num :: OfNum(a, num) == OfNum(b, num)
    ensures a == b
  {
    BothEmpty(a, b);
    if a != [] {
      FirstOfNum(a, b);
      assert a[0] == b[0];
      forall num
        ensures OfNum(a[1..], num) == OfNum(b[1..], num)
      {
        assert OfNum(a, num) == OfNum(b, num);
        if num == a[0].num {
          assert OfNum(a, num)[1..] == OfNum(a[1..], num);
          assert OfNum(b, num)[1..] == OfNum(b[1..], num);
        }
      }
      StableSortIsUnique(a[1..], b[1..]);
      assert a == [a[0]] + a[1..];
      assert b == [b[0]] + b[1..];
    }
  }

  lemma {:induction false} BothEmpty(a: seq<Entry>, b: seq<Entry>)
    requires forall num :: OfNum(a, num) == OfNum(b, num)
    ensures a == [] <==> b == []
  {
    if a != [] {
      assert OfNum(a, a[0].num) != [];
    }
    if b != [] {
      assert OfNum(b, b[0].num) != [];
    }
  }

  lemma {:induction false} FirstOfNum(a: seq<Entry>, b: seq<Entry>)
    requires a != [] && b != [] && Sorted(a) && Sorted(b)
    requires forall num :: OfNum(a, num) == OfNum(b, num)
    ensures a[0] == b[0]
  {
    var x, y := a[0].num, b[0].num;
    assert OfNum(a, x)[0] == a[0] && OfNum(b, y)[0] == b[0];
    OfNumMember(b, x);
    OfNumMember(a, y);
    SortedAbove(a);
    SortedAbove(b);
  }

  lemma {:induction false} OfNumMember(es: seq<Entry>, num: int)
    ensures OfNum(es, num) != [] ==> exists i :: 0 <= i < |es| && es[i].num == num
  {
    if es != [] && es[0].num != num {
      OfNumMember(es[1..], num);
      if OfNum(es[1..], num) != [] {
        var i :| 0 <= i < |es[1..]| && es[1..][i].num == num;
        assert es[i + 1].num == num;
      }
    }
  }
}
