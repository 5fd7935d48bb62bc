/**
 What the spelling of a message literal may and may not change.
 */
module LiteralTheorems {
  import opened MessageLiteral
  import opened LiteralSpelling
  import opened LiteralRoundTrip

  /** Wherever a literal stands, reading it up to its closer gives its fields. */
  lemma {:induction false} LiteralReadsBack(pre: seq<Token>, es: seq<Entry>, closer: string, post: seq<Token>)
    requires EntriesMakeSense(es) && closer in ["}", ">"]
    ensures Aggregate(pre + EntryTokens(es) + [Sym(closer)] + post, |pre|, closer)
         == Good(Fields(es), |pre| + |EntryTokens(es)|)
  {
    hide EntriesMakeSense, EntryTokens, Fields, Aggregate;
    var ts := pre + EntryTokens(es) + [Sym(closer)] + post;
    var at := |pre| + |EntryTokens(es)|;
    assert ts[|pre|..at] == EntryTokens(es);
    assert ts[at..at + 1] == [Sym(closer)];
    EntriesRead(ts, |pre|, es, closer);
  }

  // ---------------------------------------------------------------------------
  // Brackets
  // ---------------------------------------------------------------------------

  /** The same literal with every bracket of every message in it drawn one way. */
  function Redrawn(es: seq<Entry>, angle: bool): seq<Entry>
    decreases es
  {
    if es == [] then []
    else [es[0].(value := RedrawnValue(es[0].value, angle))] + Redrawn(es[1..], angle)
  }

  function RedrawnValue(w: Written, angle: bool): Written
    decreases w
  {
    if w.One? then One(RedrawnSingle(w.single, angle)) else Many(RedrawnItems(w.items, angle))
  }

  function RedrawnSingle(s: LiteralSpelling.Single, angle: bool): LiteralSpelling.Single
    decreases s
  {
    if s.Scalar? then s else Message(angle, Redrawn(s.entries, angle))
  }

  function RedrawnItems(items: seq<Item>, angle: bool): seq<Item>
    decreases items
  {
    if items == [] then []
    else
      assert items[0].single < items[0];
      [Item(RedrawnSingle(items[0].single, angle), items[0].comma)] + RedrawnItems(items[1..], angle)
  }

  lemma {:induction false} RedrawnEntriesSame(es: seq<Entry>, angle: bool)
    requires EntriesMakeSense(es)
    ensures EntriesMakeSense(Redrawn(es, angle)) && Fields(Redrawn(es, angle)) == Fields(es)
    decreases es
  {
    hide NameMakesSense, NameText, RedrawnValue, WrittenFields, WrittenMakesSense;
    if es != [] {
      RedrawnValueSame(es[0].value, angle, NameText(es[0].name), es[0].name.Bracketed?);
      RedrawnEntriesSame(es[1..], angle);
      assert Redrawn(es, angle)[1..] == Redrawn(es[1..], angle);
    }
  }

  lemma {:induction false} RedrawnValueSame(w: Written, angle: bool, name: string, isExtension: bool)
    requires WrittenMakesSense(w)
    ensures WrittenMakesSense(RedrawnValue(w, angle))
    ensures WrittenFields(RedrawnValue(w, angle), name, isExtension) == WrittenFields(w, name, isExtension)
    ensures w.One? && w.single.Message? ==>
              RedrawnValue(w, angle).One? && RedrawnValue(w, angle).single.Message?
    decreases w
  {
    hide SingleField, ItemFields, RedrawnItems, SingleMakesSense, ItemsMakeSense;
    if w.One? {
      RedrawnSingleSame(w.single, angle, false, name, isExtension);
    } else {
      RedrawnItemsSame(w.items, angle, name, isExtension);
    }
  }

  lemma {:induction false} RedrawnSingleSame(s: LiteralSpelling.Single, angle: bool, inList: bool, name: string,
                                             isExtension: bool)
    requires SingleMakesSense(s, inList)
    ensures SingleMakesSense(RedrawnSingle(s, angle), inList)
    ensures SingleField(RedrawnSingle(s, angle), name, isExtension) == SingleField(s, name, isExtension)
    decreases s
  {
    if s.Message? {
      RedrawnEntriesSame(s.entries, angle);
    }
  }

  lemma {:induction false} RedrawnItemsSame(items: seq<Item>, angle: bool, name: string, isExtension: bool)
    requires ItemsMakeSense(items)
    ensures ItemsMakeSense(RedrawnItems(items, angle)) && |RedrawnItems(items, angle)| == |items|
    ensures ItemFields(RedrawnItems(items, angle), name, isExtension) == ItemFields(items, name, isExtension)
    decreases items
  {
    hide SingleField, SingleMakesSense;
    if items != [] {
      assert items[0].single < items[0];
      RedrawnSingleSame(items[0].single, angle, true, name, isExtension);
      RedrawnItemsSame(items[1..], angle, name, isExtension);
      var r := RedrawnItems(items, angle);
      assert r[1..] == RedrawnItems(items[1..], angle);
      if |items| > 1 {
        assert items[1..][0] == items[1] && r[1..][0] == r[1];
      }
    }
  }

  /** Braces and angle brackets, at every level and in any mixture, are one literal. */
  lemma {:induction false} BracketsMakeNoDifference(pre: seq<Token>, es: seq<Entry>, post: seq<Token>)
    requires EntriesMakeSense(es)
    ensures
      var braces := Aggregate(pre + EntryTokens(Redrawn(es, false)) + [Sym("}")] + post, |pre|, "}");
      var angles := Aggregate(pre + EntryTokens(Redrawn(es, true)) + [Sym(">")] + post, |pre|, ">");
      var asWritten := Aggregate(pre + EntryTokens(es) + [Sym("}")] + post, |pre|, "}");
      && braces.Good? && angles.Good? && asWritten.Good?
      && braces.fields == angles.fields == asWritten.fields
  {
    hide EntriesMakeSense, EntryTokens, Fields, Aggregate, Redrawn;
    RedrawnEntriesSame(es, false);
    RedrawnEntriesSame(es, true);
    LiteralReadsBack(pre, Redrawn(es, false), "}", post);
    LiteralReadsBack(pre, Redrawn(es, true), ">", post);
    LiteralReadsBack(pre, es, "}", post);
  }

  // ---------------------------------------------------------------------------
  // Lists
  // ---------------------------------------------------------------------------

  /** The field written once per element. */
  function Repeated(name: Name, items: seq<Item>, separator: string): seq<Entry> {
    if items == [] then []
    else [Entry(name, true, One(items[0].single), separator)] + Repeated(name, items[1..], separator)
  }

  predicate TrailingCommaWritten(items: seq<Item>) {
    items != [] && items[|items| - 1].comma
  }

  lemma {:induction false} FieldsJoin(a: seq<Entry>, b: seq<Entry>)
    ensures Fields(a + b) == Fields(a) + Fields(b)
    decreases |a|
  {
    hide WrittenFields, NameText;
    if a == [] {
      assert a + b == b;
    } else {
      assert (a + b)[0] == a[0] && (a + b)[1..] == a[1..] + b;
      FieldsJoin(a[1..], b);
    }
  }

  lemma {:induction false} RepeatedMakesSense(name: Name, items: seq<Item>, separator: string, after: seq<Entry>)
    requires NameMakesSense(name) && separator in ["", ";", ","] && EntriesMakeSense(after)
    requires forall k :: 0 <= k < |items| ==> SingleMakesSense(items[k].single, false)
    ensures EntriesMakeSense(Repeated(name, items, separator) + after)
    decreases |items|
  {
    hide NameMakesSense, SingleMakesSense;
    var r := Repeated(name, items, separator);
    if items == [] {
      assert r + after == after;
    } else {
      RepeatedMakesSense(name, items[1..], separator, after);
      assert (r + after)[0] == r[0] && (r + after)[1..] == Repeated(name, items[1..], separator) + after;
    }
  }

  function Mark(name: Name, items: seq<Item>): seq<AggregateField> {
    if TrailingCommaWritten(items) then [AggregateField(NameText(name), "", Ident, false, false, [], name.Bracketed?, true)]
    else []
  }

  lemma {:induction false} RepeatedFields(name: Name, items: seq<Item>, separator: string)
    ensures Fields(Repeated(name, items, separator)) + Mark(name, items)
         == ItemFields(items, NameText(name), name.Bracketed?)
    decreases |items|
  {
    hide NameText, SingleField;
    if items != [] {
      var r := Repeated(name, items, separator);
      assert r[1..] == Repeated(name, items[1..], separator);
      RepeatedFields(name, items[1..], separator);
      if |items| > 1 {
        assert items[1..][|items| - 2] == items[|items| - 1];
      }
    }
  }

  /**
   A list without a trailing comma reads as the field written once per element, also
   among other fields; a trailing comma adds its mark and nothing else.
   */
  lemma {:induction false} ListReadsAsRepetition(
    pre: seq<Token>, name: Name, items: seq<Item>, separator: string, after: seq<Entry>, post: seq<Token>)
    requires EntriesMakeSense([Entry(name, true, Many(items), separator)] + after)
    requires forall k :: 0 <= k < |items| ==> SingleMakesSense(items[k].single, false)
    ensures
      var list := Aggregate(pre + EntryTokens([Entry(name, true, Many(items), separator)] + after) + [Sym("}")] + post,
                            |pre|, "}");
      var each := Aggregate(pre + EntryTokens(Repeated(name, items, separator) + after) + [Sym("}")] + post,
                            |pre|, "}");
      && list.Good? && each.Good?
      && each.fields == Fields(Repeated(name, items, separator)) + Fields(after)
      && list.fields == Fields(Repeated(name, items, separator)) + Mark(name, items) + Fields(after)
  {
    var list := [Entry(name, true, Many(items), separator)] + after;
    assert list[0] == Entry(name, true, Many(items), separator) && list[1..] == after;
    assert Fields(list) == ItemFields(items, NameText(name), name.Bracketed?) + Fields(after);
    hide EntryTokens, Fields, Aggregate, ItemFields, NameText, NameMakesSense, ItemsMakeSense;
    RepeatedFields(name, items, separator);
    RepeatedMakesSense(name, items, separator, after);
    FieldsJoin(Repeated(name, items, separator), after);
    LiteralReadsBack(pre, list, "}", post);
    LiteralReadsBack(pre, Repeated(name, items, separator) + after, "}", post);
  }

  // ---------------------------------------------------------------------------
  // Strings that look like punctuation
  // ---------------------------------------------------------------------------

  /**
   Only the text of a token is compared, so a value whose first string is one of five
   punctuation marks is not read as a string. Every other one is, with the strings that
   follow it appended.
   */
  lemma {:induction false} StringReadsAsItself(ts: seq<Token>, i: nat, name: string, isExtension: bool)
    requires i < |ts| && ts[i].kind == Str
    ensures Value(ts, i, name, isExtension) == Good([StringField(ts, i, name, isExtension)], Strings(ts, i + 1).next)
       <==> ts[i].value !in ["{", "<", "[", "-", "+"]
  {
    hide Aggregate, List, FieldName, Strings;
    if ts[i].value == "[" {
      NotTheBracket(ts, i, name, isExtension);
    }
  }

  /** The field of the string at i and the strings right after it. */
  function StringField(ts: seq<Token>, i: nat, name: string, isExtension: bool): AggregateField
    requires i < |ts|
  {
    AggregateField(name, ts[i].value + Strings(ts, i + 1).text, Str, false, false, [], isExtension, false)
  }

  /** Behind a string that opens a list there is another value, or none. */
  lemma {:induction false} NotTheBracket(ts: seq<Token>, i: nat, name: string, isExtension: bool)
    requires i < |ts| && ts[i].value == "["
    ensures
      var r := List(ts, i + 1, name, isExtension);
      r.Good? ==> Good(r.fields, Next(ts, r.next)) != Good([StringField(ts, i, name, isExtension)], Strings(ts, i + 1).next)
  {
    var r := List(ts, i + 1, name, isExtension);
    if r.Good? && r.fields != [] {
      FirstElement(ts, i + 1, name, isExtension);
      var v := MessageLiteral.Single(ts, i + 1, name, isExtension);
      hide List, Aggregate;
      if ts[i + 1].kind == Str {
        assert Strings(ts, i + 1).text == ts[i + 1].value + Strings(ts, i + 2).text;
        assert r.fields[0] == v.fields[0];
      } else {
        assert Strings(ts, i + 1) == Pieces("", i + 1);
        assert i + 1 < r.next;
      }
    }
  }

  /** The fields of a list start with those of its first element. */
  lemma {:induction false} FirstElement(ts: seq<Token>, i: nat, name: string, isExtension: bool)
    requires i <= |ts| && List(ts, i, name, isExtension).Good?
    ensures
      var r, v := List(ts, i, name, isExtension), MessageLiteral.Single(ts, i, name, isExtension);
      r.fields != [] ==>
        && i < |ts| && v.Good? && v.fields != []
        && r.fields[0] == v.fields[0] && i < v.next <= r.next
  {
    hide Aggregate, MessageLiteral.Scalar;
  }

  /** The same for a string in a list, where the closing bracket takes the place of the opening one. */
  lemma {:induction false} ElementReadsAsItself(ts: seq<Token>, i: nat, name: string, isExtension: bool)
    requires i < |ts| && ts[i].kind == Str && List(ts, i, name, isExtension).Good?
    ensures
      var r := List(ts, i, name, isExtension);
      r.fields != [] && r.fields[0] == StringField(ts, i, name, isExtension)
      <==> ts[i].value !in ["{", "<", "]", "-", "+"]
  {
    hide Aggregate, Strings;
    FirstElement(ts, i, name, isExtension);
  }
}
