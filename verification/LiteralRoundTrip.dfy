/**
 Reading a message literal gives back what its spelling stands for.
 */
module LiteralRoundTrip {
  import opened MessageLiteral
  import opened LiteralSpelling

  lemma {:induction false} PartsRead(ts: seq<Token>, i: nat, parts: seq<Part>, name: string)
    requires At(ts, i, PartTokens(parts))
    requires Peek(ts, i + |PartTokens(parts)|).value != "." && Peek(ts, i + |PartTokens(parts)|).value != "/"
    ensures NameParts(ts, i, name) == Named(name + PartText(parts), true, i + |PartTokens(parts)|)
    decreases |parts|
  {
    hide NameParts, Peek;
    if parts == [] {
      assert name + "" == name;
      PartsEnd(ts, i, name);
    } else {
      var sep := if parts[0].slash then "/" else ".";
      AtSplit(ts, i, [Sym(sep), parts[0].token], PartTokens(parts[1..]));
      hide At;
      PartStep(ts, i, sep, parts[0].token, name);
      PartsRead(ts, i + 2, parts[1..], name + sep + parts[0].token.value);
      assert name + sep + parts[0].token.value + PartText(parts[1..]) == name + PartText(parts);
    }
  }

  lemma {:induction false} PartsEnd(ts: seq<Token>, i: nat, name: string)
    requires i <= |ts| && Peek(ts, i).value != "." && Peek(ts, i).value != "/"
    ensures NameParts(ts, i, name) == Named(name, true, i)
  {
  }

  lemma {:induction false} PartStep(ts: seq<Token>, i: nat, sep: string, token: Token, name: string)
    requires At(ts, i, [Sym(sep), token]) && sep in [".", "/"]
    ensures i + 2 <= |ts| && NameParts(ts, i, name) == NameParts(ts, i + 2, name + sep + token.value)
  {
    assert [Sym(sep), token] == [Sym(sep)] + [token];
    AtSplit(ts, i, [Sym(sep)], [token]);
    AtFirst(ts, i, Sym(sep));
    AtFirst(ts, i + 1, token);
  }

  lemma {:induction false} NameRead(ts: seq<Token>, i: nat, n: Name)
    requires NameMakesSense(n) && At(ts, i, NameTokens(n))
    ensures i < |ts|
    ensures FieldName(ts, i) == Named(NameText(n), n.Bracketed?, i + |NameTokens(n)|)
  {
    hide NameParts, PartTokens, PartText, At;
    if n.Plain? {
      AtFirst(ts, i, n.token);
    } else {
      BracketsStand(ts, i, n.first, n.parts);
      PartsRead(ts, i + 2, n.parts, n.first.value);
      NameUnfold(ts, i, n.first, Named(n.first.value + PartText(n.parts), true, i + 2 + |PartTokens(n.parts)|));
    }
  }

  /** Where the brackets, the first part and the others stand. */
  lemma {:induction false} BracketsStand(ts: seq<Token>, i: nat, first: Token, parts: seq<Part>)
    requires At(ts, i, [Sym("["), first] + PartTokens(parts) + [Sym("]")])
    ensures
      var at := i + 2 + |PartTokens(parts)|;
      at < |ts| && ts[i] == Sym("[") && ts[i + 1] == first && At(ts, i + 2, PartTokens(parts)) && ts[at] == Sym("]")
  {
    hide At, PartTokens;
    AtSplit(ts, i, [Sym("["), first] + PartTokens(parts), [Sym("]")]);
    AtSplit(ts, i, [Sym("["), first], PartTokens(parts));
    assert [Sym("["), first] == [Sym("[")] + [first];
    AtSplit(ts, i, [Sym("[")], [first]);
    AtFirst(ts, i, Sym("["));
    AtFirst(ts, i + 1, first);
    AtFirst(ts, i + 2 + |PartTokens(parts)|, Sym("]"));
  }

  lemma {:induction false} NameUnfold(ts: seq<Token>, i: nat, first: Token, parts: Named)
    requires i + 1 < |ts| && ts[i] == Sym("[") && ts[i + 1] == first
    requires NameParts(ts, i + 2, first.value) == parts && parts.next < |ts|
    ensures FieldName(ts, i) == Named(parts.name, true, parts.next + 1)
  {
    hide NameParts;
  }

  lemma {:induction false} StringsRead(ts: seq<Token>, i: nat, more: seq<Token>)
    requires At(ts, i, more) && Peek(ts, i + |more|).kind != Str
    requires forall k :: 0 <= k < |more| ==> more[k].kind == Str
    ensures Strings(ts, i) == Pieces(Joined(more), i + |more|)
    decreases |more|
  {
    if more != [] {
      assert more == [more[0]] + more[1..];
      AtSplit(ts, i, [more[0]], more[1..]);
      AtFirst(ts, i, more[0]);
      StringsRead(ts, i + 1, more[1..]);
    }
  }

  lemma {:induction false} NothingJoined()
    ensures Joined([]) == ""
  {
  }

  lemma {:induction false} SignRead(ts: seq<Token>, i: nat, sign: Sign, token: Token)
    requires At(ts, i, SignTokens(sign)) && i + |SignTokens(sign)| < |ts| && ts[i + |SignTokens(sign)|] == token
    ensures i < |ts| && ts[i] == (SignTokens(sign) + [token])[0]
    ensures if sign == NoSign then |SignTokens(sign)| == 0
            else |SignTokens(sign)| == 1 && ts[i].value == (if sign == Minus then "-" else "+")
  {
    hide At;
    if sign != NoSign {
      AtFirst(ts, i, SignTokens(sign)[0]);
    }
  }

  /** A value token with what belongs to it; the sign has been passed. */
  lemma {:induction false} ScalarRead(ts: seq<Token>, i: nat, s: LiteralSpelling.Single, inList: bool)
    requires s.Scalar? && SingleMakesSense(s, inList) && At(ts, i, SingleTokens(s))
    requires EndsWithString(s) ==> Peek(ts, i + |SingleTokens(s)|).kind != Str
    ensures MessageLiteral.Scalar(ts, i)
         == ScalarValue(s.token.value + Joined(s.more), s.token.kind, s.sign == Minus, s.sign == Plus,
                        i + |SingleTokens(s)|)
    ensures i < |ts| && ts[i] == (SignTokens(s.sign) + [s.token])[0]
  {
    ScalarParts(ts, i, s, inList);
    hide *;
    var at := i + |SignTokens(s.sign)|;
    if s.token.kind == Str {
      StringsRead(ts, at + 1, s.more);
      ScalarUnfold(ts, i, s.sign, at, Pieces(Joined(s.more), at + 1 + |s.more|));
    } else {
      NothingJoined();
      ScalarUnfold(ts, i, s.sign, at, Pieces("", at + 1));
    }
  }

  /** Where the sign, the token and the further strings stand. */
  lemma {:induction false} ScalarParts(ts: seq<Token>, i: nat, s: LiteralSpelling.Single, inList: bool)
    requires s.Scalar? && SingleMakesSense(s, inList) && At(ts, i, SingleTokens(s))
    ensures
      var at := i + |SignTokens(s.sign)|;
      && i <= at < |ts| && ts[at] == s.token && At(ts, at + 1, s.more)
      && SignStands(ts, i, s.sign, at) && ts[i] == (SignTokens(s.sign) + [s.token])[0]
      && i + |SingleTokens(s)| == at + 1 + |s.more|
    ensures s.token.kind != Str ==> s.more == []
    ensures forall k :: 0 <= k < |s.more| ==> s.more[k].kind == Str
    ensures EndsWithString(s) <==> s.token.kind == Str
  {
    hide At, SignTokens, Word, Number;
    TokensStand(ts, i, SignTokens(s.sign), s.token, s.more);
    SignRead(ts, i, s.sign, s.token);
  }

  lemma {:induction false} TokensStand(ts: seq<Token>, i: nat, sign: seq<Token>, token: Token, more: seq<Token>)
    requires At(ts, i, sign + [token] + more)
    ensures At(ts, i, sign) && i + |sign| < |ts| && ts[i + |sign|] == token && At(ts, i + |sign| + 1, more)
  {
    hide At;
    AtSplit(ts, i, sign + [token], more);
    AtSplit(ts, i, sign, [token]);
    AtFirst(ts, i + |sign|, token);
  }

  /** The sign stands at i, the value at at. */
  predicate SignStands(ts: seq<Token>, i: nat, sign: Sign, at: nat) {
    && i <= at < |ts|
    && if sign == NoSign then at == i && ts[i].value != "-" && ts[i].value != "+"
       else at == i + 1 && ts[i].value == if sign == Minus then "-" else "+"
  }

  lemma {:induction false} ScalarUnfold(ts: seq<Token>, i: nat, sign: Sign, at: nat, rest: Pieces)
    requires SignStands(ts, i, sign, at)
    requires rest == if ts[at].kind == Str then Strings(ts, at + 1) else Pieces("", at + 1)
    ensures MessageLiteral.Scalar(ts, i)
         == ScalarValue(ts[at].value + rest.text, ts[at].kind, sign == Minus, sign == Plus, rest.next)
  {
    hide Strings;
  }

  /** What a list element or a plain value is read as. */
  lemma {:induction false} SingleRead(ts: seq<Token>, i: nat, s: LiteralSpelling.Single, inList: bool, name: string,
                                      isExtension: bool)
    requires SingleMakesSense(s, inList) && At(ts, i, SingleTokens(s))
    requires EndsWithString(s) ==> Peek(ts, i + |SingleTokens(s)|).kind != Str
    ensures MessageLiteral.Single(ts, i, name, isExtension)
         == Good([SingleField(s, name, isExtension)], i + |SingleTokens(s)|)
    decreases s, 2
  {
    hide Aggregate, MessageLiteral.Scalar, Fields, EntryTokens, EntriesMakeSense;
    if s.Scalar? {
      ScalarRead(ts, i, s, inList);
    } else {
      var first, last := Sym(if s.angle then "<" else "{"), Sym(Closer(s.angle));
      AtSplit(ts, i, [first] + EntryTokens(s.entries), [last]);
      AtSplit(ts, i, [first], EntryTokens(s.entries));
      AtFirst(ts, i, first);
      AtFirst(ts, i + 1 + |EntryTokens(s.entries)|, last);
      EntriesRead(ts, i + 1, s.entries, Closer(s.angle));
    }
  }

  lemma {:induction false} ItemStart(ts: seq<Token>, i: nat, s: LiteralSpelling.Single)
    requires SingleMakesSense(s, true) && At(ts, i, SingleTokens(s))
    ensures i < |ts| && ts[i].value != "]" && ts[i].kind != Eof && |SingleTokens(s)| > 0
    ensures ts[i].kind == Str || ts[i].value == "," ==> StartsWithString(s) && ts[i] == s.token
  {
    hide EntryTokens, EntriesMakeSense;
    assert ts[i..i + |SingleTokens(s)|][0] == ts[i];
  }

  /** The token after an element: a comma, the next element or the end of the list. */
  lemma {:induction false} AfterItem(ts: seq<Token>, i: nat, items: seq<Item>)
    requires items != [] && ItemsMakeSense(items)
    requires At(ts, i, Opt(items[0].comma, ",")) && At(ts, i + |Opt(items[0].comma, ",")|, ItemTokens(items[1..]))
    requires At(ts, i + |Opt(items[0].comma, ",")| + |ItemTokens(items[1..])|, [Sym("]")])
    ensures i < |ts| && (ts[i].value == "," <==> items[0].comma)
    ensures EndsWithString(items[0].single) ==> ts[i].kind != Str
    ensures items[0].comma ==> i + 1 < |ts| && (ts[i + 1].value == "]" <==> |items| == 1)
  {
    hide SingleTokens, SingleMakesSense;
    var comma := items[0].comma;
    var at := i + |Opt(comma, ",")|;
    if comma {
      AtFirst(ts, i, Sym(","));
    }
    AtFirst(ts, at + |ItemTokens(items[1..])|, Sym("]"));
    if |items| > 1 {
      var rest := items[1..];
      AtSplit(ts, at, SingleTokens(rest[0].single) + Opt(rest[0].comma, ","), ItemTokens(rest[1..]));
      AtSplit(ts, at, SingleTokens(rest[0].single), Opt(rest[0].comma, ","));
      ItemStart(ts, at, rest[0].single);
    }
  }

  lemma {:induction false} NoItemTokens()
    ensures ItemTokens([]) == []
  {
  }

  lemma {:induction false} ListEnd(ts: seq<Token>, i: nat, name: string, isExtension: bool)
    requires i < |ts| && ts[i].value == "]"
    ensures List(ts, i, name, isExtension) == Good([], i)
  {
  }

  /** One turn of the list loop. */
  lemma {:induction false} ListStep(
    ts: seq<Token>, i: nat, after: nat, f: AggregateField, name: string, isExtension: bool)
    requires i < |ts| && after < |ts| && ts[i].value != "]" && ts[i].kind != Eof
    requires MessageLiteral.Single(ts, i, name, isExtension) == Good([f], after)
    ensures
      var comma := ts[after].value == ",";
      var rest := List(ts, if comma then after + 1 else after, name, isExtension);
      List(ts, i, name, isExtension) ==
      if comma && Peek(ts, after + 1).value == "]" then Good([f] + [TrailingComma(name, isExtension)], after + 1)
      else if rest.Bad? then rest
      else Good([f] + rest.fields, rest.next)
  {
    hide MessageLiteral.Single;
  }

  lemma {:induction false} ItemSplit(ts: seq<Token>, i: nat, items: seq<Item>)
    requires items != [] && At(ts, i, ItemTokens(items))
    ensures
      var after := i + |SingleTokens(items[0].single)|;
      && At(ts, i, SingleTokens(items[0].single)) && At(ts, after, Opt(items[0].comma, ","))
      && At(ts, after + |Opt(items[0].comma, ",")|, ItemTokens(items[1..]))
      && i + |ItemTokens(items)| == after + |Opt(items[0].comma, ",")| + |ItemTokens(items[1..])|
  {
    hide SingleTokens, Opt, At;
    AtSplit(ts, i, SingleTokens(items[0].single) + Opt(items[0].comma, ","), ItemTokens(items[1..]));
    AtSplit(ts, i, SingleTokens(items[0].single), Opt(items[0].comma, ","));
  }

  lemma {:induction false} ItemsRead(ts: seq<Token>, i: nat, items: seq<Item>, name: string, isExtension: bool)
    requires ItemsMakeSense(items) && At(ts, i, ItemTokens(items)) && At(ts, i + |ItemTokens(items)|, [Sym("]")])
    ensures List(ts, i, name, isExtension) == Good(ItemFields(items, name, isExtension), i + |ItemTokens(items)|)
    decreases items, 3
  {
    hide MessageLiteral.Single, SingleTokens, SingleField, SingleMakesSense, List;
    hide StartsWithString, EndsWithString, Separate, At, ItemTokens;
    if items == [] {
      assert ItemTokens(items) == [] by { NoItemTokens(); }
      AtFirst(ts, i, Sym("]"));
      ListEnd(ts, i, name, isExtension);
    } else {
      assert items[0].single < items[0];
      var s, comma := items[0].single, items[0].comma;
      ItemSplit(ts, i, items);
      ItemStart(ts, i, s);
      var after := i + |SingleTokens(s)|;
      AfterItem(ts, after, items);
      SingleRead(ts, i, s, true, name, isExtension);
      ListStep(ts, i, after, SingleField(s, name, isExtension), name, isExtension);
      if comma && |items| == 1 {
        assert ItemTokens(items[1..]) == [] by { NoItemTokens(); }
      } else {
        ItemsRead(ts, after + |Opt(comma, ",")|, items[1..], name, isExtension);
      }
    }
  }

  lemma {:induction false} WrittenRead(ts: seq<Token>, i: nat, w: Written, name: string, isExtension: bool)
    requires WrittenMakesSense(w) && At(ts, i, WrittenTokens(w))
    requires Peek(ts, i + |WrittenTokens(w)|).kind != Str
    ensures Value(ts, i, name, isExtension) == Good(WrittenFields(w, name, isExtension), i + |WrittenTokens(w)|)
    decreases w, 3
  {
    hide MessageLiteral.Single, SingleTokens, SingleField, List, ItemTokens, ItemsMakeSense, ItemFields;
    if w.One? {
      SingleStart(ts, i, w.single);
      SingleRead(ts, i, w.single, false, name, isExtension);
    } else {
      AtSplit(ts, i, [Sym("[")] + ItemTokens(w.items), [Sym("]")]);
      AtSplit(ts, i, [Sym("[")], ItemTokens(w.items));
      AtFirst(ts, i, Sym("["));
      AtFirst(ts, i + 1 + |ItemTokens(w.items)|, Sym("]"));
      ItemsRead(ts, i + 1, w.items, name, isExtension);
    }
  }

  lemma {:induction false} SingleStart(ts: seq<Token>, i: nat, s: LiteralSpelling.Single)
    requires SingleMakesSense(s, false) && At(ts, i, SingleTokens(s))
    ensures i < |ts| && ts[i].value != "["
    ensures s.Message? <==> ts[i].value == "{" || ts[i].value == "<"
  {
    hide EntryTokens, EntriesMakeSense;
    assert ts[i..i + |SingleTokens(s)|][0] == ts[i];
  }

  lemma {:induction false} NoEntryTokens()
    ensures EntryTokens([]) == []
  {
  }

  lemma {:induction false} AggregateEnd(ts: seq<Token>, i: nat, closer: string)
    requires i < |ts| && ts[i].value == closer
    ensures Aggregate(ts, i, closer) == Good([], i)
  {
  }

  /** One turn of the field loop. */
  lemma {:induction false} AggregateStep(
    ts: seq<Token>, i: nat, n: Named, fields: seq<AggregateField>, after: nat, closer: string)
    requires i < |ts| && ts[i].value != closer && ts[i].kind != Eof
    requires FieldName(ts, i) == n && n.next < |ts|
    requires ts[n.next].value == ":" || ts[n.next].value == "{" || ts[n.next].value == "<"
    requires Value(ts, if ts[n.next].value == ":" then n.next + 1 else n.next, n.name, n.isExtension)
          == Good(fields, after)
    ensures
      var rest := Aggregate(ts, AfterSeparator(ts, after), closer);
      Aggregate(ts, i, closer) == if rest.Bad? then rest else Good(fields + rest.fields, rest.next)
  {
    hide FieldName, Value, AfterSeparator;
  }

  /** The entries up to the closer, and the cursor on it. */
  lemma {:induction false} EntriesRead(ts: seq<Token>, i: nat, es: seq<Entry>, closer: string)
    requires EntriesMakeSense(es) && closer in ["}", ">"]
    requires At(ts, i, EntryTokens(es)) && At(ts, i + |EntryTokens(es)|, [Sym(closer)])
    ensures Aggregate(ts, i, closer) == Good(Fields(es), i + |EntryTokens(es)|)
    decreases es, 3
  {
    hide NameTokens, WrittenTokens, Value, NameText, WrittenFields, NameMakesSense, WrittenMakesSense, FieldName;
    hide Aggregate, AfterSeparator, Stops, At, Opt, EntryTokens;
    EntriesStart(es, ts, i, closer);
    if es == [] {
      assert EntryTokens(es) == [] by { NoEntryTokens(); }
      AtFirst(ts, i, Sym(closer));
      AggregateEnd(ts, i, closer);
    } else {
      var e := es[0];
      EntrySplit(ts, i, es);
      var colonAt := i + |NameTokens(e.name)|;
      var valueAt := colonAt + |Opt(e.colon, ":")|;
      var sepAt := valueAt + |WrittenTokens(e.value)|;
      var restAt := sepAt + |Opt(e.separator != "", e.separator)|;
      NameRead(ts, i, e.name);
      EntriesStart(es[1..], ts, restAt, closer);
      BeforeValue(ts, colonAt, e);
      AfterValue(ts, sepAt, e);
      WrittenRead(ts, valueAt, e.value, NameText(e.name), e.name.Bracketed?);
      EntriesRead(ts, restAt, es[1..], closer);
      AggregateStep(ts, i, Named(NameText(e.name), e.name.Bracketed?, colonAt),
                    WrittenFields(e.value, NameText(e.name), e.name.Bracketed?), sepAt, closer);
    }
  }

  lemma {:induction false} EntrySplit(ts: seq<Token>, i: nat, es: seq<Entry>)
    requires es != [] && At(ts, i, EntryTokens(es))
    ensures
      var e := es[0];
      var colonAt := i + |NameTokens(e.name)|;
      var valueAt := colonAt + |Opt(e.colon, ":")|;
      var sepAt := valueAt + |WrittenTokens(e.value)|;
      && At(ts, i, NameTokens(e.name)) && At(ts, colonAt, Opt(e.colon, ":")) && At(ts, valueAt, WrittenTokens(e.value))
      && At(ts, sepAt, Opt(e.separator != "", e.separator))
      && At(ts, sepAt + |Opt(e.separator != "", e.separator)|, EntryTokens(es[1..]))
      && i + |EntryTokens(es)| == sepAt + |Opt(e.separator != "", e.separator)| + |EntryTokens(es[1..])|
  {
    hide NameTokens, WrittenTokens, Opt, At;
    var e := es[0];
    var name, colon, value := NameTokens(e.name), Opt(e.colon, ":"), WrittenTokens(e.value);
    var sep := Opt(e.separator != "", e.separator);
    AtSplit(ts, i, name + colon + value + sep, EntryTokens(es[1..]));
    AtSplit(ts, i, name + colon + value, sep);
    AtSplit(ts, i, name + colon, value);
    AtSplit(ts, i, name, colon);
  }

  /** After the name stands a colon, or the bracket of a message. */
  lemma {:induction false} BeforeValue(ts: seq<Token>, i: nat, e: Entry)
    requires EntriesMakeSense([e])
    requires At(ts, i, Opt(e.colon, ":")) && At(ts, i + |Opt(e.colon, ":")|, WrittenTokens(e.value))
    ensures i < |ts|
    ensures if e.colon then ts[i].value == ":" else ts[i].value == "{" || ts[i].value == "<"
    ensures |Opt(e.colon, ":")| == if e.colon then 1 else 0
  {
    hide SingleTokens;
    if e.colon {
      AtFirst(ts, i, Sym(":"));
    } else {
      SingleStart(ts, i, e.value.single);
    }
  }

  /** What ends a value is no string; a separator is there exactly when one is written. */
  lemma {:induction false} AfterValue(ts: seq<Token>, i: nat, e: Entry)
    requires e.separator in ["", ";", ","] && At(ts, i, Opt(e.separator != "", e.separator))
    requires i + |Opt(e.separator != "", e.separator)| < |ts|
    requires Stops(ts[i + |Opt(e.separator != "", e.separator)|])
    ensures Peek(ts, i).kind != Str
    ensures AfterSeparator(ts, i) == i + |Opt(e.separator != "", e.separator)|
  {
    if e.separator != "" {
      AtFirst(ts, i, Sym(e.separator));
    }
  }
}
