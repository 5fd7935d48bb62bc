/**
 The written forms of a message literal: whichever brackets, separators, colons,
 string pieces and lists a spelling uses, what tokens it has and what fields it stands
 for. LiteralRoundTrip shows that the parser reads each of them back.
 */
module LiteralSpelling {
  import opened MessageLiteral

  datatype Name = Plain(token: Token) | Bracketed(first: Token, parts: seq<Part>)

  datatype Part = Part(slash: bool, token: Token)

  datatype Sign = NoSign | Minus | Plus

  datatype Single =
    | Scalar(sign: Sign, token: Token, more: seq<Token>)
    | Message(angle: bool, entries: seq<Entry>)

  datatype Item = Item(single: Single, comma: bool)

  datatype Written = One(single: Single) | Many(items: seq<Item>)

  /** separator is "", ";" or ",". */
  datatype Entry = Entry(name: Name, colon: bool, value: Written, separator: string)

  const PUNCTUATION := ["{", "}", "<", ">", "[", "]", ":", ";", ",", ".", "/", "-", "+"]

  function Sym(value: string): Token {
    Token(Symbol, value)
  }

  function Opt(present: bool, value: string): seq<Token> {
    if present then [Sym(value)] else []
  }

  // ---------------------------------------------------------------------------
  // The tokens of a spelling
  // ---------------------------------------------------------------------------

  function PartTokens(parts: seq<Part>): seq<Token> {
    if parts == [] then []
    else [Sym(if parts[0].slash then "/" else "."), parts[0].token] + PartTokens(parts[1..])
  }

  function NameTokens(n: Name): seq<Token> {
    if n.Plain? then [n.token]
    else [Sym("["), n.first] + PartTokens(n.parts) + [Sym("]")]
  }

  function SignTokens(s: Sign): seq<Token> {
    match s
    case NoSign => []
    case Minus => [Sym("-")]
    case Plus => [Sym("+")]
  }

  function SingleTokens(s: Single): seq<Token>
    decreases s
  {
    if s.Scalar? then SignTokens(s.sign) + [s.token] + s.more
    else [Sym(if s.angle then "<" else "{")] + EntryTokens(s.entries) + [Sym(Closer(s.angle))]
  }

  function Closer(angle: bool): string {
    if angle then ">" else "}"
  }

  function ItemTokens(items: seq<Item>): seq<Token>
    decreases items
  {
    if items == [] then []
    else
      assert items[0].single < items[0];
      SingleTokens(items[0].single) + Opt(items[0].comma, ",") + ItemTokens(items[1..])
  }

  function WrittenTokens(w: Written): seq<Token>
    decreases w
  {
    if w.One? then SingleTokens(w.single) else [Sym("[")] + ItemTokens(w.items) + [Sym("]")]
  }

  function EntryTokens(es: seq<Entry>): seq<Token>
    decreases es
  {
    if es == [] then []
    else NameTokens(es[0].name) + Opt(es[0].colon, ":") + WrittenTokens(es[0].value)
         + Opt(es[0].separator != "", es[0].separator) + EntryTokens(es[1..])
  }

  // ---------------------------------------------------------------------------
  // What a spelling stands for
  // ---------------------------------------------------------------------------

  function PartText(parts: seq<Part>): string {
    if parts == [] then ""
    else (if parts[0].slash then "/" else ".") + parts[0].token.value + PartText(parts[1..])
  }

  function NameText(n: Name): string {
    if n.Plain? then n.token.value else n.first.value + PartText(n.parts)
  }

  function Joined(ts: seq<Token>): string {
    if ts == [] then "" else ts[0].value + Joined(ts[1..])
  }

  function SingleField(s: Single, name: string, isExtension: bool): AggregateField
    decreases s, 0
  {
    if s.Scalar? then
      AggregateField(name, s.token.value + Joined(s.more), s.token.kind, s.sign == Minus, s.sign == Plus, [],
                     isExtension, false)
    else AggregateField(name, "", Ident, false, false, Fields(s.entries), isExtension, false)
  }

  /** One field per element; a comma after the last one leaves its own mark. */
  function ItemFields(items: seq<Item>, name: string, isExtension: bool): seq<AggregateField>
    decreases items, 0
  {
    if items == [] then []
    else
      assert items[0].single < items[0];
      if |items| == 1 && items[0].comma then
        [SingleField(items[0].single, name, isExtension),
         AggregateField(name, "", Ident, false, false, [], isExtension, true)]
      else [SingleField(items[0].single, name, isExtension)] + ItemFields(items[1..], name, isExtension)
  }

  function WrittenFields(w: Written, name: string, isExtension: bool): seq<AggregateField>
    decreases w, 0
  {
    if w.One? then [SingleField(w.single, name, isExtension)] else ItemFields(w.items, name, isExtension)
  }

  function Fields(es: seq<Entry>): seq<AggregateField>
    decreases es, 0
  {
    if es == [] then []
    else WrittenFields(es[0].value, NameText(es[0].name), es[0].name.Bracketed?) + Fields(es[1..])
  }

  // ---------------------------------------------------------------------------
  // Lexical sense
  // ---------------------------------------------------------------------------

  predicate Word(t: Token) {
    t.kind == Ident && t.value !in PUNCTUATION
  }

  predicate Number(t: Token) {
    (t.kind == Int || t.kind == Float) && t.value !in PUNCTUATION
  }

  /** The parser looks at the text of a token only, also at that of a string. */
  predicate ReadsAsScalar(t: Token, inList: bool) {
    t.value != "{" && t.value != "<" && t.value != "-" && t.value != "+" && t.value != (if inList then "]" else "[")
  }

  predicate NameMakesSense(n: Name) {
    if n.Plain? then Word(n.token)
    else Word(n.first) && forall k :: 0 <= k < |n.parts| ==> Word(n.parts[k].token)
  }

  predicate SingleMakesSense(s: Single, inList: bool)
    decreases s, 1
  {
    if s.Scalar? then
      && (Word(s.token) || Number(s.token) || s.token.kind == Str)
      && (s.sign == NoSign ==> ReadsAsScalar(s.token, inList))
      && (s.token.kind != Str ==> s.more == [])
      && forall k :: 0 <= k < |s.more| ==> s.more[k].kind == Str
    else EntriesMakeSense(s.entries)
  }

  predicate StartsWithString(s: Single) {
    s.Scalar? && s.sign == NoSign && s.token.kind == Str
  }

  predicate EndsWithString(s: Single) {
    s.Scalar? && s.token.kind == Str
  }

  /** Elements that need no comma between them. */
  predicate Separate(a: Single, b: Single) {
    StartsWithString(b) ==> !EndsWithString(a) && b.token.value != ","
  }

  predicate ItemsMakeSense(items: seq<Item>)
    decreases items, 1
  {
    items == [] ||
    (assert items[0].single < items[0];
     && SingleMakesSense(items[0].single, true)
     && ItemsMakeSense(items[1..])
     && (|items| > 1 && !items[0].comma ==> Separate(items[0].single, items[1].single)))
  }

  predicate WrittenMakesSense(w: Written)
    decreases w, 1
  {
    if w.One? then SingleMakesSense(w.single, false) else ItemsMakeSense(w.items)
  }

  /** A colon may be left out only before a message. */
  predicate EntriesMakeSense(es: seq<Entry>)
    decreases es, 1
  {
    es == [] ||
    (&& NameMakesSense(es[0].name)
     && WrittenMakesSense(es[0].value)
     && (es[0].colon || (es[0].value.One? && es[0].value.single.Message?))
     && es[0].separator in ["", ";", ","]
     && EntriesMakeSense(es[1..]))
  }

  // ---------------------------------------------------------------------------
  // Tokens in place
  // ---------------------------------------------------------------------------

  predicate At(ts: seq<Token>, i: nat, part: seq<Token>) {
    i + |part| <= |ts| && ts[i..i + |part|] == part
  }

  lemma {:induction false} AtSplit(ts: seq<Token>, i: nat, a: seq<Token>, b: seq<Token>)
    requires At(ts, i, a + b)
    ensures At(ts, i, a) && At(ts, i + |a|, b)
  {
    var whole := ts[i..i + |a + b|];
    assert whole[..|a|] == a && whole[|a|..] == b;
    assert ts[i..i + |a|] == whole[..|a|];
    assert ts[i + |a|..i + |a| + |b|] == whole[|a|..];
  }

  lemma {:induction false} AtFirst(ts: seq<Token>, i: nat, t: Token)
    requires At(ts, i, [t])
    ensures i < |ts| && ts[i] == t
  {
    assert ts[i..i + 1][0] == ts[i];
  }

  /** What may follow a value: neither more of a string nor a separator. */
  predicate Stops(t: Token) {
    t.kind != Str && t.value != ";" && t.value != ","
  }

  lemma {:induction false} EntriesStart(es: seq<Entry>, ts: seq<Token>, i: nat, closer: string)
    requires EntriesMakeSense(es) && closer in ["}", ">"]
    requires At(ts, i, EntryTokens(es)) && At(ts, i + |EntryTokens(es)|, [Sym(closer)])
    ensures i < |ts| && Stops(ts[i])
    ensures es != [] ==> ts[i].value != closer && ts[i].kind != Eof
  {
    if es == [] {
      AtFirst(ts, i, Sym(closer));
    } else {
      var first := if es[0].name.Plain? then es[0].name.token else Sym("[");
      assert EntryTokens(es)[0] == first by {
        hide WrittenTokens;
      }
      assert ts[i..i + |EntryTokens(es)|][0] == ts[i];
    }
  }
}
