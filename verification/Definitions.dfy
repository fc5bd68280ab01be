/**
  Splitting a `definitions` array into its object literals
  (`_split_definitions_array` of tools/z2m_converter_extract.py).
 */
module Definitions {
  import opened Lexer
  import opened LexerPrinter

  /** One object literal and where it starts. */
  datatype Literal = Literal(text: string, start: nat)

  predicate IsGap(c: char) {
    c in {' ', '\t', '\n', '\r', ','}
  }

  /** Where the scan goes on from a character that neither opens a literal nor closes the array. */
  function Skip(s: string, i: nat): (r: nat)
    requires i < |s|
    ensures i < r
  {
    if Pair(s, i, '/', '/') || s[i] == '#' then LineEnd(s, i + 1)
    else if Pair(s, i, '/', '*') then BlockEnd(s, i + 2) + 2
    else i + 1
  }

  /** The literals found from position `i` of the array body on. */
  function SplitFrom(s: string, i: nat): seq<Literal>
    decreases |s| - i
  {
    if i >= |s| || s[i] == ']' then []
    else if s[i] != '{' then SplitFrom(s, Skip(s, i))
    else
      var end := Find(s, i, 0, BRACES);
      if end < 0 then [] else [Literal(s[i..end + 1], i)] + SplitFrom(s, end + 1)
  }

  lemma SkipStep(s: string, i: nat)
    requires i < |s| && s[i] !in {']', '{'}
    ensures SplitFrom(s, i) == SplitFrom(s, Skip(s, i))
  {
  }

  lemma ArrayEnd(s: string, i: nat)
    requires i < |s| ==> s[i] == ']' || (s[i] == '{' && Find(s, i, 0, BRACES) < 0)
    ensures SplitFrom(s, i) == []
  {
  }

  lemma LiteralStep(s: string, i: nat, end: nat)
    requires i < |s| && s[i] == '{' && Find(s, i, 0, BRACES) == end
    ensures SplitFrom(s, i) == [Literal(s[i..end + 1], i)] + SplitFrom(s, end + 1)
  {
  }

  method SplitDefinitionsArray(content: string, arrayStart: nat) returns (definitions: seq<Literal>)
    ensures definitions == SplitFrom(content, arrayStart)
  {
    hide Find, SplitFrom, LineEnd, BlockEnd;
    definitions := [];
    var i := arrayStart;
    while i < |content|
      invariant definitions + SplitFrom(content, i) == SplitFrom(content, arrayStart)
      decreases |content| - i
    {
      while i < |content| && content[i] in {' ', '\t', '\n', '\r', ','}
        invariant definitions + SplitFrom(content, i) == SplitFrom(content, arrayStart)
      {
        SkipStep(content, i);
        i := i + 1;
      }
      if i >= |content| || content[i] == ']' {
        break;
      }
      if Pair(content, i, '/', '/') || content[i] == '#' {
        SkipStep(content, i);
        i := SkipLine(content, i + 1);
        continue;
      }
      if Pair(content, i, '/', '*') {
        SkipStep(content, i);
        i := SkipBlock(content, i + 2);
        i := i + 2;
        continue;
      }
      if content[i] != '{' {
        SkipStep(content, i);
        i := i + 1;
        continue;
      }
      var end := FindMatching(content, i, BRACES);
      if end < 0 {
        break;
      }
      LiteralStep(content, i, end);
      definitions := definitions + [Literal(content[i..end + 1], i)];
      i := end + 1;
    }
    ArrayEnd(content, i);
  }

  // ------------------------------------------------------------------ on any input

  /** A literal is a piece of the text from an opening brace to the brace that matches it. */
  predicate Matched(s: string, d: Literal) {
    && |d.text| >= 1
    && At(s, d.start, d.text)
    && s[d.start] == '{'
    && Find(s, d.start, 0, BRACES) == d.start + |d.text| - 1
  }

  predicate Ordered(ds: seq<Literal>, from: nat) {
    && (forall k :: 0 <= k < |ds| ==> from <= ds[k].start)
    && (forall j, k :: 0 <= j < k < |ds| ==> ds[j].start + |ds[j].text| <= ds[k].start)
  }

  /** On any input the literals are matched pieces of the text, in order and without overlap. */
  lemma {:induction false} SplitIsOrdered(s: string, i: nat)
    ensures Ordered(SplitFrom(s, i), i)
    ensures forall d :: d in SplitFrom(s, i) ==> Matched(s, d)
    decreases |s| - i
  {
    hide Find, Skip, Matched, Ordered;
    if i >= |s| || s[i] == ']' {
      NothingOrdered(i);
    } else if s[i] != '{' {
      var next := Skip(s, i);
      SplitIsOrdered(s, next);
      OrderedEarlier(SplitFrom(s, next), next, i);
    } else {
      var end := Find(s, i, 0, BRACES);
      if end < 0 {
        NothingOrdered(i);
      } else {
        SplitIsOrdered(s, end + 1);
        LiteralMatched(s, i, end);
        OrderedOneMore(Literal(s[i..end + 1], i), SplitFrom(s, end + 1));
      }
    }
  }

  lemma NothingOrdered(from: nat)
    ensures Ordered([], from)
  {
  }

  lemma OrderedEarlier(ds: seq<Literal>, from: nat, earlier: nat)
    requires Ordered(ds, from) && earlier <= from
    ensures Ordered(ds, earlier)
  {
  }

  lemma OrderedOneMore(d: Literal, ds: seq<Literal>)
    requires Ordered(ds, d.start + |d.text|)
    ensures Ordered([d] + ds, d.start)
  {
  }

  lemma LiteralMatched(s: string, i: nat, end: nat)
    requires i < |s| && s[i] == '{' && Find(s, i, 0, BRACES) == end
    ensures Matched(s, Literal(s[i..end + 1], i))
  {
    hide Find;
  }

  // ------------------------------------------------------------------ on printed arrays

  /** What may stand between the brackets of a definitions array. */
  datatype Item =
    | Space(c: char)
    | LineNote(text: string)
    | BlockNote(text: string)
    | Region(text: string)
    | Other(c: char)
    | Definition(body: Pieces)

  function PrintItem(item: Item): string {
    match item
    case Space(c) => [c]
    case LineNote(text) => "//" + text + "\n"
    case BlockNote(text) => "/*" + text + "*/"
    case Region(text) => "#" + text + "\n"
    case Other(c) => [c]
    case Definition(body) => PrintPiece(Group(body), BRACES)
  }

  function PrintItems(items: seq<Item>): string {
    if items == [] then "" else PrintItem(items[0]) + PrintItems(items[1..])
  }

  predicate ItemOk(item: Item) {
    match item
    case Space(c) => IsGap(c)
    case LineNote(text) => '\n' !in text
    case BlockNote(text) => NoClose(text)
    case Region(text) => '\n' !in text
    case Other(c) => !IsGap(c) && c !in {']', '/', '#', '{'}
    case Definition(body) => Printable(body, BRACES, true)
  }

  /** The literals that were printed, with their start offsets when printing began at `i`. */
  function Printed(items: seq<Item>, i: nat): seq<Literal> {
    if items == [] then []
    else
      var text := PrintItem(items[0]);
      var rest := Printed(items[1..], i + |text|);
      if items[0].Definition? then [Literal(text, i)] + rest else rest
  }

  /** Splitting undoes printing, whatever follows the closing bracket. */
  lemma {:induction false} SplitUndoesPrint(s: string, i: nat, items: seq<Item>)
    requires forall item :: item in items ==> ItemOk(item)
    requires At(s, i, PrintItems(items) + "]")
    ensures SplitFrom(s, i) == Printed(items, i)
    decreases |items|
  {
    hide SplitFrom, PrintItem, ItemOk;
    if items == [] {
      AtChar(s, i, "]", 0);
      ArrayEnd(s, i);
    } else {
      var item, tail := items[0], PrintItems(items[1..]) + "]";
      assert PrintItems(items) + "]" == PrintItem(item) + tail;
      AtSplit(s, i, PrintItem(item), tail);
      SplitUndoesPrint(s, i + |PrintItem(item)|, items[1..]);
      assert item in items;
      if item.Definition? {
        ReadDefinition(s, i, item);
      } else {
        ReadGap(s, i, item);
      }
    }
  }

  lemma ReadDefinition(s: string, i: nat, item: Item)
    requires item.Definition? && ItemOk(item) && At(s, i, PrintItem(item))
    ensures SplitFrom(s, i) == [Literal(PrintItem(item), i)] + SplitFrom(s, i + |PrintItem(item)|)
  {
    hide Find, Printable, Print;
    var text := PrintItem(item);
    LiteralRoundTrip(s, i, item.body, BRACES);
    AtChar(s, i, text, 0);
    assert text[0] == '{';
  }

  lemma ReadGap(s: string, i: nat, item: Item)
    requires ItemOk(item) && !item.Definition? && At(s, i, PrintItem(item))
    ensures SplitFrom(s, i) == SplitFrom(s, i + |PrintItem(item)|)
  {
    hide SplitFrom;
    match item
    case Space(c) =>
      AtChar(s, i, [c], 0);
      SkipStep(s, i);
    case Other(c) =>
      AtChar(s, i, [c], 0);
      SkipStep(s, i);
    case BlockNote(text) =>
      ReadBlockNote(s, i, text);
    case LineNote(text) =>
      ReadNote(s, i, "//", text);
    case Region(text) =>
      ReadNote(s, i, "#", text);
  }

  lemma ReadBlockNote(s: string, i: nat, text: string)
    requires NoClose(text) && At(s, i, "/*" + text + "*/")
    ensures SplitFrom(s, i) == SplitFrom(s, i + |"/*" + text + "*/"|)
  {
    hide SplitFrom, BlockEnd;
    AtWrapped(s, i, "/*", text, "*/");
    ReadBlock(s, i + 2, text);
    SkipStep(s, i);
  }

  lemma ReadNote(s: string, i: nat, mark: string, text: string)
    requires mark == "//" || mark == "#"
    requires '\n' !in text && At(s, i, mark + text + "\n")
    ensures SplitFrom(s, i) == SplitFrom(s, i + |mark + text + "\n"|)
  {
    hide SplitFrom;
    var end := i + |mark| + |text|;
    AtWrapped(s, i, mark, text, "\n");
    ReadLine(s, i + |mark|, text);
    assert LineEnd(s, i + 1) == end;
    SkipStep(s, i);
    SkipStep(s, end);
  }
}
