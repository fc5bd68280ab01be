/**
  A printer for the source texts the scanner is meant for, and the proof that the scanner
  undoes it: whatever is nested inside a bracketed literal, and whatever text follows it, the
  scanner stops on the literal's last character.
 */
module LexerPrinter {
  import opened Lexer

  /** One character of a string or template, written as itself or behind a backslash. */
  datatype Unit = Raw(c: char) | Escaped(c: char)

  /** Source text as a tree. `Group` is bracketed text; `Tmpl` is a template literal. */
  datatype Piece =
    | Plain(c: char)
    | Escape(c: char)
    | Text(quote: char, body: seq<Unit>)
    | Line(text: string)
    | Block(text: string)
    | Group(inner: Pieces)
    | Tmpl(parts: Parts)

  datatype Pieces = Nil | Cons(head: Piece, tail: Pieces)

  /** A template's parts: characters, and holes holding an expression. */
  datatype Part = Lit(u: Unit) | Hole(expr: Pieces)

  datatype Parts = Done | More(head: Part, tail: Parts)

  // ------------------------------------------------------------------ printing

  function PrintUnits(us: seq<Unit>): string {
    if us == [] then "" else PrintUnit(us[0]) + PrintUnits(us[1..])
  }

  function PrintUnit(u: Unit): string {
    match u
    case Raw(c) => [c]
    case Escaped(c) => ['\\', c]
  }

  function Print(ps: Pieces, br: Brackets): string {
    match ps
    case Nil => ""
    case Cons(p, rest) => PrintPiece(p, br) + Print(rest, br)
  }

  function PrintPiece(p: Piece, br: Brackets): string {
    match p
    case Plain(c) => [c]
    case Escape(c) => ['\\', c]
    case Text(quote, body) => [quote] + PrintUnits(body) + [quote]
    case Line(text) => "//" + text + "\n"
    case Block(text) => "/*" + text + "*/"
    case Group(inner) => [br.open] + Print(inner, br) + [br.close]
    case Tmpl(parts) => "`" + PrintParts(parts) + "`"
  }

  function PrintParts(ps: Parts): string {
    match ps
    case Done => ""
    case More(Lit(u), rest) => PrintUnit(u) + PrintParts(rest)
    case More(Hole(expr), rest) => "${" + Print(expr, BRACES) + "}" + PrintParts(rest)
  }

  // ------------------------------------------------------------------ which trees are printable

  predicate UnitOk(u: Unit, stop: char) {
    u.Raw? ==> u.c != stop && u.c != '\\'
  }

  predicate StartsComment(ps: Pieces) {
    ps.Cons? && (ps.head.Line? || ps.head.Block? || ps.head == Plain('/') || ps.head == Plain('*'))
  }

  predicate NoClose(text: string) {
    forall k: nat :: k < |text| ==> !Pair(text, k, '*', '/')
  }

  /** Comments are code only: inside `${...}` the scanner does not look for them. */
  predicate Printable(ps: Pieces, br: Brackets, code: bool) {
    match ps
    case Nil => true
    case Cons(p, rest) =>
      && Printable(rest, br, code)
      && PrintablePiece(p, br, code)
      && (code && p == Plain('/') ==> !StartsComment(rest))
  }

  predicate PrintablePiece(p: Piece, br: Brackets, code: bool) {
    match p
    case Plain(c) => !IsQuote(c) && c !in {br.open, br.close, '`', '\\'}
    case Escape(_) => true
    case Text(quote, body) => IsQuote(quote) && forall u :: u in body ==> UnitOk(u, quote)
    case Line(text) => code && '\n' !in text
    case Block(text) => code && NoClose(text)
    case Group(inner) => Printable(inner, br, code)
    case Tmpl(parts) => PrintableParts(parts)
  }

  predicate PrintableParts(ps: Parts) {
    match ps
    case Done => true
    case More(Lit(u), rest) =>
      && PrintableParts(rest)
      && UnitOk(u, '`')
      && (u == Raw('$') ==> !(rest.More? && rest.head == Lit(Raw('{'))))
    case More(Hole(expr), rest) =>
      PrintableParts(rest) && Printable(expr, BRACES, false)
  }

  // ------------------------------------------------------------------ reading back what was printed

  /** `t` stands at position `i` of `s`. */
  predicate At(s: string, i: nat, t: string) {
    i + |t| <= |s| && s[i..i + |t|] == t
  }

  lemma AtSplit(s: string, i: nat, a: string, b: string)
    requires At(s, i, a + b)
    ensures At(s, i, a) && At(s, i + |a|, b)
  {
    var ab := s[i..i + |a + b|];
    assert ab[..|a|] == a && ab[|a|..] == b;
  }

  lemma AtChar(s: string, i: nat, t: string, k: nat)
    requires At(s, i, t) && k < |t|
    ensures s[i + k] == t[k]
  {
  }

  lemma {:induction false} ReadUnits(s: string, i: nat, us: seq<Unit>, quote: char)
    requires IsQuote(quote) && forall u :: u in us ==> UnitOk(u, quote)
    requires At(s, i, PrintUnits(us) + [quote])
    ensures StringEnd(s, i, quote) == i + |PrintUnits(us)|
    decreases |us|
  {
    AtSplit(s, i, PrintUnits(us), [quote]);
    if us == [] {
      AtChar(s, i, [quote], 0);
    } else {
      var u := PrintUnit(us[0]);
      assert PrintUnits(us) + [quote] == u + (PrintUnits(us[1..]) + [quote]);
      AtSplit(s, i, u, PrintUnits(us[1..]) + [quote]);
      AtChar(s, i, u, 0);
      assert us[0] in us;
      ReadUnits(s, i + |u|, us[1..], quote);
    }
  }

  lemma {:induction false} ReadLine(s: string, i: nat, text: string)
    requires '\n' !in text && At(s, i, text + "\n")
    ensures LineEnd(s, i) == i + |text|
    decreases |text|
  {
    AtChar(s, i, text + "\n", 0);
    if text != "" {
      assert text + "\n" == text[..1] + (text[1..] + "\n");
      AtSplit(s, i, text[..1], text[1..] + "\n");
      ReadLine(s, i + 1, text[1..]);
    }
  }

  lemma {:induction false} ReadBlock(s: string, i: nat, text: string)
    requires NoClose(text) && At(s, i, text + "*/")
    ensures BlockEnd(s, i) == i + |text|
    decreases |text|
  {
    AtChar(s, i, text + "*/", 0);
    AtChar(s, i, text + "*/", 1);
    if text != "" {
      assert !Pair(text, 0, '*', '/');
      assert text + "*/" == text[..1] + (text[1..] + "*/");
      AtSplit(s, i, text[..1], text[1..] + "*/");
      assert forall k: nat :: Pair(text[1..], k, '*', '/') ==> Pair(text, k + 1, '*', '/');
      ReadBlock(s, i + 1, text[1..]);
    }
  }

  /** The text of a piece list starts with a comment only if its first piece does. */
  lemma FirstChar(ps: Pieces, br: Brackets, tail: string)
    requires Sound(br) && Printable(ps, br, true) && !StartsComment(ps) && tail != "" && tail[0] == br.close
    requires br == BRACES || br == SQUARES
    ensures var t := Print(ps, br) + tail; t != "" && t[0] != '/' && t[0] != '*'
  {
  }

  /** The three parts of a bracketed text, each in its place. */
  lemma AtWrapped(s: string, i: nat, a: string, body: string, b: string)
    requires At(s, i, a + body + b)
    ensures At(s, i, a) && At(s, i + |a|, body + b) && At(s, i + |a|, body) && At(s, i + |a| + |body|, b)
    ensures |a| > 0 ==> s[i] == a[0]
    ensures |a| > 1 ==> s[i + 1] == a[1]
    ensures |b| > 0 ==> s[i + |a| + |body|] == b[0]
  {
    assert a + body + b == a + (body + b);
    AtSplit(s, i, a, body + b);
    AtSplit(s, i + |a|, body, b);
  }

  /** Inside a template hole, the scanner steps over printed text without changing the brace count. */
  lemma {:induction false} ReadExpr(s: string, i: nat, ps: Pieces, depth: nat)
    requires Printable(ps, BRACES, false) && At(s, i, Print(ps, BRACES)) && depth >= 1
    ensures ExprEnd(s, i, depth) == ExprEnd(s, i + |Print(ps, BRACES)|, depth)
    decreases ps, 0
  {
    hide ExprEnd, PrintPiece, PrintablePiece;
    match ps
    case Nil =>
    case Cons(p, rest) =>
      AtSplit(s, i, PrintPiece(p, BRACES), Print(rest, BRACES));
      ReadExprPiece(s, i, p, depth);
      ReadExpr(s, i + |PrintPiece(p, BRACES)|, rest, depth);
  }

  lemma {:induction false} ReadExprPiece(s: string, i: nat, p: Piece, depth: nat)
    requires PrintablePiece(p, BRACES, false) && At(s, i, PrintPiece(p, BRACES)) && depth >= 1
    ensures ExprEnd(s, i, depth) == ExprEnd(s, i + |PrintPiece(p, BRACES)|, depth)
    decreases p, 1
  {
    hide ExprEnd, TemplateEnd, Print, PrintParts, Printable, PrintableParts;
    match p
    case Plain(_) => ReadExprLeaf(s, i, p, depth);
    case Escape(_) => ReadExprLeaf(s, i, p, depth);
    case Text(_, _) => ReadExprLeaf(s, i, p, depth);
    case Group(inner) =>
      AtWrapped(s, i, ['{'], Print(inner, BRACES), ['}']);
      ReadExpr(s, i + 1, inner, depth + 1);
      ExprGroup(s, i, i + 1 + |Print(inner, BRACES)|, depth);
    case Tmpl(parts) =>
      AtWrapped(s, i, "`", PrintParts(parts), "`");
      ReadParts(s, i + 1, parts);
      ReadExprTemplate(s, i, parts, depth);
  }

  lemma ReadExprTemplate(s: string, i: nat, parts: Parts, depth: nat)
    requires depth >= 1 && At(s, i, PrintPiece(Tmpl(parts), BRACES))
    requires TemplateEnd(s, i + 1) == i + 1 + |PrintParts(parts)|
    ensures ExprEnd(s, i, depth) == ExprEnd(s, i + |PrintPiece(Tmpl(parts), BRACES)|, depth)
  {
    hide ExprEnd, TemplateEnd, PrintParts;
    AtWrapped(s, i, "`", PrintParts(parts), "`");
    ExprTemplate(s, i, i + 1 + |PrintParts(parts)|, depth);
  }

  lemma ReadExprLeaf(s: string, i: nat, p: Piece, depth: nat)
    requires p.Plain? || p.Escape? || p.Text?
    requires PrintablePiece(p, BRACES, false) && At(s, i, PrintPiece(p, BRACES)) && depth >= 1
    ensures ExprEnd(s, i, depth) == ExprEnd(s, i + |PrintPiece(p, BRACES)|, depth)
  {
    hide ExprEnd, StringEnd, PrintUnits;
    AtChar(s, i, PrintPiece(p, BRACES), 0);
    if p.Text? {
      AtWrapped(s, i, [p.quote], PrintUnits(p.body), [p.quote]);
      ReadUnits(s, i + 1, p.body, p.quote);
      ExprText(s, i, i + 1 + |PrintUnits(p.body)|, depth);
    } else {
      ExprChar(s, i, depth);
    }
  }

  lemma ExprChar(s: string, i: nat, depth: nat)
    requires depth >= 1 && i < |s| && !IsQuote(s[i]) && s[i] !in {'{', '}', '`'}
    ensures ExprEnd(s, i, depth) == ExprEnd(s, i + if s[i] == '\\' then 2 else 1, depth)
  {
  }

  lemma ExprText(s: string, i: nat, close: nat, depth: nat)
    requires depth >= 1 && i < close < |s| && IsQuote(s[i]) && StringEnd(s, i + 1, s[i]) == close
    ensures ExprEnd(s, i, depth) == ExprEnd(s, close + 1, depth)
  {
  }

  lemma ExprTemplate(s: string, i: nat, close: nat, depth: nat)
    requires depth >= 1 && i < close < |s| && s[i] == '`' && TemplateEnd(s, i + 1) == close
    ensures ExprEnd(s, i, depth) == ExprEnd(s, close + 1, depth)
  {
  }

  lemma ExprGroup(s: string, i: nat, close: nat, depth: nat)
    requires depth >= 1 && i < close < |s| && s[i] == '{' && s[close] == '}'
    requires ExprEnd(s, i + 1, depth + 1) == ExprEnd(s, close, depth + 1)
    ensures ExprEnd(s, i, depth) == ExprEnd(s, close + 1, depth)
  {
    assert ExprEnd(s, close, depth + 1) == ExprEnd(s, close + 1, depth);
  }

  /** The scanner finds the backtick that closes a printed template. */
  lemma {:induction false} ReadParts(s: string, i: nat, ps: Parts)
    requires PrintableParts(ps) && At(s, i, PrintParts(ps) + "`")
    ensures TemplateEnd(s, i) == i + |PrintParts(ps)|
    decreases ps, 0
  {
    hide ExprEnd, Print, Printable, PrintUnit;
    match ps
    case Done =>
      AtChar(s, i, "`", 0);
    case More(Lit(u), rest) =>
      ReadLit(s, i, u, rest);
      ReadParts(s, i + |PrintUnit(u)|, rest);
    case More(Hole(expr), rest) =>
      var close := i + 2 + |Print(expr, BRACES)|;
      HoleSplit(s, i, expr, rest);
      ReadExpr(s, i + 2, expr, 1);
      ReadParts(s, close + 1, rest);
      HoleStep(s, i, close);
  }

  lemma HoleText(expr: Pieces, rest: Parts)
    ensures PrintParts(More(Hole(expr), rest)) + "`" == "${" + Print(expr, BRACES) + ("}" + (PrintParts(rest) + "`"))
  {
  }

  lemma HoleSplit(s: string, i: nat, expr: Pieces, rest: Parts)
    requires At(s, i, PrintParts(More(Hole(expr), rest)) + "`")
    ensures
      var close := i + 2 + |Print(expr, BRACES)|;
      && Pair(s, i, '$', '{')
      && At(s, i + 2, Print(expr, BRACES))
      && close < |s| && s[close] == '}'
      && At(s, close + 1, PrintParts(rest) + "`")
  {
    hide Print;
    var body, tail := Print(expr, BRACES), PrintParts(rest) + "`";
    HoleText(expr, rest);
    hide PrintParts;
    AtWrapped(s, i, "${", body, "}" + tail);
    AtSplit(s, i + 2 + |body|, "}", tail);
  }

  lemma HoleStep(s: string, i: nat, close: nat)
    requires Pair(s, i, '$', '{') && i + 2 <= close < |s| && s[close] == '}'
    requires ExprEnd(s, i + 2, 1) == ExprEnd(s, close, 1)
    ensures TemplateEnd(s, i) == TemplateEnd(s, close + 1)
  {
    assert ExprEnd(s, close, 1) == close;
    assert TemplateEnd(s, close) == TemplateEnd(s, close + 1);
  }

  lemma ReadLit(s: string, i: nat, u: Unit, rest: Parts)
    requires PrintableParts(More(Lit(u), rest)) && At(s, i, PrintParts(More(Lit(u), rest)) + "`")
    ensures At(s, i + |PrintUnit(u)|, PrintParts(rest) + "`")
    ensures TemplateEnd(s, i) == TemplateEnd(s, i + |PrintUnit(u)|)
  {
    hide ExprEnd, Print;
    var tail := PrintParts(rest) + "`";
    assert PrintParts(More(Lit(u), rest)) + "`" == PrintUnit(u) + tail;
    AtSplit(s, i, PrintUnit(u), tail);
    AtChar(s, i, PrintUnit(u), 0);
    AtChar(s, i + |PrintUnit(u)|, tail, 0);
    if u == Raw('$') {
      assert tail[0] != '{';
    }
  }

  /** In code, the scanner steps over printed text without changing the nesting. */
  lemma {:induction false} ReadCode(s: string, i: nat, ps: Pieces, depth: int, br: Brackets)
    requires br == BRACES || br == SQUARES
    requires Printable(ps, br, true) && At(s, i, Print(ps, br) + [br.close]) && depth >= 1
    ensures Find(s, i, depth, br) == Find(s, i + |Print(ps, br)|, depth, br)
    decreases ps, 0
  {
    hide Find;
    match ps
    case Nil =>
    case Cons(p, rest) =>
      var here := PrintPiece(p, br);
      CodeSplit(s, i, p, rest, br);
      ReadCodePiece(s, i, p, depth, br);
      ReadCode(s, i + |here|, rest, depth, br);
  }

  lemma CodeSplit(s: string, i: nat, p: Piece, rest: Pieces, br: Brackets)
    requires br == BRACES || br == SQUARES
    requires Printable(Cons(p, rest), br, true) && At(s, i, Print(Cons(p, rest), br) + [br.close])
    ensures At(s, i, PrintPiece(p, br)) && At(s, i + |PrintPiece(p, br)|, Print(rest, br) + [br.close])
    ensures p == Plain('/') ==> i + 1 < |s| && s[i + 1] !in {'/', '*'}
  {
    hide PrintParts, PrintUnits, PrintableParts;
    var here, tail := PrintPiece(p, br), Print(rest, br) + [br.close];
    assert Print(Cons(p, rest), br) + [br.close] == here + tail;
    AtSplit(s, i, here, tail);
    AtChar(s, i + |here|, tail, 0);
    if p == Plain('/') {
      FirstChar(rest, br, [br.close]);
    }
  }

  lemma {:induction false} ReadCodePiece(s: string, i: nat, p: Piece, depth: int, br: Brackets)
    requires br == BRACES || br == SQUARES
    requires PrintablePiece(p, br, true) && At(s, i, PrintPiece(p, br)) && depth >= 1
    requires p == Plain('/') ==> i + 1 < |s| && s[i + 1] !in {'/', '*'}
    ensures Find(s, i, depth, br) == Find(s, i + |PrintPiece(p, br)|, depth, br)
    decreases p, 1
  {
    hide Find, Print, Printable;
    match p
    case Plain(_) => ReadCharacter(s, i, p, depth, br);
    case Escape(_) => ReadCharacter(s, i, p, depth, br);
    case Text(_, _) => ReadLiteral(s, i, p, depth, br);
    case Tmpl(_) => ReadLiteral(s, i, p, depth, br);
    case Line(_) => ReadComment(s, i, p, depth, br);
    case Block(_) => ReadComment(s, i, p, depth, br);
    case Group(inner) =>
      AtWrapped(s, i, [br.open], Print(inner, br), [br.close]);
      ReadCode(s, i + 1, inner, depth + 1, br);
      FindGroup(s, i, i + 1 + |Print(inner, br)|, depth, br);
  }

  lemma ReadCharacter(s: string, i: nat, p: Piece, depth: int, br: Brackets)
    requires p.Plain? || p.Escape?
    requires Sound(br) && PrintablePiece(p, br, true) && At(s, i, PrintPiece(p, br))
    requires p == Plain('/') ==> i + 1 < |s| && s[i + 1] !in {'/', '*'}
    ensures Find(s, i, depth, br) == Find(s, i + |PrintPiece(p, br)|, depth, br)
  {
    AtChar(s, i, PrintPiece(p, br), 0);
    FindChar(s, i, depth, br);
  }

  lemma ReadLiteral(s: string, i: nat, p: Piece, depth: int, br: Brackets)
    requires p.Text? || p.Tmpl?
    requires PrintablePiece(p, br, true) && At(s, i, PrintPiece(p, br))
    ensures Find(s, i, depth, br) == Find(s, i + |PrintPiece(p, br)|, depth, br)
  {
    hide Find, TemplateEnd, StringEnd, PrintUnits, PrintParts, PrintableParts;
    if p.Text? {
      AtWrapped(s, i, [p.quote], PrintUnits(p.body), [p.quote]);
      ReadUnits(s, i + 1, p.body, p.quote);
      FindText(s, i, i + 1 + |PrintUnits(p.body)|, depth, br);
    } else {
      AtWrapped(s, i, "`", PrintParts(p.parts), "`");
      ReadParts(s, i + 1, p.parts);
      FindTemplate(s, i, i + 1 + |PrintParts(p.parts)|, depth, br);
    }
  }

  lemma ReadComment(s: string, i: nat, p: Piece, depth: int, br: Brackets)
    requires p.Line? || p.Block?
    requires PrintablePiece(p, br, true) && At(s, i, PrintPiece(p, br))
    ensures Find(s, i, depth, br) == Find(s, i + |PrintPiece(p, br)|, depth, br)
  {
    hide Find, LineEnd, BlockEnd;
    var end := i + 2 + |p.text|;
    if p.Line? {
      AtWrapped(s, i, "//", p.text, "\n");
      ReadLine(s, i + 2, p.text);
      FindLine(s, i, end, depth, br);
      assert i + |PrintPiece(p, br)| == end + 1;
    } else {
      AtWrapped(s, i, "/*", p.text, "*/");
      ReadBlock(s, i + 2, p.text);
      FindBlock(s, i, end, depth, br);
      assert i + |PrintPiece(p, br)| == end + 2;
    }
  }

  lemma FindChar(s: string, i: nat, depth: int, br: Brackets)
    requires i < |s| && !IsQuote(s[i]) && s[i] !in {br.open, br.close, '`'}
    requires !Pair(s, i, '/', '/') && !Pair(s, i, '/', '*')
    ensures Find(s, i, depth, br) == Find(s, i + if s[i] == '\\' then 2 else 1, depth, br)
  {
  }

  lemma FindText(s: string, i: nat, close: nat, depth: int, br: Brackets)
    requires i < close < |s| && IsQuote(s[i]) && StringEnd(s, i + 1, s[i]) == close
    ensures Find(s, i, depth, br) == Find(s, close + 1, depth, br)
  {
  }

  lemma FindTemplate(s: string, i: nat, close: nat, depth: int, br: Brackets)
    requires i < close < |s| && s[i] == '`' && TemplateEnd(s, i + 1) == close
    ensures Find(s, i, depth, br) == Find(s, close + 1, depth, br)
  {
  }

  lemma FindLine(s: string, i: nat, close: nat, depth: int, br: Brackets)
    requires Pair(s, i, '/', '/') && i + 2 <= close && LineEnd(s, i + 2) == close
    ensures Find(s, i, depth, br) == Find(s, close + 1, depth, br)
  {
  }

  lemma FindBlock(s: string, i: nat, close: nat, depth: int, br: Brackets)
    requires Pair(s, i, '/', '*') && i + 2 <= close && BlockEnd(s, i + 2) == close
    ensures Find(s, i, depth, br) == Find(s, close + 2, depth, br)
  {
  }

  lemma FindOpen(s: string, i: nat, br: Brackets)
    requires Sound(br) && i < |s| && s[i] == br.open
    ensures Find(s, i, 0, br) == Find(s, i + 1, 1, br)
  {
  }

  lemma FindClose(s: string, i: nat, br: Brackets)
    requires Sound(br) && i < |s| && s[i] == br.close
    ensures Find(s, i, 1, br) == i
  {
  }

  lemma FindGroup(s: string, i: nat, close: nat, depth: int, br: Brackets)
    requires Sound(br) && depth != 0 && i < close < |s| && s[i] == br.open && s[close] == br.close
    requires Find(s, i + 1, depth + 1, br) == Find(s, close, depth + 1, br)
    ensures Find(s, i, depth, br) == Find(s, close + 1, depth, br)
  {
    assert Find(s, close, depth + 1, br) == Find(s, close + 1, depth, br);
  }

  // ------------------------------------------------------------------ main result

  /** A printed literal at position `i` of any text is matched by its own last character. */
  lemma LiteralRoundTrip(s: string, i: nat, ps: Pieces, br: Brackets)
    requires br == BRACES || br == SQUARES
    requires Printable(ps, br, true) && At(s, i, PrintPiece(Group(ps), br))
    ensures Find(s, i, 0, br) == i + |PrintPiece(Group(ps), br)| - 1
  {
    hide Find, Print, Printable;
    var close := i + 1 + |Print(ps, br)|;
    AtWrapped(s, i, [br.open], Print(ps, br), [br.close]);
    FindOpen(s, i, br);
    ReadCode(s, i + 1, ps, 1, br);
    FindClose(s, close, br);
  }
}
