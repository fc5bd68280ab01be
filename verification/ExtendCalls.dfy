/**
  Reading an `extend: [...]` list (`extract_bracket_content` and `split_extend_calls` of
  tools/z2m_converter_extract.py).

  The splitter knows brackets and strings but neither comments nor `${...}`. It is specified
  by a one-character automaton. Three results hold on every text: joining the pieces gives the
  text back, a piece cannot be split further, and splitting undoes joining exactly when no
  piece but the last leaves a bracket or string open and none has a top-level comma.
 */
module ExtendCalls {
  import opened Wrappers
  import opened Lexer
  import opened LexerPrinter

  /** Brackets open, the string being read, and whether the next character is escaped. */
  datatype State = State(depth: int, quote: Option<char>, skip: bool)

  const TOP := State(0, None, false)

  predicate OpensString(c: char) {
    c in {'"', '\'', '`'}
  }

  function Step(st: State, c: char): State {
    if st.quote.Some? then
      if st.skip then st.(skip := false)
      else if c == '\\' then st.(skip := true)
      else if c == st.quote.value then st.(quote := None)
      else st
    else if OpensString(c) then st.(quote := Some(c))
    else if c in {'(', '[', '{'} then st.(depth := st.depth + 1)
    else if c in {')', ']', '}'} then st.(depth := st.depth - 1)
    else st
  }

  function Run(st: State, s: string): State
    decreases |s|
  {
    if s == "" then st else Run(Step(st, s[0]), s[1..])
  }

  /** The pieces of `s`, read in state `st` with `current` already collected. */
  function Split(s: string, st: State, current: string): seq<string>
    decreases |s|
  {
    if s == "" then if current == "" then [] else [current]
    else if s[0] == ',' && st == TOP then [current] + Split(s[1..], TOP, "")
    else Split(s[1..], Step(st, s[0]), current + s[..1])
  }

  method SplitExtendCalls(s: string) returns (calls: seq<string>)
    ensures calls == Split(s, TOP, "")
  {
    calls := [];
    var depth := 0;
    var current := "";
    var inString := false;
    var stringChar := ' ';
    var i := 0;
    ghost var st := TOP;  // escaped only by a lone backslash at the very end of the text
    while i < |s|
      invariant i <= |s| && (st.skip ==> i == |s|)
      invariant inString ==> OpensString(stringChar)
      invariant st.depth == depth && st.quote == if inString then Some(stringChar) else None
      invariant calls + Split(s[i..], st, current) == Split(s, TOP, "")
    {
      var ch := s[i];
      assert s[i..][1..] == s[i + 1..] && s[i..][..1] == [ch];
      if inString {
        current := current + [ch];
        if ch == '\\' && i + 1 < |s| {
          assert s[i + 1..][1..] == s[i + 2..] && s[i + 1..][..1] == [s[i + 1]];
          current := current + [s[i + 1]];
          i := i + 2;
          continue;
        }
        if ch == stringChar {
          inString := false;
        }
        st := Step(st, ch);
        i := i + 1;
        continue;
      }
      if ch == '"' || ch == '\'' || ch == '`' {
        inString := true;
        stringChar := ch;
        current := current + [ch];
      } else if ch == '(' || ch == '[' || ch == '{' {
        depth := depth + 1;
        current := current + [ch];
      } else if ch == ')' || ch == ']' || ch == '}' {
        depth := depth - 1;
        current := current + [ch];
      } else if ch == ',' && depth == 0 {
        calls := calls + [current];
        current := "";
      } else {
        current := current + [ch];
      }
      st := Step(st, ch);
      i := i + 1;
    }
    if |current| > 0 {
      calls := calls + [current];
    }
  }

  /** `extract_bracket_content`, from the opening bracket on. */
  method ExtractBracketContent(text: string, start: nat) returns (r: Option<string>)
    requires start < |text| && text[start] == '['
    ensures
      var end := Find(text, start, 0, SQUARES);
      r == if end < 0 then None else Some(text[start + 1..end])
  {
    var end := FindMatching(text, start, SQUARES);
    if end < 0 {
      return None;
    }
    return Some(text[start + 1..end]);
  }

  // ------------------------------------------------------------------ runs of the automaton

  lemma {:induction false} RunAppend(st: State, a: string, b: string)
    ensures Run(st, a + b) == Run(Run(st, a), b)
    decreases |a|
  {
    if a == "" {
      assert a + b == b;
    } else {
      assert (a + b)[1..] == a[1..] + b;
      RunAppend(Step(st, a[0]), a[1..], b);
    }
  }

  /** Read from `st`, the text has no comma at top level. */
  predicate Clean(st: State, s: string)
    decreases |s|
  {
    s == "" || (!(s[0] == ',' && st == TOP) && Clean(Step(st, s[0]), s[1..]))
  }

  lemma {:induction false} CleanAppend(st: State, a: string, b: string)
    ensures Clean(st, a + b) <==> Clean(st, a) && Clean(Run(st, a), b)
    decreases |a|
  {
    if a == "" {
      assert a + b == b;
    } else {
      assert (a + b)[1..] == a[1..] + b;
      CleanAppend(Step(st, a[0]), a[1..], b);
    }
  }

  /** A clean text is read into the current piece. */
  lemma {:induction false} Collect(p: string, t: string, st: State, current: string)
    requires Clean(st, p)
    ensures Split(p + t, st, current) == Split(t, Run(st, p), current + p)
    decreases |p|
  {
    if p == "" {
      assert p + t == t && current + p == current;
    } else {
      assert (p + t)[1..] == p[1..] + t && (p + t)[..1] == p[..1];
      Collect(p[1..], t, Step(st, p[0]), current + p[..1]);
      assert current + p[..1] + p[1..] == current + p;
    }
  }

  // ------------------------------------------------------------------ nothing is lost

  function Join(pieces: seq<string>): string {
    if pieces == [] then ""
    else if |pieces| == 1 then pieces[0]
    else pieces[0] + "," + Join(pieces[1..])
  }

  /** Read from `st`, the text ends in a comma outside every bracket and string. */
  predicate EndsInComma(s: string, st: State) {
    s != "" && s[|s| - 1] == ',' && Run(st, s[..|s| - 1]) == TOP
  }

  lemma EndsInCommaTail(s: string, st: State)
    requires |s| > 1
    ensures EndsInComma(s, st) == EndsInComma(s[1..], Step(st, s[0]))
  {
    assert s[..|s| - 1][1..] == s[1..][..|s| - 2];
  }

  /** What joining the pieces of `s` must give back, when `current` was collected before. */
  predicate Rejoins(s: string, st: State, current: string) {
    var pieces := Split(s, st, current);
    && (pieces == [] <==> current + s == "")
    && (if EndsInComma(s, st) then Join(pieces) + "," == current + s else Join(pieces) == current + s)
  }

  lemma {:induction false} SplitJoins(s: string, st: State, current: string)
    ensures Rejoins(s, st, current)
    decreases |s|
  {
    hide Rejoins;
    if s == "" {
      JoinsAtEnd(st, current);
    } else if s[0] == ',' && st == TOP {
      SplitJoins(s[1..], TOP, "");
      JoinsAtComma(s, current);
    } else {
      SplitJoins(s[1..], Step(st, s[0]), current + s[..1]);
      JoinsInside(s, st, current);
    }
  }

  lemma JoinsAtEnd(st: State, current: string)
    ensures Rejoins("", st, current)
  {
    assert current + "" == current;
  }

  lemma JoinsAtComma(s: string, current: string)
    requires s != "" && s[0] == ',' && Rejoins(s[1..], TOP, "")
    ensures Rejoins(s, TOP, current)
  {
    var t := s[1..];
    var rest := Split(t, TOP, "");
    JoinFirst(current, rest);
    CommaStep(s, current);
    HeadTail(s);
    Associate(current, ",", t);
    Associate(current + ",", Join(rest), ",");
    hide Split, Join, Run, EndsInComma;
    assert "" + t == t;
    if rest == [] {
      assert current + "," == current + "," + t;
    }
  }

  lemma HeadTail(s: string)
    requires s != "" && s[0] == ','
    ensures s == "," + s[1..]
  {
  }

  lemma Associate(a: string, b: string, c: string)
    ensures a + b + c == a + (b + c)
  {
  }

  lemma JoinFirst(first: string, rest: seq<string>)
    ensures Join([first] + rest) == if rest == [] then first else first + "," + Join(rest)
  {
    assert ([first] + rest)[1..] == rest;
  }

  lemma CommaStep(s: string, current: string)
    requires s != "" && s[0] == ','
    ensures Split(s, TOP, current) == [current] + Split(s[1..], TOP, "")
    ensures EndsInComma(s, TOP) == (s[1..] == "" || EndsInComma(s[1..], TOP))
  {
    if |s| > 1 {
      EndsInCommaTail(s, TOP);
    } else {
      assert s[..|s| - 1] == "";
    }
  }

  lemma JoinsInside(s: string, st: State, current: string)
    requires s != "" && !(s[0] == ',' && st == TOP) && Rejoins(s[1..], Step(st, s[0]), current + s[..1])
    ensures Rejoins(s, st, current)
  {
    assert current + s[..1] + s[1..] == current + s;
    if |s| > 1 {
      EndsInCommaTail(s, st);
    } else {
      assert s[..|s| - 1] == "" && s[1..] == "";
    }
  }

  /** Joining the pieces gives the text back, less its last character exactly when that is a top-level comma. */
  lemma NothingIsLost(s: string)
    ensures
      var pieces := Split(s, TOP, "");
      if EndsInComma(s, TOP) then Join(pieces) + "," == s else Join(pieces) == s
  {
    SplitJoins(s, TOP, "");
    assert "" + s == s;
  }

  // ------------------------------------------------------------------ splitting and joining are inverse

  /** Pieces that joining keeps apart: none has a top-level comma, each but the last is balanced, the last is not empty. */
  predicate Separate(pieces: seq<string>) {
    && (forall p :: p in pieces ==> Clean(TOP, p))
    && (forall k :: 0 <= k < |pieces| - 1 ==> Run(TOP, pieces[k]) == TOP)
    && (pieces != [] ==> pieces[|pieces| - 1] != "")
  }

  /** What every split gives, when `current` was collected from a clean text. */
  predicate SplitsWell(s: string, st: State, current: string) {
    var pieces := Split(s, st, current);
    && (forall p :: p in pieces ==> Clean(TOP, p))
    && (forall k :: 0 <= k < |pieces| - 1 ==> Run(TOP, pieces[k]) == TOP)
    && (pieces != [] ==> pieces[|pieces| - 1] != "" || EndsInComma(s, st))
  }

  lemma {:induction false} SplitPieces(s: string, st: State, current: string)
    requires st == Run(TOP, current) && Clean(TOP, current)
    ensures SplitsWell(s, st, current)
    decreases |s|
  {
    if s != "" {
      if s[0] == ',' && st == TOP {
        SplitPieces(s[1..], TOP, "");
        SplitJoins(s[1..], TOP, "");  // no further piece means no further text
        CommaStep(s, current);
      } else {
        RunAppend(TOP, current, s[..1]);
        CleanAppend(TOP, current, s[..1]);
        assert s[..1][1..] == "";
        SplitPieces(s[1..], Step(st, s[0]), current + s[..1]);
        if |s| > 1 {
          EndsInCommaTail(s, st);
        } else {
          assert s[1..] == "";
        }
      }
    }
  }

  /** No piece can be split further. */
  lemma PiecesAreAtomic(s: string, p: string)
    requires p in Split(s, TOP, "")
    ensures Split(p, TOP, "") == if p == "" then [] else [p]
  {
    SplitPieces(s, TOP, "");
    SplitAlone(p);
  }

  lemma SplitAlone(p: string)
    requires Clean(TOP, p)
    ensures Split(p, TOP, "") == if p == "" then [] else [p]
  {
    Collect(p, "", TOP, "");
    assert p + "" == p && "" + p == p;
    assert Split("", Run(TOP, p), p) == if p == "" then [] else [p];
  }

  lemma SplitHead(p: string, rest: string)
    requires Clean(TOP, p) && Run(TOP, p) == TOP
    ensures Split(p + "," + rest, TOP, "") == [p] + Split(rest, TOP, "")
  {
    var t := "," + rest;
    assert p + "," + rest == p + t && t[1..] == rest && "" + p == p;
    Collect(p, t, TOP, "");
  }

  lemma {:induction false} SplitOfJoin(pieces: seq<string>)
    requires Separate(pieces)
    ensures Split(Join(pieces), TOP, "") == pieces
    decreases |pieces|
  {
    if pieces != [] {
      var p := pieces[0];
      assert p in pieces && "" + p == p;
      if |pieces| == 1 {
        SplitAlone(p);
      } else {
        SplitHead(p, Join(pieces[1..]));
        SplitOfJoin(pieces[1..]);
      }
    }
  }

  /** Splitting gives joined pieces back exactly when joining keeps them apart. */
  lemma SplitUndoesJoin(pieces: seq<string>)
    ensures Split(Join(pieces), TOP, "") == pieces <==> Separate(pieces)
  {
    if Separate(pieces) {
      SplitOfJoin(pieces);
    }
    if Split(Join(pieces), TOP, "") == pieces {
      SplitPieces(Join(pieces), TOP, "");
      NothingIsLost(Join(pieces));
    }
  }

  // ------------------------------------------------------------------ printed lists of calls

  /** An argument text without comments and without `${`. */
  datatype Arg =
    | Char(c: char)
    | Str(quote: char, body: seq<Unit>)
    | Nest(open: char, inner: Args)

  datatype Args = End | Then(head: Arg, tail: Args)

  function Closer(open: char): char {
    if open == '(' then ')' else if open == '[' then ']' else '}'
  }

  function PrintArgs(a: Args): string {
    match a
    case End => ""
    case Then(h, t) => PrintArg(h) + PrintArgs(t)
  }

  function PrintArg(a: Arg): string {
    match a
    case Char(c) => [c]
    case Str(quote, body) => [quote] + PrintUnits(body) + [quote]
    case Nest(open, inner) => [open] + PrintArgs(inner) + [Closer(open)]
  }

  /** `top` bars commas, `/` must not start a comment, and a backtick string must not hold `${`. */
  predicate ArgsOk(a: Args, top: bool) {
    match a
    case End => true
    case Then(h, t) =>
      ArgsOk(t, top) && ArgOk(h, top) && (h == Char('/') ==> !(t.Then? && t.head in {Char('/'), Char('*')}))
  }

  predicate ArgOk(a: Arg, top: bool) {
    match a
    case Char(c) => !OpensString(c) && c !in {'(', '[', '{', ')', ']', '}', '\\'} && (top ==> c != ',')
    case Str(quote, body) =>
      && OpensString(quote)
      && (forall u :: u in body ==> UnitOk(u, quote))
      && (quote == '`' ==> forall k :: 0 < k < |body| ==> !(body[k - 1] == Raw('$') && body[k] == Raw('{')))
    case Nest(open, inner) => open in {'(', '[', '{'} && ArgsOk(inner, false)
  }

  // The splitter reads a printed argument back to where it started.

  lemma {:induction false} RunUnits(st: State, quote: char, body: seq<Unit>)
    requires OpensString(quote) && st.quote == Some(quote) && !st.skip
    requires forall u :: u in body ==> UnitOk(u, quote)
    ensures Run(st, PrintUnits(body)) == st && Clean(st, PrintUnits(body))
    decreases |body|
  {
    if body != [] {
      var u := PrintUnit(body[0]);
      assert body[0] in body;
      RunUnits(st, quote, body[1..]);
      RunAppend(st, u, PrintUnits(body[1..]));
      CleanAppend(st, u, PrintUnits(body[1..]));
      assert u[1..] == if body[0].Raw? then "" else [body[0].c];
      assert body[0].Escaped? ==> u[1..][1..] == "";
    }
  }

  lemma RunWrapped(st: State, inside: State, a: char, body: string, b: char)
    requires !(st == TOP && a == ',') && Step(st, a) == inside
    requires Run(inside, body) == inside && Clean(inside, body)
    requires !(inside == TOP && b == ',')
    ensures Run(st, [a] + body + [b]) == Step(inside, b) && Clean(st, [a] + body + [b])
  {
    var t := body + [b];
    assert [a] + body + [b] == [a] + t && ([a] + t)[1..] == t && [b][1..] == "";
    RunAppend(inside, body, [b]);
    CleanAppend(inside, body, [b]);
  }

  lemma {:induction false} RunArgs(st: State, a: Args, top: bool)
    requires ArgsOk(a, top) && st.quote.None? && !st.skip && st.depth >= if top then 0 else 1
    ensures Run(st, PrintArgs(a)) == st && Clean(st, PrintArgs(a))
    decreases a, 0
  {
    match a
    case End =>
    case Then(h, t) =>
      RunArg(st, h, top);
      RunArgs(st, t, top);
      RunAppend(st, PrintArg(h), PrintArgs(t));
      CleanAppend(st, PrintArg(h), PrintArgs(t));
  }

  lemma {:induction false} RunArg(st: State, a: Arg, top: bool)
    requires ArgOk(a, top) && st.quote.None? && !st.skip && st.depth >= if top then 0 else 1
    ensures Run(st, PrintArg(a)) == st && Clean(st, PrintArg(a))
    decreases a, 1
  {
    match a
    case Char(c) =>
      assert [c][1..] == "";
    case Str(quote, body) =>
      var inside := st.(quote := Some(quote));
      RunUnits(inside, quote, body);
      RunWrapped(st, inside, quote, PrintUnits(body), quote);
    case Nest(open, inner) =>
      var inside := st.(depth := st.depth + 1);
      RunArgs(inside, inner, false);
      RunWrapped(st, inside, open, PrintArgs(inner), Closer(open));
  }

  // The bracket finder sees the same text as a tree of its own.

  function ToParts(body: seq<Unit>): Parts {
    if body == [] then Done else More(Lit(body[0]), ToParts(body[1..]))
  }

  function ToPiece(h: Arg): Piece
    requires !h.Nest?
  {
    if h.Char? then Plain(h.c) else if h.quote == '`' then Tmpl(ToParts(h.body)) else Text(h.quote, h.body)
  }

  /** The pieces of `a`, in front of `rest`. */
  function ToPieces(a: Args, rest: Pieces): Pieces
    decreases a
  {
    match a
    case End => rest
    case Then(h, t) =>
      if !h.Nest? then Cons(ToPiece(h), ToPieces(t, rest))
      else if h.open == '[' then Cons(Group(ToPieces(h.inner, Nil)), ToPieces(t, rest))
      else Cons(Plain(h.open), ToPieces(h.inner, Cons(Plain(Closer(h.open)), ToPieces(t, rest))))
  }

  lemma {:induction false} PartsPrint(body: seq<Unit>)
    requires forall u :: u in body ==> UnitOk(u, '`')
    requires forall k :: 0 < k < |body| ==> !(body[k - 1] == Raw('$') && body[k] == Raw('{'))
    ensures PrintParts(ToParts(body)) == PrintUnits(body) && PrintableParts(ToParts(body))
    decreases |body|
  {
    if body != [] {
      var tail := body[1..];
      assert body[0] in body;
      assert forall k :: 0 < k < |tail| ==> tail[k] == body[k + 1] && tail[k - 1] == body[k];
      PartsPrint(tail);
      if tail != [] {
        assert !(body[0] == Raw('$') && body[1] == Raw('{'));
        assert ToParts(tail).head == Lit(body[1]);
      }
    }
  }

  /** The tree of `a` in front of `rest` prints like `a` in front of `rest`, and the finder can read it. */
  predicate Mirrors(tree: Pieces, a: Args, rest: Pieces) {
    && Print(tree, SQUARES) == PrintArgs(a) + Print(rest, SQUARES)
    && Printable(tree, SQUARES, true)
    && (StartsComment(tree) ==> a.Then? && a.head in {Char('/'), Char('*')})
  }

  lemma {:induction false} PiecesPrint(a: Args, rest: Pieces, top: bool)
    requires ArgsOk(a, top) && Printable(rest, SQUARES, true) && !StartsComment(rest)
    ensures Mirrors(ToPieces(a, rest), a, rest)
    decreases a
  {
    match a
    case End =>
      assert PrintArgs(a) + Print(rest, SQUARES) == Print(rest, SQUARES);
    case Then(h, t) =>
      PiecesPrint(t, rest, top);
      var after := ToPieces(t, rest);
      if h.Nest? && h.open == '[' {
        PiecesPrint(h.inner, Nil, false);
        MirrorGroup(h.inner, t, rest);
      } else if h.Nest? {
        assert !StartsComment(Cons(Plain(Closer(h.open)), after));
        PiecesPrint(h.inner, Cons(Plain(Closer(h.open)), after), false);
        MirrorNest(h.open, h.inner, t, rest);
      } else {
        MirrorLeaf(h, t, rest, top);
      }
  }

  lemma MirrorLeaf(h: Arg, t: Args, rest: Pieces, top: bool)
    requires !h.Nest? && ArgsOk(Then(h, t), top) && Mirrors(ToPieces(t, rest), t, rest)
    ensures Mirrors(ToPieces(Then(h, t), rest), Then(h, t), rest)
  {
    Associate(PrintArg(h), PrintArgs(t), Print(rest, SQUARES));
    LeafPrint(h, top);
    hide PrintUnits, PrintParts, PrintableParts, ToParts;
  }

  lemma LeafPrint(h: Arg, top: bool)
    requires !h.Nest? && ArgOk(h, top)
    ensures PrintPiece(ToPiece(h), SQUARES) == PrintArg(h) && PrintablePiece(ToPiece(h), SQUARES, true)
  {
    if h.Str? && h.quote == '`' {
      PartsPrint(h.body);
    }
  }

  lemma MirrorGroup(inner: Args, t: Args, rest: Pieces)
    requires Mirrors(ToPieces(inner, Nil), inner, Nil) && Mirrors(ToPieces(t, rest), t, rest)
    ensures Mirrors(ToPieces(Then(Nest('[', inner), t), rest), Then(Nest('[', inner), t), rest)
  {
    hide Printable, ToPieces;
    var body, after := ToPieces(inner, Nil), ToPieces(t, rest);
    assert PrintArgs(inner) + "" == PrintArgs(inner);
    assert PrintPiece(Group(body), SQUARES) == PrintArg(Nest('[', inner));
    assert PrintArg(Nest('[', inner)) + Print(after, SQUARES)
        == PrintArgs(Then(Nest('[', inner), t)) + Print(rest, SQUARES);
    GroupTree(inner, t, rest);
  }

  lemma GroupTree(inner: Args, t: Args, rest: Pieces)
    requires Printable(ToPieces(inner, Nil), SQUARES, true) && Printable(ToPieces(t, rest), SQUARES, true)
    ensures
      var tree := ToPieces(Then(Nest('[', inner), t), rest);
      tree == Cons(Group(ToPieces(inner, Nil)), ToPieces(t, rest)) && Printable(tree, SQUARES, true)
  {
  }

  lemma MirrorNest(open: char, inner: Args, t: Args, rest: Pieces)
    requires open == '(' || open == '{'
    requires Mirrors(ToPieces(t, rest), t, rest)
    requires
      var closed := Cons(Plain(Closer(open)), ToPieces(t, rest));
      Mirrors(ToPieces(inner, closed), inner, closed)
    ensures Mirrors(ToPieces(Then(Nest(open, inner), t), rest), Then(Nest(open, inner), t), rest)
  {
    var after := ToPieces(t, rest);
    var closed := Cons(Plain(Closer(open)), after);
    var tree := ToPieces(inner, closed);
    NestTree(open, inner, t, rest);
    NestText(open, inner, t);
    hide ToPieces, Printable, PrintArgs, Print;
    Regroup([open], PrintArgs(inner), [Closer(open)], PrintArgs(t), Print(rest, SQUARES));
  }

  lemma Regroup(a: string, b: string, c: string, d: string, e: string)
    ensures a + (b + (c + (d + e))) == a + b + c + d + e
  {
  }

  lemma NestText(open: char, inner: Args, t: Args)
    ensures PrintArgs(Then(Nest(open, inner), t)) == [open] + PrintArgs(inner) + [Closer(open)] + PrintArgs(t)
  {
  }

  lemma NestTree(open: char, inner: Args, t: Args, rest: Pieces)
    requires open == '(' || open == '{'
    ensures
      var closed := Cons(Plain(Closer(open)), ToPieces(t, rest));
      var body, tree := ToPieces(inner, closed), ToPieces(Then(Nest(open, inner), t), rest);
      && tree == Cons(Plain(open), body)
      && Print(tree, SQUARES) == [open] + Print(body, SQUARES)
      && Print(closed, SQUARES) == [Closer(open)] + Print(ToPieces(t, rest), SQUARES)
      && (Printable(body, SQUARES, true) ==> Printable(tree, SQUARES, true))
  {
  }

  // ------------------------------------------------------------------ main result

  function PrintCalls(calls: seq<Args>): seq<string> {
    seq(|calls|, k requires 0 <= k < |calls| => PrintArgs(calls[k]))
  }

  /** One argument list that reads as the calls with commas between them. */
  function Listed(calls: seq<Args>): Args {
    if calls == [] then End
    else if |calls| == 1 then calls[0]
    else Append(calls[0], Then(Char(','), Listed(calls[1..])))
  }

  function Append(a: Args, b: Args): Args {
    match a
    case End => b
    case Then(h, t) => Then(h, Append(t, b))
  }

  lemma {:induction false} AppendPrint(a: Args, b: Args)
    requires ArgsOk(a, true) && ArgsOk(b, false) && b.Then? && b.head == Char(',')
    ensures PrintArgs(Append(a, b)) == PrintArgs(a) + PrintArgs(b) && ArgsOk(Append(a, b), false)
  {
    hide ArgOk, PrintArg;
    match a
    case End =>
      assert "" + PrintArgs(b) == PrintArgs(b);
      Loosen(a);
    case Then(h, t) =>
      AppendPrint(t, b);
      Loosen(a);
      assert PrintArg(h) + (PrintArgs(t) + PrintArgs(b)) == PrintArg(h) + PrintArgs(t) + PrintArgs(b);
  }

  lemma {:induction false} Loosen(a: Args)
    requires ArgsOk(a, true)
    ensures ArgsOk(a, false)
  {
    match a
    case End =>
    case Then(h, t) => Loosen(t);
  }

  lemma {:induction false} ListedPrint(calls: seq<Args>)
    requires forall c :: c in calls ==> ArgsOk(c, true)
    ensures PrintArgs(Listed(calls)) == Join(PrintCalls(calls)) && ArgsOk(Listed(calls), false)
    decreases |calls|
  {
    if |calls| == 1 {
      Loosen(calls[0]);
    } else if |calls| > 1 {
      ListedPrint(calls[1..]);
      assert PrintCalls(calls)[1..] == PrintCalls(calls[1..]);
      AppendPrint(calls[0], Then(Char(','), Listed(calls[1..])));
    }
  }

  /**
    A printed bracket list of calls, anywhere in a text: the bracket finder stops on its closing
    bracket and splitting what lies between gives the printed calls.
   */
  lemma CallsRoundTrip(s: string, i: nat, calls: seq<Args>)
    requires forall c :: c in calls ==> ArgsOk(c, true)
    requires calls != [] ==> PrintArgs(calls[|calls| - 1]) != ""
    requires At(s, i, "[" + Join(PrintCalls(calls)) + "]")
    ensures
      var end := Find(s, i, 0, SQUARES);
      && i < end < |s|
      && Split(s[i + 1..end], TOP, "") == PrintCalls(calls)
  {
    hide Find, Split, ToPieces, PrintArgs, Print, Printable, Join, ArgsOk;
    var all, text := Listed(calls), Join(PrintCalls(calls));
    ListedPrint(calls);
    NilPrints();
    PiecesPrint(all, Nil, false);
    var tree := ToPieces(all, Nil);
    assert Print(tree, SQUARES) == text + "" == text;
    AtWrapped(s, i, "[", text, "]");
    LiteralRoundTrip(s, i, tree, SQUARES);
    CallsSeparate(calls);
    SplitOfJoin(PrintCalls(calls));
  }

  lemma NilPrints()
    ensures Print(Nil, SQUARES) == "" && Printable(Nil, SQUARES, true)
  {
  }

  lemma CallsSeparate(calls: seq<Args>)
    requires forall c :: c in calls ==> ArgsOk(c, true)
    requires calls != [] ==> PrintArgs(calls[|calls| - 1]) != ""
    ensures Separate(PrintCalls(calls))
  {
    var pieces := PrintCalls(calls);
    forall p | p in pieces ensures Clean(TOP, p) && Run(TOP, p) == TOP {
      var k :| 0 <= k < |pieces| && pieces[k] == p;
      assert calls[k] in calls;
      RunArgs(TOP, calls[k], true);
    }
  }
}
