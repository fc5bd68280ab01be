/**
  The TypeScript scanner of tools/z2m_converter_extract.py.

  The scanner jumps: over a string literal, over a template literal (whose `${...}` parts
  hold braces, strings and further templates), over a comment. The functions `StringEnd`,
  `TemplateEnd`, `ExprEnd` and `Find` say where each jump lands, and the methods are the loops
  of the source proved against them. What `Find` means is stated in LexerMeaning.dfy, against a
  one-character-at-a-time automaton that never jumps.
 */
module Lexer {

  /** The pair of characters whose nesting is counted. */
  datatype Brackets = Brackets(open: char, close: char)

  const BRACES := Brackets('{', '}')
  const SQUARES := Brackets('[', ']')

  predicate IsQuote(c: char) {
    c == '"' || c == '\''
  }

  /** Characters the scanner reacts to before it looks at brackets. */
  predicate IsSpecial(c: char) {
    IsQuote(c) || c == '`' || c == '\\' || c == '/'
  }

  predicate Sound(br: Brackets) {
    !IsSpecial(br.open) && !IsSpecial(br.close) && br.open != br.close
  }

  /** `s[i]` is `a` and `s[i + 1]` is `b`. */
  predicate Pair(s: string, i: nat, a: char, b: char) {
    i + 1 < |s| && s[i] == a && s[i + 1] == b
  }

  // ------------------------------------------------------------------ where each jump lands

  /** The closing quote of a string literal whose body starts at `i`; at least `|s|` when there is none. */
  function StringEnd(s: string, i: nat, quote: char): (r: nat)
    ensures i <= r
    ensures r < |s| ==> s[r] == quote
    decreases |s| - i
  {
    if i >= |s| then i
    else if s[i] == '\\' then StringEnd(s, i + 2, quote)
    else if s[i] == quote then i
    else StringEnd(s, i + 1, quote)
  }

  /** The closing backtick of a template literal whose body starts at `i`; at least `|s|` when there is none. */
  function TemplateEnd(s: string, i: nat): (r: nat)
    ensures i <= r
    ensures r < |s| ==> s[r] == '`'
    decreases |s| - i
  {
    if i >= |s| then i
    else if s[i] == '\\' then TemplateEnd(s, i + 2)
    else if s[i] == '`' then i
    else if Pair(s, i, '$', '{') then TemplateEnd(s, ExprEnd(s, i + 2, 1))
    else TemplateEnd(s, i + 1)
  }

  /** The brace that closes a `${` expression when `depth` braces are open at `i`; at least `|s|` when there is none. */
  function ExprEnd(s: string, i: nat, depth: nat): (r: nat)
    requires depth >= 1
    ensures i <= r
    ensures r < |s| ==> s[r] == '}'
    decreases |s| - i
  {
    if i >= |s| then i
    else if s[i] == '\\' then ExprEnd(s, i + 2, depth)
    else if s[i] == '{' then ExprEnd(s, i + 1, depth + 1)
    else if s[i] == '}' then if depth == 1 then i else ExprEnd(s, i + 1, depth - 1)
    else if IsQuote(s[i]) then ExprEnd(s, StringEnd(s, i + 1, s[i]) + 1, depth)
    else if s[i] == '`' then ExprEnd(s, TemplateEnd(s, i + 1) + 1, depth)
    else ExprEnd(s, i + 1, depth)
  }

  /** The end of line at or after `i`. */
  function LineEnd(s: string, i: nat): (r: nat)
    ensures i <= r
    ensures r < |s| ==> s[r] == '\n'
    decreases |s| - i
  {
    if i >= |s| || s[i] == '\n' then i else LineEnd(s, i + 1)
  }

  /** The first comment close at or after `i`; not followed by two characters when there is none. */
  function BlockEnd(s: string, i: nat): (r: nat)
    ensures i <= r
    ensures r + 1 < |s| ==> Pair(s, r, '*', '/')
    decreases |s| - i
  {
    if i + 1 >= |s| || Pair(s, i, '*', '/') then i else BlockEnd(s, i + 1)
  }

  /** The bracket that takes the nesting from `depth` at `i` back to zero, or -1. */
  function Find(s: string, i: nat, depth: int, br: Brackets): (r: int)
    ensures r == -1 || (i <= r < |s| && s[r] == br.close)
    decreases |s| - i
  {
    if i >= |s| then -1
    else if Pair(s, i, '/', '/') then Find(s, LineEnd(s, i + 2) + 1, depth, br)
    else if Pair(s, i, '/', '*') then Find(s, BlockEnd(s, i + 2) + 2, depth, br)
    else if s[i] == '\\' then Find(s, i + 2, depth, br)
    else if IsQuote(s[i]) then Find(s, StringEnd(s, i + 1, s[i]) + 1, depth, br)
    else if s[i] == '`' then Find(s, TemplateEnd(s, i + 1) + 1, depth, br)
    else if s[i] == br.open then Find(s, i + 1, depth + 1, br)
    else if s[i] == br.close then if depth == 1 then i else Find(s, i + 1, depth - 1, br)
    else Find(s, i + 1, depth, br)
  }

  // ------------------------------------------------------------------ the loops

  method SkipString(content: string, start: nat, quote: char) returns (i: nat)
    ensures i == StringEnd(content, start, quote)
  {
    i := start;
    while i < |content|
      invariant StringEnd(content, i, quote) == StringEnd(content, start, quote)
    {
      var c := content[i];
      if c == '\\' {
        i := i + 2;
        continue;
      }
      if c == quote {
        return;
      }
      i := i + 1;
    }
  }

  method SkipTemplateLiteral(content: string, start: nat) returns (i: nat)
    ensures i == TemplateEnd(content, start)
    decreases |content| - start, 1
  {
    i := start;
    while i < |content|
      invariant start <= i
      invariant TemplateEnd(content, i) == TemplateEnd(content, start)
      decreases |content| - i
    {
      var c := content[i];
      if c == '\\' {
        i := i + 2;
        continue;
      }
      if c == '`' {
        return;
      }
      if c == '$' && i + 1 < |content| && content[i + 1] == '{' {
        i := SkipTemplateExpression(content, i + 2);
        continue;
      }
      i := i + 1;
    }
  }

  /** The inner loop of `_skip_template_literal`; it stops on the closing brace, not after it. */
  method SkipTemplateExpression(content: string, start: nat) returns (i: nat)
    ensures i == ExprEnd(content, start, 1)
    decreases |content| - start, 0
  {
    hide TemplateEnd, StringEnd;
    i := start;
    var tmplDepth := 1;
    while i < |content| && tmplDepth > 0
      invariant start <= i && tmplDepth >= 1
      invariant ExprEnd(content, i, tmplDepth) == ExprEnd(content, start, 1)
      decreases |content| - i
    {
      var tc := content[i];
      if tc == '\\' {
        i := i + 2;
        continue;
      }
      if tc == '{' {
        tmplDepth := tmplDepth + 1;
      } else if tc == '}' {
        tmplDepth := tmplDepth - 1;
        if tmplDepth == 0 {
          break;
        }
      } else if tc == '"' || tc == '\'' {
        i := SkipString(content, i + 1, tc);
      } else if tc == '`' {
        i := SkipTemplateLiteral(content, i + 1);
      }
      i := i + 1;
    }
  }

  /** The loop that skips a line comment; it stops on the end of line, not after it. */
  method SkipLine(content: string, start: nat) returns (i: nat)
    ensures i == LineEnd(content, start)
  {
    i := start;
    while i < |content| && content[i] != '\n'
      invariant LineEnd(content, i) == LineEnd(content, start)
    {
      i := i + 1;
    }
  }

  /** The loop that skips a block comment; it stops on the closing mark, not after it. */
  method SkipBlock(content: string, start: nat) returns (i: nat)
    ensures i == BlockEnd(content, start)
  {
    i := start;
    while i < |content| - 1 && !(content[i] == '*' && content[i + 1] == '/')
      invariant BlockEnd(content, i) == BlockEnd(content, start)
    {
      i := i + 1;
    }
  }

  /** The loop shared by `find_matching_brace` and `extract_bracket_content`. */
  method FindMatching(content: string, start: nat, br: Brackets) returns (r: int)
    requires Sound(br)
    ensures r == Find(content, start, 0, br)
  {
    hide TemplateEnd, StringEnd, LineEnd, BlockEnd;
    var depth := 0;
    var i := start;
    while i < |content|
      invariant Find(content, i, depth, br) == Find(content, start, 0, br)
      decreases |content| - i
    {
      var ch := content[i];
      if ch == '/' && i + 1 < |content| {
        if content[i + 1] == '/' {
          i := SkipLine(content, i + 2);
          i := i + 1;
          continue;
        }
        if content[i + 1] == '*' {
          i := SkipBlock(content, i + 2);
          i := i + 2;
          continue;
        }
      }
      if ch == '\\' {
        i := i + 2;
        continue;
      }
      if ch == '"' || ch == '\'' {
        i := SkipString(content, i + 1, ch);
        i := i + 1;
        continue;
      }
      if ch == '`' {
        i := SkipTemplateLiteral(content, i + 1);
        i := i + 1;
        continue;
      }
      if ch == br.open {
        depth := depth + 1;
      } else if ch == br.close {
        depth := depth - 1;
        if depth == 0 {
          return i;
        }
      }
      i := i + 1;
    }
    return -1;
  }
}
