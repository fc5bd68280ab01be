/**
  What the bracket finder means.

  A pushdown automaton reads the text one character at a time and never jumps; its stack says
  whether a character is code, comment, string, template or template expression. The bracket
  finder of the source, which jumps, returns exactly the first closing bracket among the code
  characters at which the nesting over code characters is back to zero.
 */
module LexerMeaning {
  import opened Lexer

  datatype Frame =
    | Code
    | LineComment
    | BlockComment
    | Quoted(quote: char)
    | Template
    | Expr(depth: nat)

  datatype Stack = Bottom | Push(top: Frame, rest: Stack)

  /** `skip` marks a character already consumed by the one before it: the second of an escape or of a two-character token. */
  datatype State = State(stack: Stack, skip: bool)

  const START := State(Push(Code, Bottom), false)

  predicate CodePosition(st: State) {
    st == START
  }

  /** The state after reading `s[i]` in state `st`. */
  function Next(s: string, i: nat, st: State): State
    requires i < |s|
  {
    if st.skip then st.(skip := false)
    else if st.stack.Bottom? then st
    else
      var c, rest := s[i], st.stack.rest;
      match st.stack.top
      case Code =>
        if Pair(s, i, '/', '/') then State(Push(LineComment, st.stack), true)
        else if Pair(s, i, '/', '*') then State(Push(BlockComment, st.stack), true)
        else if c == '\\' then State(st.stack, true)
        else if IsQuote(c) then State(Push(Quoted(c), st.stack), false)
        else if c == '`' then State(Push(Template, st.stack), false)
        else st
      case LineComment =>
        if c == '\n' then State(rest, false) else st
      case BlockComment =>
        if Pair(s, i, '*', '/') then State(rest, true) else st
      case Quoted(quote) =>
        if c == '\\' then State(st.stack, true)
        else if c == quote then State(rest, false)
        else st
      case Template =>
        if c == '\\' then State(st.stack, true)
        else if c == '`' then State(rest, false)
        else if Pair(s, i, '$', '{') then State(Push(Expr(1), st.stack), true)
        else st
      case Expr(depth) =>
        if c == '\\' then State(st.stack, true)
        else if c == '{' then State(Push(Expr(depth + 1), rest), false)
        else if c == '}' then if depth <= 1 then State(rest, false) else State(Push(Expr(depth - 1), rest), false)
        else if IsQuote(c) then State(Push(Quoted(c), st.stack), false)
        else if c == '`' then State(Push(Template, st.stack), false)
        else st
  }

  // ------------------------------------------------------------------ the meaning

  /** The automaton's state in front of `s[k]` when it starts in code at `start`. */
  function StateAt(s: string, start: nat, k: nat): State
    requires start <= k <= |s|
    decreases k
  {
    if k == start then START else Next(s, k - 1, StateAt(s, start, k - 1))
  }

  predicate IsCode(s: string, start: nat, k: nat)
    requires start <= k <= |s|
  {
    CodePosition(StateAt(s, start, k))
  }

  function Weight(c: char, br: Brackets): int {
    if c == br.open then 1 else if c == br.close then -1 else 0
  }

  /** Opening minus closing brackets among the code characters of `s[start..k]`. */
  function Depth(s: string, start: nat, k: nat, br: Brackets): int
    requires start <= k <= |s|
    decreases k
  {
    if k == start then 0
    else Depth(s, start, k - 1, br) + if IsCode(s, start, k - 1) then Weight(s[k - 1], br) else 0
  }

  /** `s[k]` is a closing bracket in code, and the nesting after it is zero. */
  predicate Closes(s: string, start: nat, k: nat, br: Brackets)
    requires start <= k < |s|
  {
    IsCode(s, start, k) && s[k] == br.close && Depth(s, start, k + 1, br) == 0
  }

  // ------------------------------------------------------------------ scanning without jumps

  /** The first closing bracket at or after `i`, character by character. */
  function Scan(s: string, i: nat, st: State, depth: int, br: Brackets): int
    decreases |s| - i
  {
    if i >= |s| then -1
    else
      var after := depth + if CodePosition(st) then Weight(s[i], br) else 0;
      if CodePosition(st) && s[i] == br.close && after == 0 then i
      else Scan(s, i + 1, Next(s, i, st), after, br)
  }

  lemma {:induction false} ScanMeaning(s: string, start: nat, i: nat, br: Brackets)
    requires start <= i <= |s|
    ensures
      var r := Scan(s, i, StateAt(s, start, i), Depth(s, start, i, br), br);
      if r < 0 then
        r == -1 && forall k :: i <= k < |s| ==> !Closes(s, start, k, br)
      else
        i <= r < |s| && Closes(s, start, r, br) && forall k :: i <= k < r ==> !Closes(s, start, k, br)
    decreases |s| - i
  {
    if i < |s| {
      assert StateAt(s, start, i + 1) == Next(s, i, StateAt(s, start, i));
      ScanMeaning(s, start, i + 1, br);
    }
  }

  // ------------------------------------------------------------------ every jump lands where the automaton returns

  /** One character that carries no nesting. */
  lemma ScanStep(s: string, i: nat, st: State, depth: int, br: Brackets)
    requires i < |s|
    requires CodePosition(st) ==> Weight(s[i], br) == 0
    ensures Scan(s, i, st, depth, br) == Scan(s, i + 1, Next(s, i, st), depth, br)
  {
  }

  /** A character that also consumes the one after it; at the end of the text there may be none. */
  lemma ScanTwo(s: string, i: nat, st: State, stack: Stack, depth: int, br: Brackets)
    requires i < |s| && Next(s, i, st) == State(stack, true)
    requires CodePosition(st) ==> Weight(s[i], br) == 0
    ensures Scan(s, i, st, depth, br) == Scan(s, i + 2, State(stack, false), depth, br)
  {
    ScanStep(s, i, st, depth, br);
    if i + 1 < |s| {
      ScanStep(s, i + 1, State(stack, true), depth, br);
    }
  }

  lemma ScanPast(s: string, i: nat, st: State, depth: int, br: Brackets)
    requires i >= |s|
    ensures Scan(s, i, st, depth, br) == -1
  {
  }

  lemma {:induction false} StringJump(s: string, i: nat, quote: char, rest: Stack, depth: int, br: Brackets)
    requires rest.Push?
    ensures Scan(s, i, State(Push(Quoted(quote), rest), false), depth, br)
         == Scan(s, StringEnd(s, i, quote) + 1, State(rest, false), depth, br)
    decreases |s| - i
  {
    if i >= |s| {
    } else if s[i] == '\\' {
      StringJump(s, i + 2, quote, rest, depth, br);
    } else if s[i] != quote {
      StringJump(s, i + 1, quote, rest, depth, br);
    }
  }

  lemma {:induction false} LineJump(s: string, i: nat, rest: Stack, depth: int, br: Brackets)
    requires rest.Push?
    ensures Scan(s, i, State(Push(LineComment, rest), false), depth, br)
         == Scan(s, LineEnd(s, i) + 1, State(rest, false), depth, br)
    decreases |s| - i
  {
    if i < |s| && s[i] != '\n' {
      LineJump(s, i + 1, rest, depth, br);
    }
  }

  lemma {:induction false} BlockJump(s: string, i: nat, rest: Stack, depth: int, br: Brackets)
    requires rest.Push?
    ensures Scan(s, i, State(Push(BlockComment, rest), false), depth, br)
         == Scan(s, BlockEnd(s, i) + 2, State(rest, false), depth, br)
    decreases |s| - i
  {
    if i + 1 < |s| && !Pair(s, i, '*', '/') {
      BlockJump(s, i + 1, rest, depth, br);
    }
  }

  lemma {:induction false} TemplateJump(s: string, i: nat, rest: Stack, depth: int, br: Brackets)
    requires rest.Push?
    ensures Scan(s, i, State(Push(Template, rest), false), depth, br)
         == Scan(s, TemplateEnd(s, i) + 1, State(rest, false), depth, br)
    decreases |s| - i
  {
    hide Scan, ExprEnd;
    var inside := Push(Template, rest);
    var st := State(inside, false);
    if i >= |s| {
      ScanPast(s, i, st, depth, br);
      ScanPast(s, i + 1, State(rest, false), depth, br);
    } else if s[i] == '\\' {
      ScanTwo(s, i, st, inside, depth, br);
      TemplateJump(s, i + 2, rest, depth, br);
    } else if Pair(s, i, '$', '{') {
      var close := ExprEnd(s, i + 2, 1);
      ScanTwo(s, i, st, Push(Expr(1), inside), depth, br);
      ExprJump(s, i + 2, 1, inside, depth, br);
      // the closing brace is read again as a template character, and passed over
      if close < |s| {
        ScanStep(s, close, st, depth, br);
      } else {
        ScanPast(s, close, st, depth, br);
        ScanPast(s, close + 1, st, depth, br);
      }
      TemplateJump(s, close, rest, depth, br);
    } else {
      ScanStep(s, i, st, depth, br);
      if s[i] != '`' {
        TemplateJump(s, i + 1, rest, depth, br);
      }
    }
  }

  lemma {:induction false} ExprJump(s: string, i: nat, braces: nat, rest: Stack, depth: int, br: Brackets)
    requires braces >= 1 && rest.Push?
    ensures Scan(s, i, State(Push(Expr(braces), rest), false), depth, br)
         == Scan(s, ExprEnd(s, i, braces) + 1, State(rest, false), depth, br)
    decreases |s| - i
  {
    hide Scan, TemplateEnd, StringEnd;
    var st := State(Push(Expr(braces), rest), false);
    if i >= |s| {
      ScanPast(s, i, st, depth, br);
      ScanPast(s, i + 1, State(rest, false), depth, br);
    } else if s[i] == '\\' {
      ScanTwo(s, i, st, st.stack, depth, br);
      ExprJump(s, i + 2, braces, rest, depth, br);
    } else if IsQuote(s[i]) || s[i] == '`' {
      var again := NestedJump(s, i, braces, rest, depth, br);
      ExprJump(s, again, braces, rest, depth, br);
    } else {
      ScanStep(s, i, st, depth, br);
      if s[i] == '{' {
        ExprJump(s, i + 1, braces + 1, rest, depth, br);
      } else if s[i] != '}' {
        ExprJump(s, i + 1, braces, rest, depth, br);
      } else if braces > 1 {
        ExprJump(s, i + 1, braces - 1, rest, depth, br);
      }
    }
  }

  /** A string or template inside a template expression: the automaton is back in the expression where the jump lands. */
  lemma {:induction false} NestedJump(s: string, i: nat, braces: nat, rest: Stack, depth: int, br: Brackets)
    returns (again: nat)
    requires braces >= 1 && rest.Push?
    requires i < |s| && (IsQuote(s[i]) || s[i] == '`')
    ensures i < again && ExprEnd(s, i, braces) == ExprEnd(s, again, braces)
    ensures
      var st := State(Push(Expr(braces), rest), false);
      Scan(s, i, st, depth, br) == Scan(s, again, st, depth, br)
    decreases |s| - i, 0
  {
    hide Scan, TemplateEnd, StringEnd;
    var st := State(Push(Expr(braces), rest), false);
    ScanStep(s, i, st, depth, br);
    if s[i] == '`' {
      TemplateJump(s, i + 1, st.stack, depth, br);
      again := TemplateEnd(s, i + 1) + 1;
    } else {
      StringJump(s, i + 1, s[i], st.stack, depth, br);
      again := StringEnd(s, i + 1, s[i]) + 1;
    }
  }

  lemma {:induction false} FindIsScan(s: string, i: nat, depth: int, br: Brackets)
    requires Sound(br)
    ensures Find(s, i, depth, br) == Scan(s, i, START, depth, br)
    decreases |s| - i
  {
    hide TemplateEnd, StringEnd, LineEnd, BlockEnd;
    if i < |s| && IsSpecial(s[i]) {
      var next := SpecialJump(s, i, depth, br);
      FindIsScan(s, next, depth, br);
    } else if i < |s| {
      FindIsScan(s, i + 1, depth + Weight(s[i], br), br);
    }
  }

  /** A comment, string, template, escape or lone slash in code: finder and automaton resume together. */
  lemma SpecialJump(s: string, i: nat, depth: int, br: Brackets) returns (next: nat)
    requires Sound(br) && i < |s| && IsSpecial(s[i])
    ensures i < next
    ensures Find(s, i, depth, br) == Find(s, next, depth, br)
    ensures Scan(s, i, START, depth, br) == Scan(s, next, START, depth, br)
  {
    hide Scan, TemplateEnd, StringEnd, LineEnd, BlockEnd;
    var code := START.stack;
    if Pair(s, i, '/', '/') {
      ScanTwo(s, i, START, Push(LineComment, code), depth, br);
      LineJump(s, i + 2, code, depth, br);
      next := LineEnd(s, i + 2) + 1;
    } else if Pair(s, i, '/', '*') {
      ScanTwo(s, i, START, Push(BlockComment, code), depth, br);
      BlockJump(s, i + 2, code, depth, br);
      next := BlockEnd(s, i + 2) + 2;
    } else if s[i] == '\\' {
      ScanTwo(s, i, START, code, depth, br);
      next := i + 2;
    } else {
      ScanStep(s, i, START, depth, br);
      if IsQuote(s[i]) {
        StringJump(s, i + 1, s[i], code, depth, br);
        next := StringEnd(s, i + 1, s[i]) + 1;
      } else if s[i] == '`' {
        TemplateJump(s, i + 1, code, depth, br);
        next := TemplateEnd(s, i + 1) + 1;
      } else {
        next := i + 1;
      }
    }
  }

  // ------------------------------------------------------------------ main results

  /**
    For every text and every start: a non-negative result is the first code position whose
    closing bracket takes the nesting back to zero, and -1 means that there is none.
   */
  lemma FindIsFirstClose(s: string, start: nat, br: Brackets)
    requires Sound(br) && start <= |s|
    ensures
      var r := Find(s, start, 0, br);
      if r < 0 then
        forall k :: start <= k < |s| ==> !Closes(s, start, k, br)
      else
        start <= r < |s| && Closes(s, start, r, br) && forall k :: start <= k < r ==> !Closes(s, start, k, br)
  {
    FindIsScan(s, start, 0, br);
    ScanMeaning(s, start, start, br);
  }

  lemma {:induction false} DepthPositive(s: string, start: nat, k: nat, end: nat, br: Brackets)
    requires Sound(br) && start < k <= end < |s| && s[start] == br.open
    requires forall j :: start <= j < end ==> !Closes(s, start, j, br)
    ensures Depth(s, start, k, br) >= 1
    decreases k
  {
    if k == start + 1 {
      assert Depth(s, start, start, br) == 0;
    } else {
      DepthPositive(s, start, k - 1, end, br);
      assert !Closes(s, start, k - 1, br);
    }
  }

  /** From an opening bracket, the nesting stays positive up to the result: the result is where it *first* returns to zero. */
  lemma FindIsMatch(s: string, start: nat, br: Brackets)
    requires Sound(br) && start < |s| && s[start] == br.open
    ensures
      var r := Find(s, start, 0, br);
      r >= 0 ==>
        && start < r < |s| && s[r] == br.close && IsCode(s, start, r)
        && Depth(s, start, r + 1, br) == 0
        && forall k :: start < k <= r ==> Depth(s, start, k, br) >= 1
  {
    var r := Find(s, start, 0, br);
    FindIsFirstClose(s, start, br);
    if r >= 0 {
      forall k | start < k <= r ensures Depth(s, start, k, br) >= 1 {
        DepthPositive(s, start, k, r, br);
      }
    }
  }
}
