/**
  Trimming device names (`sanitise_string` of tools/merge_converter_dbs.py,
  tools/merge_z2m_extracts.py and tools/z2m_converter_extract.py).
 */
module Sanitise {
  import opened Text

  const ESCAPE := "\\u0000"  // a backslash, a `u` and four zeros

  const LIMIT := 127

  predicate Printable(c: char) {
    c >= ' ' || c == '\t'
  }

  /** Occurrences are removed from left to right; what closes up is not looked at again. */
  function RemoveEscapes(s: string): (r: string)
    ensures |r| <= |s| && (|r| == |s| ==> r == s)
  {
    if s == "" then ""
    else if ESCAPE <= s then RemoveEscapes(s[|ESCAPE|..])
    else [s[0]] + RemoveEscapes(s[1..])
  }

  function KeepPrintable(s: string): (r: string)
    ensures |r| <= |s|
    ensures AllPrintable(r)
  {
    if s == "" then ""
    else (if Printable(s[0]) then [s[0]] else []) + KeepPrintable(s[1..])
  }

  function StripLeft(s: string): (r: string)
    ensures |r| <= |s| && r == s[|s| - |r|..]
    ensures r != "" ==> !IsSpace(r[0])
  {
    if s != "" && IsSpace(s[0]) then StripLeft(s[1..]) else s
  }

  function StripRight(s: string): (r: string)
    ensures |r| <= |s| && r == s[..|r|]
    ensures r != "" ==> !IsSpace(r[|r| - 1])
  {
    if s != "" && IsSpace(s[|s| - 1]) then StripRight(s[..|s| - 1]) else s
  }

  function Sanitised(s: string): string {
    var t := StripRight(StripLeft(KeepPrintable(RemoveEscapes(s))));
    if |t| > LIMIT then StripRight(t[..LIMIT]) else t
  }

  // ------------------------------------------------------------------ what comes out

  predicate AllPrintable(s: string) {
    forall i :: 0 <= i < |s| ==> Printable(s[i])
  }

  /** Printable, of bounded length in characters, and without white space at the ends. */
  predicate IsClean(s: string) {
    && |s| <= LIMIT
    && AllPrintable(s)
    && (s != "" ==> !IsSpace(s[0]) && !IsSpace(s[|s| - 1]))
  }

  lemma LeftStripped(s: string)
    requires AllPrintable(s)
    ensures AllPrintable(StripLeft(s))
  {
    var r := StripLeft(s);
    assert forall i :: 0 <= i < |r| ==> r[i] == s[|s| - |r| + i];
  }

  lemma RightStripped(s: string)
    requires AllPrintable(s) && (s != "" ==> !IsSpace(s[0]))
    ensures var r := StripRight(s); AllPrintable(r) && (r != "" ==> !IsSpace(r[0]) && !IsSpace(r[|r| - 1]))
  {
    var r := StripRight(s);
    assert forall i :: 0 <= i < |r| ==> r[i] == s[i];
  }

  lemma SanitisedIsClean(s: string)
    ensures IsClean(Sanitised(s))
  {
    hide StripLeft, StripRight, KeepPrintable, Printable, IsSpace;
    var k := KeepPrintable(RemoveEscapes(s));
    LeftStripped(k);
    var l := StripLeft(k);
    RightStripped(l);
    var t := StripRight(l);
    if |t| > LIMIT {
      RightStripped(t[..LIMIT]);
    }
  }

  // ------------------------------------------------------------------ occurrences

  predicate HasAt(s: string, i: nat) {
    i <= |s| && ESCAPE <= s[i..]
  }

  predicate Contains(s: string) {
    exists i :: 0 <= i <= |s| && HasAt(s, i)
  }

  lemma HasAtTail(s: string, i: nat)
    requires s != ""
    ensures HasAt(s, i + 1) <==> HasAt(s[1..], i)
  {
    assert i < |s| ==> s[1..][i..] == s[i + 1..];
  }

  lemma ContainsTail(s: string)
    requires s != ""
    ensures Contains(s) <==> ESCAPE <= s || Contains(s[1..])
  {
    assert s[0..] == s;
    forall i: nat ensures HasAt(s, i + 1) <==> HasAt(s[1..], i) {
      HasAtTail(s, i);
    }
    if Contains(s) && !(ESCAPE <= s) {
      var i :| 0 <= i <= |s| && HasAt(s, i);
      assert HasAt(s[1..], i - 1);
    }
    if ESCAPE <= s {
      assert HasAt(s, 0);
    }
    if Contains(s[1..]) {
      var i :| 0 <= i <= |s[1..]| && HasAt(s[1..], i);
      assert HasAt(s, i + 1);
    }
  }

  lemma {:induction false} NothingToRemove(s: string)
    ensures RemoveEscapes(s) == s <==> !Contains(s)
    decreases |s|
  {
    if s != "" {
      ContainsTail(s);
      NothingToRemove(s[1..]);
      hide Contains;
      if !(ESCAPE <= s) {
        assert s == [s[0]] + s[1..];
        assert RemoveEscapes(s)[1..] == RemoveEscapes(s[1..]);
      }
    }
  }

  lemma {:induction false} NothingToFilter(s: string)
    requires AllPrintable(s)
    ensures KeepPrintable(s) == s
    decreases |s|
  {
    if s != "" {
      NothingToFilter(s[1..]);
      assert s == [s[0]] + s[1..];
    }
  }

  /** A name is left as it is exactly when it is clean and holds no written-out NUL. */
  lemma UnchangedExactly(s: string)
    ensures Sanitised(s) == s <==> IsClean(s) && !Contains(s)
  {
    hide IsSpace;
    SanitisedIsClean(s);
    NothingToRemove(s);
    if IsClean(s) && !Contains(s) {
      NothingToFilter(s);
    }
    assert |Sanitised(s)| <= |RemoveEscapes(s)|;
  }

  // ------------------------------------------------------------------ which names leave a written-out NUL behind

  /** Whole escapes and characters that are not printable skipped, the next characters of `s` are those of `word`. */
  predicate Spells(s: string, word: string)
    decreases |s|
  {
    if word == "" then true
    else if s == "" then false
    else if ESCAPE <= s then Spells(s[|ESCAPE|..], word)
    else if !Printable(s[0]) then Spells(s[1..], word)
    else s[0] == word[0] && Spells(s[1..], word[1..])
  }

  /**
    One pass over a name. Whole escapes, characters that are not printable and white space at the
    front are skipped, the others counted; from some character on, with six places left below
    the limit, the next ones spell an escape.
   */
  predicate LeavesEscape(s: string, kept: nat)
    decreases |s|
  {
    if s == "" then false
    else if ESCAPE <= s then LeavesEscape(s[|ESCAPE|..], kept)
    else if !Printable(s[0]) then LeavesEscape(s[1..], kept)
    else
      || (kept + |ESCAPE| <= LIMIT && Spells(s, ESCAPE))
      || LeavesEscape(s[1..], if kept == 0 && IsSpace(s[0]) then 0 else kept + 1)
  }

  function Survivors(s: string): string {
    KeepPrintable(RemoveEscapes(s))
  }

  lemma SurvivorsStep(s: string)
    requires s != ""
    ensures
      Survivors(s) ==
        if ESCAPE <= s then Survivors(s[|ESCAPE|..])
        else (if Printable(s[0]) then [s[0]] else []) + Survivors(s[1..])
  {
    if !(ESCAPE <= s) {
      assert ([s[0]] + RemoveEscapes(s[1..]))[1..] == RemoveEscapes(s[1..]);
    }
  }

  lemma {:induction false} SpellsExactly(s: string, word: string)
    ensures Spells(s, word) <==> word <= Survivors(s)
    decreases |s|
  {
    if s != "" && word != "" {
      hide Survivors, Printable;
      SurvivorsStep(s);
      if ESCAPE <= s {
        SpellsExactly(s[|ESCAPE|..], word);
      } else if !Printable(s[0]) {
        SpellsExactly(s[1..], word);
        assert [] + Survivors(s[1..]) == Survivors(s[1..]);
      } else {
        SpellsExactly(s[1..], word[1..]);
        PrefixStep(s[0], Survivors(s[1..]), word);
      }
    }
  }

  lemma PrefixStep(c: char, rest: string, word: string)
    requires word != ""
    ensures word <= [c] + rest <==> c == word[0] && word[1..] <= rest
  {
    if c == word[0] && word[1..] <= rest {
      assert word == [c] + word[1..];
    }
    if word <= [c] + rest {
      assert ([c] + rest)[1..|word|] == rest[..|word| - 1];
    }
  }

  /** The same pass over a text in which nothing is skipped but white space at the front. */
  predicate LeavesIn(k: string, kept: nat)
    decreases |k|
  {
    k != "" &&
    (|| (kept + |ESCAPE| <= LIMIT && ESCAPE <= k)
     || LeavesIn(k[1..], if kept == 0 && IsSpace(k[0]) then 0 else kept + 1))
  }

  lemma {:induction false} LeavesInSurvivors(s: string, kept: nat)
    ensures LeavesEscape(s, kept) <==> LeavesIn(Survivors(s), kept)
    decreases |s|
  {
    if s != "" {
      hide Survivors, Printable, IsSpace, Spells;
      SurvivorsStep(s);
      if ESCAPE <= s {
        LeavesInSurvivors(s[|ESCAPE|..], kept);
      } else if !Printable(s[0]) {
        LeavesInSurvivors(s[1..], kept);
        assert [] + Survivors(s[1..]) == Survivors(s[1..]);
      } else {
        SpellsExactly(s, ESCAPE);
        assert ([s[0]] + Survivors(s[1..]))[1..] == Survivors(s[1..]);
        LeavesInSurvivors(s[1..], if kept == 0 && IsSpace(s[0]) then 0 else kept + 1);
      }
    }
  }

  lemma {:induction false} LeavesInStripped(k: string)
    ensures LeavesIn(k, 0) <==> LeavesIn(StripLeft(k), 0)
    decreases |k|
  {
    if k != "" && IsSpace(k[0]) {
      LeavesInStripped(k[1..]);
      assert k[0] != ESCAPE[0];
    }
  }

  /** As much of a text as is within the limit. */
  function Within(k: string, kept: nat): string {
    if kept >= LIMIT then "" else if |k| > LIMIT - kept then k[..LIMIT - kept] else k
  }

  lemma WithinStep(k: string, kept: nat)
    requires k != "" && kept < LIMIT
    ensures Within(k, kept) != "" && Within(k, kept)[1..] == Within(k[1..], kept + 1)
    ensures ESCAPE <= Within(k, kept) <==> kept + |ESCAPE| <= LIMIT && ESCAPE <= k
  {
  }

  lemma {:induction false} LeavesInExactly(k: string, kept: nat)
    requires kept == 0 && k != "" ==> !IsSpace(k[0])
    ensures LeavesIn(k, kept) <==> Contains(Within(k, kept))
    decreases |k|
  {
    if k == "" || kept >= LIMIT {
      assert !Contains("");
      if k != "" {
        LeavesInExactly(k[1..], kept + 1);
      }
    } else {
      WithinStep(k, kept);
      ContainsTail(Within(k, kept));
      LeavesInExactly(k[1..], kept + 1);
      hide Contains, Within;
    }
  }

  /** White space at the end holds no part of an escape. */
  lemma {:induction false} ContainsStripped(s: string)
    ensures Contains(StripRight(s)) <==> Contains(s)
    decreases |s|
  {
    if s != "" && IsSpace(s[|s| - 1]) {
      var front := s[..|s| - 1];
      ContainsStripped(front);
      if Contains(s) {
        var i :| 0 <= i <= |s| && HasAt(s, i);
        var last := s[|s| - 1];
        assert s[i..][|ESCAPE| - 1] == '0';
        assert i + |ESCAPE| < |s|;
        assert front[i..] == s[i..][..|s| - 1 - i];
        assert HasAt(front, i);
      }
      PrefixContains(front, s);
    }
  }

  lemma PrefixContains(a: string, b: string)
    requires a <= b
    ensures Contains(a) ==> Contains(b)
  {
    if Contains(a) {
      var i :| 0 <= i <= |a| && HasAt(a, i);
      assert b[i..][..|a| - i] == a[i..];
      assert HasAt(b, i);
    }
  }

  /** What is stripped and cut holds an escape exactly when what is within the limit does. */
  lemma TrimmedContains(l: string)
    ensures
      var t := StripRight(l);
      Contains(if |t| > LIMIT then StripRight(t[..LIMIT]) else t) <==> Contains(Within(l, 0))
  {
    var t := StripRight(l);
    hide StripRight, Contains;
    if |t| > LIMIT {
      assert t[..LIMIT] == Within(l, 0);
      ContainsStripped(Within(l, 0));
    } else {
      ContainsStripped(l);
      PrefixContains(t, Within(l, 0));
      PrefixContains(Within(l, 0), l);
    }
  }

  /** The pass tells which names keep a written-out NUL. */
  lemma LeftBehindExactly(s: string)
    ensures Contains(Sanitised(s)) <==> LeavesEscape(s, 0)
  {
    hide Contains, LeavesIn, LeavesEscape, StripLeft, StripRight, IsSpace, Within;
    LeavesInSurvivors(s, 0);
    LeavesInStripped(Survivors(s));
    LeavesInExactly(StripLeft(Survivors(s)), 0);
    TrimmedContains(StripLeft(Survivors(s)));
  }

  /** Sanitising once more changes nothing exactly when one pass over the name spells no escape. */
  lemma IdempotentExactly(s: string)
    ensures Sanitised(Sanitised(s)) == Sanitised(s) <==> !LeavesEscape(s, 0)
  {
    hide Sanitised, Contains, LeavesEscape;
    SanitisedIsClean(s);
    UnchangedExactly(Sanitised(s));
    LeftBehindExactly(s);
  }

  lemma SkipOne(s: string)
    requires s != "" && s[0] != ESCAPE[0]
    ensures RemoveEscapes(s) == [s[0]] + RemoveEscapes(s[1..])
  {
  }

  const TWICE := "\\u0" + ESCAPE + "000"

  lemma TwiceIsOnce()
    ensures RemoveEscapes(TWICE) == ESCAPE && RemoveEscapes(ESCAPE) == ""
  {
    var s := TWICE;
    assert s[3..] == ESCAPE + "000" && s[1..][1..] == s[2..] && s[2..][1..] == s[3..];
    assert (ESCAPE + "000")[|ESCAPE|..] == "000";
    assert RemoveEscapes("000") == "000" by {
      SkipOne("000");
      SkipOne("00");
      SkipOne("0");
    }
    assert RemoveEscapes(s[3..]) == "000";
    SkipOne(s[2..]);
    SkipOne(s[1..]);
    assert s[3] != ESCAPE[3];
  }

  /** It is not idempotent: taking an escape out of the middle of another puts the other together, and the next time that one goes. */
  lemma NotIdempotent()
    ensures Sanitised(TWICE) == ESCAPE && Sanitised(ESCAPE) == ""
    ensures Sanitised(Sanitised(TWICE)) != Sanitised(TWICE)
  {
    hide Sanitised, RemoveEscapes, IsClean;
    TwiceIsOnce();
    EscapeIsClean();
    OnlyRemoved(TWICE);
    OnlyRemoved(ESCAPE);
  }

  lemma EscapeIsClean()
    ensures IsClean(ESCAPE) && IsClean("")
  {
  }

  /** Where nothing else is to be done, sanitising is removing escapes. */
  lemma OnlyRemoved(s: string)
    requires IsClean(RemoveEscapes(s))
    ensures Sanitised(s) == RemoveEscapes(s)
  {
    hide IsSpace, RemoveEscapes;
    NothingToFilter(RemoveEscapes(s));
  }

  // ------------------------------------------------------------------ what the firmware accepts

  const STRING_INTERN_MAX_LENGTH := 128

  /** Bytes of a character in UTF-8. */
  function Width(c: char): nat {
    if c < '\U{80}' then 1 else if c < '\U{800}' then 2 else if c < '\U{10000}' then 3 else 4
  }

  function Bytes(s: string): nat {
    if s == "" then 0 else Width(s[0]) + Bytes(s[1..])
  }

  /** The intern pool counts bytes. */
  predicate PoolAccepts(s: string) {
    Bytes(s) <= STRING_INTERN_MAX_LENGTH
  }

  /**
    The bytes that trimming leaves of a name, in one pass. Whole escapes and characters that are
    not printable are skipped, and white space at the front. The others count towards the limit;
    those of a run of white space are held back until a character follows within it.
   */
  function KeptBytes(s: string, kept: nat, held: nat): nat
    decreases |s|
  {
    if s == "" || kept >= LIMIT then 0
    else if ESCAPE <= s then KeptBytes(s[|ESCAPE|..], kept, held)
    else if !Printable(s[0]) then KeptBytes(s[1..], kept, held)
    else if !IsSpace(s[0]) then held + Width(s[0]) + KeptBytes(s[1..], kept + 1, 0)
    else if kept == 0 then KeptBytes(s[1..], 0, 0)
    else KeptBytes(s[1..], kept + 1, held + Width(s[0]))
  }

  /** The same pass over a text in which nothing is skipped but white space at the front. */
  function KeptIn(k: string, kept: nat, held: nat): nat
    decreases |k|
  {
    if k == "" || kept >= LIMIT then 0
    else if !IsSpace(k[0]) then held + Width(k[0]) + KeptIn(k[1..], kept + 1, 0)
    else if kept == 0 then KeptIn(k[1..], 0, 0)
    else KeptIn(k[1..], kept + 1, held + Width(k[0]))
  }

  lemma {:induction false} KeptInSurvivors(s: string, kept: nat, held: nat)
    ensures KeptBytes(s, kept, held) == KeptIn(Survivors(s), kept, held)
    decreases |s|
  {
    if s != "" && kept < LIMIT {
      hide Survivors, Printable, IsSpace, Width;
      SurvivorsStep(s);
      if ESCAPE <= s {
        KeptInSurvivors(s[|ESCAPE|..], kept, held);
      } else if !Printable(s[0]) {
        KeptInSurvivors(s[1..], kept, held);
        assert [] + Survivors(s[1..]) == Survivors(s[1..]);
      } else {
        assert ([s[0]] + Survivors(s[1..]))[1..] == Survivors(s[1..]);
        if !IsSpace(s[0]) {
          KeptInSurvivors(s[1..], kept + 1, 0);
        } else if kept == 0 {
          KeptInSurvivors(s[1..], 0, 0);
        } else {
          KeptInSurvivors(s[1..], kept + 1, held + Width(s[0]));
        }
      }
    }
  }

  lemma {:induction false} KeptInStripped(k: string)
    ensures KeptIn(k, 0, 0) == KeptIn(StripLeft(k), 0, 0)
    decreases |k|
  {
    if k != "" && IsSpace(k[0]) {
      KeptInStripped(k[1..]);
    }
  }

  lemma {:induction false} StripRightCons(c: char, s: string)
    ensures StripRight([c] + s) == if StripRight(s) == "" && IsSpace(c) then "" else [c] + StripRight(s)
    decreases |s|
  {
    hide IsSpace;
    var all := [c] + s;
    if s == "" {
      assert all[..0] == "" && all == [c];
    } else {
      var front := s[..|s| - 1];
      assert all[..|all| - 1] == [c] + front && all[|all| - 1] == s[|s| - 1];
      StripRightCons(c, front);
    }
  }

  lemma StrippedStep(k: string, kept: nat)
    requires k != "" && kept < LIMIT
    ensures
      var rest := StripRight(Within(k[1..], kept + 1));
      StripRight(Within(k, kept)) == if rest == "" && IsSpace(k[0]) then "" else [k[0]] + rest
  {
    var rest := Within(k[1..], kept + 1);
    assert Within(k, kept) == [k[0]] + rest;
    StripRightCons(k[0], rest);
  }

  lemma BytesCons(c: char, s: string)
    ensures Bytes([c] + s) == Width(c) + Bytes(s)
  {
    assert ([c] + s)[1..] == s;
  }

  /** The pass counts what is within the limit, less white space at the end. */
  lemma {:induction false} KeptInExactly(k: string, kept: nat, held: nat)
    requires kept == 0 && k != "" ==> !IsSpace(k[0])
    ensures KeptIn(k, kept, held) == var r := StripRight(Within(k, kept)); if r == "" then 0 else held + Bytes(r)
    decreases |k|
  {
    if k == "" || kept >= LIMIT {
      assert Within(k, kept) == "";
    } else {
      hide IsSpace, Width, StripRight, Within, Bytes;
      StrippedStep(k, kept);
      BytesCons(k[0], StripRight(Within(k[1..], kept + 1)));
      KeptInExactly(k[1..], kept + 1, if IsSpace(k[0]) then held + Width(k[0]) else 0);
      assert Bytes("") == 0 by { NoBytes(); }
    }
  }

  lemma NoBytes()
    ensures Bytes("") == 0
  {
  }

  /** Cutting white space off the end changes nothing that is stripped. */
  lemma {:induction false} StripRightCut(l: string, n: nat)
    requires |StripRight(l)| <= n <= |l|
    ensures StripRight(l[..n]) == StripRight(l)
    decreases |l|
  {
    if n < |l| {
      StripRightCut(l[..|l| - 1], n);
      assert l[..|l| - 1][..n] == l[..n];
    } else {
      assert l[..n] == l;
    }
  }

  lemma SanitisedIsWithin(s: string)
    ensures Sanitised(s) == StripRight(Within(StripLeft(Survivors(s)), 0))
  {
    var l := StripLeft(Survivors(s));
    var t := StripRight(l);
    hide StripLeft, StripRight, RemoveEscapes, KeepPrintable;
    if |t| > LIMIT {
      assert t[..LIMIT] == l[..LIMIT];
    } else if |l| > LIMIT {
      StripRightCut(l, LIMIT);
    }
  }

  /** What is left of a name has as many bytes as the pass counts. */
  lemma SanitisedBytes(s: string)
    ensures Bytes(Sanitised(s)) == KeptBytes(s, 0, 0)
  {
    hide StripLeft, StripRight, IsSpace, Survivors, Sanitised, KeptIn, KeptBytes, Within;
    var l := StripLeft(Survivors(s));
    KeptInSurvivors(s, 0, 0);
    KeptInStripped(Survivors(s));
    KeptInExactly(l, 0, 0);
    SanitisedIsWithin(s);
  }

  /** The pool accepts a trimmed name exactly when one pass over the name counts no more bytes than the pool takes. */
  lemma AcceptedExactly(s: string)
    ensures PoolAccepts(Sanitised(s)) <==> KeptBytes(s, 0, 0) <= STRING_INTERN_MAX_LENGTH
  {
    SanitisedBytes(s);
  }

  /** Bytes that ASCII would not need. */
  function Extra(s: string): nat {
    if s == "" then 0 else Width(s[0]) - 1 + Extra(s[1..])
  }

  lemma {:induction false} BytesAreExtra(s: string)
    ensures Bytes(s) == |s| + Extra(s)
    decreases |s|
  {
    if s != "" {
      BytesAreExtra(s[1..]);
    }
  }

  lemma {:induction false} RepeatedBytes(n: nat)
    ensures Bytes(seq(n, _ => '\U{e9}')) == 2 * n
    decreases n
  {
    var s := seq(n, _ => '\U{e9}');
    if n > 0 {
      assert s[1..] == seq(n - 1, _ => '\U{e9}');
      RepeatedBytes(n - 1);
    }
  }

  const WIDE := seq(LIMIT, _ => '\U{e9}')

  lemma WideIsLeftAlone()
    ensures Sanitised(WIDE) == WIDE
  {
    assert IsClean(WIDE);
    assert !Contains(WIDE) by {
      assert forall i :: 0 <= i < |WIDE| ==> WIDE[i..][0] != ESCAPE[0];
    }
    hide Sanitised, IsClean, Contains, WIDE;
    UnchangedExactly(WIDE);
  }

  /**
   * A name of n characters that is left as it is is accepted exactly when it has at most
   * 128 - n bytes beyond ASCII. So 127 accented letters are left alone and refused.
   */
  lemma CleanIsNotAccepted(s: string)
    ensures Sanitised(s) == s ==> (PoolAccepts(s) <==> Extra(s) <= STRING_INTERN_MAX_LENGTH - |s|)
    ensures Sanitised(WIDE) == WIDE && !PoolAccepts(WIDE)
  {
    hide Sanitised;
    BytesAreExtra(s);
    RepeatedBytes(LIMIT);
    WideIsLeftAlone();
  }
}
