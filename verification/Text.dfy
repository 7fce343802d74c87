/** The string operations that the components share. */
module Text {
  import opened Sequences

  /** What `str.strip` and `str.split` take for white space. */
  predicate IsSpace(c: char) {
    || c == ' ' || '\t' <= c <= '\r' || '\U{1c}' <= c <= '\U{1f}' || c == '\U{85}' || c == '\U{a0}' || c == '\U{1680}'
    || '\U{2000}' <= c <= '\U{200a}' || c == '\U{2028}' || c == '\U{2029}' || c == '\U{202f}' || c == '\U{205f}' || c == '\U{3000}'
  }

  function TrimLeft(s: string): string {
    if s != [] && IsSpace(s[0]) then TrimLeft(s[1..]) else s
  }

  function TrimRight(s: string): string {
    if s != [] && IsSpace(s[|s| - 1]) then TrimRight(s[..|s| - 1]) else s
  }

  /** Python's `str.strip()`. */
  function Strip(s: string): string { TrimRight(TrimLeft(s)) }

  /** Lower case of the ASCII letters. No other single letter becomes one of those in the words that the
      code compares lowered text with. */
  function LowerChar(c: char): char {
    if 'A' <= c <= 'Z' then (c as int + 32) as char else c
  }

  function Lower(s: string): string { Map(LowerChar, s) }

  /** The characters for which `str.isspace` holds. */
  lemma SpaceIff(c: char)
    ensures IsSpace(c) <==> c in {
      '\t', '\n', '\U{b}', '\U{c}', '\r', '\U{1c}', '\U{1d}', '\U{1e}', '\U{1f}', ' ', '\U{85}', '\U{a0}', '\U{1680}',
      '\U{2000}', '\U{2001}', '\U{2002}', '\U{2003}', '\U{2004}', '\U{2005}', '\U{2006}', '\U{2007}', '\U{2008}', '\U{2009}',
      '\U{200a}', '\U{2028}', '\U{2029}', '\U{202f}', '\U{205f}', '\U{3000}'}
  {
  }

  predicate Blank(s: string) { forall k :: 0 <= k < |s| ==> IsSpace(s[k]) }

  /** Nothing to strip at either end. */
  predicate Trim(s: string) { s != "" ==> !IsSpace(s[0]) && !IsSpace(s[|s| - 1]) }

  lemma {:induction false} TrimLeftCuts(s: string) returns (before: string)
    ensures s == before + TrimLeft(s) && Blank(before) && (TrimLeft(s) != "" ==> !IsSpace(TrimLeft(s)[0]))
  {
    before := [];
    if s != [] && IsSpace(s[0]) {
      before := TrimLeftCuts(s[1..]);
      before := [s[0]] + before;
    }
  }

  lemma {:induction false} TrimRightCuts(s: string) returns (after: string)
    ensures s == TrimRight(s) + after && Blank(after) && (TrimRight(s) != "" ==> !IsSpace(TrimRight(s)[|TrimRight(s)| - 1]))
  {
    after := [];
    if s != [] && IsSpace(s[|s| - 1]) {
      after := TrimRightCuts(s[..|s| - 1]);
      after := after + [s[|s| - 1]];
    }
  }

  lemma {:induction false} TrimLeftOf(before: string, s: string)
    requires Blank(before) && (s != "" ==> !IsSpace(s[0]))
    ensures TrimLeft(before + s) == s
  {
    if before == [] {
      assert before + s == s;
    } else {
      assert (before + s)[1..] == before[1..] + s;
      TrimLeftOf(before[1..], s);
    }
  }

  /** What TrimRight does to the end does not reach past a character that is no space. */
  lemma {:induction false} TrimRightOf(s: string, after: string)
    requires s != "" ==> !IsSpace(s[|s| - 1])
    ensures TrimRight(s + after) == s + TrimRight(after)
    decreases |after|
  {
    if after == [] {
      assert s + after == s;
    } else if IsSpace(after[|after| - 1]) {
      assert (s + after)[..|s + after| - 1] == s + after[..|after| - 1];
      TrimRightOf(s, after[..|after| - 1]);
    }
  }

  lemma {:induction false} TrimRightOfBlank(s: string)
    requires Blank(s)
    ensures TrimRight(s) == ""
  {
    if s != [] { TrimRightOfBlank(s[..|s| - 1]); }
  }

  /** Stripping takes the white space off both ends and nothing else. */
  lemma StripIff(s: string, x: string)
    ensures Strip(s) == x <==> Trim(x) && exists before, after :: s == before + x + after && Blank(before) && Blank(after)
  {
    hide TrimLeft, TrimRight;
    if Strip(s) == x {
      var before := TrimLeftCuts(s);
      var after := TrimRightCuts(TrimLeft(s));
      assert s == before + x + after;
      assert x != "" ==> x[0] == TrimLeft(s)[0];
    }
    if before, after :| s == before + x + after && Blank(before) && Blank(after) && Trim(x) {
      StripOf(before, x, after);
    }
  }

  lemma StripOf(before: string, x: string, after: string)
    requires Trim(x) && Blank(before) && Blank(after)
    ensures Strip(before + x + after) == x
  {
    TrimRightOfBlank(after);
    if x == "" {
      assert before + x + after == (before + after) + "";
      TrimLeftOf(before + after, "");
      assert TrimRight("") == "";
    } else {
      assert before + x + after == before + (x + after);
      TrimLeftOf(before, x + after);
      TrimRightOf(x, after);
    }
  }

  /** Lower case changes the capital letters A to Z, each into the letter at the same place of the alphabet. */
  lemma LowerFacts(s: string, k: nat)
    requires k < |s|
    ensures |Lower(s)| == |s|
    ensures 'A' <= s[k] <= 'Z' ==> Lower(s)[k] as int - 'a' as int == s[k] as int - 'A' as int
    ensures !('A' <= s[k] <= 'Z') ==> Lower(s)[k] == s[k]
  {
  }
}
