/**
 * The global regular-expression replacements that the previews and the webview's
 * text formatter apply, each written as a left-to-right scanner. A global `replace`
 * tries a match at each position in turn and, after a match, resumes just past it;
 * none of these patterns is anchored or looks behind, so recursing on the suffix
 * after a character (or after a match) scans exactly as the regular expression does.
 */
module Markup {
  import opened Wrappers
  import opened Strings

  /** `s.replace(/```[\s\S]*?```/g, "[code]")`: each fenced block, up to the next triple backtick, becomes `[code]`. */
  function CollapseFences(s: string): string
    decreases |s|
  {
    if s == [] then []
    else if StartsWith(s, "```") && IndexOf(s, "```", 3).Some? then
      "[code]" + CollapseFences(s[IndexOf(s, "```", 3).value + 3..])
    else [s[0]] + CollapseFences(s[1..])
  }

  /** A closed fence whose body holds no triple backtick collapses to one `[code]`. */
  lemma CollapseClosedFence(body: string, rest: string)
    requires forall q :: 0 <= q < |body| ==> !OccursAt(body + "```", "```", q)
    ensures CollapseFences("```" + body + "```" + rest) == "[code]" + CollapseFences(rest)
  {
    var s := "```" + body + "```" + rest;
    var k := 3 + |body|;
    assert OccursAt(s, "```", k) by { assert s[k..k + 3] == "```"; }
    forall j | 3 <= j < k ensures !OccursAt(s, "```", j) {
      assert !OccursAt(body + "```", "```", j - 3);
      assert s[j..j + 3] == (body + "```")[j - 3..j];
    }
    assert IndexOf(s, "```", 3) == Some(k);
    assert s[k + 3..] == rest;
  }

  /**
   * `s.replace(/D([^c]+)D/g, f)` for a delimiter D made of the character c = D[0]
   * repeated (`` ` ``, `*`, `**`): D, a non-empty run without c, then D again.
   */
  function ReplaceDelimited(s: string, d: string, f: string -> string): string
    requires d != []
    decreases |s|
  {
    if s == [] then []
    else if StartsWith(s, d) && IndexOfChar(s, d[0], |d|).Some?
            && IndexOfChar(s, d[0], |d|).value > |d|
            && OccursAt(s, d, IndexOfChar(s, d[0], |d|).value) then
      var j := IndexOfChar(s, d[0], |d|).value;
      f(s[|d|..j]) + ReplaceDelimited(s[j + |d|..], d, f)
    else [s[0]] + ReplaceDelimited(s[1..], d, f)
  }

  /** Text without the delimiter's character passes through untouched. */
  lemma {:induction false} ReplaceDelimitedPlain(s: string, d: string, f: string -> string)
    requires d != [] && d[0] !in s
    ensures ReplaceDelimited(s, d, f) == s
  {
    if s != [] {
      assert !StartsWith(s, d) by { assert s[0] != d[0]; }
      ReplaceDelimitedPlain(s[1..], d, f);
    }
  }

  /** Replacements that never produce `x` keep `x` out of the result when `s` has none. */
  lemma {:induction false} ReplaceDelimitedExcludes(s: string, d: string, f: string -> string, x: char)
    requires d != [] && x !in s
    requires forall t :: x !in t ==> x !in f(t)
    ensures x !in ReplaceDelimited(s, d, f)
    decreases |s|
  {
    if s != [] {
      if StartsWith(s, d) && IndexOfChar(s, d[0], |d|).Some?
         && IndexOfChar(s, d[0], |d|).value > |d|
         && OccursAt(s, d, IndexOfChar(s, d[0], |d|).value) {
        var j := IndexOfChar(s, d[0], |d|).value;
        assert x !in s[|d|..j];
        ReplaceDelimitedExcludes(s[j + |d|..], d, f, x);
      } else {
        ReplaceDelimitedExcludes(s[1..], d, f, x);
      }
    }
  }

  /** A character outside the delimiter that every replacement keeps is kept wherever it occurs. */
  lemma {:induction false} ReplaceDelimitedKeeps(s: string, d: string, f: string -> string, x: char)
    requires d != [] && x !in d
    requires forall t :: x in t ==> x in f(t)
    ensures x in s ==> x in ReplaceDelimited(s, d, f)
    decreases |s|
  {
    if s != [] && x in s {
      if StartsWith(s, d) && IndexOfChar(s, d[0], |d|).Some?
         && IndexOfChar(s, d[0], |d|).value > |d|
         && OccursAt(s, d, IndexOfChar(s, d[0], |d|).value) {
        var j := IndexOfChar(s, d[0], |d|).value;
        var rest := ReplaceDelimited(s[j + |d|..], d, f);
        assert ReplaceDelimited(s, d, f) == f(s[|d|..j]) + rest;
        OutsideDelimiters(s, d, j, x);
        if x in s[j + |d|..] {
          ReplaceDelimitedKeeps(s[j + |d|..], d, f, x);
          assert x in rest;
        } else {
          assert x in f(s[|d|..j]);
        }
      } else {
        var rest := ReplaceDelimited(s[1..], d, f);
        assert ReplaceDelimited(s, d, f) == [s[0]] + rest;
        if s[0] != x {
          assert x in s[1..];
          ReplaceDelimitedKeeps(s[1..], d, f, x);
        }
      }
    }
  }

  /** A character not in the delimiter lies between the two delimiters or after the second. */
  lemma OutsideDelimiters(s: string, d: string, j: nat, x: char)
    requires StartsWith(s, d) && OccursAt(s, d, j) && |d| <= j
    requires x !in d && x in s
    ensures x in s[|d|..j] || x in s[j + |d|..]
  {
    var k :| 0 <= k < |s| && s[k] == x;
    if |d| <= k < j {
      assert s[|d|..j][k - |d|] == x;
    } else if j + |d| <= k {
      assert s[j + |d|..][k - j - |d|] == x;
    } else {
      assert false;
    }
  }

  /** `s.replace(/\[([^\]]+)\]\([^)]+\)/g, "$1")`: a markdown link `[label](target)` becomes its label. */
  function StripLinks(s: string): string
    decreases |s|
  {
    if s == [] then []
    else if s[0] == '[' && IndexOfChar(s, ']', 1).Some? && IndexOfChar(s, ']', 1).value > 1 then
      var j := IndexOfChar(s, ']', 1).value;
      if j + 1 < |s| && s[j + 1] == '(' && IndexOfChar(s, ')', j + 2).Some?
         && IndexOfChar(s, ')', j + 2).value > j + 2 then
        s[1..j] + StripLinks(s[IndexOfChar(s, ')', j + 2).value + 1..])
      else [s[0]] + StripLinks(s[1..])
    else [s[0]] + StripLinks(s[1..])
  }

  /** The end of the run of `c` that starts at `from`. */
  function RunEnd(s: string, c: char, from: nat): (r: nat)
    requires from <= |s|
    decreases |s| - from
    ensures from <= r <= |s|
    ensures forall i :: from <= i < r ==> s[i] == c
    ensures r == |s| || s[r] != c
  {
    if from < |s| && s[from] == c then RunEnd(s, c, from + 1) else from
  }

  /** `s.replace(/#+\s/g, "")`: a run of `#` followed by one white-space character is deleted. */
  function StripHeadingMarks(s: string): string
    decreases |s|
  {
    if s == [] then []
    else if s[0] == '#' && RunEnd(s, '#', 0) < |s| && IsSpace(s[RunEnd(s, '#', 0)]) then
      StripHeadingMarks(s[RunEnd(s, '#', 0) + 1..])
    else [s[0]] + StripHeadingMarks(s[1..])
  }
}
