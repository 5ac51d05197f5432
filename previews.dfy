/**
 * One-line previews and avatar initials: `getPreview` and `getInitials` of the
 * webview's utils.js and of MarkdownRenderer.ts.
 */
module Previews {
  import opened Wrappers
  import opened Strings
  import opened Markup

  // ---------------------------------------------------------------------------
  // getInitials
  // ---------------------------------------------------------------------------

  /** A character of `[\s_-]`. */
  predicate IsNameSeparator(c: char) {
    IsSpace(c) || c == '_' || c == '-'
  }

  /** The first separator at or after `from`. */
  function FirstSeparator(s: string, from: nat): (r: Option<nat>)
    decreases |s| - from
    ensures r.Some? ==> from <= r.value < |s| && IsNameSeparator(s[r.value])
  {
    if from >= |s| then None
    else if IsNameSeparator(s[from]) then Some(from)
    else FirstSeparator(s, from + 1)
  }

  lemma {:induction false} FirstSeparatorIsFirst(s: string, from: nat)
    decreases |s| - from
    ensures FirstSeparator(s, from).Some? ==>
              forall k :: from <= k < FirstSeparator(s, from).value ==> !IsNameSeparator(s[k])
    ensures FirstSeparator(s, from).None? ==> forall k :: from <= k < |s| ==> !IsNameSeparator(s[k])
  {
    if from < |s| && !IsNameSeparator(s[from]) {
      FirstSeparatorIsFirst(s, from + 1);
    }
  }

  /** The end of the run of separators starting at `i`: what the greedy `+` consumes. */
  function SeparatorRunEnd(s: string, i: nat): (r: nat)
    requires i <= |s|
    decreases |s| - i
    ensures i <= r <= |s|
  {
    if i < |s| && IsNameSeparator(s[i]) then SeparatorRunEnd(s, i + 1) else i
  }

  /**
   * `s.split(/[\s_-]+/)`: the pieces between runs of separators. A leading or a
   * trailing run gives an empty piece, and the empty string gives one empty piece.
   */
  function SplitWords(s: string): (ws: seq<string>)
    decreases |s|
    ensures |ws| >= 1
  {
    match FirstSeparator(s, 0)
    case None => [s]
    case Some(i) => [s[..i]] + SplitWords(s[SeparatorRunEnd(s, i)..])
  }

  /** No piece of the split holds a separator. */
  lemma {:induction false} SplitWordsHaveNoSeparator(s: string)
    decreases |s|
    ensures forall j, k :: 0 <= j < |SplitWords(s)| && 0 <= k < |SplitWords(s)[j]| ==>
              !IsNameSeparator(SplitWords(s)[j][k])
  {
    FirstSeparatorIsFirst(s, 0);
    match FirstSeparator(s, 0)
    case None =>
    case Some(i) =>
      var rest := s[SeparatorRunEnd(s, i)..];
      SplitWordsHaveNoSeparator(rest);
      assert SplitWords(s) == [s[..i]] + SplitWords(rest);
  }

  /** A name without separators is a single piece. */
  lemma SplitWithoutSeparator(s: string)
    requires forall k :: 0 <= k < |s| ==> !IsNameSeparator(s[k])
    ensures SplitWords(s) == [s]
  {
    if FirstSeparator(s, 0).Some? {
      assert false;
    }
  }

  /** `word.charAt(0).toUpperCase()`: empty for an empty piece. */
  function Initial(w: string): (r: string)
    ensures |r| <= 1
    ensures w != [] ==> r == [UpperChar(w[0])]
  {
    if w == [] then [] else [UpperChar(w[0])]
  }

  /** `.map(...).slice(0, 2).join('')`. */
  function InitialsOf(ws: seq<string>): string {
    if ws == [] then []
    else if |ws| == 1 then Initial(ws[0])
    else Initial(ws[0]) + Initial(ws[1])
  }

  /** `getInitials` of MarkdownRenderer.ts (lines 83-89). */
  function InitialsMd(username: string): string {
    InitialsOf(SplitWords(username))
  }

  /** `getInitials` of utils.js (lines 54-63): a falsy (empty) name gives `?`. */
  function Initials(name: string): string {
    if name == "" then "?" else InitialsOf(SplitWords(name))
  }

  /** `c` is the upper-cased first character of one of the first two pieces. */
  predicate IsInitialOf(ws: seq<string>, c: char) {
    exists j :: 0 <= j < 2 && j < |ws| && ws[j] != [] && c == UpperChar(ws[j][0])
  }

  /**
   * At most two characters, each the upper-cased first character of one of the
   * first two pieces; an empty piece contributes nothing.
   */
  lemma InitialsShape(username: string)
    ensures |InitialsMd(username)| <= 2
    ensures forall k :: 0 <= k < |InitialsMd(username)| ==> !IsLowerLetter(InitialsMd(username)[k])
    ensures forall k :: 0 <= k < |InitialsMd(username)| ==> IsInitialOf(SplitWords(username), InitialsMd(username)[k])
  {
    var ws := SplitWords(username);
    var r := InitialsMd(username);
    forall k | 0 <= k < |r| ensures IsInitialOf(ws, r[k]) {
      if k == 0 && ws[0] != [] {
        assert r[k] == UpperChar(ws[0][0]);
      } else {
        assert |ws| >= 2 && ws[1] != [] && r[k] == UpperChar(ws[1][0]);
      }
    }
  }

  /** The webview's version differs only on the empty name. */
  lemma InitialsAgree(name: string)
    ensures name == "" ==> Initials(name) == "?"
    ensures name != "" ==> Initials(name) == InitialsMd(name)
    ensures InitialsMd("") == ""
  {
    assert FirstSeparator("", 0).None?;
  }

  /** A single word gives its own first letter, upper-cased. */
  lemma InitialsOfOneWord(name: string)
    requires name != [] && forall k :: 0 <= k < |name| ==> !IsNameSeparator(name[k])
    ensures Initials(name) == [UpperChar(name[0])]
  {
    SplitWithoutSeparator(name);
  }

  // ---------------------------------------------------------------------------
  // getPreview
  // ---------------------------------------------------------------------------

  /** `/`[^`]+`/g` replaced by `[code]`. */
  function CodeMarker(t: string): string { "[code]" }

  /** `$1`: a match replaced by its inner text. */
  function Inner(t: string): string { t }

  /** The cleaning chain of utils.js (lines 69-73). */
  function PlainPreview(content: string): (r: string)
    ensures r == [] || (!IsSpace(r[0]) && !IsSpace(r[|r| - 1]))
    ensures '\n' !in r
  {
    var s := ReplaceChar(ReplaceDelimited(CollapseFences(content), "`", CodeMarker), '\n', " ");
    TrimKeepsOnly(s);
    Trim(s)
  }

  /** `getPreview` of utils.js (lines 65-75): at most 40 characters, cut to 37 and `...`. */
  function Preview(content: string): string {
    if content == "" then ""
    else
      Cut(PlainPreview(content))
  }

  /** The 40-character limit of `getPreview`: longer text keeps 37 characters and `...`. */
  function Cut(plain: string): string {
    if |plain| > 40 then plain[..37] + "..." else plain
  }

  /** A cut never adds white space at either end or a line feed. */
  lemma CutShape(plain: string, k: nat)
    requires k <= |plain| && (plain == [] || !IsSpace(plain[0])) && '\n' !in plain
    ensures var r := plain[..k] + "..."; !IsSpace(r[0]) && !IsSpace(r[|r| - 1]) && '\n' !in r
  {
    var r := plain[..k] + "...";
    if k > 0 {
      assert r[0] == plain[0];
    }
    assert '\n' !in plain[..k];
  }

  /**
   * The preview is at most 40 characters, has no line feed and no white space at
   * either end; longer cleaned text keeps its first 37 characters and ends in `...`.
   */
  lemma PreviewShape(content: string)
    ensures content == "" ==> Preview(content) == ""
    ensures |Preview(content)| <= 40
    ensures '\n' !in Preview(content)
    ensures Preview(content) == [] || (!IsSpace(Preview(content)[0]) && !IsSpace(Preview(content)[|Preview(content)| - 1]))
    ensures content != "" && |PlainPreview(content)| > 40 ==>
              Preview(content) == PlainPreview(content)[..37] + "..."
    ensures content != "" && |PlainPreview(content)| <= 40 ==> Preview(content) == PlainPreview(content)
  {
    if content != "" {
      CutFacts(PlainPreview(content));
    }
  }

  /** `Cut` keeps the shape of cleaned text and stays within 40 characters. */
  lemma CutFacts(plain: string)
    requires plain == [] || (!IsSpace(plain[0]) && !IsSpace(plain[|plain| - 1]))
    requires '\n' !in plain
    ensures |Cut(plain)| <= 40 && '\n' !in Cut(plain)
    ensures Cut(plain) == [] || (!IsSpace(Cut(plain)[0]) && !IsSpace(Cut(plain)[|Cut(plain)| - 1]))
    ensures |plain| > 40 ==> Cut(plain) == plain[..37] + "..."
    ensures |plain| <= 40 ==> Cut(plain) == plain
  {
    if |plain| > 40 {
      CutShape(plain, 37);
    }
  }

  /** A fenced block alone previews as `[code]`. */
  lemma FencedBlockPreview(body: string)
    requires forall q :: 0 <= q < |body| ==> !OccursAt(body + "```", "```", q)
    ensures Preview("```" + body + "```") == "[code]"
  {
    FencedBlockCollapses(body);
    CollapsedPreview("```" + body + "```");
  }

  /** The fence collapses to the marker. */
  lemma FencedBlockCollapses(body: string)
    requires forall q :: 0 <= q < |body| ==> !OccursAt(body + "```", "```", q)
    ensures CollapseFences("```" + body + "```") == "[code]"
  {
    var content := "```" + body + "```";
    assert content == "```" + body + "```" + "";
    CollapseClosedFence(body, "");
    assert CollapseFences("") == "";
  }

  /** Content that collapses to the marker previews as the marker. */
  lemma CollapsedPreview(content: string)
    requires content != [] && CollapseFences(content) == "[code]"
    ensures Preview(content) == "[code]"
  {
    MarkerIsClean();
  }

  /** The marker passes the rest of the cleaning chain unchanged. */
  lemma MarkerIsClean()
    ensures Trim(ReplaceChar(ReplaceDelimited("[code]", "`", CodeMarker), '\n', " ")) == "[code]"
  {
    MarkerHasNoTicks();
    MarkerHasNoLineFeed();
    MarkerIsTrimmed();
  }

  lemma MarkerHasNoTicks()
    ensures ReplaceDelimited("[code]", "`", CodeMarker) == "[code]"
  {
    ReplaceDelimitedPlain("[code]", "`", CodeMarker);
  }

  lemma MarkerHasNoLineFeed()
    ensures ReplaceChar("[code]", '\n', " ") == "[code]"
  {
    assert '\n' !in "[code]";
  }

  lemma MarkerIsTrimmed()
    ensures Trim("[code]") == "[code]"
  {
    TrimOfTrimmed("[code]");
  }

  /** The cleaning chain of MarkdownRenderer.ts (lines 44-52). */
  function PlainPreviewMd(content: string): (r: string)
    ensures r == [] || (!IsSpace(r[0]) && !IsSpace(r[|r| - 1]))
    ensures '\n' !in r
  {
    var s1 := ReplaceDelimited(CollapseFences(content), "`", CodeMarker);
    var s2 := ReplaceDelimited(ReplaceDelimited(s1, "**", Inner), "*", Inner);
    var s := ReplaceChar(StripHeadingMarks(StripLinks(s2)), '\n', " ");
    TrimKeepsOnly(s);
    Trim(s)
  }

  /** The default `maxLength` of MarkdownRenderer's `getPreview`. */
  const DefaultPreviewLength: int := 50

  /** `substring(0, k)` on a string longer than `k`: a negative end counts as 0. */
  function Prefix(s: string, k: int): (r: string)
    requires k <= |s|
    ensures |r| == if k < 0 then 0 else k
  {
    if k < 0 then [] else s[..k]
  }

  /** The cut of MarkdownRenderer's `getPreview`, applied to the cleaned text. */
  function Shorten(plain: string, maxLength: int): string {
    if |plain| <= maxLength then plain else Prefix(plain, maxLength - 3) + "..."
  }

  /** `getPreview` of MarkdownRenderer.ts (lines 42-58). */
  function PreviewMd(content: string, maxLength: int): string {
    Shorten(PlainPreviewMd(content), maxLength)
  }

  /**
   * Text that fits is returned whole; longer text keeps its first `maxLength - 3`
   * characters and `...`, so it is exactly `maxLength` long when `maxLength` is at
   * least 3. A cut adds no line feed and no white space at either end.
   */
  lemma ShortenShape(plain: string, maxLength: int)
    requires plain == [] || (!IsSpace(plain[0]) && !IsSpace(plain[|plain| - 1]))
    requires '\n' !in plain
    ensures |plain| <= maxLength ==> Shorten(plain, maxLength) == plain
    ensures |plain| > maxLength >= 3 ==>
              Shorten(plain, maxLength) == plain[..maxLength - 3] + "..." && |Shorten(plain, maxLength)| == maxLength
    ensures '\n' !in Shorten(plain, maxLength)
    ensures Shorten(plain, maxLength) == [] ||
              (!IsSpace(Shorten(plain, maxLength)[0]) && !IsSpace(Shorten(plain, maxLength)[|Shorten(plain, maxLength)| - 1]))
  {
    if |plain| > maxLength {
      CutShape(plain, if maxLength - 3 < 0 then 0 else maxLength - 3);
    }
  }

  /** The preview of any message has no line feed and no white space at either end. */
  lemma PreviewMdShape(content: string, maxLength: int)
    ensures '\n' !in PreviewMd(content, maxLength)
    ensures PreviewMd(content, maxLength) == [] ||
              (!IsSpace(PreviewMd(content, maxLength)[0]) &&
               !IsSpace(PreviewMd(content, maxLength)[|PreviewMd(content, maxLength)| - 1]))
    ensures |PlainPreviewMd(content)| > maxLength >= 3 ==> |PreviewMd(content, maxLength)| == maxLength
  {
    ShortenShape(PlainPreviewMd(content), maxLength);
  }
}
