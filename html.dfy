/**
 * HTML escaping: `escapeHtml` of MarkdownRenderer.ts, one entity per special
 * character in a single pass; `escapeHtml` of utils.js, which serializes a DOM
 * text node and so escapes only `&`, `<`, `>` and the no-break space; and
 * `escapeAttr` of utils.js, a chain of five global replacements, `&` first.
 */
module Html {
  import opened Strings

  /** The five characters both escapers replace. */
  predicate IsSpecial(c: char) {
    c == '&' || c == '<' || c == '>' || c == '"' || c == '\''
  }

  /** The replacement `escapeHtml` writes for `c` (MarkdownRenderer.ts:15-21); other characters stay. */
  function HtmlEntity(c: char): (e: string)
    ensures !IsSpecial(c) <==> e == [c]
    ensures IsSpecial(c) ==> 4 <= |e| <= 6 && e[0] == '&'
  {
    if c == '&' then "&amp;"
    else if c == '<' then "&lt;"
    else if c == '>' then "&gt;"
    else if c == '"' then "&quot;"
    else if c == '\'' then "&#039;"
    else [c]
  }

  /** `escapeHtml` (MarkdownRenderer.ts:14-23): `text.replace(/[&<>"']/g, m => map[m])`. */
  function EscapeHtml(text: string): string {
    FlatMap(text, HtmlEntity)
  }

  /** The characters the HTML serializer escapes in a text node; quotes are not among them. */
  predicate IsTextSpecial(c: char) {
    c == '&' || c == '<' || c == '>' || c == '\U{A0}'
  }

  /**
   * The replacement the HTML serializer writes for `c` inside a text node, which is
   * what `div.innerHTML` returns after `div.textContent = text` (utils.js:14-16).
   */
  function TextEntity(c: char): (e: string)
    ensures !IsTextSpecial(c) <==> e == [c]
    ensures IsTextSpecial(c) ==> 4 <= |e| <= 6 && e[0] == '&'
  {
    if c == '&' then "&amp;"
    else if c == '<' then "&lt;"
    else if c == '>' then "&gt;"
    else if c == '\U{A0}' then "&nbsp;"
    else [c]
  }

  /** `escapeHtml` of utils.js (10-17); the falsy empty text gives the empty string too. */
  function EscapeText(text: string): string {
    FlatMap(text, TextEntity)
  }

  /** The replacement the `escapeAttr` chain produces for `c` (utils.js:25-29). */
  function AttrEntity(c: char): (e: string)
    ensures !IsSpecial(c) <==> e == [c]
  {
    if c == '&' then "&amp;"
    else if c == '<' then "&lt;"
    else if c == '>' then "&gt;"
    else if c == '"' then "&quot;"
    else if c == '\'' then "&#39;"
    else [c]
  }

  /** The five replacements of `escapeAttr`, in the order it applies them. */
  function AttrChain(s: string): string {
    ReplaceChar(ReplaceChar(ReplaceChar(ReplaceChar(ReplaceChar(s, '&', "&amp;"), '<', "&lt;"), '>', "&gt;"),
                            '"', "&quot;"), '\'', "&#39;")
  }

  /** `escapeAttr` (utils.js:20-30); the empty string is the falsy text. */
  function EscapeAttr(text: string): string {
    if text == "" then "" else AttrChain(text)
  }

  /**
   * The inverse of the three escapers: each entity they write becomes its character again.
   * Anything else is copied.
   */
  function Unescape(s: string): string
    decreases |s|
  {
    if s == [] then []
    else if s[0] != '&' then [s[0]] + Unescape(s[1..])
    else if StartsWith(s, "&amp;") then "&" + Unescape(s[5..])
    else if StartsWith(s, "&lt;") then "<" + Unescape(s[4..])
    else if StartsWith(s, "&gt;") then ">" + Unescape(s[4..])
    else if StartsWith(s, "&quot;") then "\"" + Unescape(s[6..])
    else if StartsWith(s, "&#039;") then "'" + Unescape(s[6..])
    else if StartsWith(s, "&#39;") then "'" + Unescape(s[5..])
    else if StartsWith(s, "&nbsp;") then "\U{A0}" + Unescape(s[6..])
    else [s[0]] + Unescape(s[1..])
  }

  /** `escapeHtml` changes exactly the special characters: text without them comes back unchanged. */
  lemma {:induction false} EscapeHtmlPlain(s: string)
    requires forall i :: 0 <= i < |s| ==> !IsSpecial(s[i])
    ensures EscapeHtml(s) == s
  {
    if s != [] {
      EscapeHtmlPlain(s[1..]);
      assert s == [s[0]] + s[1..];
    }
  }

  /** No `<`, `>`, `"` or `'` survives `escapeHtml`. */
  lemma {:induction false} EscapeHtmlHasNoRawSpecials(s: string)
    ensures forall c :: c in EscapeHtml(s) ==> c == '&' || !IsSpecial(c)
  {
    forall x | x == '<' || x == '>' || x == '"' || x == '\'' ensures x !in EscapeHtml(s) {
      FlatMapExcludes(s, HtmlEntity, x);
    }
  }

  /** Decoding one written entity, followed by anything, gives back its character. */
  lemma UnescapeHtmlEntity(c: char, t: string)
    ensures Unescape(HtmlEntity(c) + t) == [c] + Unescape(t)
  {
    var s := HtmlEntity(c) + t;
    if c == '&' {
      UnescapeAmp(t);
    } else if c == '<' {
      UnescapeLt(t);
    } else if c == '>' {
      UnescapeGt(t);
    } else if c == '"' {
      UnescapeQuot(t);
    } else if c == '\'' {
      UnescapeApos(t);
    } else {
      UnescapePlain(c, t);
    }
  }

  lemma UnescapePlain(c: char, t: string)
    requires c != '&'
    ensures Unescape([c] + t) == [c] + Unescape(t)
  {
    assert ([c] + t)[1..] == t;
  }

  lemma UnescapeAmp(t: string)
    ensures Unescape("&amp;" + t) == "&" + Unescape(t)
  {
    var s := "&amp;" + t;
    assert s[..5] == "&amp;" && s[5..] == t;
  }

  lemma UnescapeLt(t: string)
    ensures Unescape("&lt;" + t) == "<" + Unescape(t)
  {
    var s := "&lt;" + t;
    assert !StartsWith(s, "&amp;") by { assert s[1] == 'l'; }
    assert s[..4] == "&lt;" && s[4..] == t;
  }

  lemma UnescapeGt(t: string)
    ensures Unescape("&gt;" + t) == ">" + Unescape(t)
  {
    var s := "&gt;" + t;
    assert !StartsWith(s, "&amp;") && !StartsWith(s, "&lt;") by { assert s[1] == 'g'; }
    assert s[..4] == "&gt;" && s[4..] == t;
  }

  lemma UnescapeQuot(t: string)
    ensures Unescape("&quot;" + t) == "\"" + Unescape(t)
  {
    var s := "&quot;" + t;
    assert !StartsWith(s, "&amp;") && !StartsWith(s, "&lt;") && !StartsWith(s, "&gt;") by { assert s[1] == 'q'; }
    assert s[..6] == "&quot;" && s[6..] == t;
  }

  lemma UnescapeApos(t: string)
    ensures Unescape("&#039;" + t) == "'" + Unescape(t)
  {
    var s := "&#039;" + t;
    assert !StartsWith(s, "&amp;") && !StartsWith(s, "&lt;") && !StartsWith(s, "&gt;") && !StartsWith(s, "&quot;")
      by { assert s[1] == '#'; }
    assert s[..6] == "&#039;" && s[6..] == t;
  }

  lemma UnescapeNbsp(t: string)
    ensures Unescape("&nbsp;" + t) == "\U{A0}" + Unescape(t)
  {
    var s := "&nbsp;" + t;
    assert !StartsWith(s, "&amp;") && !StartsWith(s, "&lt;") && !StartsWith(s, "&gt;") && !StartsWith(s, "&quot;")
      && !StartsWith(s, "&#039;") && !StartsWith(s, "&#39;") by { assert s[1] == 'n'; }
    assert s[..6] == "&nbsp;" && s[6..] == t;
  }

  /** Decoding undoes `escapeHtml`: no two texts escape alike and no entity is escaped twice. */
  lemma {:induction false} EscapeHtmlRoundTrip(s: string)
    ensures Unescape(EscapeHtml(s)) == s
  {
    if s != [] {
      EscapeHtmlRoundTrip(s[1..]);
      UnescapeHtmlEntity(s[0], EscapeHtml(s[1..]));
      assert s == [s[0]] + s[1..];
    }
  }

  /** `ReplaceChar` works piecewise. */
  lemma {:induction false} ReplaceCharAppend(a: string, b: string, c: char, rep: string)
    ensures ReplaceChar(a + b, c, rep) == ReplaceChar(a, c, rep) + ReplaceChar(b, c, rep)
  {
    if a != [] {
      var h := if a[0] == c then rep else [a[0]];
      assert (a + b)[0] == a[0] && (a + b)[1..] == a[1..] + b;
      assert ReplaceChar(a + b, c, rep) == h + ReplaceChar(a[1..] + b, c, rep);
      ReplaceCharAppend(a[1..], b, c, rep);
      assert ReplaceChar(a, c, rep) == h + ReplaceChar(a[1..], c, rep);
      assert h + (ReplaceChar(a[1..], c, rep) + ReplaceChar(b, c, rep)) ==
             (h + ReplaceChar(a[1..], c, rep)) + ReplaceChar(b, c, rep);
    } else {
      assert a + b == b;
    }
  }

  /** The chain works piecewise. */
  lemma AttrChainAppend(a: string, b: string)
    ensures AttrChain(a + b) == AttrChain(a) + AttrChain(b)
  {
    var r1a, r1b := ReplaceChar(a, '&', "&amp;"), ReplaceChar(b, '&', "&amp;");
    ReplaceCharAppend(a, b, '&', "&amp;");
    var r2a, r2b := ReplaceChar(r1a, '<', "&lt;"), ReplaceChar(r1b, '<', "&lt;");
    ReplaceCharAppend(r1a, r1b, '<', "&lt;");
    var r3a, r3b := ReplaceChar(r2a, '>', "&gt;"), ReplaceChar(r2b, '>', "&gt;");
    ReplaceCharAppend(r2a, r2b, '>', "&gt;");
    var r4a, r4b := ReplaceChar(r3a, '"', "&quot;"), ReplaceChar(r3b, '"', "&quot;");
    ReplaceCharAppend(r3a, r3b, '"', "&quot;");
    ReplaceCharAppend(r4a, r4b, '\'', "&#39;");
  }

  lemma ReplaceCharOfChar(c: char, x: char, rep: string)
    ensures ReplaceChar([c], x, rep) == if c == x then rep else [c]
  {
    assert [c][1..] == [];
  }

  /** The last four steps keep a text without their characters. */
  lemma KeepLastFour(e: string)
    requires '<' !in e && '>' !in e && '"' !in e && '\'' !in e
    ensures ReplaceChar(ReplaceChar(ReplaceChar(ReplaceChar(e, '<', "&lt;"), '>', "&gt;"), '"', "&quot;"), '\'', "&#39;") == e
  {
  }

  lemma KeepLastThree(e: string)
    requires '>' !in e && '"' !in e && '\'' !in e
    ensures ReplaceChar(ReplaceChar(ReplaceChar(e, '>', "&gt;"), '"', "&quot;"), '\'', "&#39;") == e
  {
  }

  lemma KeepLastTwo(e: string)
    requires '"' !in e && '\'' !in e
    ensures ReplaceChar(ReplaceChar(e, '"', "&quot;"), '\'', "&#39;") == e
  {
  }

  /** On one character, the chain writes that character's entity: a later step never touches an earlier entity. */
  lemma AttrChainOfChar(c: char)
    ensures AttrChain([c]) == AttrEntity(c)
  {
    ReplaceCharOfChar(c, '&', "&amp;");
    if c == '&' {
      KeepLastFour("&amp;");
      return;
    }
    ReplaceCharOfChar(c, '<', "&lt;");
    if c == '<' {
      KeepLastThree("&lt;");
      return;
    }
    ReplaceCharOfChar(c, '>', "&gt;");
    if c == '>' {
      KeepLastTwo("&gt;");
      return;
    }
    ReplaceCharOfChar(c, '"', "&quot;");
    ReplaceCharOfChar(c, '\'', "&#39;");
    if c == '"' {
      assert '\'' !in "&quot;";
    }
  }

  /** `escapeAttr`'s chain is the single pass with `AttrEntity`: each input `&` becomes `&amp;` exactly once. */
  lemma {:induction false} EscapeAttrIsSinglePass(s: string)
    ensures AttrChain(s) == FlatMap(s, AttrEntity)
  {
    if s != [] {
      assert s == [s[0]] + s[1..];
      AttrChainAppend([s[0]], s[1..]);
      AttrChainOfChar(s[0]);
      EscapeAttrIsSinglePass(s[1..]);
    }
  }

  /** `escapeAttr` of the falsy empty text is empty; otherwise no `<`, `>`, `"` or `'` survives. */
  lemma EscapeAttrHasNoRawSpecials(s: string)
    ensures s == "" ==> EscapeAttr(s) == ""
    ensures forall c :: c in EscapeAttr(s) ==> c == '&' || !IsSpecial(c)
  {
    EscapeAttrIsSinglePass(s);
    AttrPassHasNoRawSpecials(s);
  }

  lemma AttrPassHasNoRawSpecials(s: string)
    ensures forall c :: c in FlatMap(s, AttrEntity) ==> c == '&' || !IsSpecial(c)
  {
    forall x | x == '<' || x == '>' || x == '"' || x == '\'' ensures x !in FlatMap(s, AttrEntity) {
      FlatMapExcludes(s, AttrEntity, x);
    }
  }

  lemma UnescapeAttrEntity(c: char, t: string)
    ensures Unescape(AttrEntity(c) + t) == [c] + Unescape(t)
  {
    if c == '\'' {
      var s := AttrEntity(c) + t;
      assert s[1] == '#' && s[2] == '3';
      assert !StartsWith(s, "&#039;");
      assert s[..5] == "&#39;";
      assert s[5..] == t;
    } else {
      assert AttrEntity(c) == HtmlEntity(c);
      UnescapeHtmlEntity(c, t);
    }
  }

  /** Decoding undoes `escapeAttr` too. */
  lemma {:induction false} EscapeAttrRoundTrip(s: string)
    ensures Unescape(EscapeAttr(s)) == s
  {
    EscapeAttrIsSinglePass(s);
    AttrFlatMapRoundTrip(s);
  }

  lemma {:induction false} AttrFlatMapRoundTrip(s: string)
    ensures Unescape(FlatMap(s, AttrEntity)) == s
  {
    if s != [] {
      AttrFlatMapRoundTrip(s[1..]);
      UnescapeAttrEntity(s[0], FlatMap(s[1..], AttrEntity));
      assert s == [s[0]] + s[1..];
    }
  }

  // ---------------------------------------------------------------------------
  // escapeHtml of utils.js
  // ---------------------------------------------------------------------------

  /** Text without `&`, `<`, `>` or a no-break space comes back from `escapeHtml` unchanged. */
  lemma {:induction false} EscapeTextPlain(s: string)
    requires forall i :: 0 <= i < |s| ==> !IsTextSpecial(s[i])
    ensures EscapeText(s) == s
  {
    if s != [] {
      EscapeTextPlain(s[1..]);
      assert s == [s[0]] + s[1..];
    }
  }

  /** No raw `<`, `>` or no-break space survives the text-node escaper. */
  lemma EscapeTextHasNoRawMarkup(s: string)
    ensures forall c :: c in EscapeText(s) ==> c == '&' || !IsTextSpecial(c)
  {
    forall x | x == '<' || x == '>' || x == '\U{A0}' ensures x !in EscapeText(s) {
      FlatMapExcludes(s, TextEntity, x);
    }
  }

  /** Quotes are not escaped in a text node: every `'` and `"` of the text is still there, raw. */
  lemma EscapeTextKeepsQuotes(s: string)
    ensures '\'' in s ==> '\'' in EscapeText(s)
    ensures '"' in s ==> '"' in EscapeText(s)
  {
    FlatMapKeeps(s, TextEntity, '\'');
    FlatMapKeeps(s, TextEntity, '"');
  }

  lemma UnescapeTextEntity(c: char, t: string)
    ensures Unescape(TextEntity(c) + t) == [c] + Unescape(t)
  {
    if c == '\U{A0}' {
      UnescapeNbsp(t);
    } else {
      assert TextEntity(c) == if c == '"' || c == '\'' then [c] else HtmlEntity(c);
      if c == '"' || c == '\'' {
        UnescapePlain(c, t);
      } else {
        UnescapeHtmlEntity(c, t);
      }
    }
  }

  /** Decoding undoes the text-node escaper. */
  lemma {:induction false} EscapeTextRoundTrip(s: string)
    ensures Unescape(EscapeText(s)) == s
  {
    if s != [] {
      EscapeTextRoundTrip(s[1..]);
      UnescapeTextEntity(s[0], EscapeText(s[1..]));
      assert s == [s[0]] + s[1..];
    }
  }
}
