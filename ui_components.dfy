/**
 * The webview's message formatting (ui-components.js): the HTML of a text part
 * with inline markup, the blocks a message becomes, and the status class of a
 * message.
 */
module UiComponents {
  import opened Strings
  import opened Markup
  import opened Html
  import opened CodeDetection
  import opened MessageContent
  import opened WebviewState

  // ---------------------------------------------------------------------------
  // formatTextContent
  // ---------------------------------------------------------------------------

  /** `<code class="inline-code">$1</code>`. */
  function InlineCode(t: string): string { "<code class=\"inline-code\">" + t + "</code>" }

  /** `<strong>$1</strong>`. */
  function Strong(t: string): string { "<strong>" + t + "</strong>" }

  /** `<em>$1</em>`. */
  function Emphasis(t: string): string { "<em>" + t + "</em>" }

  /** The inline markup of an escaped text: inline code, then bold, then italic. */
  function Inline(escaped: string): string {
    ReplaceDelimited(ReplaceDelimited(ReplaceDelimited(escaped, "`", InlineCode), "**", Strong), "*", Emphasis)
  }

  /**
   * `formatTextContent`: escape, apply the inline markup, turn each line feed into
   * `<br>` and wrap the whole in a paragraph.
   */
  function FormatTextContent(text: string): (html: string)
    ensures |html| >= 7 && html[..3] == "<p>" && html[|html| - 4..] == "</p>"
    ensures '\n' !in html
  {
    var body := ReplaceChar(Inline(EscapeText(text)), '\n', "<br>");
    "<p>" + body + "</p>"
  }

  /** Text with no `&`, `<`, `>`, no-break space, backtick or asterisk is only wrapped, with `<br>` for each line feed. */
  lemma PlainTextIsWrapped(text: string)
    requires forall i :: 0 <= i < |text| ==> !IsTextSpecial(text[i]) && text[i] != '`' && text[i] != '*'
    ensures FormatTextContent(text) == "<p>" + ReplaceChar(text, '\n', "<br>") + "</p>"
  {
    EscapeTextPlain(text);
    ReplaceDelimitedPlain(text, "`", InlineCode);
    ReplaceDelimitedPlain(text, "**", Strong);
    ReplaceDelimitedPlain(text, "*", Emphasis);
  }

  /**
   * The text-node escaper leaves quotes alone and no later step removes one, so an
   * apostrophe of the text reaches the paragraph raw.
   */
  lemma ApostropheStaysRaw(text: string)
    ensures '\'' in text ==> '\'' in FormatTextContent(text)
  {
    var x: char := '\'';
    EscapeTextKeepsQuotes(text);
    var e := EscapeText(text);
    TagsKeepApostrophe();
    ReplaceDelimitedKeeps(e, "`", InlineCode, x);
    var s1 := ReplaceDelimited(e, "`", InlineCode);
    ReplaceDelimitedKeeps(s1, "**", Strong, x);
    var s2 := ReplaceDelimited(s1, "**", Strong);
    ReplaceDelimitedKeeps(s2, "*", Emphasis, x);
    ReplaceCharKeeps(Inline(e), '\n', "<br>", x);
  }

  /** Each inline tag keeps the text it wraps. */
  lemma TagsKeepApostrophe()
    ensures forall t :: '\'' in t ==> '\'' in InlineCode(t)
    ensures forall t :: '\'' in t ==> '\'' in Strong(t)
    ensures forall t :: '\'' in t ==> '\'' in Emphasis(t)
  {
  }

  // ---------------------------------------------------------------------------
  // formatMessageContent
  // ---------------------------------------------------------------------------

  /**
   * What `formatMessageContent` emits for one part. A code block carries its
   * number (the counter value it took), the language escaped for the attribute
   * and for the label, and the escaped code; its random id suffix, the base64
   * copy of the code and the literal markup around it are not modelled.
   */
  datatype Block =
    | CodeBlock(number: nat, languageAttr: string, languageLabel: string, codeHtml: string)
    | TextBlock(html: string)

  function BlockOf(p: Part, number: nat): (b: Block)
    ensures b.CodeBlock? <==> p.Code?
    ensures b.CodeBlock? ==> b.number == number
  {
    match p
    case Code(language, code) => CodeBlock(number, EscapeAttr(language), EscapeText(language), EscapeText(code))
    case Text(content) => TextBlock(FormatTextContent(content))
  }

  /**
   * The blocks of `ps` when the counter starts at `first`, each part drawn by
   * `render` with its number: the count of code parts before it, plus `first`.
   */
  function BlocksOf(ps: seq<Part>, first: nat, render: (Part, nat) -> Block): (bs: seq<Block>)
    ensures |bs| == |ps|
  {
    if ps == [] then []
    else
      var init := ps[..|ps| - 1];
      BlocksOf(init, first, render) + [render(ps[|ps| - 1], first + |CodesOf(init)|)]
  }

  /** One block per part, in part order; a code part's block is numbered by the code parts before it. */
  lemma BlocksFollowParts(ps: seq<Part>, first: nat, render: (Part, nat) -> Block)
    ensures forall i :: 0 <= i < |ps| ==> BlocksOf(ps, first, render)[i] == render(ps[i], first + |CodesOf(ps[..i])|)
  {
    forall i | 0 <= i < |ps| ensures BlocksOf(ps, first, render)[i] == render(ps[i], first + |CodesOf(ps[..i])|) {
      BlockAt(ps, first, render, i);
    }
  }

  /** The block at position `i`: the part there, numbered by the code parts before it. */
  lemma {:induction false} BlockAt(ps: seq<Part>, first: nat, render: (Part, nat) -> Block, i: nat)
    requires i < |ps|
    ensures BlocksOf(ps, first, render)[i] == render(ps[i], first + |CodesOf(ps[..i])|)
    decreases |ps|
  {
    var init := ps[..|ps| - 1];
    var bs := BlocksOf(init, first, render);
    var last := render(ps[|ps| - 1], first + |CodesOf(init)|);
    assert BlocksOf(ps, first, render) == bs + [last];
    if i < |init| {
      BlockAt(init, first, render, i);
      assert (bs + [last])[i] == bs[i];
      assert init[..i] == ps[..i];
    } else {
      assert ps[..i] == init;
    }
  }

  /** A list holding, at each position, the block `BlocksOf` puts there is `BlocksOf`. */
  lemma BlocksMatch(bs: seq<Block>, ps: seq<Part>, first: nat, render: (Part, nat) -> Block)
    requires |bs| == |ps|
    requires forall k :: 0 <= k < |ps| ==> bs[k] == render(ps[k], first + |CodesOf(ps[..k])|)
    ensures bs == BlocksOf(ps, first, render)
  {
    BlocksFollowParts(ps, first, render);
  }

  /** The code parts before `j` include the one at `i < j`. */
  lemma CodesBefore(ps: seq<Part>, i: nat, j: nat)
    requires i < j <= |ps| && ps[i].Code?
    ensures |CodesOf(ps[..i])| < |CodesOf(ps[..j])|
  {
    assert ps[..j] == ps[..i] + ps[i..j];
    CodesOfAppend(ps[..i], ps[i..j]);
    assert ps[i..j] == [ps[i]] + ps[i + 1..j];
    CodesOfAppend([ps[i]], ps[i + 1..j]);
    assert CodesOf([ps[i]]) == [ps[i]] + CodesOf([]);
  }

  /** The number a part at `i` takes. */
  function NumberAt(ps: seq<Part>, i: nat, first: nat): nat
    requires i <= |ps|
  {
    first + |CodesOf(ps[..i])|
  }

  /** Code parts get distinct, increasing numbers, from `first` up to `first` plus the number of code parts. */
  lemma CodeNumbersIncrease(ps: seq<Part>, first: nat)
    ensures forall i :: 0 <= i < |ps| && ps[i].Code? ==> first <= NumberAt(ps, i, first) < first + |CodesOf(ps)|
    ensures forall i, j :: 0 <= i < j < |ps| && ps[i].Code? && ps[j].Code? ==> NumberAt(ps, i, first) < NumberAt(ps, j, first)
  {
    forall i | 0 <= i < |ps| && ps[i].Code?
      ensures first <= NumberAt(ps, i, first) < first + |CodesOf(ps)|
    {
      CodesBefore(ps, i, |ps|);
      assert ps[..|ps|] == ps;
    }
    forall i, j | 0 <= i < j < |ps| && ps[i].Code? && ps[j].Code?
      ensures NumberAt(ps, i, first) < NumberAt(ps, j, first)
    {
      CodesBefore(ps, i, j);
    }
  }

  /** One more part: the counter moves on exactly when it is a code part. */
  lemma CountStep(ps: seq<Part>, i: nat)
    requires i < |ps|
    ensures |CodesOf(ps[..i + 1])| == |CodesOf(ps[..i])| + if ps[i].Code? then 1 else 0
    ensures ps[..i + 1][..i] == ps[..i] && ps[..i + 1][i] == ps[i]
  {
    CodesOfAppend(ps[..i], [ps[i]]);
    assert ps[..i + 1] == ps[..i] + [ps[i]];
    assert CodesOf([ps[i]]) == (if ps[i].Code? then [ps[i]] else []) + CodesOf([]);
  }

  /** The module-level `_codeBlockCounter` and the function that advances it. */
  class MessageFormatter {
    var codeBlockCounter: nat

    constructor()
      ensures codeBlockCounter == 0
    {
      codeBlockCounter := 0;
    }

    /**
     * `formatMessageContent`: nothing for empty content; otherwise one block per
     * part of the parsed message, in order, with the counter advanced once per
     * code part.
     */
    method FormatMessageContent(content: string, m: Matcher) returns (blocks: seq<Block>)
      modifies this
      ensures content == "" ==> blocks == [] && codeBlockCounter == old(codeBlockCounter)
      ensures content != "" ==>
                blocks == BlocksOf(MessageParts(content, m), old(codeBlockCounter), BlockOf) &&
                codeBlockCounter == old(codeBlockCounter) + |CodesOf(MessageParts(content, m))|
    {
      if content == "" {
        return [];
      }
      var parts := ParseMessage(content, m);
      blocks := FormatParts(parts, BlockOf);
    }

    /**
     * The loop of `formatMessageContent`: each part drawn in turn by `render`
     * (which is `BlockOf`), code parts taking the next number.
     */
    method FormatParts(parts: seq<Part>, render: (Part, nat) -> Block) returns (blocks: seq<Block>)
      modifies this
      ensures blocks == BlocksOf(parts, old(codeBlockCounter), render)
      ensures codeBlockCounter == old(codeBlockCounter) + |CodesOf(parts)|
    {
      blocks := [];
      ghost var first := codeBlockCounter;
      for i := 0 to |parts|
        invariant |blocks| == i
        invariant forall k :: 0 <= k < i ==> blocks[k] == render(parts[k], first + |CodesOf(parts[..k])|)
        invariant codeBlockCounter == first + |CodesOf(parts[..i])|
      {
        CountStep(parts, i);
        blocks := blocks + [render(parts[i], codeBlockCounter)];
        if parts[i].Code? {
          codeBlockCounter := codeBlockCounter + 1;
        }
      }
      assert parts[..|parts|] == parts;
      BlocksMatch(blocks, parts, first, render);
    }
  }

  // ---------------------------------------------------------------------------
  // MessageComponent
  // ---------------------------------------------------------------------------

  /** The status class of a message's element. */
  function StatusClass(status: Status): (c: string)
    ensures c == "" <==> status == Settled
    ensures c != "" ==> c[0] == ' '
    ensures status == Pending ==> c == " pending"
    ensures status == Failed ==> c == " error"
  {
    match status
    case Pending => " pending"
    case Failed => " error"
    case Settled => ""
  }

  /** Different statuses get different classes, so the class tells the status. */
  lemma StatusClassDistinguishes(a: Status, b: Status)
    ensures StatusClass(a) == StatusClass(b) ==> a == b
  {
  }
}
