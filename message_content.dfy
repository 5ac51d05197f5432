/**
 * `parseMessage` and `isCodeMessage` of MessageContent.tsx: a chat message is cut
 * into text parts and code parts at its triple-backtick fences; a message without
 * fences becomes a single code part when the heuristic says it looks like code.
 */
module MessageContent {
  import opened Wrappers
  import opened Strings
  import opened CodeDetection
  import opened JsObjects

  /** A `ContentPart`. */
  datatype Part = Text(content: string) | Code(language: string, code: string)

  /** `LANG_ALIASES` (lines 12-25). */
  const LangAliases: map<string, string> :=
    map["js" := "javascript", "ts" := "typescript", "py" := "python", "rb" := "ruby",
        "yml" := "yaml", "sh" := "bash", "zsh" := "bash", "shell" := "bash",
        "kt" := "kotlin", "rs" := "rust", "cs" := "csharp", "md" := "markdown"]

  /** No alias resolves to another alias. */
  lemma AliasTargetsAreCanonical()
    ensures forall k :: k in LangAliases ==> LangAliases[k] !in LangAliases
    ensures forall k :: k in LangAliases ==> LangAliases[k] != "" && IsLowerCase(LangAliases[k])
  {
    AliasTargetsAreNotAliases();
    AliasTargetsAreLowerCase();
  }

  lemma AliasTargetsAreNotAliases()
    ensures forall k :: k in LangAliases ==> LangAliases[k] !in LangAliases
  {
  }

  lemma AliasTargetsAreLowerCase()
    ensures forall k :: k in LangAliases ==> LangAliases[k] != "" && IsLowerCase(LangAliases[k])
  {
  }

  /**
   * The language of a fence with tag `tag` (lines 324-325), looking the alias up
   * among the table's own entries only.
   */
  function FenceLanguage(tag: string): (lang: string)
    ensures lang != "" && IsLowerCase(lang) && lang !in LangAliases
    ensures Lower(tag) in LangAliases ==> lang == LangAliases[Lower(tag)]
    ensures Lower(tag) !in LangAliases && tag != "" ==> lang == Lower(tag)
    ensures tag == "" ==> lang == "text"
  {
    var raw := Lower(tag);
    LowerIsLowerCase(tag);
    AliasTargetsAreCanonical();
    if raw in LangAliases then LangAliases[raw] else if raw != "" then raw else "text"
  }

  /** Resolving a resolved language changes nothing. */
  lemma FenceLanguageIdempotent(tag: string)
    ensures FenceLanguage(FenceLanguage(tag)) == FenceLanguage(tag)
  {
    LowerOfLowerCase(FenceLanguage(tag));
  }

  // ---------------------------------------------------------------------------
  // The fence scanner: /```(\w*)\n?([\s\S]*?)```/g
  // ---------------------------------------------------------------------------

  /** Three backticks at `p`, compared character by character. */
  predicate TicksAt(s: string, p: int) {
    0 <= p && p + 3 <= |s| && s[p] == '`' && s[p + 1] == '`' && s[p + 2] == '`'
  }

  lemma TicksAtIsOccurrence(s: string, p: int)
    ensures TicksAt(s, p) <==> OccursAt(s, "```", p)
  {
    if 0 <= p && p + 3 <= |s| {
      assert s[p..p + 3] == [s[p], s[p + 1], s[p + 2]];
    }
  }

  /** Where the greedy `\w*` starting at `i` stops. */
  function WordEnd(s: string, i: nat): (r: nat)
    requires i <= |s|
    decreases |s| - i
    ensures i <= r <= |s|
  {
    if i < |s| && IsWordChar(s[i]) then WordEnd(s, i + 1) else i
  }

  /** `\w*` takes every word character from `i` on and stops at the first other one. */
  lemma {:induction false} WordEndIsRun(s: string, i: nat)
    requires i <= |s|
    decreases |s| - i
    ensures forall k :: i <= k < WordEnd(s, i) ==> IsWordChar(s[k])
    ensures WordEnd(s, i) == |s| || !IsWordChar(s[WordEnd(s, i)])
  {
    if i < |s| && IsWordChar(s[i]) {
      WordEndIsRun(s, i + 1);
    }
  }

  /** The first closing backticks at or after `b`, as the lazy `[\s\S]*?` finds them. */
  function CloseFrom(s: string, b: nat): (q: Option<nat>)
    decreases |s| - b
    ensures q.Some? ==> b <= q.value && TicksAt(s, q.value)
  {
    if b + 3 > |s| then None
    else if TicksAt(s, b) then Some(b)
    else CloseFrom(s, b + 1)
  }

  /** No backticks come before the ones `CloseFrom` finds; `None` means there are none at all. */
  lemma {:induction false} CloseFromIsFirst(s: string, b: nat)
    decreases |s| - b
    ensures CloseFrom(s, b).Some? ==> forall j :: b <= j < CloseFrom(s, b).value ==> !TicksAt(s, j)
    ensures CloseFrom(s, b).None? ==> forall j :: b <= j ==> !TicksAt(s, j)
  {
    if b + 3 <= |s| && !TicksAt(s, b) {
      CloseFromIsFirst(s, b + 1);
    }
  }

  /** One match: where it starts and ends, the tag (group 1), the optional line feed and the body (group 2). */
  datatype Fence = Fence(start: nat, tag: string, newline: bool, body: string, end: nat)

  /** The text a match spans, rebuilt from its groups. */
  function Raw(f: Fence): string {
    "```" + f.tag + (if f.newline then "\n" else "") + f.body + "```"
  }

  /** Where the body of a match opening at `p` starts: after the tag and the optional line feed. */
  function BodyStart(s: string, p: nat): (b: nat)
    requires p + 3 <= |s|
    ensures p + 3 <= b <= |s|
  {
    var t := WordEnd(s, p + 3);
    if t < |s| && s[t] == '\n' then t + 1 else t
  }

  /**
   * The match starting exactly at `p`, if any. The tag takes every word character
   * and the line feed is taken when present: giving either back cannot help, since
   * a word character or a line feed never starts the closing backticks. The body
   * then ends at the first closing backticks, as the lazy `*?` does.
   */
  function FenceAt(s: string, p: nat): (r: Option<Fence>)
    ensures r.Some? ==> r.value.start == p && p + 6 <= r.value.end <= |s|
  {
    if !TicksAt(s, p) then None
    else
      var t := WordEnd(s, p + 3);
      var b := BodyStart(s, p);
      match CloseFrom(s, b)
      case None => None
      case Some(q) => Some(Fence(p, s[p + 3..t], b == t + 1, s[b..q], q + 3))
  }

  /** Five adjacent slices make up the slice they cover. */
  lemma SplitFive(s: string, i0: nat, i1: nat, i2: nat, i3: nat, i4: nat, i5: nat)
    requires i0 <= i1 <= i2 <= i3 <= i4 <= i5 <= |s|
    ensures s[i0..i5] == s[i0..i1] + s[i1..i2] + s[i2..i3] + s[i3..i4] + s[i4..i5]
  {
    SplitSlice(s, i0, i1, i5);
    SplitSlice(s, i1, i2, i5);
    SplitSlice(s, i2, i3, i5);
    SplitSlice(s, i3, i4, i5);
  }

  /** A match spans exactly the text its groups rebuild. */
  lemma FenceAtSpansRaw(s: string, p: nat)
    requires FenceAt(s, p).Some?
    ensures s[p..FenceAt(s, p).value.end] == Raw(FenceAt(s, p).value)
  {
    var t := WordEnd(s, p + 3);
    var b := BodyStart(s, p);
    var q := CloseFrom(s, b).value;
    SplitFive(s, p, p + 3, t, b, q, q + 3);
    assert s[t..b] == if b == t + 1 then "\n" else "";
    TicksAtIsOccurrence(s, p);
    TicksAtIsOccurrence(s, q);
  }

  /** The tag of a match is made of word characters only. */
  lemma FenceTagIsWord(s: string, p: nat)
    requires FenceAt(s, p).Some?
    ensures forall k :: 0 <= k < |FenceAt(s, p).value.tag| ==> IsWordChar(FenceAt(s, p).value.tag[k])
  {
    var t := WordEnd(s, p + 3);
    WordEndIsRun(s, p + 3);
    var tag := FenceAt(s, p).value.tag;
    assert tag == s[p + 3..t];
    assert forall k :: 0 <= k < |tag| ==> tag[k] == s[p + 3 + k];
  }

  /** The body never holds three backticks: the match closes at the first ones. */
  lemma FenceBodyIsLazy(s: string, p: nat)
    requires FenceAt(s, p).Some?
    ensures !Contains(FenceAt(s, p).value.body, "```")
  {
    var b := BodyStart(s, p);
    var q := CloseFrom(s, b).value;
    CloseFromIsFirst(s, b);
    var body := FenceAt(s, p).value.body;
    assert body == s[b..q];
    forall j | 0 <= j <= |body| ensures !OccursAt(body, "```", j) {
      TicksAtIsOccurrence(body, j);
      if j + 3 <= |body| {
        assert body[j] == s[b + j] && body[j + 1] == s[b + j + 1] && body[j + 2] == s[b + j + 2];
        assert !TicksAt(s, b + j);
      }
    }
  }

  /** Backticks cannot open inside the tag or at its line feed. */
  lemma NoBackticksBeforeBody(s: string, p: nat, q: nat)
    requires p + 3 <= |s| && p + 3 <= q < BodyStart(s, p)
    ensures !TicksAt(s, q)
  {
    WordEndIsRun(s, p + 3);
    assert s[q] != '`';
  }

  /** A match fails at `p` only when `p` does not open with backticks or no backticks follow at all. */
  lemma FenceAtFails(s: string, p: nat)
    ensures FenceAt(s, p).None? <==>
              (!OccursAt(s, "```", p) || forall q :: p + 3 <= q ==> !OccursAt(s, "```", q))
  {
    TicksAtIsOccurrence(s, p);
    if TicksAt(s, p) {
      var b := BodyStart(s, p);
      CloseFromIsFirst(s, b);
      if CloseFrom(s, b).None? {
        forall q | p + 3 <= q ensures !OccursAt(s, "```", q) {
          TicksAtIsOccurrence(s, q);
          if q < b {
            NoBackticksBeforeBody(s, p, q);
          }
        }
      } else {
        TicksAtIsOccurrence(s, CloseFrom(s, b).value);
      }
    }
  }

  /** `regex.exec` from `lastIndex = from`: the leftmost match starting at or after `from`. */
  function NextFence(s: string, from: nat): (r: Option<Fence>)
    decreases |s| - from
    ensures r.Some? ==> from <= r.value.start && r.value.start + 6 <= r.value.end <= |s|
  {
    if from >= |s| then None
    else
      match FenceAt(s, from)
      case Some(f) => Some(f)
      case None => NextFence(s, from + 1)
  }

  /**
   * What `exec` finds is a match, and no match starts between `from` and it;
   * when it finds nothing, no match starts anywhere from `from` on.
   */
  lemma {:induction false} NextFenceIsLeftmost(s: string, from: nat)
    decreases |s| - from
    ensures NextFence(s, from).Some? ==> FenceAt(s, NextFence(s, from).value.start) == NextFence(s, from)
    ensures NextFence(s, from).Some? ==>
              forall p :: from <= p < NextFence(s, from).value.start ==> FenceAt(s, p).None?
    ensures NextFence(s, from).None? ==> forall p :: from <= p ==> FenceAt(s, p).None?
  {
    if from >= |s| {
      forall p | from <= p ensures FenceAt(s, p).None? {
        NoFencePastEnd(s, p);
      }
    } else if FenceAt(s, from).Some? {
      assert NextFence(s, from) == FenceAt(s, from);
    } else {
      assert NextFence(s, from) == NextFence(s, from + 1);
      NextFenceIsLeftmost(s, from + 1);
    }
  }

  /** No match opens where three characters no longer fit. */
  lemma NoFencePastEnd(s: string, p: nat)
    requires p + 3 > |s|
    ensures FenceAt(s, p).None?
  {
    assert !TicksAt(s, p);
  }

  /** The matches are where they are, in order, without overlap, and within the text. */
  predicate WellPlaced(s: string, fs: seq<Fence>, from: nat)
    decreases |fs|
  {
    from <= |s| &&
      (|fs| == 0 || (from <= fs[0].start < fs[0].end <= |s| && WellPlaced(s, fs[1..], fs[0].end)))
  }

  /** Every match `exec` finds from `from` on, in order. */
  function Fences(s: string, from: nat): (fs: seq<Fence>)
    requires from <= |s|
    decreases |s| - from
    ensures WellPlaced(s, fs, from)
    ensures |fs| > 0 ==> NextFence(s, from) == Some(fs[0])
    ensures |fs| == 0 ==> NextFence(s, from).None?
  {
    match NextFence(s, from)
    case None => []
    case Some(f) =>
      var rest := Fences(s, f.end);
      assert ([f] + rest)[1..] == rest;
      [f] + rest
  }

  /** Each match at its place, with the gaps between matches as they are in the text. */
  function Rebuild(s: string, fs: seq<Fence>, from: nat): string
    requires WellPlaced(s, fs, from)
    decreases |fs|
  {
    if |fs| == 0 then s[from..]
    else s[from..fs[0].start] + Raw(fs[0]) + Rebuild(s, fs[1..], fs[0].end)
  }

  /** The scan loses nothing: gaps and matches put back together give the text again. */
  lemma {:induction false} FencesRebuild(s: string, from: nat)
    requires from <= |s|
    ensures Rebuild(s, Fences(s, from), from) == s[from..]
    decreases |s| - from
  {
    var fs := Fences(s, from);
    if |fs| > 0 {
      var f := fs[0];
      assert fs[1..] == Fences(s, f.end);
      NextFenceIsLeftmost(s, from);
      FenceAtSpansRaw(s, f.start);
      FencesRebuild(s, f.end);
      RebuildStep(s, fs, from);
    }
  }

  lemma RebuildStep(s: string, fs: seq<Fence>, from: nat)
    requires WellPlaced(s, fs, from) && |fs| > 0
    requires s[fs[0].start..fs[0].end] == Raw(fs[0])
    requires Rebuild(s, fs[1..], fs[0].end) == s[fs[0].end..]
    ensures Rebuild(s, fs, from) == s[from..]
  {
    var f := fs[0];
    assert s[from..] == s[from..f.start] + s[f.start..f.end] + s[f.end..];
  }

  /** Every body the scan finds is free of triple backticks. */
  lemma {:induction false} FenceBodiesAreLazy(s: string, from: nat)
    requires from <= |s|
    ensures forall i :: 0 <= i < |Fences(s, from)| ==> !Contains(Fences(s, from)[i].body, "```")
    decreases |s| - from
  {
    var fs := Fences(s, from);
    if |fs| > 0 {
      NextFenceIsLeftmost(s, from);
      FenceBodyIsLazy(s, fs[0].start);
      FenceBodiesAreLazy(s, fs[0].end);
      assert fs[1..] == Fences(s, fs[0].end);
      forall i | 0 <= i < |fs| ensures !Contains(fs[i].body, "```") {
        if i > 0 {
          assert fs[i] == fs[1..][i - 1];
        }
      }
    }
  }

  // ---------------------------------------------------------------------------
  // parseMessage
  // ---------------------------------------------------------------------------

  /** The text part for a gap; a gap of white space only gives none (lines 319-322, 330-336). */
  function GapParts(gap: string): seq<Part> {
    var text := Trim(gap);
    if text == "" then [] else [Text(text)]
  }

  /** The code part for a match (lines 323-326). */
  function CodePart(f: Fence): Part {
    Code(FenceLanguage(f.tag), f.body)
  }

  /** The parts for the matches `fs`, scanning on from `last`. */
  function FenceParts(s: string, fs: seq<Fence>, last: nat): seq<Part>
    requires WellPlaced(s, fs, last)
    decreases |fs|
  {
    if |fs| == 0 then GapParts(s[last..|s|])
    else GapParts(s[last..fs[0].start]) + [CodePart(fs[0])] + FenceParts(s, fs[1..], fs[0].end)
  }

  /** What `parseMessage` returns. */
  function MessageParts(content: string, m: Matcher): seq<Part> {
    var fs := Fences(content, 0);
    if |fs| > 0 then FenceParts(content, fs, 0)
    else if IsCodeLike(content, m) then [Code(DetectedLanguage(content, m), content)]
    else [Text(content)]
  }

  /** An empty gap gives no part. */
  lemma GapPartsOfEmpty()
    ensures GapParts("") == []
  {
  }

  /** One round of the `exec` loop: the first remaining match and what follows it. */
  lemma FencePartsStep(s: string, last: nat, f: Fence)
    requires last <= |s| && NextFence(s, last) == Some(f)
    ensures f.end <= |s|
    ensures FenceParts(s, Fences(s, last), last)
            == GapParts(s[last..f.start]) + [CodePart(f)] + FenceParts(s, Fences(s, f.end), f.end)
  {
    var fs := Fences(s, last);
    assert fs == [f] + Fences(s, f.end);
    assert fs[1..] == Fences(s, f.end);
  }

  /** A gap's text pushed when it is not blank (lines 320-323 and 331-334). */
  method PushGap(parts: seq<Part>, content: string, lastIndex: nat, start: nat) returns (r: seq<Part>)
    requires lastIndex <= start <= |content|
    ensures r == parts + GapParts(content[lastIndex..start])
  {
    r := parts;
    if start > lastIndex {
      var text := Trim(content[lastIndex..start]);
      if text != "" {
        r := r + [Text(text)];
      }
    } else {
      GapPartsOfEmpty();
    }
  }

  /** Regrouping a concatenation, written once for the loop below. */
  lemma AppendStep<T>(a: seq<T>, g: seq<T>, c: T, x: seq<T>, whole: seq<T>)
    requires a + (g + [c] + x) == whole
    ensures (a + g + [c]) + x == whole
  {
  }

  /** The `exec` loop of `parseMessage` (lines 318-328): the parts before the trailing text. */
  method ScanFences(content: string) returns (parts: seq<Part>, lastIndex: nat, hasExplicitBlocks: bool)
    ensures lastIndex <= |content|
    ensures hasExplicitBlocks <==> |Fences(content, 0)| > 0
    ensures !hasExplicitBlocks ==> parts == []
    ensures hasExplicitBlocks ==>
              parts + GapParts(content[lastIndex..|content|]) == FenceParts(content, Fences(content, 0), 0)
  {
    parts := [];
    lastIndex := 0;
    hasExplicitBlocks := false;
    var next := NextFence(content, 0);
    while next.Some?
      invariant lastIndex <= |content|
      invariant next == NextFence(content, lastIndex)
      invariant hasExplicitBlocks ==> |Fences(content, 0)| > 0
      invariant !hasExplicitBlocks ==> lastIndex == 0 && parts == []
      invariant parts + FenceParts(content, Fences(content, lastIndex), lastIndex)
                == FenceParts(content, Fences(content, 0), 0)
      decreases |content| - lastIndex
    {
      var f := next.value;
      FencePartsStep(content, lastIndex, f);
      ghost var before := parts;
      hasExplicitBlocks := true;
      parts := PushGap(parts, content, lastIndex, f.start);
      AppendStep(before, GapParts(content[lastIndex..f.start]), CodePart(f), FenceParts(content, Fences(content, f.end), f.end),
                 FenceParts(content, Fences(content, 0), 0));
      parts := parts + [Code(FenceLanguage(f.tag), f.body)];
      lastIndex := f.end;
      next := NextFence(content, lastIndex);
    }
  }

  /** `parseMessage` (lines 310-344). */
  method ParseMessage(content: string, m: Matcher) returns (parts: seq<Part>)
    ensures parts == MessageParts(content, m)
  {
    var lastIndex, hasExplicitBlocks;
    parts, lastIndex, hasExplicitBlocks := ScanFences(content);
    if hasExplicitBlocks {
      parts := PushGap(parts, content, lastIndex, |content|);
      return;
    }
    var isCode := LooksLikeCode(content, m);
    if isCode {
      var language := DetectLanguage(content, m);
      return [Code(language, content)];
    }
    return [Text(content)];
  }

  // ---------------------------------------------------------------------------
  // What the parts look like
  // ---------------------------------------------------------------------------

  /** The code parts among `ps`, in order. */
  function CodesOf(ps: seq<Part>): (cs: seq<Part>)
    ensures |cs| <= |ps|
  {
    if ps == [] then []
    else (if ps[0].Code? then [ps[0]] else []) + CodesOf(ps[1..])
  }

  lemma {:induction false} CodesOfAppend(a: seq<Part>, b: seq<Part>)
    ensures CodesOf(a + b) == CodesOf(a) + CodesOf(b)
  {
    if a == [] {
      assert a + b == b;
    } else {
      var h := if a[0].Code? then [a[0]] else [];
      assert (a + b)[0] == a[0] && (a + b)[1..] == a[1..] + b;
      assert CodesOf(a + b) == h + CodesOf(a[1..] + b);
      CodesOfAppend(a[1..], b);
      assert CodesOf(a) == h + CodesOf(a[1..]);
      assert h + (CodesOf(a[1..]) + CodesOf(b)) == (h + CodesOf(a[1..])) + CodesOf(b);
    }
  }

  /** One code part per match, in the order of the matches. */
  function FenceCodes(fs: seq<Fence>): (cs: seq<Part>)
    ensures |cs| == |fs|
  {
    if fs == [] then [] else [CodePart(fs[0])] + FenceCodes(fs[1..])
  }

  /** The `i`-th code part comes from the `i`-th match. */
  lemma {:induction false} FenceCodesAt(fs: seq<Fence>, i: nat)
    requires i < |fs|
    ensures FenceCodes(fs)[i] == CodePart(fs[i])
  {
    if i > 0 {
      FenceCodesAt(fs[1..], i - 1);
    }
  }

  /** The code parts of a fenced message are exactly its matches, in order: no match is lost or merged. */
  lemma {:induction false} FencePartsCodes(s: string, fs: seq<Fence>, last: nat)
    requires WellPlaced(s, fs, last)
    decreases |fs|
    ensures CodesOf(FenceParts(s, fs, last)) == FenceCodes(fs)
  {
    if |fs| == 0 {
      GapPartsHaveNoCode(s[last..|s|]);
    } else {
      GapPartsHaveNoCode(s[last..fs[0].start]);
      FencePartsCodes(s, fs[1..], fs[0].end);
      CodesStep(GapParts(s[last..fs[0].start]), CodePart(fs[0]), FenceParts(s, fs[1..], fs[0].end));
    }
  }

  lemma GapPartsHaveNoCode(gap: string)
    ensures CodesOf(GapParts(gap)) == []
  {
  }

  lemma CodesStep(g: seq<Part>, c: Part, rest: seq<Part>)
    requires CodesOf(g) == [] && c.Code?
    ensures CodesOf(g + [c] + rest) == [c] + CodesOf(rest)
  {
    CodesOfAppend(g + [c], rest);
    CodesOfAppend(g, [c]);
    assert CodesOf([c]) == [c] + CodesOf([]);
  }

  /** Every text part holds trimmed, non-blank text. */
  predicate TextsTrimmed(ps: seq<Part>) {
    forall i :: 0 <= i < |ps| ==> TrimmedText(ps[i])
  }

  /** A text part is non-blank and its own `trim`; a code part passes as it is. */
  predicate TrimmedText(p: Part) {
    p.Text? ==> p.content != "" && Trim(p.content) == p.content
  }

  /** No two text parts follow each other: the gaps between matches are one part each. */
  predicate NoAdjacentTexts(ps: seq<Part>) {
    forall i :: 0 <= i < |ps| - 1 ==> !(ps[i].Text? && ps[i + 1].Text?)
  }

  lemma GapPartsShape(gap: string)
    ensures |GapParts(gap)| <= 1
    ensures TextsTrimmed(GapParts(gap))
  {
    TrimIdempotent(gap);
  }

  lemma JoinKeepsApart(a: seq<Part>, c: Part, b: seq<Part>)
    requires c.Code? && |a| <= 1 && NoAdjacentTexts(b)
    ensures NoAdjacentTexts(a + [c] + b)
  {
    var r := a + [c] + b;
    forall i | 0 <= i < |r| - 1 ensures !(r[i].Text? && r[i + 1].Text?) {
      if i > |a| {
        assert r[i] == b[i - |a| - 1] && r[i + 1] == b[i - |a|];
      }
    }
  }

  lemma JoinKeepsTrimmed(a: seq<Part>, c: Part, b: seq<Part>)
    requires c.Code? && TextsTrimmed(a) && TextsTrimmed(b)
    ensures TextsTrimmed(a + [c] + b)
  {
    var r := a + [c] + b;
    forall i | 0 <= i < |r| ensures TrimmedText(r[i]) {
      if i < |a| {
        assert r[i] == a[i];
      } else if i == |a| {
        assert r[i] == c;
      } else {
        assert r[i] == b[i - |a| - 1];
      }
    }
  }

  /** The parts of a fenced message: trimmed, non-blank texts, never two texts in a row. */
  lemma {:induction false} FencePartsShape(s: string, fs: seq<Fence>, last: nat)
    requires WellPlaced(s, fs, last)
    decreases |fs|
    ensures TextsTrimmed(FenceParts(s, fs, last))
    ensures NoAdjacentTexts(FenceParts(s, fs, last))
  {
    if |fs| == 0 {
      GapPartsShape(s[last..|s|]);
    } else {
      GapPartsShape(s[last..fs[0].start]);
      FencePartsShape(s, fs[1..], fs[0].end);
      JoinKeepsTrimmed(GapParts(s[last..fs[0].start]), CodePart(fs[0]), FenceParts(s, fs[1..], fs[0].end));
      JoinKeepsApart(GapParts(s[last..fs[0].start]), CodePart(fs[0]), FenceParts(s, fs[1..], fs[0].end));
    }
  }

  /** A fenced message yields parts no fewer than its matches, and never none. */
  lemma {:induction false} FencePartsLength(s: string, fs: seq<Fence>, last: nat)
    requires WellPlaced(s, fs, last)
    ensures |FenceParts(s, fs, last)| >= |fs|
  {
    FencePartsCodes(s, fs, last);
  }

  /** The regex finds nothing exactly when no backticks are followed, further on, by other backticks. */
  lemma NoFencesIff(s: string)
    ensures |Fences(s, 0)| == 0 <==>
              forall p, q :: OccursAt(s, "```", p) && p + 3 <= q ==> !OccursAt(s, "```", q)
  {
    NextFenceIsLeftmost(s, 0);
    if |Fences(s, 0)| == 0 {
      forall p, q | OccursAt(s, "```", p) && p + 3 <= q ensures !OccursAt(s, "```", q) {
        FenceAtFails(s, p);
      }
    } else {
      var p := Fences(s, 0)[0].start;
      FenceAtFails(s, p);
    }
  }

  /** With fences in the message, the heuristic plays no part: every matcher gives the same parts. */
  lemma ExplicitFencesIgnoreHeuristic(content: string, m1: Matcher, m2: Matcher)
    requires |Fences(content, 0)| > 0
    ensures MessageParts(content, m1) == MessageParts(content, m2)
    ensures CodesOf(MessageParts(content, m1)) == FenceCodes(Fences(content, 0))
  {
    FencePartsCodes(content, Fences(content, 0), 0);
  }

  /** Without fences the message stays whole and untrimmed, as one text part or one code part. */
  lemma UnfencedMessageIsWhole(content: string, m: Matcher)
    requires |Fences(content, 0)| == 0
    ensures |MessageParts(content, m)| == 1
    ensures MessageParts(content, m)[0] == Text(content) || MessageParts(content, m)[0].code == content
    ensures MessageParts(content, m)[0].Code? <==> IsCodeLike(content, m)
  {
  }

  /** Every message gives at least one part, and the parts of a fenced one are trimmed and alternate. */
  lemma MessagePartsShape(content: string, m: Matcher)
    ensures |MessageParts(content, m)| > 0
    ensures |Fences(content, 0)| > 0 ==>
              TextsTrimmed(MessageParts(content, m)) && NoAdjacentTexts(MessageParts(content, m))
  {
    var fs := Fences(content, 0);
    if |fs| > 0 {
      FencePartsLength(content, fs, 0);
      FencePartsShape(content, fs, 0);
    }
  }

  /** An empty message is one empty text part: ten characters are the least that can look like code. */
  lemma EmptyMessage(m: Matcher)
    ensures MessageParts("", m) == [Text("")]
  {
    assert NextFence("", 0).None?;
  }

  /** `isCodeMessage` (lines 347-350): the message is a single code part. */
  function IsCodeMessage(content: string, m: Matcher): (r: bool)
    ensures r ==> |MessageParts(content, m)| == 1
  {
    var parts := MessageParts(content, m);
    |parts| == 1 && parts[0].Code?
  }

  /** Matches `fs` give a single code part exactly when there is one match with blank text around it. */
  lemma SingleFenceParts(s: string, fs: seq<Fence>)
    requires WellPlaced(s, fs, 0) && |fs| > 0
    ensures (|FenceParts(s, fs, 0)| == 1 && FenceParts(s, fs, 0)[0].Code?) <==>
              (|fs| == 1 && Trim(s[0..fs[0].start]) == "" && Trim(s[fs[0].end..|s|]) == "")
  {
    var f := fs[0];
    var g := GapParts(s[0..f.start]);
    var rest := FenceParts(s, fs[1..], f.end);
    FencePartsLength(s, fs[1..], f.end);
    assert FenceParts(s, fs, 0) == g + [CodePart(f)] + rest;
    if |fs| == 1 {
      assert rest == GapParts(s[f.end..|s|]);
    }
  }

  /**
   * A message counts as code when it is one fence with only white space around it,
   * or, without fences, when the heuristic says it looks like code.
   */
  lemma IsCodeMessageIff(content: string, m: Matcher)
    ensures |Fences(content, 0)| == 0 ==> (IsCodeMessage(content, m) <==> IsCodeLike(content, m))
    ensures |Fences(content, 0)| > 0 ==>
              (IsCodeMessage(content, m) <==>
                 |Fences(content, 0)| == 1 &&
                 Trim(content[0..Fences(content, 0)[0].start]) == "" &&
                 Trim(content[Fences(content, 0)[0].end..|content|]) == "")
  {
    var fs := Fences(content, 0);
    if |fs| > 0 {
      assert MessageParts(content, m) == FenceParts(content, fs, 0);
      SingleFenceParts(content, fs);
    } else {
      UnfencedMessageIsWhole(content, m);
    }
  }

  /** The one fence of the Python example. */
  lemma PythonFenceFound()
    ensures FenceAt("```py\nx = 1\n```", 0) == Some(Fence(0, "py", true, "x = 1\n", 15))
  {
    var s := "```py\nx = 1\n```";
    assert TicksAt(s, 0);
    assert WordEnd(s, 5) == 5;
    assert WordEnd(s, 3) == 5;
    assert BodyStart(s, 0) == 6;
    assert CloseFrom(s, 12) == Some(12);
    assert CloseFrom(s, 6) == Some(12);
    assert s[3..5] == "py";
    assert s[6..12] == "x = 1\n";
  }

  /** The Python example has exactly that fence. */
  lemma PythonFences()
    ensures Fences("```py\nx = 1\n```", 0) == [Fence(0, "py", true, "x = 1\n", 15)]
  {
    var s := "```py\nx = 1\n```";
    PythonFenceFound();
    assert NextFence(s, 15).None?;
  }

  /** A fenced Python snippet, as the chat shows it. */
  lemma PythonFenceExample(m: Matcher)
    ensures MessageParts("```py\nx = 1\n```", m) == [Code("python", "x = 1\n")]
  {
    var s := "```py\nx = 1\n```";
    PythonFences();
    assert GapParts(s[0..0]) == [];
    assert GapParts(s[15..|s|]) == [];
    assert Lower("py") == "py";
  }

  // ---------------------------------------------------------------------------
  // The alias lookup as written (line 325)
  // ---------------------------------------------------------------------------

  /** Line 325 as written: `LANG_ALIASES[rawLang] || rawLang || "text"`, where the lookup also sees inherited members. */
  function FenceLanguageAsWritten(tag: string): (v: JsValue)
    ensures Lower(tag) !in ObjectPrototypeNames ==> v == Str(FenceLanguage(tag))
  {
    var raw := Lower(tag);
    Or(Or(Lookup(LangAliases, raw), Str(raw)), Str("text"))
  }

  /** A tag that lower-cases to an inherited member's name gets that member, no string; the corrected lookup keeps the tag. */
  lemma InheritedTagIsNotAString(tag: string)
    requires Lower(tag) in ObjectPrototypeNames
    ensures FenceLanguageAsWritten(tag) == Inherited(Lower(tag))
    ensures FenceLanguage(tag) == Lower(tag)
  {
    PrototypeNamesAreNotAliases();
  }

  lemma PrototypeNamesAreNotAliases()
    ensures forall k :: k in ObjectPrototypeNames ==> k !in LangAliases && k != ""
  {
  }

  /** The tag `constructor`, which `\w*` matches, is such a tag: the fence's language becomes the `Object` function. */
  lemma ConstructorTagIsNotAString()
    ensures Lower("constructor") == "constructor"
    ensures FenceLanguageAsWritten("constructor") == Inherited("constructor")
    ensures FenceLanguage("constructor") == "constructor"
  {
    assert IsLowerCase("constructor");
    LowerOfLowerCase("constructor");
    InheritedTagIsNotAString("constructor");
  }
}
