# chitshare core in Dafny

chitshare is a chat system. A Next.js server stores direct and group messages. A VS Code
extension shows them in a webview and polls for new ones. This project models the parts of
both that decide what a message *is* and how the client's local state evolves. It then
proves the properties those parts promise.

- **Message segmentation** (`MessageContent.tsx`). `parseMessage` splits a message into
  ordered text and code parts at triple-backtick fences. It resolves each fence's language
  through the alias table. A message with no fence goes through the `looksLikeCode` score
  gate and the `detectLanguage` scoreboard. `isCodeMessage` asks whether the result is a
  single code part.
  - The fence regex is written out as a scanner (`TicksAt`, `WordEnd`, `CloseFrom`,
    `FenceAt`, `NextFence`, `Fences`).
  - The `while (regex.exec …)` loop is the method `ParseMessage`, proved equal to the
    function `MessageParts`.
  - The per-language regex tables are abstracted as an uninterpreted `Matcher` parameter.
  - The not-code patterns and the structural bonuses are implemented concretely.
- **Pure helpers of the renderers.**
  - HTML and attribute escaping, previews and initials (`utils.js`, `MarkdownRenderer.ts`).
  - MIME-type icons, file-size units and the VS Code extension list (`FileMessage.tsx`,
    `ui-components.js`).
  - The two `langMap` lookups, the notification preview and `getNonce` (`SidebarProvider.ts`).
  - `formatTextContent`, and the block sequencing and code-block counter of
    `formatMessageContent` (`ui-components.js`).
  - Bearer-token extraction (`auth.ts`) and the route guard (`proxy.ts`).
- **Client state.**
  - The webview's shared `state` object (`state.js`) is the class `WebviewState.State`.
  - The message handlers of `event-handlers.js` are methods that update it.
  - The extension's `ChatManager` is a class with `currentChat`, `knownMessageIds` and
    `pollTimer`.
  - The conversation-grouping loop of the conversations API route is a method proved equal
    to a recursive specification, `Grouped`.

Strings are `seq<char>` with ASCII semantics. `\s` is the six ASCII white-space characters,
`\w` is `[A-Za-z0-9_]`, and `trim`, `toLowerCase` and `toUpperCase` act on ASCII only.

Each source file maps to one module:

| Module | Source |
|---|---|
| `Strings` | `trim`, `toLowerCase`, `includes`, `split(c).pop()` and similar built-ins |
| `Markup` | the `replace` chains shared by previews and `formatTextContent` |
| `JsObjects` | JavaScript property lookup on a plain-object table |
| `CodeDetection` | `detectLanguage`, `looksLikeCode` and `matchPatterns` |
| `MessageContent` | `parseMessage`, `isCodeMessage` and `LANG_ALIASES` |
| `Html` | the escaping functions |
| `Previews` | `getPreview` and `getInitials` in both clients |
| `FileTypes` | icons, sizes and VS Code compatibility |
| `Sidebar` | `SidebarProvider.ts` |
| `WebviewState` | `state.js` |
| `EventHandlers` | `event-handlers.js` |
| `UiComponents` | `ui-components.js` |
| `ChatManager` | `ChatManager.ts` |
| `Auth`, `Proxy`, `Conversations` | the server files |

Where the prose description of the system and the code differ, the model follows the code.

- The last not-code pattern (`MessageContent.tsx:234`) is described as a short "line". Its
  character class contains `\s`, though, so it also accepts line feeds. The model admits
  every white-space character there.
- The proxy guard tests `startsWith("/chat")`. The model therefore guards `/chatter` as well;
  see `Proxy.PrefixTestIsLoose`.

## Model

| member | source | states |
|---|---|---|
| Strings.Lower | chitshare.server/src/components/MessageContent.tsx:324 | `toLowerCase` keeps the length and lower-cases each character on its own |
| Strings.LowerIsLowerCase | chitshare.server/src/components/MessageContent.tsx:324 | the result of `toLowerCase` has no upper-case letter |
| Strings.LowerOfLowerCase | chitshare.server/src/components/MessageContent.tsx:324 | `toLowerCase` leaves lower-case text unchanged |
| Strings.LowerChar | chitshare.server/src/components/MessageContent.tsx:324 | a lowered character is never an upper-case letter, and only upper-case letters change |
| Strings.UpperChar | chitshare.extension/media/utils.js:60 | an upper-cased character is never a lower-case letter, and only lower-case letters change |
| Strings.IndexOf | chitshare.extension/media/utils.js:70 | the search for the closing backticks finds the first occurrence at or after `from`, or reports that there is none |
| Strings.IndexOfChar | chitshare.extension/media/ui-components.js:385 | the first index at or after `from` holding the character, or none |
| Strings.TrimStart | chitshare.server/src/components/MessageContent.tsx:321 | the result is a suffix; only white space was dropped, and it does not start with white space |
| Strings.TrimEnd | chitshare.server/src/components/MessageContent.tsx:321 | the result is a prefix; only white space was dropped, and it does not end with white space |
| Strings.Trim | chitshare.server/src/components/MessageContent.tsx:321 | a trimmed string that is not empty begins and ends with a non-space character; `TrimIsSlice` gives the rest of `trim`'s meaning |
| Strings.TrimIsSlice | chitshare.server/src/components/MessageContent.tsx:321 | `trim` returns the slice of its input between a leading and a trailing run of white space |
| Strings.TrimKeepsOnly | chitshare.server/src/components/MessageContent.tsx:321 | every character `trim` keeps came from its input |
| Strings.TrimKeepsNonSpace | chitshare.server/src/components/MessageContent.tsx:321 | every non-space character of the input survives `trim` |
| Strings.TrimIdempotent | chitshare.server/src/components/MessageContent.tsx:321 | trimming twice is the same as trimming once |
| Strings.TrimOfTrimmed | chitshare.server/src/components/MessageContent.tsx:321 | a string with no white space at either end is its own `trim` |
| Strings.FlatMapAppend | chitshare.extension/src/MarkdownRenderer.ts:22 | a per-character `replace` distributes over concatenation |
| Strings.FlatMapExcludes | chitshare.extension/src/MarkdownRenderer.ts:22 | a character that no replacement produces is absent from the result |
| Strings.FlatMapKeeps | chitshare.extension/media/utils.js:14-16 | a character that the per-character escape maps to itself survives wherever it occurs in the input |
| Strings.ReplaceChar | chitshare.extension/media/utils.js:72 | after replacing `c` by a text without `c`, no `c` is left; input without `c` is unchanged |
| Strings.ReplaceCharExcludes | chitshare.extension/media/ui-components.js:394 | a character in neither the input nor the replacement is not in the result |
| Strings.ReplaceCharKeeps | chitshare.extension/media/ui-components.js:394 | replacing line feeds keeps every other character of the input |
| Strings.AfterLast | chitshare.extension/src/SidebarProvider.ts:542 | `split(c).pop()` is a suffix without `c`: either the whole input or the text after a `c` |
| Strings.AfterLastOf | chitshare.extension/src/SidebarProvider.ts:542 | whatever comes before the last `c`, `split(c).pop()` is exactly the text after it |
| Strings.AfterLastWithout | chitshare.extension/src/SidebarProvider.ts:542 | a string without `c` is its own last segment |
| Strings.NatToString | chitshare.extension/media/event-handlers.js:567 | `String(n)` of a non-negative integer is a non-empty string of decimal digits, starting with `0` only for 0, whose decimal value is `n` |
| Strings.NatToStringInjective | chitshare.extension/media/event-handlers.js:567 | different clock readings give different `temp-` id prefixes: distinct numbers are written differently |
| Markup.CollapseClosedFence | chitshare.extension/media/utils.js:70 | a closed fence whose body holds no triple backtick collapses to one `[code]`, and the rest is processed on its own |
| Markup.CollapseFences | chitshare.extension/media/utils.js:70 | definition of the global `replace(/```[\s\S]*?```/g, '[code]')` as a left-to-right scan; `CollapseClosedFence` states its effect |
| Markup.ReplaceDelimited | chitshare.extension/media/ui-components.js:385-391 | definition of the global delimited replacements (inline code, bold, italic) as a left-to-right scan; the three lemmas below state its effect |
| Markup.ReplaceDelimitedPlain | chitshare.extension/media/ui-components.js:385-391 | text without the delimiter character passes through a delimited replacement unchanged |
| Markup.ReplaceDelimitedExcludes | chitshare.extension/media/ui-components.js:385-391 | a delimited replacement whose replacements never produce `x` adds no `x` |
| Markup.ReplaceDelimitedKeeps | chitshare.extension/media/ui-components.js:385-391 | a character outside the delimiter that every replacement keeps is still in the output wherever it was in the input |
| Markup.RunEnd | chitshare.extension/src/MarkdownRenderer.ts:50 | the greedy `#+` run ends at the first character that is not `#` |
| Markup.StripLinks | chitshare.extension/src/MarkdownRenderer.ts:49 | definition of `replace(/\[([^\]]+)\]\([^)]+\)/g, '$1')`: a link becomes its label |
| Markup.StripHeadingMarks | chitshare.extension/src/MarkdownRenderer.ts:50 | definition of `replace(/#+\s/g, '')`: a `#` run and the white-space character after it are deleted |
| JsObjects.OwnEntryShadowsPrototype | chitshare.server/src/components/MessageContent.tsx:325 | an own entry of an object literal is what reading its key gives, even when the key names an `Object.prototype` member |
| JsObjects.MissingKeyReadsPrototype | chitshare.server/src/components/MessageContent.tsx:325 | a key the table lacks reads as from `{}`, which gives `undefined` exactly when the key is not an `Object.prototype` member |
| JsObjects.OrTruthy | chitshare.server/src/components/MessageContent.tsx:325 | `a \|\| b` is one of its operands, and it is truthy exactly when either operand is |
| CodeDetection.Patterns | chitshare.server/src/components/MessageContent.tsx:281-286 | each pattern table is listed exactly once, in its declared order |
| CodeDetection.CountFirst | chitshare.server/src/components/MessageContent.tsx:237-243 | counting over the first `n` patterns gives at most `n` |
| CodeDetection.MatchPatterns | chitshare.server/src/components/MessageContent.tsx:237-243 | the counting loop returns the number of patterns that match |
| CodeDetection.Entries | chitshare.server/src/components/MessageContent.tsx:246-261 | the scoreboard has one entry per scored language, in declaration order |
| CodeDetection.Leader | chitshare.server/src/components/MessageContent.tsx:263-270 | the strict `>` scan picks an index among the first `n`, or -1 |
| CodeDetection.LeaderIsFirstMaximum | chitshare.server/src/components/MessageContent.tsx:263-270 | the scan ends on the first index with the maximum score; it ends on none exactly when every score is 0 |
| CodeDetection.FirstMaximumUnique | chitshare.server/src/components/MessageContent.tsx:266 | the first maximum is unique, so ties go to the earliest language |
| CodeDetection.LanguagesDistinct | chitshare.server/src/components/MessageContent.tsx:246-261 | the 14 language names are distinct, and none is `"text"` |
| CodeDetection.Winner | chitshare.server/src/components/MessageContent.tsx:263-271 | the result is `"text"` or one of the 14 scored languages |
| CodeDetection.WinnerIsTextIffNoScore | chitshare.server/src/components/MessageContent.tsx:263-271 | the result is `"text"` exactly when every score is 0 |
| CodeDetection.WinnerIsFirstMaximum | chitshare.server/src/components/MessageContent.tsx:263-271 | a returned language is the first one with the maximum score |
| CodeDetection.FirstMaximumWins | chitshare.server/src/components/MessageContent.tsx:263-271 | conversely, the first language with the maximum score is the one returned |
| CodeDetection.PickLanguage | chitshare.server/src/components/MessageContent.tsx:263-271 | the `maxLang`/`maxScore` loop computes `Winner` |
| CodeDetection.DetectedLanguage | chitshare.server/src/components/MessageContent.tsx:245-272 | `detectLanguage` returns `"text"` or one of the 14 scored languages |
| CodeDetection.JavaScriptWinsOnlyUntied | chitshare.server/src/components/MessageContent.tsx:247-249 | when `"javascript"` wins, neither `typescript` nor `tsx` scored more than it |
| CodeDetection.JavaScriptOnlyWithoutTypeScriptSigns | chitshare.server/src/components/MessageContent.tsx:247-249 | `"javascript"` is returned only when no TypeScript marker occurs and no React pattern matches |
| CodeDetection.DetectLanguage | chitshare.server/src/components/MessageContent.tsx:245-272 | the imperative `detectLanguage` computes `DetectedLanguage` |
| CodeDetection.ComputeScores | chitshare.server/src/components/MessageContent.tsx:246-261 | the scoreboard built from the pattern counts and the TypeScript bonus |
| CodeDetection.ScoresOf | chitshare.server/src/components/MessageContent.tsx:246-261 | definition of the `scores` record: each language's pattern count, with the TypeScript marker bonus; `ComputeScores` computes it |
| CodeDetection.HasTypeScriptMarker | chitshare.server/src/components/MessageContent.tsx:248 | definition of the `: string`, `: number` or `interface ` test |
| CodeDetection.SpaceRunEnd | chitshare.server/src/components/MessageContent.tsx:233 | the greedy `\s+` run ends at the first non-space character |
| CodeDetection.LooksLikeCode | chitshare.server/src/components/MessageContent.tsx:274-304 | the gate computes `IsCodeLike`; it is false under 10 characters and false when a not-code pattern matches the trimmed text |
| CodeDetection.IsCodeLike | chitshare.server/src/components/MessageContent.tsx:274-304 | definition of the `looksLikeCode` verdict: at least 10 characters, no not-code pattern on the trimmed text, and a code score of at least 2 |
| CodeDetection.NotCodePattern | chitshare.server/src/components/MessageContent.tsx:230-235 | definition of the four not-code patterns, by index |
| CodeDetection.MatchesNotCode | chitshare.server/src/components/MessageContent.tsx:277-279 | the not-code loop reports whether any of the four patterns matches |
| CodeDetection.ScoreCode | chitshare.server/src/components/MessageContent.tsx:288-301 | the accumulated `codeScore` is the pattern count plus the structural bonuses |
| CodeDetection.StructuralBonus | chitshare.server/src/components/MessageContent.tsx:297-301 | definition of the five structural bonuses added to the pattern count |
| CodeDetection.HasMultipleLines | chitshare.server/src/components/MessageContent.tsx:290 | definition: the text holds a line feed |
| CodeDetection.HasIndentation | chitshare.server/src/components/MessageContent.tsx:291 | definition: a line feed followed by at least two white-space characters |
| CodeDetection.HasBraces | chitshare.server/src/components/MessageContent.tsx:292 | definition: the text holds `{` or `}` |
| CodeDetection.HasSemicolons | chitshare.server/src/components/MessageContent.tsx:293 | definition: a `;` followed by white space up to a line feed or the end |
| CodeDetection.HasParens | chitshare.server/src/components/MessageContent.tsx:294 | definition: a `(` with a `)` later and no `)` between |
| CodeDetection.HasOperators | chitshare.server/src/components/MessageContent.tsx:295 | definition: one of `==`, `!=`, `<=`, `>=`, `&&`, `\|\|` occurs |
| CodeDetection.GreetingWordsBraceFree | chitshare.server/src/components/MessageContent.tsx:231 | no greeting word contains a brace |
| CodeDetection.QuestionWordsBraceFree | chitshare.server/src/components/MessageContent.tsx:232 | no question opener contains a brace |
| CodeDetection.SubjectsBraceFree | chitshare.server/src/components/MessageContent.tsx:233 | no subject pronoun contains a brace |
| CodeDetection.VerbsBraceFree | chitshare.server/src/components/MessageContent.tsx:233 | no auxiliary verb contains a brace |
| CodeDetection.WordAtExcludesBraces | chitshare.server/src/components/MessageContent.tsx:231-233 | where a brace-free word matches, the text holds no brace |
| CodeDetection.GreetingHasNoBraces | chitshare.server/src/components/MessageContent.tsx:231 | a text matching the greeting pattern has no brace |
| CodeDetection.QuestionHasNoBraces | chitshare.server/src/components/MessageContent.tsx:232 | a text matching the question pattern has no brace |
| CodeDetection.VerbHasNoBraces | chitshare.server/src/components/MessageContent.tsx:233 | the text from the verb on has no brace |
| CodeDetection.SubjectClauseHasNoBraces | chitshare.server/src/components/MessageContent.tsx:233 | a subject-verb clause has no brace |
| CodeDetection.StatementHasNoBraces | chitshare.server/src/components/MessageContent.tsx:233 | a text matching the statement pattern has no brace |
| CodeDetection.GreetingBraceFree | chitshare.server/src/components/MessageContent.tsx:231 | not-code pattern 0 admits no brace |
| CodeDetection.QuestionBraceFree | chitshare.server/src/components/MessageContent.tsx:232 | not-code pattern 1 admits no brace |
| CodeDetection.StatementBraceFree | chitshare.server/src/components/MessageContent.tsx:233 | not-code pattern 2 admits no brace |
| CodeDetection.ShortPlainBraceFree | chitshare.server/src/components/MessageContent.tsx:234 | not-code pattern 3 admits no brace |
| CodeDetection.BraceFreeBelowExcludes | chitshare.server/src/components/MessageContent.tsx:230-235 | a text brace-free at every index contains neither `{` nor `}` |
| CodeDetection.ConversationalHasNoBraces | chitshare.server/src/components/MessageContent.tsx:230-235 | a text any not-code pattern matches contains no brace |
| CodeDetection.TrimKeepsBraces | chitshare.server/src/components/MessageContent.tsx:278 | trimming keeps every brace |
| CodeDetection.BracesAndNewlineScore | chitshare.server/src/components/MessageContent.tsx:298 | braces plus a line feed give a score of at least 2 |
| CodeDetection.BracesAndNewlineLookLikeCode | chitshare.server/src/components/MessageContent.tsx:274-304 | a text of 10 or more characters with a brace and a line feed looks like code, whatever the pattern tables say |
| MessageContent.AliasTargetsAreCanonical | chitshare.server/src/components/MessageContent.tsx:12-25 | every alias target is a non-empty lower-case name that is not itself an alias |
| MessageContent.AliasTargetsAreNotAliases | chitshare.server/src/components/MessageContent.tsx:12-25 | no alias target is itself an alias |
| MessageContent.AliasTargetsAreLowerCase | chitshare.server/src/components/MessageContent.tsx:12-25 | every alias target is non-empty and lower-case |
| MessageContent.FenceLanguage | chitshare.server/src/components/MessageContent.tsx:324-325 | a lowered tag that is an alias gives the alias value; any other non-empty tag gives its lowered text; an empty tag gives `"text"`; the result is always non-empty, lower-case and never an alias |
| MessageContent.FenceLanguageIdempotent | chitshare.server/src/components/MessageContent.tsx:324-325 | resolving a resolved language changes nothing |
| MessageContent.TicksAtIsOccurrence | chitshare.server/src/components/MessageContent.tsx:313 | the character test for three backticks agrees with an occurrence of the text ```` ``` ```` |
| MessageContent.WordEnd | chitshare.server/src/components/MessageContent.tsx:313 | the `\w*` tag ends between its start and the end of the text |
| MessageContent.WordEndIsRun | chitshare.server/src/components/MessageContent.tsx:313 | the tag is a maximal run of word characters |
| MessageContent.CloseFrom | chitshare.server/src/components/MessageContent.tsx:313 | the closing search stops on three backticks at or after the body start |
| MessageContent.CloseFromIsFirst | chitshare.server/src/components/MessageContent.tsx:313 | the closing fence is the first three backticks after the body start (the lazy `*?`) |
| MessageContent.BodyStart | chitshare.server/src/components/MessageContent.tsx:313 | the body starts after the opening backticks and the tag, and no later than the end |
| MessageContent.FenceAt | chitshare.server/src/components/MessageContent.tsx:313 | a fence found at `p` starts at `p` and spans at least the six backticks |
| MessageContent.FenceAtSpansRaw | chitshare.server/src/components/MessageContent.tsx:313 | the matched text is exactly the backticks, tag, optional line feed, body and closing backticks |
| MessageContent.FenceTagIsWord | chitshare.server/src/components/MessageContent.tsx:313 | the captured tag holds only word characters |
| MessageContent.FenceBodyIsLazy | chitshare.server/src/components/MessageContent.tsx:313 | the captured body contains no triple backtick |
| MessageContent.NoBackticksBeforeBody | chitshare.server/src/components/MessageContent.tsx:313 | no closing fence can start inside the tag or the line feed |
| MessageContent.FenceAtFails | chitshare.server/src/components/MessageContent.tsx:313 | a match at `p` fails exactly when no three backticks are at `p` or none come after them |
| MessageContent.NextFence | chitshare.server/src/components/MessageContent.tsx:318 | `regex.exec` from `lastIndex` finds a fence starting at or after it |
| MessageContent.NextFenceIsLeftmost | chitshare.server/src/components/MessageContent.tsx:318 | the fence found is the leftmost one; when none is found, none starts at or after `from` |
| MessageContent.NoFencePastEnd | chitshare.server/src/components/MessageContent.tsx:318 | no fence starts within the last two characters |
| MessageContent.Fences | chitshare.server/src/components/MessageContent.tsx:318-328 | the fences the loop visits are disjoint, strictly advancing and each the leftmost one after the previous |
| MessageContent.FencesRebuild | chitshare.server/src/components/MessageContent.tsx:318-333 | the untrimmed gaps and the full fence matches, joined in order, rebuild the input |
| MessageContent.RebuildStep | chitshare.server/src/components/MessageContent.tsx:318-333 | one gap and one fence, followed by a rebuilt remainder, rebuild the text from `from` |
| MessageContent.FenceBodiesAreLazy | chitshare.server/src/components/MessageContent.tsx:313-326 | no fence body contains a triple backtick |
| MessageContent.GapPartsOfEmpty | chitshare.server/src/components/MessageContent.tsx:320-323 | an empty gap emits no part |
| MessageContent.FencePartsStep | chitshare.server/src/components/MessageContent.tsx:318-328 | one loop iteration emits the trimmed gap and the code part, then continues after the match |
| MessageContent.PushGap | chitshare.server/src/components/MessageContent.tsx:320-323 | pushing a gap appends its trimmed text, unless the trim is empty |
| MessageContent.ScanFences | chitshare.server/src/components/MessageContent.tsx:318-328 | the `while` loop sets `hasExplicitBlocks` exactly when a fence exists; its parts plus the trailing gap are the parts of all fences |
| MessageContent.ParseMessage | chitshare.server/src/components/MessageContent.tsx:310-344 | the imperative `parseMessage` computes `MessageParts` |
| MessageContent.MessageParts | chitshare.server/src/components/MessageContent.tsx:310-344 | definition of the parts `parseMessage` returns: the fence parts when a fence exists, else one code part when the text looks like code, else one text part |
| MessageContent.FenceParts | chitshare.server/src/components/MessageContent.tsx:318-336 | definition of the parts of the fenced path: each gap's trimmed text and each fence's code part, in order |
| MessageContent.GapParts | chitshare.server/src/components/MessageContent.tsx:320-323 | definition of a gap's part: its trimmed text when that is not empty |
| MessageContent.CodesOf | chitshare.server/src/components/MessageContent.tsx:352 | the code parts are a subsequence of the parts |
| MessageContent.CodesOfAppend | chitshare.server/src/components/MessageContent.tsx:326 | the code parts of a concatenation are the code parts of each half |
| MessageContent.FenceCodes | chitshare.server/src/components/MessageContent.tsx:326 | one code part per fence |
| MessageContent.FenceCodesAt | chitshare.server/src/components/MessageContent.tsx:324-326 | the `i`-th code part is the `i`-th fence's language and untrimmed body |
| MessageContent.FencePartsCodes | chitshare.server/src/components/MessageContent.tsx:318-336 | the code parts of a fenced message are exactly its fences, in order |
| MessageContent.GapPartsHaveNoCode | chitshare.server/src/components/MessageContent.tsx:320-323 | gaps emit only text |
| MessageContent.GapPartsShape | chitshare.server/src/components/MessageContent.tsx:320-323 | a gap emits at most one part, trimmed and non-empty |
| MessageContent.JoinKeepsApart | chitshare.server/src/components/MessageContent.tsx:318-336 | a code part between a gap and the rest keeps text parts from touching |
| MessageContent.JoinKeepsTrimmed | chitshare.server/src/components/MessageContent.tsx:318-336 | joining trimmed pieces around a code part keeps every text part trimmed |
| MessageContent.FencePartsShape | chitshare.server/src/components/MessageContent.tsx:318-336 | with fences, every text part is trimmed and non-empty, and no two text parts are adjacent |
| MessageContent.FencePartsLength | chitshare.server/src/components/MessageContent.tsx:318-336 | at least one part per fence |
| MessageContent.NoFencesIff | chitshare.server/src/components/MessageContent.tsx:313-318 | there is no fence exactly when no three backticks are followed by three more |
| MessageContent.ExplicitFencesIgnoreHeuristic | chitshare.server/src/components/MessageContent.tsx:330-336 | with a fence, the parts do not depend on the pattern tables at all, and the code parts are the fences |
| MessageContent.UnfencedMessageIsWhole | chitshare.server/src/components/MessageContent.tsx:338-343 | with no fence, there is one part: the whole untrimmed content, as code exactly when it looks like code |
| MessageContent.MessagePartsShape | chitshare.server/src/components/MessageContent.tsx:310-344 | there is always at least one part; with fences, text parts are trimmed, non-empty and never adjacent |
| MessageContent.EmptyMessage | chitshare.server/src/components/MessageContent.tsx:275 | the empty message is one empty text part |
| MessageContent.IsCodeMessage | chitshare.server/src/components/MessageContent.tsx:347-350 | a code message has exactly one part |
| MessageContent.SingleFenceParts | chitshare.server/src/components/MessageContent.tsx:318-336 | fenced parts are a single code part exactly when there is one fence and only white space around it |
| MessageContent.IsCodeMessageIff | chitshare.server/src/components/MessageContent.tsx:347-350 | without fences, `isCodeMessage` is `looksLikeCode`; with fences, it holds exactly when one fence is surrounded only by white space |
| MessageContent.PythonFenceFound | chitshare.server/src/components/MessageContent.tsx:313 | Illustration only, for one literal message: a `py` fence is matched with its tag, line feed and body |
| MessageContent.PythonFences | chitshare.server/src/components/MessageContent.tsx:318-328 | Illustration only: that message has exactly that one fence |
| MessageContent.PythonFenceExample | chitshare.server/src/components/MessageContent.tsx:310-336 | Illustration only: a `py` fence parses to one python code part with the untrimmed body |
| MessageContent.FenceLanguageAsWritten | chitshare.server/src/components/MessageContent.tsx:324-325 | the language as written agrees with `FenceLanguage` whenever the lowered tag is not an `Object.prototype` name |
| MessageContent.InheritedTagIsNotAString | chitshare.server/src/components/MessageContent.tsx:325 | a tag naming an `Object.prototype` member yields the inherited member, not a string |
| MessageContent.PrototypeNamesAreNotAliases | chitshare.server/src/components/MessageContent.tsx:12-25 | no `Object.prototype` name is an alias key |
| MessageContent.ConstructorTagIsNotAString | chitshare.server/src/components/MessageContent.tsx:325 | the tag `constructor` yields the inherited `Object` constructor |
| Html.HtmlEntity | chitshare.extension/src/MarkdownRenderer.ts:15-21 | each of `& < > " '` maps to an entity starting with `&`; every other character maps to itself |
| Html.AttrEntity | chitshare.extension/media/utils.js:24-29 | only the five special characters are replaced |
| Html.EscapeHtml | chitshare.extension/src/MarkdownRenderer.ts:14-23 | definition of the renderer's `escapeHtml` as one `HtmlEntity` per character; `EscapeHtmlHasNoRawSpecials` and `EscapeHtmlRoundTrip` state its properties |
| Html.EscapeAttr | chitshare.extension/media/utils.js:20-30 | definition of `escapeAttr`, empty for the falsy empty text; `EscapeAttrIsSinglePass` and `EscapeAttrRoundTrip` state its properties |
| Html.EscapeHtmlPlain | chitshare.extension/src/MarkdownRenderer.ts:22 | text without special characters is unchanged |
| Html.EscapeHtmlHasNoRawSpecials | chitshare.extension/src/MarkdownRenderer.ts:22 | no raw `<`, `>`, `"` or `'` survives; `&` is the only special character left |
| Html.UnescapeHtmlEntity | chitshare.extension/src/MarkdownRenderer.ts:15-21 | every entity decodes back to its character |
| Html.EscapeHtmlRoundTrip | chitshare.extension/src/MarkdownRenderer.ts:14-23 | decoding the escaped text gives the original, so no entity is escaped twice |
| Html.AttrChainAppend | chitshare.extension/media/utils.js:24-29 | the replace chain distributes over concatenation |
| Html.AttrChainOfChar | chitshare.extension/media/utils.js:24-29 | on one character, the chain gives that character's entity |
| Html.EscapeAttrIsSinglePass | chitshare.extension/media/utils.js:24-29 | because `&` goes first, the five-step chain equals a single per-character pass |
| Html.EscapeAttrHasNoRawSpecials | chitshare.extension/media/utils.js:21-29 | an empty value gives `''`; the output contains no raw `<`, `>`, `"` or `'` |
| Html.AttrPassHasNoRawSpecials | chitshare.extension/media/utils.js:24-29 | the single pass leaves only the `&` of entities |
| Html.UnescapeAttrEntity | chitshare.extension/media/utils.js:25-29 | each attribute entity decodes back to its character |
| Html.EscapeAttrRoundTrip | chitshare.extension/media/utils.js:20-30 | decoding the escaped attribute gives the original, so each `&` was escaped exactly once |
| Html.AttrFlatMapRoundTrip | chitshare.extension/media/utils.js:24-29 | the single pass is inverted by decoding |
| Html.TextEntity | chitshare.extension/media/utils.js:14-16 | the HTML serializer of a text node escapes `&`, `<`, `>` and the no-break space, and maps every other character, quotes included, to itself |
| Html.EscapeText | chitshare.extension/media/utils.js:10-17 | definition of the webview's `escapeHtml` as one `TextEntity` per character |
| Html.EscapeTextPlain | chitshare.extension/media/utils.js:10-17 | text without `&`, `<`, `>` or a no-break space is unchanged |
| Html.EscapeTextHasNoRawMarkup | chitshare.extension/media/utils.js:10-17 | no raw `<`, `>` or no-break space survives the text-node escaper |
| Html.EscapeTextKeepsQuotes | chitshare.extension/media/utils.js:10-17 | `'` and `"` are not escaped: every quote of the input is still in the output |
| Html.UnescapeTextEntity | chitshare.extension/media/utils.js:14-16 | each text-node entity decodes back to its character |
| Html.EscapeTextRoundTrip | chitshare.extension/media/utils.js:10-17 | decoding the escaped text gives the original |
| Previews.FirstSeparator | chitshare.extension/media/utils.js:59 | the index found holds a character of `[\s_-]` |
| Previews.FirstSeparatorIsFirst | chitshare.extension/media/utils.js:59 | it is the first such index |
| Previews.SeparatorRunEnd | chitshare.extension/media/utils.js:59 | the `+` run of separators ends within the text |
| Previews.SplitWords | chitshare.extension/media/utils.js:59 | `split` always gives at least one piece |
| Previews.SplitWordsHaveNoSeparator | chitshare.extension/media/utils.js:59 | no piece contains a separator |
| Previews.SplitWithoutSeparator | chitshare.extension/media/utils.js:59 | a name without separators is one piece |
| Previews.Initial | chitshare.extension/media/utils.js:60 | a piece's initial is its upper-cased first character, or empty |
| Previews.InitialsShape | chitshare.extension/src/MarkdownRenderer.ts:83-89 | at most 2 characters, none lower-case, each the upper-cased first character of one of the first two pieces |
| Previews.InitialsAgree | chitshare.extension/media/utils.js:54-63 | the empty name gives `?` in the webview and `""` in the renderer; otherwise the two versions agree |
| Previews.InitialsOfOneWord | chitshare.extension/media/utils.js:58-62 | a single word gives its own upper-cased first letter |
| Previews.Initials | chitshare.extension/media/utils.js:54-63 | definition of the webview's `getInitials`: `?` for the empty name, else the initials of the first two pieces |
| Previews.InitialsMd | chitshare.extension/src/MarkdownRenderer.ts:83-89 | definition of the renderer's `getInitials`, without the `?` case |
| Previews.PlainPreview | chitshare.extension/media/utils.js:69-73 | the cleaned text has no line feed and no white space at either end |
| Previews.CutShape | chitshare.extension/media/utils.js:74 | cutting and adding `...` adds no line feed and no white space at either end |
| Previews.PreviewShape | chitshare.extension/media/utils.js:65-75 | empty content gives `''`; the result has at most 40 characters, no line feed and no white space at either end; longer text is its first 37 characters and `...` |
| Previews.Preview | chitshare.extension/media/utils.js:65-75 | definition of the webview's `getPreview`; `PreviewShape` states its properties |
| Previews.CutFacts | chitshare.extension/media/utils.js:74 | the 40-character cut keeps the shape of cleaned text |
| Previews.Cut | chitshare.extension/media/utils.js:74 | definition of the 40-character cut with `...`; `CutFacts` and `CutShape` state it |
| Previews.FencedBlockPreview | chitshare.extension/media/utils.js:69-74 | a message that is one fenced block previews as `[code]` |
| Previews.FencedBlockCollapses | chitshare.extension/media/utils.js:70 | a fenced block collapses to `[code]` |
| Previews.CollapsedPreview | chitshare.extension/media/utils.js:71-74 | content that collapses to `[code]` previews as `[code]` |
| Previews.MarkerIsClean | chitshare.extension/media/utils.js:71-73 | the marker survives the rest of the cleaning chain |
| Previews.MarkerHasNoTicks | chitshare.extension/media/utils.js:71 | the inline-code replacement leaves the marker unchanged |
| Previews.MarkerHasNoLineFeed | chitshare.extension/media/utils.js:72 | the line-feed replacement leaves the marker unchanged |
| Previews.MarkerIsTrimmed | chitshare.extension/media/utils.js:73 | `trim` leaves the marker unchanged |
| Previews.PlainPreviewMd | chitshare.extension/src/MarkdownRenderer.ts:44-52 | the renderer's cleaned text has no line feed and no white space at either end |
| Previews.Prefix | chitshare.extension/src/MarkdownRenderer.ts:57 | `substring(0, k)` has length `k`, or 0 when `k` is negative |
| Previews.ShortenShape | chitshare.extension/src/MarkdownRenderer.ts:54-57 | short text is unchanged; longer text is its first `maxLength-3` characters and `...`, exactly `maxLength` long when `maxLength` is at least 3; the shape is kept |
| Previews.Shorten | chitshare.extension/src/MarkdownRenderer.ts:54-57 | definition of the renderer's cut to `maxLength`; `ShortenShape` states it |
| Previews.PreviewMdShape | chitshare.extension/src/MarkdownRenderer.ts:42-58 | the preview has no line feed and no white space at either end, and is `maxLength` long when the text was cut |
| Previews.PreviewMd | chitshare.extension/src/MarkdownRenderer.ts:42-57 | definition of the renderer's `getPreview`; `PreviewMdShape` states its properties |
| FileTypes.FileExtension | chitshare.extension/media/ui-components.js:210 | the extension is lower-case and contains no `.` |
| FileTypes.FileExtensionCases | chitshare.extension/media/ui-components.js:210 | the extension is the lowered text after the last `.`, or the whole lowered name when there is no `.` |
| FileTypes.FileIcon | chitshare.server/src/components/FileMessage.tsx:25-33 | definition of `getFileIcon`'s ordered rules; the `...Iff` lemmas below state which icon each type gets |
| FileTypes.MediaPrefixesDecide | chitshare.server/src/components/FileMessage.tsx:26-28 | `image/` always gives the image icon; a media icon comes exactly from a media prefix |
| FileTypes.ArchiveBeforeCode | chitshare.server/src/components/FileMessage.tsx:29 | the archive icon comes exactly from a non-media type with an archive substring |
| FileTypes.CodeIconIff | chitshare.server/src/components/FileMessage.tsx:30 | the code icon is given exactly when the earlier rules fail and a code substring occurs |
| FileTypes.TextIconIff | chitshare.server/src/components/FileMessage.tsx:31 | the text icon is given exactly when the earlier rules fail and a document substring occurs |
| FileTypes.GenericIconIff | chitshare.server/src/components/FileMessage.tsx:32 | the generic icon is given exactly when no rule matches |
| FileTypes.XmlDocumentIsCode | chitshare.server/src/components/FileMessage.tsx:30-31 | a type containing both `xml` and `document` gets the code icon, because the first rule wins |
| FileTypes.UnitScale | chitshare.server/src/components/FileMessage.tsx:18-21 | every unit's scale is at least 1 |
| FileTypes.SizeUnitOf | chitshare.server/src/components/FileMessage.tsx:17-22 | definition of the unit `formatFileSize` chooses; `SizeUnitFits` and `SizeUnitMonotonic` state its properties |
| FileTypes.SizeUnitFits | chitshare.server/src/components/FileMessage.tsx:18-21 | B is used exactly below 1024; every other unit has a scale not above the size and, below GB, a next scale above it |
| FileTypes.SizeUnitMonotonic | chitshare.extension/media/ui-components.js:214-219 | a larger size never gets a smaller unit |
| FileTypes.VscodeCompatibleByExtension | chitshare.extension/media/ui-components.js:203-212 | a name is compatible exactly when its lowered last `.`-segment is in the list |
| FileTypes.IsVscodeCompatible | chitshare.extension/media/ui-components.js:209-212 | definition of `isVscodeCompatible` |
| Sidebar.EditorLanguageAsWritten | chitshare.extension/src/SidebarProvider.ts:445 | the chained `\|\|` never yields `undefined` |
| Sidebar.EditorLanguage | chitshare.extension/src/SidebarProvider.ts:445 | the editor language is never empty |
| Sidebar.EditorLanguagesAreNonEmpty | chitshare.extension/src/SidebarProvider.ts:401-443 | every `langMap` value is non-empty, so a hit is never skipped by `\|\|` |
| Sidebar.EditorLanguageAgrees | chitshare.extension/src/SidebarProvider.ts:445 | the code as written agrees with `EditorLanguage` unless the lowered name is an `Object.prototype` member |
| Sidebar.EditorLanguageCases | chitshare.extension/src/SidebarProvider.ts:445 | a mapped language gives its table value, the same for any case; an unmapped non-empty language passes through with its case; the empty one gives `plaintext` |
| Sidebar.EditorLanguageAliases | chitshare.extension/src/SidebarProvider.ts:401-443 | `tsx` gives `typescriptreact`, `c++` gives `cpp`, `docker` gives `dockerfile` |
| Sidebar.EditorLanguageShells | chitshare.extension/src/SidebarProvider.ts:401-443 | `sh`, `bash`, `zsh` and `shell` give `shellscript` |
| Sidebar.ConstructorLanguageIsNotAString | chitshare.extension/src/SidebarProvider.ts:445 | the language `constructor` yields the inherited `Object` constructor instead of a string |
| Sidebar.FileLanguageAsWritten | chitshare.extension/src/SidebarProvider.ts:542-551 | the chained `\|\|` never yields `undefined` |
| Sidebar.ExtensionLanguage | chitshare.extension/src/SidebarProvider.ts:551 | a known extension gives its `langMap` entry and an unknown one `plaintext`; the result is never empty |
| Sidebar.FileLanguagesAreNonEmpty | chitshare.extension/src/SidebarProvider.ts:543-550 | every `langMap` value is non-empty |
| Sidebar.FileLanguageAgrees | chitshare.extension/src/SidebarProvider.ts:542-551 | the code as written agrees with `FileLanguage` unless the extension is an `Object.prototype` member |
| Sidebar.FileLanguage | chitshare.extension/src/SidebarProvider.ts:542-551 | definition of the intended file language: `ExtensionLanguage` of the lowered last `.`-segment |
| Sidebar.HeaderFileIsC | chitshare.extension/src/SidebarProvider.ts:545 | a `.h` file opens as `c` |
| Sidebar.HeaderExtensionIsC | chitshare.extension/src/SidebarProvider.ts:545 | the extension `h` maps to `c` |
| Sidebar.ConstructorExtensionIsNotAString | chitshare.extension/src/SidebarProvider.ts:551 | a file ending in `.constructor` yields the inherited `Object` constructor, where `plaintext` was meant |
| Sidebar.NotificationPreview | chitshare.extension/src/SidebarProvider.ts:42-44 | content of at most 50 characters is unchanged; longer content becomes its first 47 characters and `...`, exactly 50 |
| Sidebar.NonceIndex | chitshare.extension/src/SidebarProvider.ts:738 | `Math.floor(r * 62)` is an index into the 62-character alphabet |
| Sidebar.GetNonce | chitshare.extension/src/SidebarProvider.ts:734-741 | the nonce has 32 characters, the `i`-th drawn by the `i`-th random number from the alphanumeric alphabet |
| Seqs.Filter | chitshare.extension/media/event-handlers.js:130 | `filter` keeps only members that pass, and is no longer than its input |
| Seqs.FilterAppend | chitshare.extension/media/event-handlers.js:130 | `filter` distributes over concatenation, so order is kept |
| Seqs.FilterMembers | chitshare.extension/media/event-handlers.js:130 | an element is in the result exactly when it is in the input and passes |
| Seqs.FilterAll | chitshare.extension/media/event-handlers.js:187 | when every element passes, `filter` changes nothing |
| WebviewState.Apply | chitshare.extension/media/state.js:54 | `{ ...m, ...updates }`: each of `id`, `content` and `status` takes the patch's value when given and keeps the old one otherwise; `createdAt` and `sender` are kept |
| WebviewState.FirstWithId | chitshare.extension/media/state.js:52 | `findIndex` gives the first index with the id, or reports that none has it |
| WebviewState.LastWithId | chitshare.extension/media/event-handlers.js:158 | `findLastIndex` gives the last index with the id, or reports that none has it |
| WebviewState.UpdateFirstChangesOnlyFirstMatch | chitshare.extension/media/state.js:52-58 | the length is kept; the first match gets the patch and every other entry is unchanged; with no match the list is unchanged |
| WebviewState.UpdateFirst | chitshare.extension/media/state.js:52-57 | definition of the list after `updateMessage`; `UpdateFirstChangesOnlyFirstMatch` states it |
| WebviewState.State.constructor | chitshare.extension/media/state.js:6-18 | the initial state is the `loading` view with no user, no chat and empty lists |
| WebviewState.State.UpdateMessage | chitshare.extension/media/state.js:51-59 | returns true exactly when some message has the id; the list becomes `UpdateFirst` of the old list, and no other field changes |
| EventHandlers.UnsettledKept | chitshare.extension/media/event-handlers.js:130 | the kept local messages are exactly the pending or failed ones, in order |
| EventHandlers.Unsettled | chitshare.extension/media/event-handlers.js:130 | definition of the pending and error messages kept from local state |
| EventHandlers.FreshMessages | chitshare.extension/media/event-handlers.js:186-187 | a message is kept exactly when its id is not already present; order is kept; nothing is dropped when every id is new |
| EventHandlers.Fresh | chitshare.extension/media/event-handlers.js:186-187 | definition of the incoming messages whose ids are new |
| EventHandlers.HandleMessagesUpdate | chitshare.extension/media/event-handlers.js:117-147 | the list becomes the incoming messages followed by the old pending or failed ones; `hasMore` defaults to false; the chat changes only when one is given |
| EventHandlers.PushAll | chitshare.extension/media/event-handlers.js:132-136 | the push loop appends the extra messages in order |
| EventHandlers.OccurrencesAppend | chitshare.extension/media/event-handlers.js:157-158 | id occurrences add up over concatenation |
| EventHandlers.OccurrencesNone | chitshare.extension/media/event-handlers.js:157-158 | a list without the id has no occurrence of it |
| EventHandlers.OccurrencesAround | chitshare.extension/media/event-handlers.js:162 | removing one entry with the id removes exactly one occurrence |
| EventHandlers.OccurrencesNoneAfter | chitshare.extension/media/event-handlers.js:158 | past the last occurrence there is none |
| EventHandlers.OccurrencesOfTwo | chitshare.extension/media/event-handlers.js:160 | two distinct indices with the id give at least two occurrences |
| EventHandlers.FirstLastOccurrences | chitshare.extension/media/event-handlers.js:157-160 | the first and last indices differ exactly when the id occurs at least twice |
| EventHandlers.RemovingOtherEntry | chitshare.extension/media/event-handlers.js:161-162 | removing some other entry keeps the placed message and shortens the list by one |
| EventHandlers.DedupeRemovesOneCopy | chitshare.extension/media/event-handlers.js:157-163 | the placed message stays; the length is kept or one smaller; a duplicate id loses exactly one copy |
| EventHandlers.Dedupe | chitshare.extension/media/event-handlers.js:157-163 | definition of the splice of the duplicate copy of the placed message |
| EventHandlers.AfterSentCases | chitshare.extension/media/event-handlers.js:149-182 | the server message is always present afterwards; with no `tempId` it is appended; when the `tempId` is found the length is kept or one smaller, and a pair of copies becomes one; when it is not found it is appended only if its id is absent |
| EventHandlers.AfterSent | chitshare.extension/media/event-handlers.js:149-182 | definition of the list after `handleMessageSent`; `AfterSentCases` states its cases |
| EventHandlers.HandleMessageSent | chitshare.extension/media/event-handlers.js:149-182 | the list becomes `AfterSent` of the old list, and no other field changes |
| EventHandlers.HandleNewMessages | chitshare.extension/media/event-handlers.js:184-194 | the old list is an unchanged prefix, followed by the incoming messages with new ids, in order |
| EventHandlers.HandleOlderMessages | chitshare.extension/media/event-handlers.js:196-209 | the old list is an unchanged suffix after the older messages with new ids; `loadingMore` becomes false and `hasMore` defaults to false |
| EventHandlers.FreshIdsAreNew | chitshare.extension/media/event-handlers.js:186-187 | every added message has a new id, and every incoming message with a new id is added |
| EventHandlers.LoadMoreMessages | chitshare.extension/media/event-handlers.js:601-619 | a request is made exactly when not loading, more exist, a chat is open and the list is non-empty; then `loadingMore` is set and the cursor is the first message's time |
| EventHandlers.SendMessage | chitshare.extension/media/event-handlers.js:557-588 | nothing happens when the trimmed input is empty or no chat is open; otherwise exactly one pending message with the trimmed content and the `temp-` id is appended and sent |
| EventHandlers.Logout | chitshare.extension/media/event-handlers.js:83-91 | user, chat, conversations, groups and messages are reset, and the view becomes `login` |
| EventHandlers.HandleSendError | chitshare.extension/media/event-handlers.js:69-76 | with a `tempId`, only the first message with it becomes failed; without one the list is unchanged |
| UiComponents.FormatTextContent | chitshare.extension/media/ui-components.js:381-397 | the output is wrapped in `<p>`…`</p>` and contains no line feed |
| UiComponents.Inline | chitshare.extension/media/ui-components.js:385-391 | definition of the inline-code, bold and italic replacements, in that order |
| UiComponents.PlainTextIsWrapped | chitshare.extension/media/ui-components.js:381-397 | text with no `&`, `<`, `>`, no-break space, backtick or asterisk is only wrapped, with each line feed turned into `<br>` |
| UiComponents.ApostropheStaysRaw | chitshare.extension/media/ui-components.js:381-397 | an apostrophe of the text reaches the paragraph raw: the text-node escaper keeps it and no later step removes it |
| UiComponents.TagsKeepApostrophe | chitshare.extension/media/ui-components.js:385-391 | the inline-code, bold and italic tags keep the text they wrap |
| UiComponents.BlockOf | chitshare.extension/media/ui-components.js:352-374 | a code part renders as a code block with the given number; a text part as a text block |
| UiComponents.BlocksOf | chitshare.extension/media/ui-components.js:351-376 | one block per part |
| UiComponents.BlocksFollowParts | chitshare.extension/media/ui-components.js:351-376 | block `i` renders part `i` with the number of code parts before it, offset by the counter |
| UiComponents.BlockAt | chitshare.extension/media/ui-components.js:351-376 | the same, for one index |
| UiComponents.BlocksMatch | chitshare.extension/media/ui-components.js:351-376 | a list that agrees with this rule at every index is `BlocksOf` |
| UiComponents.CodesBefore | chitshare.extension/media/ui-components.js:353 | a code part at `i` makes the count of code parts before `j > i` strictly larger |
| UiComponents.CodeNumbersIncrease | chitshare.extension/media/ui-components.js:353 | code blocks get distinct, strictly increasing numbers within the counter's new range |
| UiComponents.MessageFormatter.constructor | chitshare.extension/media/ui-components.js:340 | the counter starts at 0 |
| UiComponents.MessageFormatter.FormatMessageContent | chitshare.extension/media/ui-components.js:341-379 | empty content gives no block; otherwise one block per parsed part, in order, and the counter grows by the number of code parts |
| UiComponents.MessageFormatter.FormatParts | chitshare.extension/media/ui-components.js:351-376 | the loop emits `BlocksOf` the parts and advances the counter by the number of code parts |
| UiComponents.StatusClass | chitshare.extension/media/ui-components.js:247-249 | `' pending'` for a pending message, `' error'` for a failed one, and empty exactly for a settled one |
| UiComponents.StatusClassDistinguishes | chitshare.extension/media/ui-components.js:247-249 | different statuses get different classes |
| Auth.ExtractToken | chitshare.server/src/lib/auth.ts:52-57 | a token exists exactly when the header starts with `Bearer ` (case and space included); the header is then that prefix followed by the token |
| Auth.ExtractTokenRoundTrip | chitshare.server/src/lib/auth.ts:53-56 | `extractToken("Bearer " + t)` is `t` for every `t`, the empty one included |
| Auth.ExtractTokenNeedsExactPrefix | chitshare.server/src/lib/auth.ts:53-55 | Illustration only, of the general iff in `ExtractToken`: a missing header, a lower-case `bearer` and a missing space all give null |
| Auth.UserFromRequest | chitshare.server/src/lib/auth.ts:62-76 | a user is found only through a non-empty token that verifies, looked up by the payload's user id |
| Auth.BareBearerHasNoUser | chitshare.server/src/lib/auth.ts:64-68 | the header `Bearer ` gives the empty token and so no user, before any verification |
| Auth.VerifiedTokenIsLookedUp | chitshare.server/src/lib/auth.ts:70-76 | a non-empty token that verifies leads to the lookup of its user id |
| Proxy.Guard | chitshare.server/src/proxy.ts:5-36 | every redirect goes to `/login` or `/chat` |
| Proxy.IsProtectedRoute | chitshare.server/src/proxy.ts:9 | definition of the `/chat` prefix test |
| Proxy.IsAdminRoute | chitshare.server/src/proxy.ts:10 | definition of the `/admin` prefix test |
| Proxy.UnguardedPathsPass | chitshare.server/src/proxy.ts:9-12 | a path starting with neither `/chat` nor `/admin` passes with no token check |
| Proxy.GuardedNeedsValidToken | chitshare.server/src/proxy.ts:13-24 | a guarded path redirects to `/login` exactly when the token is missing, empty or fails verification |
| Proxy.ValidSessionDecides | chitshare.server/src/proxy.ts:27-35 | an admin session passes everywhere; a non-admin one is sent to `/chat` from `/admin` paths and passes elsewhere |
| Proxy.PrefixTestIsLoose | chitshare.server/src/proxy.ts:9-10 | `/chatter` and `/administrator` are guarded as well |
| Proxy.LoginPagePasses | chitshare.server/src/proxy.ts:9-12 | the login page is never redirected, so there is no redirect loop |
| Conversations.FirstInvolving | chitshare.server/src/app/api/messages/conversations/route.ts:42-46 | the index found is the first message whose other user has the id |
| Conversations.UserIds | chitshare.server/src/app/api/messages/conversations/route.ts:46 | the map's keys, one per conversation |
| Conversations.FirstInvolvingStep | chitshare.server/src/app/api/messages/conversations/route.ts:42-46 | extending the list keeps an earlier first message |
| Conversations.GroupedStep | chitshare.server/src/app/api/messages/conversations/route.ts:42-62 | one iteration skips a message with no other user or a known one, and otherwise inserts a conversation |
| Conversations.GroupedComplete | chitshare.server/src/app/api/messages/conversations/route.ts:42-62 | every message with another user yields a conversation with that user |
| Conversations.GroupedDistinct | chitshare.server/src/app/api/messages/conversations/route.ts:46-64 | each other user appears at most once |
| Conversations.GroupedFromFirst | chitshare.server/src/app/api/messages/conversations/route.ts:43-60 | a conversation's last message is the first one in input order involving that user, with that user and the unread count computed for them |
| Conversations.ConversationUserAppears | chitshare.server/src/app/api/messages/conversations/route.ts:43-44 | every conversation's user takes part in some message |
| Conversations.AbsentUserUninvolved | chitshare.server/src/app/api/messages/conversations/route.ts:42-62 | a user with no conversation takes part in no message |
| Conversations.GroupedInOrder | chitshare.server/src/app/api/messages/conversations/route.ts:56-64 | conversations are in the order of each user's first appearance |
| Conversations.TracksSet | chitshare.server/src/app/api/messages/conversations/route.ts:56-60 | inserting a new key keeps the map and its insertion order in step with the list |
| Conversations.TracksValues | chitshare.server/src/app/api/messages/conversations/route.ts:64 | `Array.from(map.values())` gives the conversations in insertion order |
| Conversations.GroupConversations | chitshare.server/src/app/api/messages/conversations/route.ts:42-64 | the loop computes `Grouped` |
| Conversations.Grouped | chitshare.server/src/app/api/messages/conversations/route.ts:42-64 | definition of the conversation list by recursion on the messages; the lemmas above state its properties |
| Conversations.OtherUser | chitshare.server/src/app/api/messages/conversations/route.ts:43 | definition of the other party of a direct message |
| ChatManager.ChatPath | chitshare.extension/src/ChatManager.ts:157-167 | a dm is sent to the dm path and a group to the group path |
| ChatManager.IdSetSnoc | chitshare.extension/src/ChatManager.ts:239-241 | adding one message adds its id |
| ChatManager.UnknownMessages | chitshare.extension/src/ChatManager.ts:286 | a polled message is new exactly when its id is unknown; order is kept |
| ChatManager.Unknown | chitshare.extension/src/ChatManager.ts:286 | definition of the polled messages with unknown ids |
| ChatManager.PollCoversPolled | chitshare.extension/src/ChatManager.ts:286-292 | after adding the new ids, every polled id is known |
| ChatManager.SecondPollFindsNothing | chitshare.extension/src/ChatManager.ts:286-292 | polling the same messages again reports none |
| ChatManager.ToNotify | chitshare.extension/src/ChatManager.ts:300-307 | only new messages from other senders are notified, and none when there is no current user |
| ChatManager.OthersAreNotified | chitshare.extension/src/ChatManager.ts:300-307 | every new message from another sender is notified |
| ChatManager.ChatManager.constructor | chitshare.extension/src/ChatManager.ts:58-60 | no chat, no known ids and no timer at the start |
| ChatManager.ChatManager.SetCurrentChat | chitshare.extension/src/ChatManager.ts:190-197 | a chat empties the known ids; null leaves them intact |
| ChatManager.ChatManager.InitializeKnownMessages | chitshare.extension/src/ChatManager.ts:237-242 | the known ids become exactly the given messages' ids |
| ChatManager.ChatManager.AddAll | chitshare.extension/src/ChatManager.ts:290-292 | the loop adds every message's id and nothing else |
| ChatManager.ChatManager.AddKnownMessage | chitshare.extension/src/ChatManager.ts:247-249 | exactly the one id is added |
| ChatManager.ChatManager.SendDM | chitshare.extension/src/ChatManager.ts:125-136 | the post goes to the dm path, and only the returned id is added |
| ChatManager.ChatManager.SendGroupMessage | chitshare.extension/src/ChatManager.ts:141-152 | the post goes to the group path, and only the returned id is added |
| ChatManager.ChatManager.SendMessage | chitshare.extension/src/ChatManager.ts:157-167 | with no current chat nothing is sent and null is returned; otherwise the send matching the chat kind |
| ChatManager.ChatManager.DeleteConversation | chitshare.extension/src/ChatManager.ts:172-185 | the chat is cleared only when it is the dm with that user |
| ChatManager.ChatManager.PollNewMessages | chitshare.extension/src/ChatManager.ts:275-310 | with a chat, the new messages are the unknown polled ones in order, every polled id becomes known, and others' messages are notified; with none, nothing changes |
| ChatManager.ChatManager.StartPolling | chitshare.extension/src/ChatManager.ts:254-263 | a timer is installed exactly when none exists |
| ChatManager.ChatManager.StopPolling | chitshare.extension/src/ChatManager.ts:320-325 | the timer is reset to null, and nothing else changes |

## Left out

- Network, database and persistence are not modelled.
  - The API client and every other route handler are left out, as are Prisma queries and
    `localStorage`.
  - The database unread count is the parameter `unread` of `Conversations.Grouped`.
  - Responses are parameters of the `ChatManager` and `EventHandlers` methods.
- Cryptography is passed in as function parameters: `verifyToken` and the user lookup in
  `Auth`, and `verifySession` in `Proxy`.
- The per-language regex tables of `MessageContent.tsx` (32-227) are not reproduced. Each
  pattern is a `Pattern(table, index)`, tested by an uninterpreted `Matcher` parameter. No
  concrete language outcome is claimed.
- Text is ASCII only. `\s`, `\w`, `trim`, `toLowerCase` and `toUpperCase` are modelled on
  ASCII, and Unicode white space and case mappings are not.
- `utils.js` `escapeHtml` (10-17) works through the DOM: it sets a text node and reads back
  `innerHTML`. The model writes out what the HTML serializer does to a text node, which is
  `Html.EscapeText`: `&`, `<`, `>` and the no-break space become entities and quotes stay raw.
  The DOM itself is not modelled, and no other character is claimed to be escaped.
- `renderMarkdown` relies on the `marked` library and is not part of this model.
- Randomness and clocks become inputs.
  - `Math.random` in `getNonce` is the sequence `draws` of reals in [0, 1).
  - `Date.now()`, the ISO time and `uuidv4` are parameters of `EventHandlers.SendMessage`.
- The random suffix of code-block ids is not modelled. The counter part of those ids is.
- Timers, `setInterval`, `async` and concurrency are not modelled.
  - `ChatManager.ChatManager.StartPolling` records a timer handle.
  - The interval body's message step is `ChatManager.ChatManager.PollNewMessages`.
  - The conversations-list refresh in the poll body is left out, because it is only an API
    call and a callback.
  - `getCurrentUser` is the parameter `currentUserId`.
  - Callbacks are represented by the lists the method returns.
- `formatFileSize`: only the unit is modelled. The `toFixed(1)` text is floating point.
- `encodeCode`/`decodeCode` (base64) and the HTML template text of code blocks are left out.
  `UiComponents.Block` records the part and the block number.
- The DOM, scrolling, `render`, `postMessage` and `saveState` are left out, as are
  `handleInit`, the `searchResults` case and `highlightedCode`.
- `code-detection.js`, which the webview imports, is not part of this model. The webview's
  `parseMessage` is modelled by `MessageContent.MessageParts`.
- Fields that no modelled operation reads are omitted: `avatarUrl`, `isOnline`, message
  `type` and the group details.
- `Proxy.PrefixTestIsLoose` is a fact about the `proxy` function. The framework's
  `config.matcher` (`proxy.ts:38-52`) is not modelled, and it decides which paths reach
  the function.
- `Strings.Trim`: its own contract states only the non-space ends. The slice property is the
  lemma `Strings.TrimIsSlice`, kept out of the function's contract so that the proofs of its
  callers stay small.
- `Previews.Cut`: the function has no contract of its own; its properties are stated by
  `Previews.CutFacts`.
- `Sidebar.FileLanguage`: the function has no contract of its own; its values are those of
  `Sidebar.ExtensionLanguage` on the file's extension, and `Sidebar.FileLanguageAgrees`
  relates it to the code as written.
- `ChatManager.ChatManager.PollNewMessages` does not model the poll's
  `onNotificationCallback`/`onNewMessagesCallback` presence checks. The notification list is
  always computed.

## Findings

| source | as written | input that shows it | evidently intended | confidence | as-written member | corrected member |
|---|---|---|---|---|---|---|
| chitshare.server/src/components/MessageContent.tsx:325 | `LANG_ALIASES[rawLang]` reads inherited `Object.prototype` members | a fence tagged `constructor` (or `__proto__`) gets the `Object` function as its language, not a string | an unaliased tag is its lowered text, here `"constructor"` | not executed | MessageContent.ConstructorTagIsNotAString | MessageContent.FenceLanguage |
| chitshare.extension/src/SidebarProvider.ts:445 | `langMap[language.toLowerCase()]` reads inherited members | opening code tagged `constructor` passes a function as the editor language | an unmapped language passes through unchanged | not executed | Sidebar.ConstructorLanguageIsNotAString | Sidebar.EditorLanguage |
| chitshare.extension/src/SidebarProvider.ts:551 | `langMap[ext]` reads inherited members | a file named `x.constructor` opens with a function as its language | an unknown extension gives `plaintext` | not executed | Sidebar.ConstructorExtensionIsNotAString | Sidebar.ExtensionLanguage |
