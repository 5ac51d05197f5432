/**
 * The code heuristics of MessageContent.tsx: counting pattern matches, guessing a
 * language from per-language scores, and deciding whether an unfenced message looks
 * like source code at all.
 *
 * The per-language regular expressions are left uninterpreted: a `Matcher` says
 * whether a given pattern matches a given text, and everything proved here holds
 * for every matcher. The "not code" patterns and the structural bonuses are written
 * out, because the heuristic's decisive rules depend on them.
 */
module CodeDetection {
  import opened Strings

  /** The pattern tables, in the order the source declares them. */
  datatype Table = JsTs | React | Python | JavaKotlin | CCpp | Go | Rust | Sql | Css | Html | Json | Shell | Yaml

  /** The number of regular expressions each table holds. */
  function TableSize(t: Table): nat {
    match t
    case JsTs => 24
    case React => 8
    case Python => 17
    case JavaKotlin => 12
    case CCpp => 15
    case Go => 12
    case Rust => 14
    case Sql => 12
    case Css => 9
    case Html => 5
    case Json => 3
    case Shell => 10
    case Yaml => 5
  }

  /** One regular expression: entry `index` of `table`. */
  datatype Pattern = Pattern(table: Table, index: int)

  /** `pattern.test(text)`, left uninterpreted. */
  type Matcher = (Pattern, string) -> bool

  function Patterns(t: Table): (ps: seq<Pattern>)
    ensures |ps| == TableSize(t)
    ensures forall i :: 0 <= i < |ps| ==> ps[i] == Pattern(t, i)
  {
    seq(TableSize(t), i => Pattern(t, i))
  }

  /** Every table spread into one list, as `looksLikeCode` builds `allPatterns`. */
  function AllPatterns(): seq<Pattern> {
    Patterns(JsTs) + Patterns(React) + Patterns(Python) + Patterns(JavaKotlin) + Patterns(CCpp)
    + Patterns(Go) + Patterns(Rust) + Patterns(Sql) + Patterns(Css) + Patterns(Html)
    + Patterns(Json) + Patterns(Shell) + Patterns(Yaml)
  }

  /** How many of the first `n` entries of `patterns` match `text`. */
  function CountFirst(text: string, patterns: seq<Pattern>, n: nat, m: Matcher): (c: nat)
    requires n <= |patterns|
    ensures c <= n
  {
    if n == 0 then 0
    else CountFirst(text, patterns, n - 1, m) + (if m(patterns[n - 1], text) then 1 else 0)
  }

  function CountMatches(text: string, patterns: seq<Pattern>, m: Matcher): (n: nat)
  {
    CountFirst(text, patterns, |patterns|, m)
  }

  /** `matchPatterns` (lines 237-243): the number of patterns that match. */
  method MatchPatterns(text: string, patterns: seq<Pattern>, m: Matcher) returns (count: nat)
    ensures count == CountMatches(text, patterns, m)
  {
    count := 0;
    for i := 0 to |patterns|
      invariant count == CountFirst(text, patterns, i, m)
    {
      if m(patterns[i], text) {
        count := count + 1;
      }
    }
  }

  // ---------------------------------------------------------------------------
  // detectLanguage
  // ---------------------------------------------------------------------------

  /** The scored languages, in the declaration order that breaks ties. */
  const Languages: seq<string> := ["javascript", "typescript", "tsx", "python", "java", "cpp", "go",
                                   "rust", "sql", "css", "html", "json", "bash", "yaml"]

  /** The blunt TypeScript marker of line 248. */
  predicate HasTypeScriptMarker(code: string) {
    Contains(code, ": string") || Contains(code, ": number") || Contains(code, "interface ")
  }

  /** The `scores` record of `detectLanguage`: one field per language. */
  datatype Scoreboard = Scoreboard(
    javascript: nat, typescript: nat, tsx: nat, python: nat, java: nat, cpp: nat, go: nat,
    rust: nat, sql: nat, css: nat, html: nat, json: nat, bash: nat, yaml: nat)

  /** `Object.entries(scores)`: the scores in the order the fields were written, as in `Languages`. */
  function Entries(b: Scoreboard): (s: seq<nat>)
    ensures |s| == |Languages|
  {
    [b.javascript, b.typescript, b.tsx, b.python, b.java, b.cpp, b.go,
     b.rust, b.sql, b.css, b.html, b.json, b.bash, b.yaml]
  }

  /** What each language scores on `code` (lines 246-261). */
  function ScoresOf(code: string, m: Matcher): Scoreboard {
    var js := CountMatches(code, Patterns(JsTs), m);
    Scoreboard(
      js,
      js + (if HasTypeScriptMarker(code) then 3 else 0),
      js + CountMatches(code, Patterns(React), m),
      CountMatches(code, Patterns(Python), m),
      CountMatches(code, Patterns(JavaKotlin), m),
      CountMatches(code, Patterns(CCpp), m),
      CountMatches(code, Patterns(Go), m),
      CountMatches(code, Patterns(Rust), m),
      CountMatches(code, Patterns(Sql), m),
      CountMatches(code, Patterns(Css), m),
      CountMatches(code, Patterns(Html), m),
      CountMatches(code, Patterns(Json), m),
      CountMatches(code, Patterns(Shell), m),
      CountMatches(code, Patterns(Yaml), m))
  }

  /** The score held by candidate `k`, where -1 stands for the initial `"text"` with score 0. */
  function LeadScore(s: seq<nat>, k: int): nat
    requires -1 <= k < |s|
  {
    if k < 0 then 0 else s[k]
  }

  /**
   * The candidate left after scanning the first `n` scores and replacing the
   * leader only on a strictly higher score; -1 while nothing beat 0.
   */
  function Leader(s: seq<nat>, n: nat): (k: int)
    requires n <= |s|
    ensures -1 <= k < n
  {
    if n == 0 then -1
    else
      var k := Leader(s, n - 1);
      if s[n - 1] > LeadScore(s, k) then n - 1 else k
  }

  /** `k` is the first position holding the largest score, and that score is positive. */
  predicate IsFirstMaximum(s: seq<nat>, n: nat, k: int)
    requires n <= |s|
  {
    0 <= k < n && s[k] > 0
    && (forall j :: 0 <= j < n ==> s[j] <= s[k])
    && (forall j :: 0 <= j < k ==> s[j] < s[k])
  }

  /** The strict-`>` scan picks the first maximum, or nothing when every score is 0. */
  lemma {:induction false} LeaderIsFirstMaximum(s: seq<nat>, n: nat)
    requires n <= |s|
    ensures Leader(s, n) >= 0 ==> IsFirstMaximum(s, n, Leader(s, n))
    ensures Leader(s, n) < 0 <==> forall j :: 0 <= j < n ==> s[j] == 0
  {
    if n > 0 {
      LeaderIsFirstMaximum(s, n - 1);
    }
  }

  /** A first maximum is unique. */
  lemma FirstMaximumUnique(s: seq<nat>, n: nat, k1: int, k2: int)
    requires n <= |s| && IsFirstMaximum(s, n, k1) && IsFirstMaximum(s, n, k2)
    ensures k1 == k2
  {
  }

  lemma LanguagesDistinct()
    ensures forall i, j :: 0 <= i < j < |Languages| ==> Languages[i] != Languages[j]
    ensures "text" !in Languages
  {
  }

  /** The language the strict-`>` scan over `scores` settles on, `"text"` when none scored. */
  function Winner(scores: seq<nat>): (lang: string)
    requires |scores| == |Languages|
    ensures lang == "text" || lang in Languages
  {
    var k := Leader(scores, |Languages|);
    if k < 0 then "text" else Languages[k]
  }

  /** The scan answers `"text"` exactly when every score is 0. */
  lemma WinnerIsTextIffNoScore(scores: seq<nat>)
    requires |scores| == |Languages|
    ensures Winner(scores) == "text" <==> forall j :: 0 <= j < |scores| ==> scores[j] == 0
  {
    LeaderIsFirstMaximum(scores, |Languages|);
    LanguagesDistinct();
  }

  /** A language the scan answers holds the first maximum... */
  lemma WinnerIsFirstMaximum(scores: seq<nat>, k: nat)
    requires |scores| == |Languages| && k < |Languages| && Winner(scores) == Languages[k]
    ensures IsFirstMaximum(scores, |Languages|, k)
  {
    LeaderIsFirstMaximum(scores, |Languages|);
    LanguagesDistinct();
    var l := Leader(scores, |Languages|);
    assert l >= 0 && Languages[l] == Languages[k];
  }

  /** ...and the first maximum is what the scan answers. */
  lemma FirstMaximumWins(scores: seq<nat>, k: nat)
    requires |scores| == |Languages| && IsFirstMaximum(scores, |Languages|, k)
    ensures Winner(scores) == Languages[k]
  {
    LeaderIsFirstMaximum(scores, |Languages|);
    FirstMaximumUnique(scores, |Languages|, k, Leader(scores, |Languages|));
  }

  /** The loop and the final test of `detectLanguage` (lines 263-271). */
  method PickLanguage(scores: seq<nat>) returns (lang: string)
    requires |scores| == |Languages|
    ensures lang == Winner(scores)
  {
    var maxLang := "text";
    var maxScore := 0;
    for i := 0 to |Languages|
      invariant maxScore == LeadScore(scores, Leader(scores, i))
      invariant maxLang == if Leader(scores, i) < 0 then "text" else Languages[Leader(scores, i)]
    {
      if scores[i] > maxScore {
        maxScore := scores[i];
        maxLang := Languages[i];
      }
    }
    LeaderIsFirstMaximum(scores, |Languages|);
    lang := if maxScore >= 1 then maxLang else "text";
  }

  /** The language `detectLanguage` returns. */
  function DetectedLanguage(code: string, m: Matcher): (lang: string)
    ensures lang == "text" || lang in Languages
  {
    Winner(Entries(ScoresOf(code, m)))
  }

  /** javascript, declared first, wins only when typescript and tsx score no higher. */
  lemma JavaScriptWinsOnlyUntied(b: Scoreboard)
    requires Winner(Entries(b)) == "javascript"
    ensures b.typescript <= b.javascript && b.tsx <= b.javascript
  {
    var s := Entries(b);
    WinnerIsFirstMaximum(s, 0);
    assert s[1] <= s[0] && s[2] <= s[0];
  }

  /**
   * `"javascript"` comes back only when no TypeScript marker occurs and no React
   * pattern matches: otherwise typescript or tsx would score strictly higher.
   */
  lemma JavaScriptOnlyWithoutTypeScriptSigns(code: string, m: Matcher)
    requires DetectedLanguage(code, m) == "javascript"
    ensures !HasTypeScriptMarker(code)
    ensures CountMatches(code, Patterns(React), m) == 0
  {
    JavaScriptWinsOnlyUntied(ScoresOf(code, m));
  }

  /** `detectLanguage` (lines 245-272). */
  method DetectLanguage(code: string, m: Matcher) returns (lang: string)
    ensures lang == DetectedLanguage(code, m)
  {
    var scores := ComputeScores(code, m);
    lang := PickLanguage(Entries(scores));
  }

  /** The `scores` record of lines 246-261. */
  method ComputeScores(code: string, m: Matcher) returns (scores: Scoreboard)
    ensures scores == ScoresOf(code, m)
  {
    var js := MatchPatterns(code, Patterns(JsTs), m);
    var tsBase := MatchPatterns(code, Patterns(JsTs), m);
    var ts := tsBase + (if HasTypeScriptMarker(code) then 3 else 0);
    var tsxBase := MatchPatterns(code, Patterns(JsTs), m);
    var react := MatchPatterns(code, Patterns(React), m);
    var tsx := tsxBase + react;
    var python := MatchPatterns(code, Patterns(Python), m);
    var java := MatchPatterns(code, Patterns(JavaKotlin), m);
    var cpp := MatchPatterns(code, Patterns(CCpp), m);
    var go := MatchPatterns(code, Patterns(Go), m);
    var rust := MatchPatterns(code, Patterns(Rust), m);
    var sql := MatchPatterns(code, Patterns(Sql), m);
    var css := MatchPatterns(code, Patterns(Css), m);
    var html := MatchPatterns(code, Patterns(Html), m);
    var json := MatchPatterns(code, Patterns(Json), m);
    var bash := MatchPatterns(code, Patterns(Shell), m);
    var yaml := MatchPatterns(code, Patterns(Yaml), m);
    scores := Scoreboard(js, ts, tsx, python, java, cpp, go, rust, sql, css, html, json, bash, yaml);
  }

  // ---------------------------------------------------------------------------
  // looksLikeCode
  // ---------------------------------------------------------------------------

  const GreetingWords: seq<string> := ["hi", "hello", "hey", "thanks", "ok", "yes", "no", "sure", "okay",
                                       "please", "sorry", "thank you", "bye", "goodbye"]
  const QuestionWords: seq<string> := ["what", "how", "why", "when", "where", "who", "can", "could", "would",
                                       "should", "is", "are", "do", "does", "did", "have", "has", "had"]
  const Subjects: seq<string> := ["i", "you", "we", "they", "he", "she", "it"]
  const Verbs: seq<string> := ["am", "is", "are", "was", "were", "will", "would", "can", "could", "should",
                               "have", "has", "had"]

  /** Case-insensitive (`/i`) occurrence of the lower-case `word` at `at`. */
  predicate WordAt(t: string, at: nat, word: string) {
    at + |word| <= |t| && Lower(t[at..at + |word|]) == word
  }

  /** The characters `[^{};=<>]` excludes. */
  predicate IsCodePunctuation(c: char) {
    c == '{' || c == '}' || c == ';' || c == '=' || c == '<' || c == '>'
  }

  /** `[^{};=<>]*$` from `from` on. */
  predicate NoCodePunctuationFrom(t: string, from: nat) {
    forall k :: from <= k < |t| ==> !IsCodePunctuation(t[k])
  }

  /** `[\s!?.]*$` from `from` on. */
  predicate GreetingTailFrom(t: string, from: nat) {
    forall k :: from <= k < |t| ==> IsSpace(t[k]) || t[k] == '!' || t[k] == '?' || t[k] == '.'
  }

  /** The end of the run of white space starting at `i`. */
  function SpaceRunEnd(t: string, i: nat): (r: nat)
    requires i <= |t|
    decreases |t| - i
    ensures i <= r <= |t|
    ensures forall k :: i <= k < r ==> IsSpace(t[k])
    ensures r == |t| || !IsSpace(t[r])
  {
    if i < |t| && IsSpace(t[i]) then SpaceRunEnd(t, i + 1) else i
  }

  /** Line 231 with the alternative `w`: `w`, then only white space and `!?.`. */
  predicate GreetingClause(t: string, w: string) {
    WordAt(t, 0, w) && GreetingTailFrom(t, |w|)
  }

  /** Line 232 with the alternative `w`: `w`, no code punctuation, and a final `?`. */
  predicate QuestionClause(t: string, w: string) {
    WordAt(t, 0, w) && |w| < |t| && t[|t| - 1] == '?' && NoCodePunctuationFrom(t, |w|)
  }

  /** The `(am|is|...)\s+[^{};=<>]*$` tail of line 233 with the verb `v` at `p`. */
  predicate VerbClause(t: string, p: nat, v: string) {
    WordAt(t, p, v) && p + |v| < |t| && IsSpace(t[p + |v|]) && NoCodePunctuationFrom(t, p + |v|)
  }

  /** Some alternative of `words` passes `GreetingClause`. */
  predicate GreetingWith(t: string, words: seq<string>)
    decreases |words|
  {
    |words| > 0 && (GreetingClause(t, words[0]) || GreetingWith(t, words[1..]))
  }

  /** Some alternative of `words` passes `QuestionClause`. */
  predicate QuestionWith(t: string, words: seq<string>)
    decreases |words|
  {
    |words| > 0 && (QuestionClause(t, words[0]) || QuestionWith(t, words[1..]))
  }

  /** Some alternative of `verbs` passes `VerbClause` at `p`. */
  predicate VerbWith(t: string, p: nat, verbs: seq<string>)
    decreases |verbs|
  {
    |verbs| > 0 && (VerbClause(t, p, verbs[0]) || VerbWith(t, p, verbs[1..]))
  }

  /**
   * Line 233 with the subject `s`. Every verb starts with a letter, so the `\s+`
   * between subject and verb can only end where the run of white space ends.
   */
  predicate SubjectClause(t: string, s: string) {
    WordAt(t, 0, s) && SpaceRunEnd(t, |s|) > |s| && VerbWith(t, SpaceRunEnd(t, |s|), Verbs)
  }

  /** Some alternative of `subjects` passes `SubjectClause`. */
  predicate StatementWith(t: string, subjects: seq<string>)
    decreases |subjects|
  {
    |subjects| > 0 && (SubjectClause(t, subjects[0]) || StatementWith(t, subjects[1..]))
  }

  predicate IsGreeting(t: string) {
    GreetingWith(t, GreetingWords)
  }

  predicate IsQuestion(t: string) {
    QuestionWith(t, QuestionWords)
  }

  predicate IsStatement(t: string) {
    StatementWith(t, Subjects)
  }

  /** `[\w\s,.'!?-]`. */
  predicate IsPlainChar(c: char) {
    IsWordChar(c) || IsSpace(c) || c == ',' || c == '.' || c == '\'' || c == '!' || c == '?' || c == '-'
  }

  /** Line 234: one to fifty plain characters. */
  predicate IsShortPlain(t: string) {
    1 <= |t| <= 50 && forall k :: 0 <= k < |t| ==> IsPlainChar(t[k])
  }

  /** `NOT_CODE_PATTERNS[i].test(t)` (lines 230-235). */
  predicate NotCodePattern(i: nat, t: string) {
    if i == 0 then IsGreeting(t)
    else if i == 1 then IsQuestion(t)
    else if i == 2 then IsStatement(t)
    else if i == 3 then IsShortPlain(t)
    else false
  }

  const NotCodePatternCount: nat := 4

  predicate IsConversational(t: string) {
    exists i :: 0 <= i < NotCodePatternCount && NotCodePattern(i, t)
  }

  /** `/\n\s{2,}/`. */
  predicate HasIndentation(s: string) {
    exists i :: 0 <= i < |s| - 2 && s[i] == '\n' && IsSpace(s[i + 1]) && IsSpace(s[i + 2])
  }

  /** `/[{}]/`. */
  predicate HasBraces(s: string) {
    '{' in s || '}' in s
  }

  /** `(text.match(/\n/g) || []).length >= 1`. */
  predicate HasMultipleLines(s: string) {
    '\n' in s
  }

  /** `/;\s*(\n|$)/`: a semicolon, white space, then a line feed or the end of the text. */
  predicate HasSemicolons(s: string) {
    exists i, j :: 0 <= i < j <= |s| && s[i] == ';' && (forall k :: i < k < j ==> IsSpace(s[k]))
      && (j == |s| || s[j] == '\n')
  }

  /** `/\([^)]*\)/`. */
  predicate HasParens(s: string) {
    exists i, j :: 0 <= i < j < |s| && s[i] == '(' && s[j] == ')' && forall k :: i < k < j ==> s[k] != ')'
  }

  /** `/[=!<>]=|&&|\|\|/`. */
  predicate HasOperators(s: string) {
    exists i :: 0 <= i < |s| - 1 &&
      (((s[i] == '=' || s[i] == '!' || s[i] == '<' || s[i] == '>') && s[i + 1] == '=')
       || (s[i] == '&' && s[i + 1] == '&') || (s[i] == '|' && s[i + 1] == '|'))
  }

  /** The structural bonuses of lines 297-301. */
  function StructuralBonus(s: string): nat {
    (if HasIndentation(s) then 3 else 0)
    + (if HasBraces(s) && HasMultipleLines(s) then 2 else 0)
    + (if HasSemicolons(s) then 1 else 0)
    + (if HasOperators(s) then 1 else 0)
    + (if HasParens(s) && HasMultipleLines(s) then 1 else 0)
  }

  /** `codeScore` once the bonuses are added. */
  function CodeScore(text: string, m: Matcher): nat {
    CountMatches(text, AllPatterns(), m) + StructuralBonus(text)
  }

  /** What `looksLikeCode` answers. */
  predicate IsCodeLike(text: string, m: Matcher) {
    |text| >= 10 && !IsConversational(Trim(text)) && CodeScore(text, m) >= 2
  }

  /** `looksLikeCode` (lines 274-304). */
  method LooksLikeCode(text: string, m: Matcher) returns (r: bool)
    ensures r == IsCodeLike(text, m)
    ensures |text| < 10 ==> !r
    ensures IsConversational(Trim(text)) ==> !r
  {
    if |text| < 10 {
      return false;
    }
    var conversational := MatchesNotCode(Trim(text));
    if conversational {
      return false;
    }
    var codeScore := ScoreCode(text, m);
    return codeScore >= 2;
  }

  /** The `NOT_CODE_PATTERNS` loop of lines 277-279. */
  method MatchesNotCode(trimmed: string) returns (r: bool)
    ensures r == IsConversational(trimmed)
  {
    for i := 0 to NotCodePatternCount
      invariant forall j :: 0 <= j < i ==> !NotCodePattern(j, trimmed)
    {
      if NotCodePattern(i, trimmed) {
        return true;
      }
    }
    return false;
  }

  /** The score of lines 281-301: pattern matches plus the structural bonuses. */
  method ScoreCode(text: string, m: Matcher) returns (codeScore: nat)
    ensures codeScore == CodeScore(text, m)
  {
    codeScore := MatchPatterns(text, AllPatterns(), m);
    var multipleLines := HasMultipleLines(text);
    if HasIndentation(text) {
      codeScore := codeScore + 3;
    }
    if HasBraces(text) && multipleLines {
      codeScore := codeScore + 2;
    }
    if HasSemicolons(text) {
      codeScore := codeScore + 1;
    }
    if HasOperators(text) {
      codeScore := codeScore + 1;
    }
    if HasParens(text) && multipleLines {
      codeScore := codeScore + 1;
    }
  }

  predicate BraceFree(w: string) {
    '{' !in w && '}' !in w
  }

  lemma GreetingWordsBraceFree()
    ensures forall w :: w in GreetingWords ==> BraceFree(w)
  {
  }

  lemma QuestionWordsBraceFree()
    ensures forall w :: w in QuestionWords ==> BraceFree(w)
  {
  }

  lemma SubjectsBraceFree()
    ensures forall w :: w in Subjects ==> BraceFree(w)
  {
  }

  lemma VerbsBraceFree()
    ensures forall w :: w in Verbs ==> BraceFree(w)
  {
  }

  /** Where a brace-free word occurs, `t` holds no brace. */
  lemma WordAtExcludesBraces(t: string, at: nat, w: string)
    requires WordAt(t, at, w) && BraceFree(w)
    ensures forall k :: at <= k < at + |w| ==> t[k] != '{' && t[k] != '}'
  {
    forall k | at <= k < at + |w| ensures t[k] != '{' && t[k] != '}' {
      assert Lower(t[at..at + |w|])[k - at] == LowerChar(t[k]);
    }
  }

  /** The positions of `t` below `upto` hold no brace. */
  predicate BraceFreeBelow(t: string, upto: nat) {
    forall k :: 0 <= k < upto && k < |t| ==> t[k] != '{' && t[k] != '}'
  }

  lemma {:induction false} GreetingHasNoBraces(t: string, words: seq<string>)
    requires GreetingWith(t, words) && forall w :: w in words ==> BraceFree(w)
    ensures BraceFreeBelow(t, |t|)
  {
    if GreetingClause(t, words[0]) {
      WordAtExcludesBraces(t, 0, words[0]);
    } else {
      GreetingHasNoBraces(t, words[1..]);
    }
  }

  lemma {:induction false} QuestionHasNoBraces(t: string, words: seq<string>)
    requires QuestionWith(t, words) && forall w :: w in words ==> BraceFree(w)
    ensures BraceFreeBelow(t, |t|)
  {
    if QuestionClause(t, words[0]) {
      WordAtExcludesBraces(t, 0, words[0]);
    } else {
      QuestionHasNoBraces(t, words[1..]);
    }
  }

  lemma {:induction false} VerbHasNoBraces(t: string, p: nat, verbs: seq<string>)
    requires VerbWith(t, p, verbs) && forall w :: w in verbs ==> BraceFree(w)
    ensures forall k :: p <= k < |t| ==> t[k] != '{' && t[k] != '}'
  {
    if VerbClause(t, p, verbs[0]) {
      WordAtExcludesBraces(t, p, verbs[0]);
    } else {
      VerbHasNoBraces(t, p, verbs[1..]);
    }
  }

  lemma SubjectClauseHasNoBraces(t: string, s: string)
    requires SubjectClause(t, s) && BraceFree(s)
    ensures BraceFreeBelow(t, |t|)
  {
    var p := SpaceRunEnd(t, |s|);
    VerbsBraceFree();
    VerbHasNoBraces(t, p, Verbs);
    WordAtExcludesBraces(t, 0, s);
  }

  lemma {:induction false} StatementHasNoBraces(t: string, subjects: seq<string>)
    requires StatementWith(t, subjects) && forall w :: w in subjects ==> BraceFree(w)
    ensures BraceFreeBelow(t, |t|)
  {
    if SubjectClause(t, subjects[0]) {
      SubjectClauseHasNoBraces(t, subjects[0]);
    } else {
      StatementHasNoBraces(t, subjects[1..]);
    }
  }

  lemma GreetingBraceFree(t: string)
    requires NotCodePattern(0, t)
    ensures BraceFreeBelow(t, |t|)
  {
    GreetingWordsBraceFree();
    GreetingHasNoBraces(t, GreetingWords);
  }

  lemma QuestionBraceFree(t: string)
    requires NotCodePattern(1, t)
    ensures BraceFreeBelow(t, |t|)
  {
    QuestionWordsBraceFree();
    QuestionHasNoBraces(t, QuestionWords);
  }

  lemma StatementBraceFree(t: string)
    requires NotCodePattern(2, t)
    ensures BraceFreeBelow(t, |t|)
  {
    SubjectsBraceFree();
    StatementHasNoBraces(t, Subjects);
  }

  lemma ShortPlainBraceFree(t: string)
    requires NotCodePattern(3, t)
    ensures BraceFreeBelow(t, |t|)
  {
  }

  lemma BraceFreeBelowExcludes(t: string)
    requires BraceFreeBelow(t, |t|)
    ensures '{' !in t && '}' !in t
  {
  }

  /** No conversational pattern admits a brace. */
  lemma ConversationalHasNoBraces(t: string)
    requires IsConversational(t)
    ensures !HasBraces(t)
  {
    var i :| 0 <= i < NotCodePatternCount && NotCodePattern(i, t);
    if i == 0 {
      GreetingBraceFree(t);
    } else if i == 1 {
      QuestionBraceFree(t);
    } else if i == 2 {
      StatementBraceFree(t);
    } else {
      ShortPlainBraceFree(t);
    }
    BraceFreeBelowExcludes(t);
  }

  /** Trimming keeps every brace. */
  lemma TrimKeepsBraces(text: string)
    requires HasBraces(text)
    ensures HasBraces(Trim(text))
  {
    var i :| 0 <= i < |text| && (text[i] == '{' || text[i] == '}');
    TrimKeepsNonSpace(text);
    assert text[i] in Trim(text);
  }

  /** The line feed and a brace alone earn the two points the threshold asks for. */
  lemma BracesAndNewlineScore(text: string, m: Matcher)
    requires HasBraces(text) && HasMultipleLines(text)
    ensures CodeScore(text, m) >= 2
  {
  }

  /**
   * A text of ten or more characters with a brace and a line feed always looks like
   * code: no conversational pattern accepts a brace, and the +2 bonus alone reaches
   * the threshold, whatever the language patterns say.
   */
  lemma BracesAndNewlineLookLikeCode(text: string, m: Matcher)
    requires |text| >= 10 && HasBraces(text) && HasMultipleLines(text)
    ensures IsCodeLike(text, m)
  {
    TrimKeepsBraces(text);
    if IsConversational(Trim(text)) {
      ConversationalHasNoBraces(Trim(text));
    }
    BracesAndNewlineScore(text, m);
  }
}
