/**
 * The pure parts of the extension's sidebar provider: the editor language chosen
 * when a code block or a file is opened in an editor, the notification preview and
 * the script nonce.
 */
module Sidebar {
  import opened Strings
  import opened JsObjects
  import opened FileTypes

  // ---------------------------------------------------------------------------
  // The language of a code block opened in an editor (`_openInEditor`)
  // ---------------------------------------------------------------------------

  /** The `langMap` of `_openInEditor`: language names to editor language identifiers. */
  const EditorLanguages: map<string, string> :=
    map["js" := "javascript", "javascript" := "javascript", "ts" := "typescript",
        "typescript" := "typescript", "tsx" := "typescriptreact", "jsx" := "javascriptreact",
        "py" := "python", "python" := "python", "rb" := "ruby", "ruby" := "ruby",
        "sh" := "shellscript", "bash" := "shellscript", "zsh" := "shellscript", "shell" := "shellscript",
        "yml" := "yaml", "yaml" := "yaml", "md" := "markdown", "markdown" := "markdown",
        "json" := "json", "html" := "html", "css" := "css", "scss" := "scss", "less" := "less",
        "sql" := "sql", "go" := "go", "rust" := "rust", "rs" := "rust", "java" := "java",
        "kotlin" := "kotlin", "kt" := "kotlin", "c" := "c", "cpp" := "cpp", "c++" := "cpp",
        "csharp" := "csharp", "cs" := "csharp", "swift" := "swift", "php" := "php", "xml" := "xml",
        "graphql" := "graphql", "dockerfile" := "dockerfile", "docker" := "dockerfile"]

  /**
   * `langMap[language.toLowerCase()] || language || 'plaintext'` as the code reads:
   * the lookup also finds what every object inherits from `Object.prototype`.
   */
  function EditorLanguageAsWritten(language: string): (v: JsValue)
    ensures !v.Undefined?
  {
    Or(Or(Lookup(EditorLanguages, Lower(language)), Str(language)), Str("plaintext"))
  }

  /** The editor language the lookup is meant to give: only the table's own entries count. */
  function EditorLanguage(language: string): (r: string)
    ensures r != ""
  {
    var key := Lower(language);
    if key in EditorLanguages then EditorLanguages[key]
    else if language != "" then language
    else "plaintext"
  }

  /** Every entry of the table is a non-empty identifier, so `||` never skips one. */
  lemma EditorLanguagesAreNonEmpty()
    ensures forall k :: k in EditorLanguages ==> EditorLanguages[k] != ""
  {
  }

  /** Away from the inherited names, the code as written gives the intended language. */
  lemma EditorLanguageAgrees(language: string)
    requires Lower(language) !in ObjectPrototypeNames
    ensures EditorLanguageAsWritten(language) == Str(EditorLanguage(language))
  {
    EditorLanguagesAreNonEmpty();
  }

  /**
   * A mapped language is found whatever its case; an unmapped non-empty language
   * passes through with its own case; the empty language is `plaintext`.
   */
  lemma EditorLanguageCases(language: string)
    ensures Lower(language) in EditorLanguages ==>
              EditorLanguage(language) == EditorLanguages[Lower(language)] &&
              EditorLanguage(language) == EditorLanguage(Lower(language))
    ensures Lower(language) !in EditorLanguages && language != "" ==> EditorLanguage(language) == language
    ensures EditorLanguage("") == "plaintext"
  {
    LowerIsLowerCase(language);
    LowerOfLowerCase(Lower(language));
  }

  /** The aliases of the table, in any case: `tsx`, `c++` and `docker`. */
  lemma EditorLanguageAliases(language: string)
    ensures Lower(language) == "tsx" ==> EditorLanguage(language) == "typescriptreact"
    ensures Lower(language) == "c++" ==> EditorLanguage(language) == "cpp"
    ensures Lower(language) == "docker" ==> EditorLanguage(language) == "dockerfile"
  {
  }

  /** The four shell names, in any case, open as shell scripts. */
  lemma EditorLanguageShells(language: string)
    requires Lower(language) in ["sh", "bash", "zsh", "shell"]
    ensures EditorLanguage(language) == "shellscript"
  {
  }

  /**
   * A code block whose language is `constructor`, in any case, reaches the editor
   * with the function `Object` inherited by the table, not with a language name.
   */
  lemma ConstructorLanguageIsNotAString(language: string)
    requires Lower(language) == "constructor"
    ensures EditorLanguageAsWritten(language) == Inherited("constructor")
    ensures EditorLanguage(language) == language
  {
    assert "constructor" !in EditorLanguages;
  }

  // ---------------------------------------------------------------------------
  // The language of a file opened in an editor (`_openFileInVscode`)
  // ---------------------------------------------------------------------------

  /** The `langMap` of `_openFileInVscode`: file extensions to editor language identifiers. */
  const FileLanguages: map<string, string> :=
    map["js" := "javascript", "ts" := "typescript", "tsx" := "typescriptreact", "jsx" := "javascriptreact",
        "py" := "python", "rb" := "ruby", "java" := "java", "c" := "c", "cpp" := "cpp", "h" := "c",
        "cs" := "csharp", "go" := "go", "rs" := "rust", "php" := "php", "html" := "html", "css" := "css",
        "scss" := "scss", "json" := "json", "xml" := "xml", "yaml" := "yaml", "yml" := "yaml",
        "md" := "markdown", "txt" := "plaintext", "sql" := "sql", "sh" := "shellscript", "bash" := "shellscript",
        "env" := "properties", "gitignore" := "ignore", "ps1" := "powershell", "bat" := "bat", "cmd" := "bat"]

  /** `langMap[ext] || 'plaintext'` as the code reads, inherited members included. */
  function FileLanguageAsWritten(filename: string): (v: JsValue)
    ensures !v.Undefined?
  {
    Or(Lookup(FileLanguages, FileExtension(filename)), Str("plaintext"))
  }

  /** The language of an extension: its own entry in the table, else `plaintext`. */
  function ExtensionLanguage(ext: string): (r: string)
    ensures r != ""
    ensures ext in FileLanguages ==> r == FileLanguages[ext]
    ensures ext !in FileLanguages ==> r == "plaintext"
  {
    FileLanguagesAreNonEmpty();
    if ext in FileLanguages then FileLanguages[ext] else "plaintext"
  }

  /** The file language the lookup is meant to give. */
  function FileLanguage(filename: string): string {
    ExtensionLanguage(FileExtension(filename))
  }

  lemma FileLanguagesAreNonEmpty()
    ensures forall k :: k in FileLanguages ==> FileLanguages[k] != ""
  {
  }

  /** Away from the inherited names, the code as written gives the intended language. */
  lemma FileLanguageAgrees(filename: string)
    requires FileExtension(filename) !in ObjectPrototypeNames
    ensures FileLanguageAsWritten(filename) == Str(FileLanguage(filename))
  {
    FileLanguagesAreNonEmpty();
  }

  /** A C header opens as C. */
  lemma HeaderFileIsC(filename: string)
    requires FileExtension(filename) == "h"
    ensures FileLanguage(filename) == "c"
  {
    HeaderExtensionIsC();
  }

  lemma HeaderExtensionIsC()
    ensures ExtensionLanguage("h") == "c"
  {
  }

  /** A file whose extension is `constructor`, in any case, reaches the editor with an inherited function as its language. */
  lemma ConstructorExtensionIsNotAString(filename: string)
    requires FileExtension(filename) == "constructor"
    ensures FileLanguageAsWritten(filename) == Inherited("constructor")
    ensures FileLanguage(filename) == "plaintext"
  {
    assert "constructor" !in FileLanguages;
  }

  // ---------------------------------------------------------------------------
  // Notification preview and nonce
  // ---------------------------------------------------------------------------

  /** The preview of a new message in a notification (lines 42-44). */
  function NotificationPreview(content: string): (r: string)
    ensures |r| <= 50 && (|content| <= 50 <==> r == content)
    ensures |content| > 50 ==> |r| == 50 && r[..47] == content[..47] && r[47..] == "..."
  {
    if |content| > 50 then content[..47] + "..." else content
  }

  /** `possible` of `getNonce`. */
  const NonceAlphabet: string := "ABCDEFGHIJKLMNOPQRSTUVWXYZabcdefghijklmnopqrstuvwxyz0123456789"

  /** `Math.floor(r * possible.length)` for a draw `r` of `Math.random()`. */
  function NonceIndex(r: real): (k: nat)
    requires 0.0 <= r < 1.0
    ensures k < |NonceAlphabet| == 62
  {
    (r * 62.0).Floor
  }

  /**
   * `getNonce`: 32 characters of the alphabet, the `i`-th picked by the `i`-th draw.
   * The draws of `Math.random()` are a parameter.
   */
  method GetNonce(draws: seq<real>) returns (text: string)
    requires |draws| == 32 && forall i :: 0 <= i < |draws| ==> 0.0 <= draws[i] < 1.0
    ensures |text| == 32
    ensures forall i :: 0 <= i < 32 ==> text[i] == NonceAlphabet[NonceIndex(draws[i])]
    ensures forall i :: 0 <= i < |text| ==> text[i] in NonceAlphabet
  {
    text := "";
    for i := 0 to 32
      invariant |text| == i
      invariant forall j :: 0 <= j < i ==> text[j] == NonceAlphabet[NonceIndex(draws[j])]
    {
      text := text + [NonceAlphabet[NonceIndex(draws[i])]];
    }
  }
}
