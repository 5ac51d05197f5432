/**
 * Classification of shared files: the icon chosen from a MIME type and the unit
 * of a file size (FileMessage.tsx, and ui-components.js in the webview), and
 * whether a file name has an extension the editor opens.
 */
module FileTypes {
  import opened Strings

  /** `filename.split('.').pop()?.toLowerCase() || ''`. */
  function FileExtension(filename: string): (ext: string)
    ensures IsLowerCase(ext) && '.' !in ext
  {
    var last := AfterLast(filename, '.');
    assert forall i :: 0 <= i < |last| ==> Lower(last)[i] != '.' by {
      forall i | 0 <= i < |last| ensures Lower(last)[i] != '.' {
        assert last[i] in last;
      }
    }
    LowerIsLowerCase(last);
    Lower(last)
  }

  /**
   * The extension is the lower-cased text after the last `.`, and a name without
   * `.` is its own extension; an unknown extension gives `plaintext`.
   */
  lemma FileExtensionCases(stem: string, ext: string)
    requires '.' !in ext
    ensures FileExtension(stem + "." + ext) == Lower(ext)
    ensures FileExtension(ext) == Lower(ext)
  {
    AfterLastOf(stem, '.', ext);
    assert stem + "." + ext == stem + ['.'] + ext;
    AfterLastWithout(ext, '.');
  }

  // ---------------------------------------------------------------------------
  // getFileIcon
  // ---------------------------------------------------------------------------

  /** The icons of `lucide-react` that `getFileIcon` chooses from. */
  datatype Icon = ImageIcon | VideoIcon | AudioIcon | ArchiveIcon | CodeIcon | TextIcon | GenericIcon

  predicate IsMediaType(mime: string) {
    StartsWith(mime, "image/") || StartsWith(mime, "video/") || StartsWith(mime, "audio/")
  }

  predicate IsArchiveType(mime: string) {
    Contains(mime, "zip") || Contains(mime, "tar") || Contains(mime, "rar") || Contains(mime, "7z")
  }

  predicate IsCodeType(mime: string) {
    Contains(mime, "text/") || Contains(mime, "javascript") || Contains(mime, "json") || Contains(mime, "xml")
  }

  predicate IsDocumentType(mime: string) {
    Contains(mime, "pdf") || Contains(mime, "document") || Contains(mime, "word")
  }

  /** `getFileIcon`: the first rule that matches decides. */
  function FileIcon(mime: string): Icon {
    if StartsWith(mime, "image/") then ImageIcon
    else if StartsWith(mime, "video/") then VideoIcon
    else if StartsWith(mime, "audio/") then AudioIcon
    else if IsArchiveType(mime) then ArchiveIcon
    else if IsCodeType(mime) then CodeIcon
    else if IsDocumentType(mime) then TextIcon
    else GenericIcon
  }

  /** The media prefixes come first, so an `image/` type is always an image whatever else it contains. */
  lemma MediaPrefixesDecide(mime: string)
    ensures StartsWith(mime, "image/") ==> FileIcon(mime) == ImageIcon
    ensures FileIcon(mime) in {ImageIcon, VideoIcon, AudioIcon} <==> IsMediaType(mime)
  {
  }

  /** Archives are recognised before code: a type with an archive name is never a code file. */
  lemma ArchiveBeforeCode(mime: string)
    ensures FileIcon(mime) == ArchiveIcon <==> !IsMediaType(mime) && IsArchiveType(mime)
  {
  }

  /** A code type is one the earlier rules leave alone. */
  lemma CodeIconIff(mime: string)
    ensures FileIcon(mime) == CodeIcon <==> !IsMediaType(mime) && !IsArchiveType(mime) && IsCodeType(mime)
  {
  }

  /** The document rule only sees what every earlier rule leaves alone. */
  lemma TextIconIff(mime: string)
    ensures FileIcon(mime) == TextIcon <==>
              !IsMediaType(mime) && !IsArchiveType(mime) && !IsCodeType(mime) && IsDocumentType(mime)
  {
  }

  /** The generic icon is exactly the type that no rule matches. */
  lemma GenericIconIff(mime: string)
    ensures FileIcon(mime) == GenericIcon <==>
              !IsMediaType(mime) && !IsArchiveType(mime) && !IsCodeType(mime) && !IsDocumentType(mime)
  {
  }

  /** The first matching rule wins: a type naming both `xml` and `document` gets the code icon. */
  lemma XmlDocumentIsCode(mime: string)
    requires !IsMediaType(mime) && !IsArchiveType(mime)
    requires Contains(mime, "xml") && Contains(mime, "document")
    ensures FileIcon(mime) == CodeIcon
    ensures IsDocumentType(mime)
  {
  }

  // ---------------------------------------------------------------------------
  // formatFileSize
  // ---------------------------------------------------------------------------

  datatype SizeUnit = B | KB | MB | GB

  /** The divisor of each unit. */
  function UnitScale(u: SizeUnit): (n: nat)
    ensures n >= 1
  {
    match u
    case B => 1
    case KB => 1024
    case MB => 1024 * 1024
    case GB => 1024 * 1024 * 1024
  }

  /** The unit `formatFileSize` writes a size of `bytes` in. */
  function SizeUnitOf(bytes: int): SizeUnit {
    if bytes < 1024 then B
    else if bytes < 1024 * 1024 then KB
    else if bytes < 1024 * 1024 * 1024 then MB
    else GB
  }

  /**
   * The unit is the largest whose divisor does not exceed the size (bytes for
   * anything below 1024), so the number shown is at least 1 and, below GB, under 1024.
   */
  lemma SizeUnitFits(bytes: int)
    ensures SizeUnitOf(bytes) == B <==> bytes < 1024
    ensures SizeUnitOf(bytes) != B ==> UnitScale(SizeUnitOf(bytes)) <= bytes
    ensures SizeUnitOf(bytes) != GB ==> bytes < 1024 * UnitScale(SizeUnitOf(bytes))
  {
  }

  function UnitRank(u: SizeUnit): nat {
    match u
    case B => 0
    case KB => 1
    case MB => 2
    case GB => 3
  }

  /** A larger file never gets a smaller unit. */
  lemma SizeUnitMonotonic(a: int, b: int)
    requires a <= b
    ensures UnitRank(SizeUnitOf(a)) <= UnitRank(SizeUnitOf(b))
  {
  }

  // ---------------------------------------------------------------------------
  // isVscodeCompatible
  // ---------------------------------------------------------------------------

  /** `VSCODE_COMPATIBLE_EXTENSIONS` of ui-components.js. */
  const VscodeExtensions: seq<string> :=
    ["txt", "md", "json", "xml", "yaml", "yml", "csv",
     "js", "ts", "jsx", "tsx", "py", "java", "c", "cpp", "h", "cs", "go", "rs", "rb", "php", "html", "css", "scss", "sql",
     "env", "gitignore", "editorconfig", "prettierrc", "eslintrc", "sh", "bash", "zsh", "ps1", "bat", "cmd"]

  /** `isVscodeCompatible`. */
  function IsVscodeCompatible(filename: string): bool {
    FileExtension(filename) in VscodeExtensions
  }

  /**
   * Only the lower-cased text after the last `.` decides, so neither the stem nor
   * the case of the extension matters.
   */
  lemma VscodeCompatibleByExtension(stem: string, ext: string)
    requires '.' !in ext
    ensures IsVscodeCompatible(stem + "." + ext) <==> Lower(ext) in VscodeExtensions
    ensures IsVscodeCompatible(ext) <==> Lower(ext) in VscodeExtensions
  {
    FileExtensionCases(stem, ext);
  }
}
