/**
 * The text scanner (src/scanner/text_scanner.py): the text-file test over a
 * class-wide, mutable extension set, the record built for each file with its
 * lazily filled fields, the lazy filling itself, and the chunked line and
 * character count. Reading, encoding detection and MD5 are parameters.
 */
module TextScanner {
  import opened Basics
  import opened PathNames

  /** The initial value of `SUPPORTED_EXTENSIONS`. */
  const DefaultTextExtensions: set<string> :=
    {".txt", ".md", ".py", ".js", ".html", ".htm", ".css", ".xml", ".json",
     ".csv", ".log", ".conf", ".cfg", ".ini", ".yml", ".yaml", ".sql",
     ".java", ".cpp", ".c", ".h", ".hpp", ".cs", ".php", ".rb", ".go",
     ".rs", ".swift", ".kt", ".scala", ".pl", ".sh", ".bat", ".ps1",
     ".tex", ".rtf", ".rst", ".wiki", ".adoc", ".asciidoc"}

  /** `max_file_size` when none is given: 50 MiB. */
  const DefaultMaxFileSize: int := 50 * 1024 * 1024

  /** Every registered extension starts with a dot. */
  ghost predicate Dotted(extensions: set<string>)
  {
    forall e :: e in extensions ==> StartsWith(e, ".")
  }

  /** `_is_text_file` against a given extension set: the lower-cased pathlib suffix is registered. */
  function Accepts(extensions: set<string>, filename: string): (r: bool)
    ensures r == (Suffix(Lower(filename)) in extensions)
    ensures r && Dotted(extensions) ==> 0 < RFind(filename, '.') < |filename| - 1
  {
    SuffixLower(filename);
    assert Dotted(extensions) && Lower(Suffix(filename)) in extensions ==> StartsWith(Lower(Suffix(filename)), ".");
    Lower(Suffix(filename)) in extensions
  }

  /** A lower-cased character is a dot exactly when the original one is. */
  lemma {:induction false} RFindLower(s: string, c: char)
    requires c == '.'
    ensures RFind(Lower(s), c) == RFind(s, c)
  {
    if |s| > 0 {
      assert Lower(s)[..|s| - 1] == Lower(s[..|s| - 1]);
      RFindLower(s[..|s| - 1], c);
    }
  }

  /** Lower-casing a name and then taking its suffix is taking the suffix and lower-casing it. */
  lemma SuffixLower(name: string)
    ensures Suffix(Lower(name)) == Lower(Suffix(name))
  {
    RFindLower(name, '.');
  }

  /** The test is case-insensitive in the whole name, not only in the suffix. */
  lemma AcceptsCaseInsensitive(extensions: set<string>, filename: string)
    ensures Accepts(extensions, Lower(filename)) == Accepts(extensions, filename)
  {
    SuffixLower(filename);
    LowerIdempotent(Suffix(filename));
  }

  /** With dotted extensions only, an accepted name has a dot that is neither its first nor its last character. */
  lemma AcceptedHasSuffix(extensions: set<string>, filename: string)
    requires Dotted(extensions)
    requires Accepts(extensions, filename)
    ensures 0 < RFind(filename, '.') < |filename| - 1
  {
    var e := Lower(Suffix(filename));
    assert StartsWith(e, ".");
  }

  /** An upper-case suffix is accepted. */
  lemma AcceptsUpperCase()
    ensures Accepts(DefaultTextExtensions, "a.TXT")
  {
    RFindAt("a.TXT", '.', 1);
    assert Suffix("a.TXT") == ".TXT";
    assert Lower(".TXT") == ".txt";
  }

  /** A dot file has no suffix, so it is not a text file. */
  lemma RejectsDotFile()
    ensures !Accepts(DefaultTextExtensions, ".txt")
  {
    RFindAt(".txt", '.', 0);
    assert Suffix(".txt") == [];
  }

  /** Only the last suffix counts. */
  lemma RejectsOuterSuffix()
    ensures !Accepts(DefaultTextExtensions, "notes.txt.bak")
  {
    RFindAt("notes.txt.bak", '.', 9);
    assert Suffix("notes.txt.bak") == ".bak";
    assert Lower(".bak") == ".bak";
  }

  /** The pruning rule gives the same answer for a directory name and its lower-cased form. */
  lemma WalkedDirectoryCaseInsensitive(d: string)
    ensures IsWalkedDirectory(Lower(d)) == IsWalkedDirectory(d)
  {
    LowerIdempotent(d);
    if |d| > 0 {
      assert Lower(d)[..1] == [LowerChar(d[0])];
    }
  }

  /** Hidden and excluded directories are pruned, whatever their case; others are walked. */
  lemma WalkedDirectoryExamples()
    ensures !IsWalkedDirectory(".cache")
    ensures !IsWalkedDirectory("Build")
    ensures !IsWalkedDirectory("node_modules")
    ensures IsWalkedDirectory("docs")
  {
    assert ".cache"[..1] == ".";
    assert Lower("Build") == "build";
    assert Lower("node_modules") == "node_modules";
    assert "docs"[..1] == "d";
    assert Lower("docs") == "docs";
  }

  /**
   * The class attribute `SUPPORTED_EXTENSIONS`. It is one set for the whole
   * class, so every scanner holds a reference to the same registry.
   */
  class ExtensionRegistry {
    var extensions: set<string>

    ghost predicate Valid()
      reads this
    {
      Dotted(extensions)
    }

    constructor()
      ensures extensions == DefaultTextExtensions && Valid()
    {
      extensions := DefaultTextExtensions;
    }

    /** `add_extension`: a string starting with '.' is added lower-cased; any other is ignored. */
    method AddExtension(extension: string)
      requires Valid()
      modifies this
      ensures Valid()
      ensures extensions == if StartsWith(extension, ".") then old(extensions) + {Lower(extension)} else old(extensions)
    {
      if StartsWith(extension, ".") {
        assert Lower(extension)[..1] == [LowerChar(extension[0])];
        extensions := extensions + {Lower(extension)};
      }
    }

    /** `remove_extension`: the lower-cased form is discarded, present or not. */
    method RemoveExtension(extension: string)
      requires Valid()
      modifies this
      ensures Valid()
      ensures extensions == old(extensions) - {Lower(extension)}
    {
      extensions := extensions - {Lower(extension)};
    }
  }

  /**
   * One text file. Path, name, size, mtime and extension are fixed when the
   * record is built; encoding, counts and hash are filled in later, and the
   * detector attaches a similarity and a match type.
   */
  class TextFileInfo {
    const path: string
    const name: string
    const size: int
    const mtime: real
    const extension: string
    var encoding: Option<string>
    var lineCount: Option<int>
    var charCount: Option<int>
    var contentHash: Option<string>
    var similarity: Option<real>
    var matchType: Option<string>

    /** None of the lazily computed fields has been computed. */
    predicate Pending()
      reads this
    {
      encoding.None? && lineCount.None? && charCount.None? && contentHash.None?
    }

    constructor(path: string, size: int, mtime: real)
      ensures this.path == path && name == BaseName(path) && extension == Lower(Suffix(BaseName(path)))
      ensures this.size == size && this.mtime == mtime
      ensures Pending() && similarity.None? && matchType.None?
    {
      this.path := path;
      name := BaseName(path);
      extension := Lower(Suffix(BaseName(path)));
      this.size := size;
      this.mtime := mtime;
      encoding, lineCount, charCount, contentHash := None, None, None, None;
      similarity, matchType := None, None;
    }
  }

  /** The characters read in one `f.read(chunk_size)`. */
  const ChunkSize: nat := 65536

  /** `s.count(c)`. */
  function Count(s: string, c: char): (n: nat)
    ensures n <= |s|
  {
    if s == [] then 0 else Count(s[..|s| - 1], c) + (if s[|s| - 1] == c then 1 else 0)
  }

  /** Counting over a concatenation adds the counts of the parts. */
  lemma {:induction false} CountAppend(a: string, b: string, c: char)
    ensures Count(a + b, c) == Count(a, c) + Count(b, c)
  {
    if b != [] {
      assert (a + b)[..|a + b| - 1] == a + b[..|b| - 1];
      CountAppend(a, b[..|b| - 1], c);
    } else {
      assert a + b == a;
    }
  }

  /** The reported line count of a text: its newlines, plus one for any non-empty text. */
  function ReportedLines(text: string): nat
  {
    Count(text, '\n') + (if |text| > 0 then 1 else 0)
  }

  /** A text that ends in a newline gets one line more than it has newline-terminated lines. */
  lemma TrailingNewlineCountedTwice()
    ensures ReportedLines("ab\n") == 2
    ensures ReportedLines("ab") == 1
  {
    assert "ab\n"[..2] == "ab" && "ab"[..1] == "a" && "a"[..0] == "";
  }

  /**
   * `_get_file_stats_fast`: the text (None when the file cannot be opened or
   * read) is read in chunks of `ChunkSize`, summing the characters and the
   * newlines of each chunk; a non-empty text then gets one line more. A
   * failure gives (0, 0).
   */
  method FileStats(text: Option<string>) returns (lineCount: int, charCount: int)
    ensures text.None? ==> lineCount == 0 && charCount == 0
    ensures text.Some? ==> charCount == |text.value| && lineCount == ReportedLines(text.value)
  {
    if text.None? {
      return 0, 0;
    }
    var t := text.value;
    lineCount, charCount := 0, 0;
    var pos := 0;
    while pos < |t|
      invariant 0 <= pos <= |t|
      invariant charCount == pos && lineCount == Count(t[..pos], '\n')
      decreases |t| - pos
    {
      var chunk := t[pos..Min(pos + ChunkSize, |t|)];
      CountAppend(t[..pos], chunk, '\n');
      assert t[..pos] + chunk == t[..pos + |chunk|];
      charCount := charCount + |chunk|;
      lineCount := lineCount + Count(chunk, '\n');
      pos := pos + |chunk|;
    }
    assert t[..pos] == t;
    if charCount > 0 {
      lineCount := lineCount + 1;
    }
  }

  /** The encoding after the detection step: a present encoding is kept, an empty detection fails. */
  function DetectedEncoding(encoding: Option<string>, detected: string): (r: Option<string>)
    ensures encoding.Some? ==> r == encoding
    ensures encoding.None? ==> (r.Some? <==> detected != "")
    ensures r.Some? && encoding.None? ==> r.value == detected
  {
    if encoding.Some? then encoding else if detected == "" then None else Some(detected)
  }

  /** A text scanner; every scanner built on the same registry sees the same extension set. */
  class TextScanner {
    const registry: ExtensionRegistry
    const maxFileSize: int

    constructor(registry: ExtensionRegistry, maxFileSize: int)
      ensures this.registry == registry && this.maxFileSize == maxFileSize
    {
      this.registry := registry;
      this.maxFileSize := maxFileSize;
    }

    /** `_is_text_file`: judged on the lower-cased name, and only names with an inner dot pass a dotted registry. */
    function IsTextFile(filename: string): (r: bool)
      reads registry
      ensures r == Accepts(registry.extensions, Lower(filename))
      ensures r && Dotted(registry.extensions) ==> 0 < RFind(filename, '.') < |filename| - 1
    {
      AcceptsCaseInsensitive(registry.extensions, filename);
      Accepts(registry.extensions, filename)
    }

    /** `get_supported_extensions`: a copy, so later registry changes do not reach the caller's set. */
    method GetSupportedExtensions() returns (r: set<string>)
      ensures r == registry.extensions
    {
      r := registry.extensions;
    }

    /**
     * `_get_file_info` for one path whose `os.stat` gives `stat` (size and
     * mtime, or None when it fails): no record for a failed stat, a file over
     * the size limit or one under 10 bytes; otherwise a fresh record with no
     * lazy field computed.
     */
    method GetFileInfo(path: string, stat: Option<(int, real)>) returns (r: Option<TextFileInfo>)
      ensures r.Some? <==> stat.Some? && 10 <= stat.value.0 <= maxFileSize
      ensures r.Some? ==> fresh(r.value) && r.value.path == path && r.value.name == BaseName(path)
      ensures r.Some? ==> r.value.size == stat.value.0 && r.value.mtime == stat.value.1
      ensures r.Some? ==> r.value.extension == Lower(Suffix(BaseName(path)))
      ensures r.Some? ==> r.value.Pending() && r.value.similarity.None? && r.value.matchType.None?
    {
      if stat.None? {
        return None;
      }
      var (size, mtime) := stat.value;
      if size > maxFileSize {
        return None;
      }
      if size < 10 {
        return None;
      }
      var info := new TextFileInfo(path, size, mtime);
      return Some(info);
    }

    /**
     * `ensure_file_details`. `detect` is the encoding detection of a path,
     * `hashOf` the MD5 of a file read with an encoding (None when reading
     * fails), `read` the text of a file read with an encoding (None when
     * reading fails). A record that already has a hash is left alone and
     * succeeds; otherwise encoding, hash and counts are filled in turn, and the
     * call fails at the first step that produces nothing.
     */
    method EnsureFileDetails(info: TextFileInfo, detect: string -> string,
                             hashOf: (string, string) -> Option<string>,
                             read: (string, string) -> Option<string>)
      returns (ok: bool)
      modifies info
      ensures old(info.contentHash).Some? ==> ok && unchanged(info)
      ensures info.similarity == old(info.similarity) && info.matchType == old(info.matchType)
      ensures old(info.contentHash).None? ==>
        info.encoding == DetectedEncoding(old(info.encoding), detect(info.path))
      ensures old(info.contentHash).None? ==>
        info.contentHash == (if info.encoding.Some? then hashOf(info.path, info.encoding.value) else None)
      ensures ok <==> info.contentHash.Some?
      ensures old(info.contentHash).None? && ok && old(info.lineCount).None? ==>
        var text := read(info.path, info.encoding.value);
        info.charCount == Some(if text.Some? then |text.value| else 0) &&
        info.lineCount == Some(if text.Some? then ReportedLines(text.value) else 0)
      ensures old(info.contentHash).None? && ok && old(info.lineCount).None? ==>
        info.encoding.Some? && info.contentHash.Some? && info.lineCount.Some? && info.charCount.Some?
      ensures !(ok && old(info.lineCount).None?) ==>
        info.lineCount == old(info.lineCount) && info.charCount == old(info.charCount)
    {
      if info.contentHash.Some? {
        return true;
      }
      if info.encoding.None? {
        var encoding := detect(info.path);
        if encoding == "" {
          return false;
        }
        info.encoding := Some(encoding);
      }
      var hash := hashOf(info.path, info.encoding.value);
      if hash.None? {
        return false;
      }
      info.contentHash := hash;
      if info.lineCount.None? {
        var lines, chars := FileStats(read(info.path, info.encoding.value));
        info.lineCount := Some(lines);
        info.charCount := Some(chars);
      }
      return true;
    }
  }

  /**
   * Two scanners over one registry: an extension added through the first is
   * accepted by the second, and a copy taken earlier does not change.
   */
  method SharedRegistry(first: TextScanner, second: TextScanner, extension: string, filename: string)
    returns (before: set<string>)
    requires first.registry == second.registry && first.registry.Valid()
    requires StartsWith(extension, ".") && Lower(Suffix(filename)) == Lower(extension)
    modifies first.registry
    ensures second.IsTextFile(filename)
    ensures before == old(first.registry.extensions)
  {
    before := first.GetSupportedExtensions();
    first.registry.AddExtension(extension);
  }
}
