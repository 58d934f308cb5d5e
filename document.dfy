/**
 * Content items of `build/document.rs`: documents with their front matter
 * and processing stage, static files with their MIME type, and the front
 * matter splitter. YAML parsing is a parameter (`parseYaml`), and a YAML
 * value is kept as its text.
 */
module Documents {
  import opened Wrappers
  import opened Strings
  import opened Paths
  import opened Util

  /** Front matter of a document; `extra` holds every other top-level key. */
  datatype FrontMatter = FrontMatter(
    title: Option<string>,
    description: Option<string>,
    hidden: bool,
    slug: Option<string>,
    extra: map<string, string>)

  const DefaultFrontMatter := FrontMatter(None, None, false, None, map[])

  /** The stages a document's content goes through. */
  datatype DocumentContent = Discovered | Raw(text: string) | Parsed(text: string) | Rendered(html: string)

  /**
   * A document. `rawContent` is the text the processing pipeline starts
   * from (`ProcessingDocument::new` reads it); `content` is the staged form.
   */
  datatype Document = Document(
    sourceName: string,
    sourcePath: string,
    urlPath: string,
    frontMatter: FrontMatter,
    content: DocumentContent,
    rawContent: string)

  datatype StaticFile = StaticFile(
    sourceName: string,
    sourcePath: string,
    outputPath: string,
    mimeType: Option<string>)

  datatype ContentItem = DocumentItem(doc: Document) | StaticItem(file: StaticFile)
  {
    function SourceName(): string
    {
      match this
      case DocumentItem(d) => d.sourceName
      case StaticItem(f) => f.sourceName
    }

    function SourcePath(): string
    {
      match this
      case DocumentItem(d) => d.sourcePath
      case StaticItem(f) => f.sourcePath
    }

    /** The URL of a document, or the output path of a static file. */
    function OutputPath(): string
    {
      match this
      case DocumentItem(d) => d.urlPath
      case StaticItem(f) => f.outputPath
    }
  }

  // ---------------------------------------------------------------------
  // Static files
  // ---------------------------------------------------------------------

  /** The MIME table, keyed by lower-case extension. */
  const MimeTable: map<string, string> := map[
    "png" := "image/png", "jpg" := "image/jpeg", "jpeg" := "image/jpeg",
    "gif" := "image/gif", "svg" := "image/svg+xml", "webp" := "image/webp",
    "ico" := "image/x-icon",
    "css" := "text/css", "js" := "application/javascript", "json" := "application/json",
    "woff" := "font/woff", "woff2" := "font/woff2", "ttf" := "font/ttf",
    "eot" := "application/vnd.ms-fontobject",
    "pdf" := "application/pdf", "xml" := "application/xml", "txt" := "text/plain"]

  const ImageExtensions: set<string> := {"png", "jpg", "jpeg", "gif", "svg", "webp", "ico"}

  /** The table gives an `image/` type exactly for the image extensions. */
  lemma MimeTypeImage(ext: string)
    requires ext in MimeTable
    ensures StartsWith(MimeTable[ext], "image/") <==> ext in ImageExtensions
  {
    if ext !in ImageExtensions {
      assert MimeTable[ext][0] != 'i';
    } else {
      assert MimeTable[ext][..6] == "image/";
    }
  }

  /** `mime_from_path`: the MIME type of the lower-cased extension; none without an extension. */
  function MimeFromPath(path: string): (r: Option<string>)
    ensures r.Some? <==> Extension(path).Some? && Lower(Extension(path).value) in MimeTable
    ensures r.Some? ==> r.value == MimeTable[Lower(Extension(path).value)]
  {
    match Extension(path)
    case None => None
    case Some(e) => var l := Lower(e); if l in MimeTable then Some(MimeTable[l]) else None
  }

  /** `StaticFile::new`: the MIME type is guessed from the source path. */
  function NewStaticFile(sourceName: string, sourcePath: string, outputPath: string): (r: StaticFile)
    ensures r.sourceName == sourceName && r.sourcePath == sourcePath && r.outputPath == outputPath
    ensures r.mimeType == MimeFromPath(sourcePath)
  {
    StaticFile(sourceName, sourcePath, outputPath, MimeFromPath(sourcePath))
  }

  predicate IsImage(f: StaticFile)
  {
    f.mimeType.Some? && StartsWith(f.mimeType.value, "image/")
  }

  /** A new static file is an image exactly when its lower-cased extension is an image extension of the table. */
  lemma IsImageByExtension(sourceName: string, sourcePath: string, outputPath: string)
    ensures IsImage(NewStaticFile(sourceName, sourcePath, outputPath)) <==>
      Extension(sourcePath).Some? && Lower(Extension(sourcePath).value) in ImageExtensions
  {
    if Extension(sourcePath).Some? && Lower(Extension(sourcePath).value) in MimeTable {
      MimeTypeImage(Lower(Extension(sourcePath).value));
    }
  }

  // ---------------------------------------------------------------------
  // Front matter
  // ---------------------------------------------------------------------

  datatype ParsedContent = ParsedContent(frontMatter: FrontMatter, content: string)

  /**
   * The YAML text and the body of a block that opens `c` and closes at
   * index `pos` of `c[3..]`: the text between the delimiters and the text
   * after the closing `\n---`, each without leading newlines.
   */
  function BlockParts(c: string, pos: nat): (r: (string, string))
    requires 3 + pos + 4 <= |c|
  {
    var start := 3 + pos + 4;
    (TrimStartChar(c[3..3 + pos], '\n'), if start < |c| then TrimStartChar(c[start..], '\n') else "")
  }

  lemma TrimNewlines(s: string)
    ensures var y := TrimStartChar(s, '\n'); (y == [] || y[0] != '\n') && EndsWith(s, y)
  {
  }

  lemma TrimNewlinesOfTail(c: string, start: nat)
    requires start <= |c|
    ensures var y := TrimStartChar(c[start..], '\n'); (y == [] || y[0] != '\n') && EndsWith(c, y)
  {
    var b := TrimStartChar(c[start..], '\n');
    assert c[|c| - |b|..] == c[start..][|c[start..]| - |b|..];
  }

  lemma BlockPartsShape(c: string, pos: nat)
    requires 3 + pos + 4 <= |c|
    ensures var r := BlockParts(c, pos);
      (r.0 == [] || r.0[0] != '\n') && EndsWith(c[3..3 + pos], r.0) &&
      (r.1 == [] || r.1[0] != '\n') && EndsWith(c, r.1)
  {
    TrimNewlines(c[3..3 + pos]);
    TrimNewlinesOfTail(c, 3 + pos + 4);
  }

  /**
   * The front matter block of a document, split into the YAML text and the
   * body: the text must open with `---` (after leading whitespace); the block
   * closes at the first `\n---` after it.
   */
  function SplitFrontMatter(content: string): (r: Option<(string, string)>)
    ensures r.None? <==> !StartsWith(TrimStart(content), "---") || !Contains(TrimStart(content)[3..], "\n---")
  {
    var c := TrimStart(content);
    if !StartsWith(c, "---") then None
    else
      match Find(c[3..], "\n---")
      case None => None
      case Some(pos) => Some(BlockParts(c, pos))
  }

  /**
   * `parse_front_matter`: the front matter of the block, if there is one and
   * it parses; the default front matter otherwise. The content is the body
   * after the block, or the whole (start-trimmed) text when there is no block.
   */
  function ParseFrontMatter(content: string, parseYaml: string -> Option<FrontMatter>): (r: ParsedContent)
    ensures SplitFrontMatter(content).None? ==> r == ParsedContent(DefaultFrontMatter, TrimStart(content))
    ensures SplitFrontMatter(content).Some? ==>
      var (yaml, body) := SplitFrontMatter(content).value;
      r.content == body && r.frontMatter == parseYaml(yaml).UnwrapOr(DefaultFrontMatter)
  {
    match SplitFrontMatter(content)
    case None => ParsedContent(DefaultFrontMatter, TrimStart(content))
    case Some((yaml, body)) => ParsedContent(parseYaml(yaml).UnwrapOr(DefaultFrontMatter), body)
  }

  /** The body is what follows the block: a suffix of the trimmed text, without leading newlines; the YAML text has none either. */
  lemma FrontMatterBody(content: string)
    requires SplitFrontMatter(content).Some?
    ensures var (yaml, body) := SplitFrontMatter(content).value;
      EndsWith(TrimStart(content), body) && (body == [] || body[0] != '\n') && (yaml == [] || yaml[0] != '\n')
  {
    var c := TrimStart(content);
    BlockPartsShape(c, Find(c[3..], "\n---").value);
  }

  /** Positions before the delimiter that follows the YAML text cannot start a delimiter. */
  lemma FirstDelimiter(y: string, b: string)
    requires !Contains("\n" + y, "\n---")
    ensures Find("\n" + y + "\n---\n" + b, "\n---") == Some(|y| + 1)
  {
    var s := "\n" + y + "\n---\n" + b;
    var p := "\n---";
    var k := |y| + 1;
    assert s[k..k + 4] == p;
    assert OccursAt(s, p, k);
    var head := "\n" + y;
    forall i: nat | i < k
      ensures !OccursAt(s, p, i)
    {
      if i + 4 <= k {
        assert s[i..i + 4] == head[i..i + 4];
        assert !OccursAt(head, p, i) by {
          assert Find(head, p).None?;
        }
      } else {
        assert s[k] == '\n';
        assert i < k < i + 4;
        assert s[i..i + 4][k - i] == s[k] == '\n';
        assert p[k - i] == '-';
      }
    }
    match Find(s, p)
    case None =>
    case Some(j) =>
      if j > k { assert false; }
      if j < k { assert false; }
  }

  lemma TrimStartNonWhite(s: string)
    requires s != [] && !IsWhitespace(s[0])
    ensures TrimStart(s) == s
  {
  }

  lemma TrimLeadingNewline(s: string)
    requires s == [] || s[0] != '\n'
    ensures TrimStartChar("\n" + s, '\n') == s
  {
    assert ("\n" + s)[1..] == s;
  }

  lemma RoundTripSlices(y: string, b: string, c: string)
    requires c == "---\n" + y + "\n---\n" + b
    ensures 3 + (|y| + 1) + 4 < |c|
    ensures c[3..3 + (|y| + 1)] == "\n" + y && c[3 + (|y| + 1) + 4..] == "\n" + b
  {
  }

  lemma RoundTripParts(y: string, b: string, c: string)
    requires c == "---\n" + y + "\n---\n" + b
    requires y == [] || y[0] != '\n'
    requires b == [] || b[0] != '\n'
    ensures 3 + (|y| + 1) + 4 <= |c| && BlockParts(c, |y| + 1) == (y, b)
  {
    RoundTripSlices(y, b, c);
    TrimLeadingNewline(y);
    TrimLeadingNewline(b);
  }

  /**
   * Round trip: a document written as `---`, the YAML text, `---` and the
   * body splits back into that YAML text and that body, provided the YAML
   * has no line starting with `---` and neither part starts with a newline.
   */
  lemma FrontMatterRoundTrip(y: string, b: string)
    requires !Contains("\n" + y, "\n---")
    requires y == [] || y[0] != '\n'
    requires b == [] || b[0] != '\n'
    ensures SplitFrontMatter("---\n" + y + "\n---\n" + b) == Some((y, b))
  {
    var c := "---\n" + y + "\n---\n" + b;
    TrimStartNonWhite(c);
    assert c[..3] == "---";
    assert c[3..] == "\n" + y + "\n---\n" + b;
    FirstDelimiter(y, b);
    RoundTripParts(y, b, c);
  }

  /**
   * An empty block: the closing `---` right after the opening one gives an
   * empty YAML text, and the body is what follows, without its leading
   * newlines.
   */
  lemma EmptyFrontMatter(b: string)
    ensures SplitFrontMatter("---\n---\n" + b) == Some(("", TrimStartChar("\n" + b, '\n')))
  {
    var c := "---\n---\n" + b;
    TrimStartNonWhite(c);
    assert c[..3] == "---";
    var t := c[3..];
    assert t[0..4] == "\n---";
    assert OccursAt(t, "\n---", 0);
    assert Find(t, "\n---") == Some(0);
    assert c[3..3] == [];
    assert c[7..] == "\n" + b;
  }

  /** The empty block of `document.rs`'s own example: `---\n---\n\n# Content` has an empty YAML text and the body `# Content`. */
  lemma EmptyFrontMatterExample(content: string, parseYaml: string -> Option<FrontMatter>)
    requires content == "---\n---\n\n# Content"
    ensures SplitFrontMatter(content) == Some(("", "# Content"))
    ensures ParseFrontMatter(content, parseYaml).content == "# Content"
  {
    ExampleParts(content);
    EmptyFrontMatter("\n# Content");
    ExampleBody();
  }

  lemma ExampleParts(content: string)
    requires content == "---\n---\n\n# Content"
    ensures content == "---\n---\n" + "\n# Content"
  {
  }

  lemma ExampleBody()
    ensures TrimStartChar("\n" + "\n# Content", '\n') == "# Content"
  {
    var s := "\n" + "\n# Content";
    assert s[0] == '\n' && s[1..] == "\n" + "# Content";
    TrimLeadingNewline("# Content");
  }

  // ---------------------------------------------------------------------
  // Documents
  // ---------------------------------------------------------------------

  /** `Document::discovered`: default front matter, nothing loaded yet. */
  function DiscoveredDocument(sourceName: string, sourcePath: string, urlPath: string): (r: Document)
    ensures r.sourceName == sourceName && r.sourcePath == sourcePath && r.urlPath == urlPath
    ensures r.frontMatter == DefaultFrontMatter && !IsLoaded(r) && !IsRendered(r)
  {
    Document(sourceName, sourcePath, urlPath, DefaultFrontMatter, DocumentContent.Discovered, "")
  }

  /** `Document::title`: the front-matter title, else the title-cased file stem, else "Untitled". */
  function Title(d: Document): (r: string)
    ensures d.frontMatter.title.Some? ==> r == d.frontMatter.title.value
    ensures d.frontMatter.title.None? && FileStem(d.sourcePath).None? ==> r == "Untitled"
    ensures d.frontMatter.title.None? && FileStem(d.sourcePath).Some? ==>
      |r| == |FileStem(d.sourcePath).value| && forall i :: 0 <= i < |r| ==> r[i] !in Util.Separators
  {
    match d.frontMatter.title
    case Some(t) => t
    case None =>
      match FileStem(d.sourcePath)
      case Some(stem) => TitleCase(stem)
      case None => "Untitled"
  }

  /** The file name of `dir` joined with a plain name is that name. */
  lemma FileNameOfJoin(dir: string, f: string)
    requires f != [] && '/' !in f && f != "." && f != ".."
    ensures FileName(JoinPath(dir, f)) == Some(f)
  {
    assert f[0] in f;
    JoinRelative(dir, f);
    var p := JoinPath(dir, f);
    var k := |p| - |f|;
    assert p[k..] == f;
    if dir != [] && !EndsWith(dir, "/") {
      assert p == dir + "/" + f;
      assert p[k - 1] == '/';
    } else if dir != [] {
      assert p == dir + f;
      assert dir[|dir| - 1..] == "/";
      assert p[k - 1] == '/';
    }
    LastSegmentStartUnique(p, k);
  }

  /** The stem of `stem.ext` is `stem`. */
  lemma StemOfName(stem: string, ext: string)
    requires stem != [] && '.' !in stem && '.' !in ext
    ensures ExtensionDot(stem + "." + ext) == Some(|stem|)
  {
    var f := stem + "." + ext;
    assert f[0] != '.';
    LastDotUnique(f, |stem|);
  }

  lemma StemPrefix(stem: string, ext: string)
    ensures |stem| < |stem + "." + ext| && (stem + "." + ext)[..|stem|] == stem
  {
  }

  lemma FileStemFromParts(p: string, f: string, stem: string)
    requires FileName(p) == Some(f) && |stem| < |f| && ExtensionDot(f) == Some(|stem|) && f[..|stem|] == stem
    ensures FileStem(p) == Some(stem)
  {
  }

  lemma FileNameOfStemJoin(dir: string, stem: string, ext: string)
    requires stem != [] && stem[0] != '/' && '/' !in stem
    requires ext != [] && '/' !in ext
    ensures FileName(JoinPath(dir, stem + "." + ext)) == Some(stem + "." + ext)
  {
    var f := stem + "." + ext;
    assert '/' !in f && f != "." && f != "..";
    FileNameOfJoin(dir, f);
  }

  lemma FileStemOfJoin(dir: string, stem: string, ext: string)
    requires stem != [] && stem[0] != '/' && '/' !in stem && '.' !in stem
    requires ext != [] && '.' !in ext && '/' !in ext
    ensures FileStem(JoinPath(dir, stem + "." + ext)) == Some(stem)
  {
    FileNameOfStemJoin(dir, stem, ext);
    StemOfName(stem, ext);
    StemPrefix(stem, ext);
    FileStemFromParts(JoinPath(dir, stem + "." + ext), stem + "." + ext, stem);
  }

  /**
   * Without a front-matter title, a document at `dir/stem.ext` is titled by
   * its stem in title case.
   */
  lemma TitleFallback(d: Document, dir: string, stem: string, ext: string)
    requires d.frontMatter.title.None?
    requires d.sourcePath == JoinPath(dir, stem + "." + ext)
    requires stem != [] && stem[0] != '/' && '/' !in stem && '.' !in stem
    requires ext != [] && '.' !in ext && '/' !in ext
    ensures Title(d) == TitleCase(stem)
  {
    FileStemOfJoin(dir, stem, ext);
  }

  /** The title in front matter wins over the file name. */
  lemma TitleFromFrontMatter(d: Document)
    requires d.frontMatter.title.Some?
    ensures Title(d) == d.frontMatter.title.value
  {
  }

  /** The file name's rule, when no stem exists at all. */
  lemma TitleUntitled(d: Document)
    requires d.frontMatter.title.None? && FileName(d.sourcePath).None?
    ensures Title(d) == "Untitled"
  {
  }

  predicate IsLoaded(d: Document)
  {
    !d.content.Discovered?
  }

  predicate IsRendered(d: Document)
  {
    d.content.Rendered?
  }

  function RawContentOf(d: Document): Option<string>
  {
    if d.content.Raw? then Some(d.content.text) else None
  }

  function ParsedContentOf(d: Document): Option<string>
  {
    if d.content.Parsed? then Some(d.content.text) else None
  }

  function RenderedContentOf(d: Document): Option<string>
  {
    if d.content.Rendered? then Some(d.content.html) else None
  }

  /**
   * The stages exclude each other: at most one of the raw, parsed and
   * rendered texts is available, any of them means the document is loaded,
   * and `is_rendered` holds exactly when the rendered HTML is available.
   */
  lemma ContentStages(d: Document)
    ensures !(RawContentOf(d).Some? && ParsedContentOf(d).Some?)
    ensures !(RawContentOf(d).Some? && RenderedContentOf(d).Some?)
    ensures !(ParsedContentOf(d).Some? && RenderedContentOf(d).Some?)
    ensures (RawContentOf(d).Some? || ParsedContentOf(d).Some? || RenderedContentOf(d).Some?) <==> IsLoaded(d)
    ensures IsRendered(d) <==> RenderedContentOf(d).Some?
  {
  }
}
