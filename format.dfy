/**
 * Content formats (`build/format.rs`): a registry of formats, each
 * handling some file extensions, searched newest first so that a later
 * registration takes precedence. Rendering itself is not modelled here:
 * the stages that render take it as a parameter.
 */
module Formats {
  import opened Wrappers
  import opened Strings
  import opened Paths

  /** An entry of a page's table of contents. */
  datatype TocEntry = TocEntry(text: string, id: string, level: nat)

  /** What rendering a document's content gives: HTML and its table of contents. */
  datatype FormatOutput = FormatOutput(html: string, toc: seq<TocEntry>)

  /** A content format: its name and the (lower-case) extensions it handles. */
  datatype Format = Format(name: string, extensions: seq<string>)

  /** `MarkdownFormat`. */
  const MarkdownFormat := Format("markdown", ["md", "markdown"])

  /** The index of the last format handling `ext`, searching down from index `k - 1`. */
  function LastHandling(formats: seq<Format>, ext: string, k: nat): (r: Option<nat>)
    requires k <= |formats|
    ensures r.Some? ==> r.value < k && ext in formats[r.value].extensions
    ensures r.Some? ==> forall j :: r.value < j < k ==> ext !in formats[j].extensions
    ensures r.None? ==> forall j :: 0 <= j < k ==> ext !in formats[j].extensions
    decreases k
  {
    if k == 0 then None
    else if ext in formats[k - 1].extensions then Some(k - 1)
    else LastHandling(formats, ext, k - 1)
  }

  /**
   * `for_extension`: the most recently registered format handling the
   * lower-cased extension.
   */
  function FindFormat(formats: seq<Format>, ext: string): (r: Option<Format>)
    ensures r.Some? <==> exists i :: 0 <= i < |formats| && Lower(ext) in formats[i].extensions
    ensures r.Some? ==> Lower(ext) in r.value.extensions && r.value in formats
  {
    match LastHandling(formats, Lower(ext), |formats|)
    case None => None
    case Some(i) => Some(formats[i])
  }

  /** The extensions of all formats, in registration order. */
  function AllExtensionsOf(formats: seq<Format>): (r: seq<string>)
    ensures forall e :: e in r <==> exists i :: 0 <= i < |formats| && e in formats[i].extensions
    decreases |formats|
  {
    if formats == [] then []
    else
      var init := formats[..|formats| - 1];
      assert forall i :: 0 <= i < |init| ==> init[i] == formats[i];
      AllExtensionsOf(init) + formats[|formats| - 1].extensions
  }

  /** Registering appends the new format's extensions to the list. */
  lemma AllExtensionsRegister(formats: seq<Format>, f: Format)
    ensures AllExtensionsOf(formats + [f]) == AllExtensionsOf(formats) + f.extensions
  {
    assert (formats + [f])[..|formats|] == formats;
  }

  /** A newly registered format wins for each of its lower-case extensions. */
  lemma LaterTakesPrecedence(formats: seq<Format>, f: Format, ext: string)
    requires Lower(ext) in f.extensions
    ensures FindFormat(formats + [f], ext) == Some(f)
  {
  }

  /** For other extensions, registering changes nothing. */
  lemma RegisterKeepsOthers(formats: seq<Format>, f: Format, ext: string)
    requires Lower(ext) !in f.extensions
    ensures FindFormat(formats + [f], ext) == FindFormat(formats, ext)
  {
    var e := Lower(ext);
    var fs := formats + [f];
    assert LastHandling(fs, e, |fs|) == LastHandling(fs, e, |formats|);
    LastHandlingPrefix(formats, [f], e, |formats|);
  }

  /** The search below `k` does not look past `k`. */
  lemma {:induction false} LastHandlingPrefix(a: seq<Format>, b: seq<Format>, ext: string, k: nat)
    requires k <= |a|
    ensures LastHandling(a + b, ext, k) == LastHandling(a, ext, k)
    decreases k
  {
    if k > 0 {
      assert (a + b)[k - 1] == a[k - 1];
      LastHandlingPrefix(a, b, ext, k - 1);
    }
  }

  /** The format registry; `formats` lists the formats in registration order. */
  class FormatRegistry {
    var formats: seq<Format>

    /** `FormatRegistry::new`: no formats. */
    constructor()
      ensures formats == []
    {
      formats := [];
    }

    /** `FormatRegistry::with_defaults`: the Markdown format alone. */
    constructor WithDefaults()
      ensures formats == [MarkdownFormat]
      ensures FindFormat(formats, "md") == Some(MarkdownFormat)
      ensures FindFormat(formats, "markdown") == Some(MarkdownFormat)
    {
      formats := [MarkdownFormat];
      assert Lower("md") == "md";
      assert Lower("markdown") == "markdown";
    }

    /** `register`: append; the new format takes precedence for its extensions. */
    method Register(f: Format)
      modifies this
      ensures formats == old(formats) + [f]
      ensures forall ext :: Lower(ext) in f.extensions ==> ForExtension(ext) == Some(f)
      ensures forall ext :: Lower(ext) !in f.extensions ==> ForExtension(ext) == old(ForExtension(ext))
    {
      formats := formats + [f];
      forall ext | Lower(ext) !in f.extensions
        ensures FindFormat(formats, ext) == FindFormat(old(formats), ext)
      {
        RegisterKeepsOthers(old(formats), f, ext);
      }
    }

    function ForExtension(ext: string): (r: Option<Format>)
      reads this
      ensures r.Some? <==> exists i :: 0 <= i < |formats| && Lower(ext) in formats[i].extensions
      ensures r.Some? ==> Lower(ext) in r.value.extensions && r.value in formats
    {
      FindFormat(formats, ext)
    }

    /** `for_path`: the format for the path's extension; none without one. */
    function ForPath(path: string): (r: Option<Format>)
      reads this
      ensures Extension(path).None? ==> r.None?
      ensures Extension(path).Some? ==> r == ForExtension(Extension(path).value)
    {
      match Extension(path)
      case None => None
      case Some(e) => ForExtension(e)
    }

    /** `is_document`: the path has a registered format. */
    predicate IsDocument(path: string)
      reads this
      ensures IsDocument(path) <==> (Extension(path).Some? &&
        exists i :: 0 <= i < |formats| && Lower(Extension(path).value) in formats[i].extensions)
    {
      ForPath(path).Some?
    }

    function AllExtensions(): (r: seq<string>)
      reads this
      ensures forall e :: e in r <==> exists i :: 0 <= i < |formats| && e in formats[i].extensions
    {
      AllExtensionsOf(formats)
    }
  }

  // ----- the examples of the test module of `build/format.rs` -----------

  lemma UpperCaseMdFacts()
    ensures Lower("MD") == "md" && Lower("txt") == "txt"
  {
  }

  /** With the defaults, `md`, `markdown` and `MD` find Markdown and `txt` finds nothing. */
  lemma DefaultLookups()
    ensures FindFormat([MarkdownFormat], "md") == Some(MarkdownFormat)
    ensures FindFormat([MarkdownFormat], "markdown") == Some(MarkdownFormat)
    ensures FindFormat([MarkdownFormat], "MD") == Some(MarkdownFormat)
    ensures FindFormat([MarkdownFormat], "txt") == None
  {
    UpperCaseMdFacts();
    assert Lower("md") == "md";
    assert Lower("markdown") == "markdown";
  }

  /** A format registered after the defaults is found by its own extensions. */
  lemma CustomFormat()
    ensures FindFormat([MarkdownFormat, Format("mock", ["mock", "test"])], "mock") == Some(Format("mock", ["mock", "test"]))
    ensures FindFormat([MarkdownFormat, Format("mock", ["mock", "test"])], "test").Some?
  {
    assert Lower("mock") == "mock";
    assert Lower("test") == "test";
    assert [MarkdownFormat, Format("mock", ["mock", "test"])] == [MarkdownFormat] + [Format("mock", ["mock", "test"])];
    LaterTakesPrecedence([MarkdownFormat], Format("mock", ["mock", "test"]), "mock");
    LaterTakesPrecedence([MarkdownFormat], Format("mock", ["mock", "test"]), "test");
  }

  /** A `stem.ext` path is a document exactly when `ext` names a registered format. */
  lemma DocumentByExtension(registry: FormatRegistry, stem: string, ext: string, path: string)
    requires stem != [] && stem[|stem| - 1] != '/' && ext != [] && '.' !in ext && '/' !in ext
    requires path == stem + "." + ext
    ensures registry.IsDocument(path) <==> FindFormat(registry.formats, ext).Some?
  {
    WithoutExtensionAppendExt(stem, ext);
  }

  /** With the defaults, `stem.md` and `stem.markdown` are documents. */
  lemma DefaultMarkdownDocument(registry: FormatRegistry, stem: string, ext: string, path: string)
    requires registry.formats == [MarkdownFormat]
    requires stem != [] && stem[|stem| - 1] != '/' && (ext == "md" || ext == "markdown")
    requires path == stem + "." + ext
    ensures registry.IsDocument(path)
  {
    DocumentByExtension(registry, stem, ext, path);
    DefaultLookups();
  }

  /** With the defaults, `stem.png` and `stem.css` are not documents. */
  lemma DefaultOtherFile(registry: FormatRegistry, stem: string, ext: string, path: string)
    requires registry.formats == [MarkdownFormat]
    requires stem != [] && stem[|stem| - 1] != '/' && (ext == "png" || ext == "css")
    requires path == stem + "." + ext
    ensures !registry.IsDocument(path)
  {
    DocumentByExtension(registry, stem, ext, path);
    LowerFileExtensions();
  }

  lemma LowerFileExtensions()
    ensures Lower("png") == "png" && Lower("css") == "css"
  {
  }

  lemma ExamplePaths(intro: string, guide: string, image: string, style: string)
    requires intro == "docs/intro.md" && guide == "guide.markdown"
    requires image == "image.png" && style == "style.css"
    ensures intro == "docs/intro" + "." + "md" && guide == "guide" + "." + "markdown"
    ensures image == "image" + "." + "png" && style == "style" + "." + "css"
  {
  }

  /**
   * With the defaults, `docs/intro.md` and `guide.markdown` are documents;
   * `image.png` and `style.css` are not.
   */
  lemma DefaultIsDocument(registry: FormatRegistry, intro: string, guide: string, image: string, style: string)
    requires registry.formats == [MarkdownFormat]
    requires intro == "docs/intro.md" && guide == "guide.markdown"
    requires image == "image.png" && style == "style.css"
    ensures registry.IsDocument(intro) && registry.IsDocument(guide)
    ensures !registry.IsDocument(image) && !registry.IsDocument(style)
  {
    ExamplePaths(intro, guide, image, style);
    DefaultMarkdownDocument(registry, "docs/intro", "md", intro);
    DefaultMarkdownDocument(registry, "guide", "markdown", guide);
    DefaultOtherFile(registry, "image", "png", image);
    DefaultOtherFile(registry, "style", "css", style);
  }
}
