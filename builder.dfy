/**
 * The site builder (`build/builder.rs`): its settings, where it writes,
 * where it finds the theme, the navigation tabs of the sources, and how the
 * discovered content is collected and split into documents for the
 * pipeline and static files to copy. Filesystem access is given as values:
 * the set of existing paths, and content discovery and git fetching as
 * functions.
 */
module Builder {
  import opened Wrappers
  import opened Strings
  import opened Paths
  import opened Util
  import opened Documents
  import opened Configuration
  import opened Sources
  import opened Pipelines
  import ConfigTypes

  datatype BuildError =
    | Source(sourceError: SourceError)
    | Render(message: string)
    | Io(message: string)
    | Pipeline(pipelineError: PipelineError)
    | Git(message: string)
    | Theme(message: string)

  /** The builder's settings. */
  datatype SiteBuilder = SiteBuilder(
    config: RootConfig,
    basePath: string,
    themeBasePath: Option<string>,
    devMode: bool,
    liveReload: bool)

  /** `Builder::new`: no separate theme base, development mode and live reload off. */
  function NewBuilder(config: RootConfig, basePath: string): (b: SiteBuilder)
    ensures b.config == config && b.basePath == basePath
    ensures b.themeBasePath.None? && !b.devMode && !b.liveReload
  {
    SiteBuilder(config, basePath, None, false, false)
  }

  function WithThemeBasePath(b: SiteBuilder, path: string): (r: SiteBuilder)
    ensures r.themeBasePath == Some(path)
    ensures r.(themeBasePath := b.themeBasePath) == b
  {
    b.(themeBasePath := Some(path))
  }

  function WithDevMode(b: SiteBuilder, devMode: bool): (r: SiteBuilder)
    ensures r.devMode == devMode
    ensures r.(devMode := b.devMode) == b
  {
    b.(devMode := devMode)
  }

  function WithLiveReload(b: SiteBuilder, liveReload: bool): (r: SiteBuilder)
    ensures r.liveReload == liveReload
    ensures r.(liveReload := b.liveReload) == b
  {
    b.(liveReload := liveReload)
  }

  /** The settings are independent: each setter leaves the others as they were. */
  lemma SettersIndependent(b: SiteBuilder, path: string, dev: bool, live: bool)
    ensures WithDevMode(WithThemeBasePath(b, path), dev).themeBasePath == Some(path)
    ensures WithLiveReload(WithDevMode(b, dev), live).devMode == dev
    ensures WithThemeBasePath(WithLiveReload(b, live), path).liveReload == live
    ensures WithThemeBasePath(WithDevMode(WithLiveReload(b, live), dev), path).config == b.config
    ensures WithThemeBasePath(WithDevMode(WithLiveReload(b, live), dev), path).basePath == b.basePath
  {
  }

  /** `output_dir`: a relative output directory lies under the base path; an absolute one is kept. */
  function OutputDir(b: SiteBuilder): (r: string)
    ensures IsAbsolute(b.config.site.output) ==> r == b.config.site.output
    ensures !IsAbsolute(b.config.site.output) ==> StartsWith(r, b.basePath)
  {
    var output := b.config.site.output;
    if !IsAbsolute(output) then JoinPath(b.basePath, output) else output
  }

  /** The test on relativity is the one `Path::join` makes itself. */
  lemma OutputDirIsJoin(b: SiteBuilder)
    ensures OutputDir(b) == JoinPath(b.basePath, b.config.site.output)
  {
  }

  /** The directory a relative theme path is taken from: the theme base path if set, else the base path. */
  function ThemeBase(b: SiteBuilder): (r: string)
    ensures b.themeBasePath.Some? ==> r == b.themeBasePath.value
    ensures b.themeBasePath.None? ==> r == b.basePath
  {
    b.themeBasePath.UnwrapOr(b.basePath)
  }

  /** A builder for a child configuration finds the theme in the parent's directory. */
  lemma ChildThemeBase(config: RootConfig, basePath: string, parent: string)
    ensures ThemeBase(NewBuilder(config, basePath)) == basePath
    ensures ThemeBase(WithThemeBasePath(NewBuilder(config, basePath), parent)) == parent
  {
  }

  const MissingThemeMessage := "theme path does not exist: "
  const MissingFetchedThemeMessage := "theme path does not exist after git fetch: "

  /**
   * `resolve_theme_path`, for the theme's location: a local path,
   * relative ones taken from the theme base, must exist; a git location is
   * fetched, its subpath applied, and the result must exist.
   */
  function ResolveThemePath(
    b: SiteBuilder,
    location: ConfigTypes.Location,
    existing: set<string>,
    fetch: ConfigTypes.GitLocation -> Result<string, string>): (r: Result<string, BuildError>)
    ensures r.Ok? ==> r.value in existing
    ensures location.Path? ==>
      var resolved := JoinPath(ThemeBase(b), location.path);
      r == if resolved in existing then Ok(resolved) else Err(Theme(MissingThemeMessage + resolved))
    ensures location.Git? && fetch(ConfigTypes.ToLocation(location.git)).Err? ==>
      r == Err(Git(fetch(ConfigTypes.ToLocation(location.git)).error))
  {
    match location
    case Path(path) =>
      var resolved := if !IsAbsolute(path) then JoinPath(ThemeBase(b), path) else path;
      if resolved !in existing then Err(Theme(MissingThemeMessage + resolved))
      else Ok(resolved)
    case Git(git) =>
      var loc := ConfigTypes.ToLocation(git);
      match fetch(loc)
      case Err(e) => Err(Git(e))
      case Ok(repo) =>
        var resolved := if loc.subpath.Some? then JoinPath(repo, loc.subpath.value) else repo;
        if resolved !in existing then Err(Theme(MissingFetchedThemeMessage + resolved))
        else Ok(resolved)
  }

  /**
   * A fetched theme lies in the checkout, at its subpath when one is given,
   * and is reported missing with its own message.
   */
  lemma FetchedTheme(
    b: SiteBuilder,
    git: ConfigTypes.GitValue,
    existing: set<string>,
    fetch: ConfigTypes.GitLocation -> Result<string, string>)
    requires fetch(ConfigTypes.ToLocation(git)).Ok?
    ensures var loc := ConfigTypes.ToLocation(git);
      var repo := fetch(loc).value;
      var resolved := if loc.subpath.Some? then JoinPath(repo, loc.subpath.value) else repo;
      ResolveThemePath(b, ConfigTypes.Git(git), existing, fetch) ==
        if resolved in existing then Ok(resolved) else Err(Theme(MissingFetchedThemeMessage + resolved))
  {
  }

  // ---------------------------------------------------------------------
  // Source tabs
  // ---------------------------------------------------------------------

  /** The navigation tab of one source, not yet marked current. */
  function SourceTabOf(src: ResolvedSource): (tab: SourceTab)
    ensures tab.sourceId == src.config.name && !tab.isCurrent
    ensures tab.isTopLevel <==> UrlPrefix(src) == "/"
    ensures tab.url == if UrlPrefix(src) == "/" then "/" else UrlPrefix(src) + "/"
    ensures tab.name == if src.config.title.Some? then src.config.title.value else TitleCase(src.config.name)
  {
    var prefix := UrlPrefix(src);
    var isTopLevel := prefix == "/";
    SourceTab(
      src.config.title.UnwrapOr(TitleCase(src.config.name)),
      src.config.name,
      if isTopLevel then "/" else prefix + "/",
      false,
      isTopLevel)
  }

  /** The tabs of all sources, one per source, in order. */
  function SourceTabs(sources: seq<ResolvedSource>): (tabs: seq<SourceTab>)
    ensures |tabs| == |sources|
    ensures forall i :: 0 <= i < |tabs| ==> tabs[i] == SourceTabOf(sources[i])
  {
    seq(|sources|, i requires 0 <= i < |sources| => SourceTabOf(sources[i]))
  }

  /** A tab's URL always ends with `/`. */
  lemma TabUrlEndsWithSlash(src: ResolvedSource)
    ensures EndsWith(SourceTabOf(src).url, "/")
  {
    var prefix := UrlPrefix(src);
    if prefix != "/" {
      assert (prefix + "/")[|prefix + "/"| - 1..] == "/";
    }
  }

  /** A named source without a configured prefix lives under "/" + its name, and is not top-level. */
  lemma DefaultPrefixTab(src: ResolvedSource)
    requires src.config.urlPrefix.None? && src.config.name != ""
    ensures !SourceTabOf(src).isTopLevel
    ensures SourceTabOf(src).url == "/" + src.config.name + "/"
  {
    assert UrlPrefix(src) == "/" + src.config.name;
    assert |UrlPrefix(src)| > 1;
  }

  /**
   * On a page of source `current`, when source names are distinct, exactly
   * the tab of that source is marked current.
   */
  lemma PageTabs(sources: seq<ResolvedSource>, k: nat)
    requires forall i, j :: 0 <= i < j < |sources| ==> sources[i].config.name != sources[j].config.name
    requires k < |sources|
    ensures var tabs := SourceTabsFor(SourceTabs(sources), sources[k].config.name);
      |tabs| == |sources| && forall i :: 0 <= i < |tabs| ==> (tabs[i].isCurrent <==> i == k)
  {
    CurrentTabUnique(SourceTabs(sources), sources[k].config.name, k);
  }

  // ---------------------------------------------------------------------
  // Content
  // ---------------------------------------------------------------------

  /** A source's items, each paired with the source's local directory. */
  function WithSourcePath(items: seq<ContentItem>, path: string): (r: seq<(ContentItem, string)>)
    ensures |r| == |items|
    ensures forall i :: 0 <= i < |r| ==> r[i] == (items[i], path)
  {
    seq(|items|, i requires 0 <= i < |items| => (items[i], path))
  }

  /**
   * The content of the sources in order, each item with its source's
   * directory; the first source whose discovery fails ends the collection.
   */
  function Collected(sources: seq<ResolvedSource>, discover: ResolvedSource -> Result<seq<ContentItem>, SourceError>): Result<seq<(ContentItem, string)>, BuildError>
    decreases |sources|
  {
    if sources == [] then Ok([])
    else
      var last := sources[|sources| - 1];
      match Collected(sources[..|sources| - 1], discover)
      case Err(e) => Err(e)
      case Ok(items) =>
        match discover(last)
        case Err(e) => Err(Source(e))
        case Ok(content) => Ok(items + WithSourcePath(content, last.localPath))
  }

  /** The discovery loop of `build`. */
  method CollectItems(sources: seq<ResolvedSource>, discover: ResolvedSource -> Result<seq<ContentItem>, SourceError>)
    returns (r: Result<seq<(ContentItem, string)>, BuildError>)
    ensures r == Collected(sources, discover)
  {
    var all: seq<(ContentItem, string)> := [];
    for i := 0 to |sources|
      invariant Collected(sources[..i], discover) == Ok(all)
    {
      assert sources[..i + 1][..i] == sources[..i];
      match discover(sources[i])
      case Err(e) =>
        FailureStays(sources, discover, i + 1);
        return Err(Source(e));
      case Ok(content) =>
        all := all + WithSourcePath(content, sources[i].localPath);
    }
    assert sources[..|sources|] == sources;
    return Ok(all);
  }

  /** A failed collection stays failed with the same error as more sources follow. */
  lemma {:induction false} FailureStays(sources: seq<ResolvedSource>, discover: ResolvedSource -> Result<seq<ContentItem>, SourceError>, k: nat)
    requires k <= |sources| && Collected(sources[..k], discover).Err?
    ensures Collected(sources, discover) == Collected(sources[..k], discover)
    decreases |sources| - k
  {
    if k < |sources| {
      assert sources[..k + 1][..k] == sources[..k];
      FailureStays(sources, discover, k + 1);
    } else {
      assert sources[..k] == sources;
    }
  }

  /** Every collected item comes from some source's discovery and carries that source's directory. */
  lemma {:induction false} CollectedFromSources(sources: seq<ResolvedSource>, discover: ResolvedSource -> Result<seq<ContentItem>, SourceError>, x: (ContentItem, string))
    requires Collected(sources, discover).Ok? && x in Collected(sources, discover).value
    ensures exists i :: 0 <= i < |sources| && discover(sources[i]).Ok? && x.0 in discover(sources[i]).value && x.1 == sources[i].localPath
    decreases |sources|
  {
    var n := |sources| - 1;
    var init := sources[..n];
    var items := Collected(init, discover).value;
    var added := WithSourcePath(discover(sources[n]).value, sources[n].localPath);
    if x in items {
      CollectedFromSources(init, discover, x);
      var i :| 0 <= i < |init| && discover(init[i]).Ok? && x.0 in discover(init[i]).value && x.1 == init[i].localPath;
      assert sources[i] == init[i];
    } else {
      assert x in added;
      var j :| 0 <= j < |added| && added[j] == x;
      assert x.0 == discover(sources[n]).value[j];
    }
  }

  /** The documents of the collected items, ready for the pipeline, in order. */
  function DocumentsOf(items: seq<(ContentItem, string)>): (docs: seq<ProcessingDocument>)
    decreases |items|
  {
    if items == [] then []
    else
      var init := DocumentsOf(items[..|items| - 1]);
      var (item, path) := items[|items| - 1];
      match item
      case DocumentItem(doc) => init + [NewProcessingDocument(doc, path)]
      case StaticItem(_) => init
  }

  /** The static files of the collected items, with their source directories, in order. */
  function StaticsOf(items: seq<(ContentItem, string)>): (files: seq<(StaticFile, string)>)
    decreases |items|
  {
    if items == [] then []
    else
      var init := StaticsOf(items[..|items| - 1]);
      var (item, path) := items[|items| - 1];
      match item
      case DocumentItem(_) => init
      case StaticItem(file) => init + [(file, path)]
  }

  /** The separation loop of `build`. */
  method Partition(items: seq<(ContentItem, string)>) returns (documents: seq<ProcessingDocument>, statics: seq<(StaticFile, string)>)
    ensures documents == DocumentsOf(items)
    ensures statics == StaticsOf(items)
  {
    documents, statics := [], [];
    for i := 0 to |items|
      invariant documents == DocumentsOf(items[..i])
      invariant statics == StaticsOf(items[..i])
    {
      assert items[..i + 1][..i] == items[..i];
      var (item, path) := items[i];
      match item
      case DocumentItem(doc) =>
        documents := documents + [NewProcessingDocument(doc, path)];
      case StaticItem(file) =>
        statics := statics + [(file, path)];
    }
    assert items[..|items|] == items;
  }

  /** How many of the items are documents. */
  function DocCount(items: seq<(ContentItem, string)>): nat
    decreases |items|
  {
    if items == [] then 0
    else (if items[0].0.DocumentItem? then 1 else 0) + DocCount(items[1..])
  }

  /**
   * The counts `build` reports agree with the separation: the documents
   * counted are the documents passed on, and the rest, `total - doc_count`,
   * are the static files.
   */
  lemma {:induction false} PartitionCounts(items: seq<(ContentItem, string)>)
    ensures |DocumentsOf(items)| == DocCount(items)
    ensures |StaticsOf(items)| == |items| - DocCount(items)
    decreases |items|
  {
    if items != [] {
      var n := |items| - 1;
      PartitionCounts(items[..n]);
      DocCountLast(items);
    }
  }

  /** Counting documents from the back. */
  lemma {:induction false} DocCountLast(items: seq<(ContentItem, string)>)
    requires items != []
    ensures DocCount(items) == DocCount(items[..|items| - 1]) + if items[|items| - 1].0.DocumentItem? then 1 else 0
    decreases |items|
  {
    var n := |items| - 1;
    if n > 0 {
      assert items[1..][..n - 1] == items[..n][1..];
      DocCountLast(items[1..]);
    } else {
      assert items[..n] == [];
    }
  }

  /** Each document passed on is a collected document, with its source directory and fresh pipeline state. */
  lemma {:induction false} DocumentsFromItems(items: seq<(ContentItem, string)>, k: nat)
    requires k < |DocumentsOf(items)|
    ensures exists i :: (0 <= i < |items| && items[i].0.DocumentItem? &&
      DocumentsOf(items)[k] == NewProcessingDocument(items[i].0.doc, items[i].1))
    decreases |items|
  {
    var n := |items| - 1;
    var init := DocumentsOf(items[..n]);
    if k < |init| {
      DocumentsFromItems(items[..n], k);
      var i :| 0 <= i < n && items[..n][i].0.DocumentItem? && init[k] == NewProcessingDocument(items[..n][i].0.doc, items[..n][i].1);
      assert items[i] == items[..n][i];
    } else {
      assert items[n].0.DocumentItem?;
    }
  }
}
