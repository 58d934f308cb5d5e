/**
 * Content sources of `build/source.rs`: resolving a configured source to a
 * local directory, and discovering its documents and static files by walking
 * that directory. The file system is given as values: the sets of existing
 * paths and of directories for resolution, and a directory tree for the walk;
 * fetching a git repository is the parameter `fetch`.
 */
module Sources {
  import opened Wrappers
  import opened Strings
  import opened Paths
  import opened Documents
  import opened Configuration

  datatype SourceError =
    | PathNotFound(path: string)
    | NotADirectory(path: string)
    | ReadDir(dir: string)
    | ReadEntry(dir: string)
    | GitFailed(message: string)

  /** A source together with the local directory holding its content. */
  datatype ResolvedSource = ResolvedSource(config: SourceConfig, localPath: string)

  /**
   * The outcome of validating the directory `p` for `config`: it must
   * exist, and then it must be a directory.
   */
  function Validate(config: SourceConfig, p: string, existing: set<string>, dirs: set<string>): (r: Result<ResolvedSource, SourceError>)
    ensures p !in existing <==> r == Err(PathNotFound(p))
    ensures p in existing && p !in dirs <==> r == Err(NotADirectory(p))
    ensures p in existing && p in dirs <==> r == Ok(ResolvedSource(config, p))
  {
    if p !in existing then Err(PathNotFound(p))
    else if p !in dirs then Err(NotADirectory(p))
    else Ok(ResolvedSource(config, p))
  }

  /** The local path a configured location names, a relative one taken from `basePath`. */
  function LocalTarget(path: string, basePath: string): (r: string)
    ensures IsAbsolute(path) ==> r == path
    ensures !IsAbsolute(path) ==> StartsWith(r, basePath) && EndsWith(r, path)
  {
    if !IsAbsolute(path) then
      JoinRelative(basePath, path);
      JoinPath(basePath, path)
    else path
  }

  /**
   * `ResolvedSource::resolve`. A local source (content or sub-docs path) is
   * validated where it lies; a git source is fetched first, and then its
   * subpath, if it names one, is validated inside the checkout, while the
   * checkout itself is taken as it is.
   */
  function Resolve(
    config: SourceConfig,
    basePath: string,
    existing: set<string>,
    dirs: set<string>,
    fetch: GitConfig -> Result<string, string>): (r: Result<ResolvedSource, SourceError>)
    ensures r.Ok? ==> r.value.config == config
    ensures config.location.ContentPath? ==>
      r == Validate(config, LocalTarget(config.location.contentPath, basePath), existing, dirs)
    ensures config.location.LocalPath? ==>
      r == Validate(config, LocalTarget(config.location.path, basePath), existing, dirs)
    ensures config.location.GitSource? && fetch(config.location.git).Err? ==>
      r == Err(GitFailed(fetch(config.location.git).error))
    ensures config.location.GitSource? && fetch(config.location.git).Ok? && config.location.git.path.None? ==>
      r == Ok(ResolvedSource(config, fetch(config.location.git).value))
    ensures config.location.GitSource? && fetch(config.location.git).Ok? && config.location.git.path.Some? ==>
      r == Validate(config, JoinPath(fetch(config.location.git).value, config.location.git.path.value), existing, dirs)
  {
    match config.location
    case ContentPath(p) => Validate(config, LocalTarget(p, basePath), existing, dirs)
    case LocalPath(p) => Validate(config, LocalTarget(p, basePath), existing, dirs)
    case GitSource(g) =>
      match fetch(g)
      case Err(e) => Err(GitFailed(e))
      case Ok(repo) =>
        match g.path
        case Some(sub) => Validate(config, JoinPath(repo, sub), existing, dirs)
        case None => Ok(ResolvedSource(config, repo))
  }

  /** A resolved local or subpath directory exists and is a directory; a missing one is reported before a non-directory. */
  lemma ResolvedIsDirectory(
    config: SourceConfig, basePath: string, existing: set<string>, dirs: set<string>,
    fetch: GitConfig -> Result<string, string>)
    requires !config.location.GitSource? || config.location.git.path.Some?
    ensures var r := Resolve(config, basePath, existing, dirs, fetch);
      (r.Ok? ==> r.value.localPath in existing && r.value.localPath in dirs) &&
      (r.Err? && r.error.PathNotFound? ==> r.error.path !in existing) &&
      (r.Err? && r.error.NotADirectory? ==> r.error.path in existing && r.error.path !in dirs)
  {
  }

  /** `url_prefix`: the configured prefix, by default "/" followed by the source name. */
  function UrlPrefix(src: ResolvedSource): (r: string)
    ensures src.config.urlPrefix.Some? ==> r == src.config.urlPrefix.value
    ensures src.config.urlPrefix.None? ==> StartsWith(r, "/") && r[1..] == src.config.name
  {
    src.config.urlPrefix.UnwrapOr("/" + src.config.name)
  }

  const MarkdownExtensions: set<string> := {"md", "markdown"}

  predicate IsMarkdownPath(path: string)
  {
    Extension(path).Some? && Lower(Extension(path).value) in MarkdownExtensions
  }

  /**
   * `classify_file`: a file whose lower-cased extension is `md` or
   * `markdown` is a newly discovered document at its document URL; any other
   * file is a static file at its static URL.
   */
  function ClassifyFile(src: ResolvedSource, rel: string): (r: ContentItem)
    ensures r.SourceName() == src.config.name && r.SourcePath() == rel
    ensures r.DocumentItem? <==> IsMarkdownPath(rel)
    ensures r.DocumentItem? ==> r.doc == DiscoveredDocument(src.config.name, rel, SourcePathToUrl(rel, UrlPrefix(src)))
    ensures r.StaticItem? ==> r.file == NewStaticFile(src.config.name, rel, StaticPathToUrl(rel, UrlPrefix(src)))
  {
    var prefix := UrlPrefix(src);
    match Extension(rel)
    case Some(e) =>
      if Lower(e) in MarkdownExtensions then DocumentItem(DiscoveredDocument(src.config.name, rel, SourcePathToUrl(rel, prefix)))
      else StaticItem(NewStaticFile(src.config.name, rel, StaticPathToUrl(rel, prefix)))
    case None => StaticItem(NewStaticFile(src.config.name, rel, StaticPathToUrl(rel, prefix)))
  }

  /** Classifying each of `paths`, in order. */
  function ClassifyAll(src: ResolvedSource, paths: seq<string>): (r: seq<ContentItem>)
    ensures |r| == |paths|
    ensures forall k :: 0 <= k < |paths| ==> r[k] == ClassifyFile(src, paths[k])
    decreases |paths|
  {
    if paths == [] then [] else [ClassifyFile(src, paths[0])] + ClassifyAll(src, paths[1..])
  }

  lemma {:induction false} ClassifyAllAppend(src: ResolvedSource, a: seq<string>, b: seq<string>)
    ensures ClassifyAll(src, a + b) == ClassifyAll(src, a) + ClassifyAll(src, b)
    decreases |a|
  {
    if a == [] {
      assert a + b == b;
    } else {
      assert (a + b)[0] == a[0] && (a + b)[1..] == a[1..] + b;
      ClassifyAllAppend(src, a[1..], b);
    }
  }

  // ---------------------------------------------------------------------
  // The directory walk
  // ---------------------------------------------------------------------

  /** A directory tree: files, directories with their listing, and entries that are neither. */
  datatype Node = File | Directory(listing: Listing) | Other
  datatype Entry = Entry(name: string, node: Node)
  /** An entry of a listing, or one that could not be read. */
  datatype EntryRead = EntryOk(entry: Entry) | EntryError
  /** The entries of a directory in the order the system lists them, or a directory that cannot be read. */
  datatype Listing = Listing(entries: seq<EntryRead>) | ListingError

  const VendorDirectories: set<string> := {"node_modules", "__pycache__", "target", ".git"}

  /** Hidden entries, and vendor directories, are not walked. */
  predicate Skipped(e: Entry)
  {
    StartsWith(e.name, ".") || (e.node.Directory? && e.name in VendorDirectories)
  }

  /** The relative paths of the files the walk finds, in walk order. */
  function Files(rel: string, l: Listing): seq<string>
    decreases l, 1, 0
  {
    if l.ListingError? then [] else FilesIn(rel, l, |l.entries|)
  }

  /** The files found through the first `n` entries of `l`. */
  function FilesIn(rel: string, l: Listing, n: nat): seq<string>
    requires l.Listing? && n <= |l.entries|
    decreases l, 0, n
  {
    if n == 0 then [] else FilesIn(rel, l, n - 1) + EntryFiles(rel, l, n - 1)
  }

  /** The files found through entry `i` of `l`: itself if it is a file, those under it if it is a directory. */
  function EntryFiles(rel: string, l: Listing, i: nat): seq<string>
    requires l.Listing? && i < |l.entries|
    decreases l, 0, 0
  {
    match l.entries[i]
    case EntryError => []
    case EntryOk(e) =>
      if Skipped(e) then []
      else
        match e.node
        case File => [JoinPath(rel, e.name)]
        case Directory(sub) => Files(JoinPath(rel, e.name), sub)
        case Other => []
  }

  /** The first error the walk of `dir` meets, if any. */
  function WalkError(dir: string, l: Listing): Option<SourceError>
    decreases l, 1, 0
  {
    if l.ListingError? then Some(ReadDir(dir)) else WalkErrorFrom(dir, l, 0)
  }

  /** The first error met from entry `i` of `l` onwards. */
  function WalkErrorFrom(dir: string, l: Listing, i: nat): Option<SourceError>
    requires l.Listing? && i <= |l.entries|
    decreases l, 0, |l.entries| - i + 1
  {
    if i == |l.entries| then None
    else
      match EntryFailure(dir, l, i)
      case Some(err) => Some(err)
      case None => WalkErrorFrom(dir, l, i + 1)
  }

  /** The error entry `i` of `l` ends the walk with: its own, or that of the directory under it. */
  function EntryFailure(dir: string, l: Listing, i: nat): Option<SourceError>
    requires l.Listing? && i < |l.entries|
    decreases l, 0, 0
  {
    match l.entries[i]
    case EntryError => Some(ReadEntry(dir))
    case EntryOk(e) =>
      if !Skipped(e) && e.node.Directory? then WalkError(JoinPath(dir, e.name), e.node.listing) else None
  }

  /** A file entry that is not skipped adds its own relative path and no error. */
  lemma FileStep(dir: string, rel: string, l: Listing, i: nat)
    requires l.Listing? && i < |l.entries| && l.entries[i].EntryOk?
    requires !Skipped(l.entries[i].entry) && l.entries[i].entry.node.File?
    ensures FilesIn(rel, l, i + 1) == FilesIn(rel, l, i) + [JoinPath(rel, l.entries[i].entry.name)]
    ensures WalkErrorFrom(dir, l, i) == WalkErrorFrom(dir, l, i + 1)
  {
  }

  /** A directory entry that is not skipped adds the files under it, and its walk's error. */
  lemma DirectoryStep(dir: string, rel: string, l: Listing, i: nat)
    requires l.Listing? && i < |l.entries| && l.entries[i].EntryOk?
    requires !Skipped(l.entries[i].entry) && l.entries[i].entry.node.Directory?
    ensures var e := l.entries[i].entry;
      FilesIn(rel, l, i + 1) == FilesIn(rel, l, i) + Files(JoinPath(rel, e.name), e.node.listing) &&
      EntryFailure(dir, l, i) == WalkError(JoinPath(dir, e.name), e.node.listing)
  {
  }

  /** A skipped entry, or one that is neither file nor directory, adds nothing. */
  lemma QuietStep(dir: string, rel: string, l: Listing, i: nat)
    requires l.Listing? && i < |l.entries| && l.entries[i].EntryOk?
    requires Skipped(l.entries[i].entry) || l.entries[i].entry.node.Other?
    ensures FilesIn(rel, l, i + 1) == FilesIn(rel, l, i)
    ensures WalkErrorFrom(dir, l, i) == WalkErrorFrom(dir, l, i + 1)
  {
  }

  /** An unreadable entry met before any error ends the walk of its directory with `ReadEntry`. */
  lemma ErrorStep(dir: string, l: Listing, i: nat)
    requires l.Listing? && i < |l.entries| && l.entries[i].EntryError?
    requires WalkError(dir, l) == WalkErrorFrom(dir, l, i)
    ensures WalkError(dir, l) == Some(ReadEntry(dir))
  {
  }

  lemma AccumulateStep(src: ResolvedSource, items: seq<ContentItem>, acc: seq<ContentItem>, a: seq<string>, b: seq<string>)
    requires acc == items + ClassifyAll(src, a)
    ensures acc + ClassifyAll(src, b) == items + ClassifyAll(src, a + b)
  {
    ClassifyAllAppend(src, a, b);
    AppendRegroup(items, ClassifyAll(src, a), ClassifyAll(src, b), acc);
  }

  lemma AppendRegroup(items: seq<ContentItem>, x: seq<ContentItem>, y: seq<ContentItem>, acc: seq<ContentItem>)
    requires acc == items + x
    ensures acc + y == items + (x + y)
  {
  }

  /** What the walk of `l` holds after its first `i` entries: no error yet, and the items of their files after `items`. */
  ghost predicate WalkInv(src: ResolvedSource, dir: string, rel: string, l: Listing, items: seq<ContentItem>, acc: seq<ContentItem>, i: nat)
  {
    l.Listing? && i <= |l.entries| && WalkError(dir, l) == WalkErrorFrom(dir, l, i) &&
    acc == items + ClassifyAll(src, FilesIn(rel, l, i))
  }

  lemma WalkStart(src: ResolvedSource, dir: string, rel: string, l: Listing, items: seq<ContentItem>)
    requires l.Listing?
    ensures WalkInv(src, dir, rel, l, items, items, 0)
  {
    assert items + [] == items;
  }

  lemma WalkDone(src: ResolvedSource, dir: string, rel: string, l: Listing, items: seq<ContentItem>, acc: seq<ContentItem>)
    requires l.Listing? && WalkInv(src, dir, rel, l, items, acc, |l.entries|)
    ensures WalkError(dir, l).None? && acc == items + ClassifyAll(src, Files(rel, l))
  {
  }

  lemma QuietAdvance(src: ResolvedSource, dir: string, rel: string, l: Listing, items: seq<ContentItem>, acc: seq<ContentItem>, i: nat)
    requires l.Listing? && i < |l.entries| && WalkInv(src, dir, rel, l, items, acc, i)
    requires l.entries[i].EntryOk? && (Skipped(l.entries[i].entry) || l.entries[i].entry.node.Other?)
    ensures WalkInv(src, dir, rel, l, items, acc, i + 1)
  {
    QuietStep(dir, rel, l, i);
  }

  lemma FileAdvance(src: ResolvedSource, dir: string, rel: string, l: Listing, items: seq<ContentItem>, acc: seq<ContentItem>, i: nat)
    requires l.Listing? && i < |l.entries| && WalkInv(src, dir, rel, l, items, acc, i)
    requires l.entries[i].EntryOk? && !Skipped(l.entries[i].entry) && l.entries[i].entry.node.File?
    ensures WalkInv(src, dir, rel, l, items, acc + [ClassifyFile(src, JoinPath(rel, l.entries[i].entry.name))], i + 1)
  {
    var p := JoinPath(rel, l.entries[i].entry.name);
    FileStep(dir, rel, l, i);
    AccumulateStep(src, items, acc, FilesIn(rel, l, i), [p]);
    assert ClassifyAll(src, [p]) == [ClassifyFile(src, p)];
  }

  lemma DirectoryAdvance(src: ResolvedSource, dir: string, rel: string, l: Listing, items: seq<ContentItem>, acc: seq<ContentItem>, i: nat, res: seq<ContentItem>)
    requires l.Listing? && i < |l.entries| && WalkInv(src, dir, rel, l, items, acc, i)
    requires l.entries[i].EntryOk? && !Skipped(l.entries[i].entry) && l.entries[i].entry.node.Directory?
    requires WalkError(JoinPath(dir, l.entries[i].entry.name), l.entries[i].entry.node.listing).None?
    requires res == acc + ClassifyAll(src, Files(JoinPath(rel, l.entries[i].entry.name), l.entries[i].entry.node.listing))
    ensures WalkInv(src, dir, rel, l, items, res, i + 1)
  {
    var e := l.entries[i].entry;
    DirectoryStep(dir, rel, l, i);
    AccumulateStep(src, items, acc, FilesIn(rel, l, i), Files(JoinPath(rel, e.name), e.node.listing));
  }

  lemma DirectoryFails(dir: string, l: Listing, i: nat)
    requires l.Listing? && i < |l.entries| && WalkError(dir, l) == WalkErrorFrom(dir, l, i)
    requires l.entries[i].EntryOk? && !Skipped(l.entries[i].entry) && l.entries[i].entry.node.Directory?
    requires WalkError(JoinPath(dir, l.entries[i].entry.name), l.entries[i].entry.node.listing).Some?
    ensures WalkError(dir, l) == WalkError(JoinPath(dir, l.entries[i].entry.name), l.entries[i].entry.node.listing)
  {
    DirectoryStep(dir, "", l, i);
  }

  /**
   * `walk_directory`: visits the entries of `dir` in order, skipping hidden
   * entries and vendor directories, recursing into directories and
   * classifying files, each file at its parent's relative path joined with
   * its name. The first unreadable directory or entry ends the walk with its
   * error; otherwise the found items follow `items`.
   */
  method WalkDirectory(src: ResolvedSource, dir: string, rel: string, l: Listing, items: seq<ContentItem>)
    returns (r: Result<seq<ContentItem>, SourceError>)
    ensures WalkError(dir, l).Some? ==> r == Err(WalkError(dir, l).value)
    ensures WalkError(dir, l).None? ==> r == Ok(items + ClassifyAll(src, Files(rel, l)))
    decreases l
  {
    if l.ListingError? {
      return Err(ReadDir(dir));
    }
    var acc := items;
    var i := 0;
    WalkStart(src, dir, rel, l, items);
    while i < |l.entries|
      invariant WalkInv(src, dir, rel, l, items, acc, i)
      decreases |l.entries| - i
    {
      match l.entries[i]
      case EntryError =>
        ErrorStep(dir, l, i);
        return Err(ReadEntry(dir));
      case EntryOk(e) =>
        if Skipped(e) || e.node.Other? {
          QuietAdvance(src, dir, rel, l, items, acc, i);
        } else if e.node.File? {
          FileAdvance(src, dir, rel, l, items, acc, i);
          acc := acc + [ClassifyFile(src, JoinPath(rel, e.name))];
        } else {
          var res := WalkDirectory(src, JoinPath(dir, e.name), JoinPath(rel, e.name), e.node.listing, acc);
          if res.Err? {
            DirectoryFails(dir, l, i);
            return res;
          }
          DirectoryAdvance(src, dir, rel, l, items, acc, i, res.value);
          acc := res.value;
        }
      i := i + 1;
    }
    WalkDone(src, dir, rel, l, items, acc);
    return Ok(acc);
  }

  /** `discover_content`: the walk of the source's local directory from the empty relative path. */
  method DiscoverContent(src: ResolvedSource, tree: Listing) returns (r: Result<seq<ContentItem>, SourceError>)
    ensures WalkError(src.localPath, tree).Some? ==> r == Err(WalkError(src.localPath, tree).value)
    ensures WalkError(src.localPath, tree).None? ==> r == Ok(ClassifyAll(src, Files("", tree)))
  {
    r := WalkDirectory(src, src.localPath, "", tree, []);
    assert [] + ClassifyAll(src, Files("", tree)) == ClassifyAll(src, Files("", tree));
  }

  // ---------------------------------------------------------------------
  // What the walk finds
  // ---------------------------------------------------------------------

  /**
   * `p` is reached from the listing `l`, seen at relative path `rel`: through
   * an entry that is not skipped and is either the file whose relative path
   * is `p`, or a directory under which `p` is reached.
   */
  predicate FoundIn(rel: string, l: Listing, p: string)
    decreases l, 2
  {
    l.Listing? && FoundThroughEntries(rel, l, p) != {}
  }

  /** The positions of the entries of `l` through which `p` is reached. */
  function FoundThroughEntries(rel: string, l: Listing, p: string): (r: set<nat>)
    requires l.Listing?
    ensures forall i :: i in r ==> i < |l.entries|
    decreases l, 1
  {
    set i: nat | i < |l.entries| && FoundThrough(rel, l, i, p)
  }

  predicate FoundThrough(rel: string, l: Listing, i: nat, p: string)
    decreases l, 0
  {
    l.Listing? && i < |l.entries| &&
    var er := l.entries[i];
    er.EntryOk? && !Skipped(er.entry) &&
    ((er.entry.node.File? && p == JoinPath(rel, er.entry.name)) ||
     (er.entry.node.Directory? && FoundIn(JoinPath(rel, er.entry.name), er.entry.node.listing, p)))
  }

  lemma EntryFilesFound(rel: string, l: Listing, i: nat, p: string)
    requires l.Listing? && i < |l.entries|
    ensures p in EntryFiles(rel, l, i) <==> FoundThrough(rel, l, i, p)
    decreases l, 0, 0
  {
    var er := l.entries[i];
    if er.EntryOk? && !Skipped(er.entry) && er.entry.node.Directory? {
      FilesFound(JoinPath(rel, er.entry.name), er.entry.node.listing, p);
    }
  }

  lemma {:induction false} FilesInFound(rel: string, l: Listing, n: nat, p: string)
    requires l.Listing? && n <= |l.entries|
    ensures p in FilesIn(rel, l, n) <==> exists i: nat :: i < n && FoundThrough(rel, l, i, p)
    decreases l, 0, n
  {
    if n > 0 {
      FilesInFound(rel, l, n - 1, p);
      EntryFilesFound(rel, l, n - 1, p);
    }
  }

  /**
   * The walk finds exactly the files reachable through entries that are not
   * skipped: a hidden entry, or a vendor directory, contributes nothing, and
   * every file is seen at the path of its directory joined with its name.
   */
  lemma {:induction false} FilesFound(rel: string, l: Listing, p: string)
    ensures p in Files(rel, l) <==> FoundIn(rel, l, p)
    decreases l, 1, 0
  {
    if l.Listing? {
      FilesInFound(rel, l, |l.entries|, p);
      if p in Files(rel, l) {
        var i: nat :| i < |l.entries| && FoundThrough(rel, l, i, p);
        assert i in FoundThroughEntries(rel, l, p);
      }
      if FoundIn(rel, l, p) {
        var i :| i in FoundThroughEntries(rel, l, p);
        assert i < |l.entries| && FoundThrough(rel, l, i, p);
        assert exists k: nat :: k < |l.entries| && FoundThrough(rel, l, k, p);
      }
    }
  }

  /** Every item of a successful walk belongs to the source and sits at the relative path of a found file. */
  lemma DiscoveredItems(src: ResolvedSource, tree: Listing, k: nat)
    requires k < |Files("", tree)|
    ensures var item := ClassifyAll(src, Files("", tree))[k];
      item.SourceName() == src.config.name && FoundIn("", tree, item.SourcePath())
  {
    var p := Files("", tree)[k];
    FilesFound("", tree, p);
  }
}
