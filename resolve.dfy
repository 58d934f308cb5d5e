/**
 * Child-configuration resolution (`config/resolve.rs`): a configuration kept
 * in a source repository names its parent site; resolving it locates the
 * parent, reads the parent's root configuration and builds a synthetic root
 * configuration in which the child's own source points at the local content
 * and the parent's other relative content paths are rebased onto the parent.
 * Fetching a git parent, reading the parent file, parsing it and the
 * directory test are parameters.
 */
module ChildResolution {
  import opened Wrappers
  import opened Strings
  import opened Paths
  import opened Configuration

  datatype ConfigError =
    | Validation(message: string)
    | GitFetch(message: string)
    | ReadParent(path: string)
    | ParentNotRoot
    | SourceNotFound(name: string)

  datatype ResolvedChildConfig = ResolvedChildConfig(config: RootConfig, parentPath: string)

  const ParentConfigFile := "undox.yaml"
  const ParentParseFailure := "failed to parse parent config: "

  /** The parent location: `dev.parent` when it is set, else `parent`. */
  function ParentLocation(child: ChildConfig): (r: string)
    ensures child.dev.Some? && child.dev.value.parent.Some? ==> r == child.dev.value.parent.value
    ensures child.dev.None? || child.dev.value.parent.None? ==> r == child.parent
  {
    match child.dev
    case Some(d) => d.parent.UnwrapOr(child.parent)
    case None => child.parent
  }

  /** A parent location is fetched with git exactly when it is an `http://`, `https://` or `git@` URL. */
  predicate IsGitUrl(u: string)
  {
    StartsWith(u, "http://") || StartsWith(u, "https://") || StartsWith(u, "git@")
  }

  /** What is asked of the fetcher: the parent URL at the child's `parent_ref`, whole and not sparse. */
  function ParentFetch(child: ChildConfig): (r: GitConfig)
    ensures r.url == ParentLocation(child) && r.gitRef == child.parentRef
    ensures r.path.None? && !r.sparse
  {
    GitConfig(ParentLocation(child), child.parentRef, None, false)
  }

  /**
   * The parent directory: the fetched checkout for a git URL (a fetch failure
   * is `GitFetch`), else the location as a path, joined to the child's base
   * path when relative.
   */
  function ParentPath(child: ChildConfig, childBase: string, fetch: GitConfig -> Result<string, string>)
    : (r: Result<string, ConfigError>)
    ensures IsGitUrl(ParentLocation(child)) ==>
      match fetch(ParentFetch(child))
      case Ok(dir) => r == Ok(dir)
      case Err(e) => r == Err(GitFetch(e))
    ensures !IsGitUrl(ParentLocation(child)) ==> r.Ok?
    ensures !IsGitUrl(ParentLocation(child)) && IsAbsolute(ParentLocation(child)) ==>
      r == Ok(ParentLocation(child))
    ensures !IsGitUrl(ParentLocation(child)) && !IsAbsolute(ParentLocation(child)) ==>
      r == Ok(JoinPath(childBase, ParentLocation(child))) &&
      StartsWith(r.value, childBase) && EndsWith(r.value, ParentLocation(child))
  {
    var u := ParentLocation(child);
    if IsGitUrl(u) then
      match fetch(ParentFetch(child))
      case Ok(dir) => Ok(dir)
      case Err(e) => Err(GitFetch(e))
    else if IsAbsolute(u) then Ok(u)
    else
      JoinRelative(childBase, u);
      Ok(JoinPath(childBase, u))
  }

  /**
   * Reading `<parent>/undox.yaml` and parsing it: an unreadable file is
   * `ReadParent`, an unparsable one a `Validation` error with the parser's
   * message, and a child configuration `ParentNotRoot`.
   */
  function LoadParent(parentPath: string, readFile: string -> Option<string>, parse: string -> Result<Config, string>)
    : (r: Result<RootConfig, ConfigError>)
    ensures readFile(JoinPath(parentPath, ParentConfigFile)).None? ==>
      r == Err(ReadParent(JoinPath(parentPath, ParentConfigFile)))
    ensures readFile(JoinPath(parentPath, ParentConfigFile)).Some? ==>
      match parse(readFile(JoinPath(parentPath, ParentConfigFile)).value)
      case Err(e) => r == Err(Validation(ParentParseFailure + e))
      case Ok(Child(_)) => r == Err(ParentNotRoot)
      case Ok(Root(root)) => r == Ok(root)
  {
    var file := JoinPath(parentPath, ParentConfigFile);
    match readFile(file)
    case None => Err(ReadParent(file))
    case Some(text) =>
      match parse(text)
      case Err(e) => Err(Validation(ParentParseFailure + e))
      case Ok(Child(_)) => Err(ParentNotRoot)
      case Ok(Root(root)) => Ok(root)
  }

  /** The position of the first source with the given name. */
  function FindSource(sources: seq<SourceConfig>, name: string): (r: Option<nat>)
    ensures r.Some? ==> r.value < |sources| && sources[r.value].name == name
    ensures r.Some? ==> forall j :: 0 <= j < r.value ==> sources[j].name != name
    ensures r.None? <==> forall j :: 0 <= j < |sources| ==> sources[j].name != name
  {
    if sources == [] then None
    else if sources[0].name == name then Some(0)
    else
      match FindSource(sources[1..], name)
      case None => None
      case Some(k) => Some(k + 1)
  }

  /** The child's content directory: `<base>/content` when that is a directory, else the base itself. */
  function LocalContent(childBase: string, dirs: set<string>): (r: string)
    ensures JoinPath(childBase, "content") in dirs ==> r == JoinPath(childBase, "content")
    ensures JoinPath(childBase, "content") !in dirs ==> r == childBase
  {
    if JoinPath(childBase, "content") in dirs then JoinPath(childBase, "content") else childBase
  }

  /**
   * The child's own source: it points at the local content, and each override
   * that is set replaces the matching field; nothing else changes.
   */
  function RewriteTarget(s: SourceConfig, overrides: SourceOverrides, content: string): (r: SourceConfig)
    ensures r.location == ContentPath(content)
    ensures r.name == s.name && r.title == s.title && r.urlPrefix == s.urlPrefix
    ensures r.repoUrl == if overrides.repoUrl.Some? then overrides.repoUrl else s.repoUrl
    ensures r.editPath == if overrides.editPath.Some? then overrides.editPath else s.editPath
    ensures r.nav == if overrides.nav.Some? then overrides.nav else s.nav
  {
    s.(location := ContentPath(content),
       repoUrl := if overrides.repoUrl.Some? then overrides.repoUrl else s.repoUrl,
       editPath := if overrides.editPath.Some? then overrides.editPath else s.editPath,
       nav := if overrides.nav.Some? then overrides.nav else s.nav)
  }

  /** Another source of the parent: only a relative content path changes, rebased onto the parent directory. */
  function RebaseOther(s: SourceConfig, parentPath: string): (r: SourceConfig)
    ensures s.location.ContentPath? && !IsAbsolute(s.location.contentPath) ==>
      r == s.(location := ContentPath(JoinPath(parentPath, s.location.contentPath))) &&
      StartsWith(r.location.contentPath, parentPath) && EndsWith(r.location.contentPath, s.location.contentPath)
    ensures !(s.location.ContentPath? && !IsAbsolute(s.location.contentPath)) ==> r == s
  {
    match s.location
    case ContentPath(p) =>
      if IsAbsolute(p) then s
      else
        JoinRelative(parentPath, p);
        s.(location := ContentPath(JoinPath(parentPath, p)))
    case _ => s
  }

  /** The rewrite of the source at position `i`, given the position of the child's source. */
  function Rewritten(s: SourceConfig, i: nat, target: nat, overrides: SourceOverrides, content: string, parentPath: string)
    : SourceConfig
  {
    if i == target then RewriteTarget(s, overrides, content) else RebaseOther(s, parentPath)
  }

  /** The rewrite loop over the parent's sources, in place on a copy. */
  method RewriteSources(
    sources: seq<SourceConfig>, target: nat, overrides: SourceOverrides, content: string, parentPath: string)
    returns (r: seq<SourceConfig>)
    ensures |r| == |sources|
    ensures forall i :: 0 <= i < |r| ==> r[i] == Rewritten(sources[i], i, target, overrides, content, parentPath)
  {
    r := sources;
    var i := 0;
    while i < |r|
      invariant 0 <= i <= |r| == |sources|
      invariant forall j :: 0 <= j < i ==> r[j] == Rewritten(sources[j], j, target, overrides, content, parentPath)
      invariant forall j :: i <= j < |r| ==> r[j] == sources[j]
    {
      r := r[i := Rewritten(r[i], i, target, overrides, content, parentPath)];
      i := i + 1;
    }
  }

  /**
   * Every rewritten source keeps its name and position; the child's source
   * points at the local content, and no other source is moved unless its
   * location was a relative content path.
   */
  lemma RewritePreserves(
    sources: seq<SourceConfig>, target: nat, overrides: SourceOverrides, content: string, parentPath: string, i: nat)
    requires i < |sources|
    ensures Rewritten(sources[i], i, target, overrides, content, parentPath).name == sources[i].name
    ensures i == target ==> Rewritten(sources[i], i, target, overrides, content, parentPath).location == ContentPath(content)
    ensures i != target && !(sources[i].location.ContentPath? && !IsAbsolute(sources[i].location.contentPath)) ==>
      Rewritten(sources[i], i, target, overrides, content, parentPath) == sources[i]
  {
  }

  /**
   * `ChildConfig::resolve`: the parent directory, then the parent's root
   * configuration, then the child's source in it; each failing step gives
   * its error. On success the synthetic root has the parent's site, theme,
   * markdown and development settings and the rewritten sources, in the
   * parent's order, and the parent directory is returned beside it.
   */
  method ResolveChild(
    child: ChildConfig,
    childBase: string,
    dirs: set<string>,
    fetch: GitConfig -> Result<string, string>,
    readFile: string -> Option<string>,
    parse: string -> Result<Config, string>)
    returns (r: Result<ResolvedChildConfig, ConfigError>)
    ensures ParentPath(child, childBase, fetch).Err? ==> r == Err(ParentPath(child, childBase, fetch).error)
    ensures ParentPath(child, childBase, fetch).Ok? ==>
      var parentPath := ParentPath(child, childBase, fetch).value;
      var loaded := LoadParent(parentPath, readFile, parse);
      (loaded.Err? ==> r == Err(loaded.error)) &&
      (loaded.Ok? && FindSource(loaded.value.sources, child.source).None? ==> r == Err(SourceNotFound(child.source))) &&
      (loaded.Ok? && FindSource(loaded.value.sources, child.source).Some? ==>
        r.Ok? && r.value.parentPath == parentPath &&
        var root, config := loaded.value, r.value.config;
        config.site == root.site && config.theme == root.theme &&
        config.markdown == root.markdown && config.dev == root.dev &&
        |config.sources| == |root.sources| &&
        forall i :: 0 <= i < |config.sources| ==>
          config.sources[i] == Rewritten(root.sources[i], i, FindSource(root.sources, child.source).value,
                                         child.overrides, LocalContent(childBase, dirs), parentPath))
  {
    var pp := ParentPath(child, childBase, fetch);
    if pp.Err? {
      return Err(pp.error);
    }
    var parentPath := pp.value;
    var loaded := LoadParent(parentPath, readFile, parse);
    if loaded.Err? {
      return Err(loaded.error);
    }
    var root := loaded.value;
    var index := FindSource(root.sources, child.source);
    if index.None? {
      return Err(SourceNotFound(child.source));
    }
    var sources := RewriteSources(root.sources, index.value, child.overrides, LocalContent(childBase, dirs), parentPath);
    var config := RootConfig(root.site, sources, root.theme, root.markdown, root.dev);
    return Ok(ResolvedChildConfig(config, parentPath));
  }
}
