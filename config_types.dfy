/**
 * The configuration value types of `config/types.rs`: a unified location
 * (a local path or a git reference, compact or expanded), the inline/external
 * source location wrapper, and the four kinds of navigation item.
 */
module ConfigTypes {
  import opened Wrappers
  import opened Strings
  import opened Paths

  /** Expanded git reference: repository URL, optional ref and optional subpath. */
  datatype GitLocation = GitLocation(url: string, gitRef: Option<string>, subpath: Option<string>)

  /** A git reference as written: the compact `url#ref` string or the expanded form. */
  datatype GitValue = Compact(text: string) | Expanded(loc: GitLocation)

  /** Where content lives: a local path or a git repository. */
  datatype Location = Path(path: string) | Git(git: GitValue)

  /**
   * `GitLocation::from_compact`: the text before the first `#` is the URL and
   * the text after it the ref; without `#` the whole text is the URL. The
   * compact form never names a subpath.
   */
  function FromCompact(s: string): (r: GitLocation)
    ensures r.subpath.None?
    ensures '#' !in s ==> r.url == s && r.gitRef.None?
    ensures '#' in s ==> r.gitRef.Some? && '#' !in r.url && s == r.url + "#" + r.gitRef.value
  {
    match IndexOf(s, '#')
    case None => GitLocation(s, None, None)
    case Some(i) =>
      assert s == s[..i] + "#" + s[i + 1..];
      GitLocation(s[..i], Some(s[i + 1..]), None)
  }

  /** Reading `url#ref` back gives the URL and the ref, whatever the ref holds (`#` included). */
  lemma FromCompactOfParts(url: string, gitRef: string)
    requires '#' !in url
    ensures FromCompact(url + "#" + gitRef) == GitLocation(url, Some(gitRef), None)
  {
    var s := url + "#" + gitRef;
    assert s[|url|] == '#';
    var r := FromCompact(s);
    assert '#' in s;
    assert s == r.url + "#" + r.gitRef.value;
    assert r.url == s[..|url|] == url;
    assert r.gitRef.value == s[|url| + 1..] == gitRef;
  }

  /** `GitValue::to_location`: the compact form is parsed, the expanded form kept. */
  function ToLocation(v: GitValue): (r: GitLocation)
    ensures v.Expanded? ==> r == v.loc
    ensures v.Compact? ==> r.subpath.None? && (r.gitRef.None? <==> '#' !in v.text)
  {
    match v
    case Compact(s) => FromCompact(s)
    case Expanded(loc) => loc
  }

  predicate IsGit(l: Location)
  {
    l.Git?
  }

  predicate IsPath(l: Location)
  {
    l.Path?
  }

  function AsPath(l: Location): (r: Option<string>)
    ensures r.Some? <==> IsPath(l)
    ensures r.Some? ==> r.value == l.path
  {
    match l
    case Path(p) => Some(p)
    case Git(_) => None
  }

  function AsGit(l: Location): (r: Option<GitLocation>)
    ensures r.Some? <==> IsGit(l)
    ensures r.Some? ==> r.value == ToLocation(l.git)
  {
    match l
    case Path(_) => None
    case Git(g) => Some(ToLocation(g))
  }

  /**
   * `Location::require_path`: the path, or for a git location an error
   * carrying the compact string or the expanded URL.
   */
  function RequirePath(l: Location): (r: Result<string, string>)
    ensures r.Ok? <==> IsPath(l)
    ensures r.Ok? ==> Some(r.value) == AsPath(l)
    ensures l.Git? && l.git.Compact? ==> r == Err(l.git.text)
    ensures l.Git? && l.git.Expanded? ==> r == Err(l.git.loc.url)
  {
    match l
    case Path(p) => Ok(p)
    case Git(g) =>
      Err(match g
          case Compact(s) => s
          case Expanded(loc) => loc.url)
  }

  /**
   * `Location::resolve_path`: a relative path is joined to the base, an
   * absolute one kept; a git location has no local path.
   */
  function ResolvePath(l: Location, base: string): (r: Option<string>)
    ensures r.Some? <==> IsPath(l)
    ensures l.Path? && IsAbsolute(l.path) ==> r == Some(l.path)
    ensures l.Path? && !IsAbsolute(l.path) ==> StartsWith(r.value, base) && EndsWith(r.value, l.path)
    ensures l.Path? && !IsAbsolute(l.path) ==> r == Some(JoinPath(base, l.path))
    ensures l.Path? && !IsAbsolute(l.path) && base != [] && !EndsWith(base, "/") ==> r == Some(base + "/" + l.path)
  {
    match l
    case Path(p) =>
      if !IsAbsolute(p) then
        JoinRelative(base, p);
        Some(JoinPath(base, p))
      else Some(p)
    case Git(_) => None
  }

  /** Every location is exactly one of a path and a git reference. */
  lemma LocationKinds(l: Location)
    ensures IsGit(l) != IsPath(l)
    ensures AsPath(l).Some? != AsGit(l).Some?
  {
  }

  /** A source given inline (`local`) or as an external repository with its own configuration (`location`). */
  datatype SourceLocation = Remote(location: Location) | Local(local: Location)

  predicate IsLocal(s: SourceLocation)
  {
    s.Local?
  }

  predicate IsRemote(s: SourceLocation)
  {
    s.Remote?
  }

  /** The inner location of either kind. */
  function InnerLocation(s: SourceLocation): (r: Location)
    ensures IsLocal(s) ==> r == s.local
    ensures IsRemote(s) ==> r == s.location
  {
    match s
    case Remote(l) => l
    case Local(l) => l
  }

  lemma SourceLocationKinds(s: SourceLocation)
    ensures IsLocal(s) != IsRemote(s)
  {
  }

  /**
   * A navigation item: a titled section of nested items, a page with
   * children, a page with an explicit title (an entry list of the map in its
   * iteration order), or a plain path (`file.md`, or `dir/` to expand a
   * directory).
   */
  datatype NavItem =
    | Section(section: string, items: seq<NavItem>)
    | LinkWithChildren(path: string, title: Option<string>, children: seq<NavItem>)
    | Titled(entries: seq<(string, string)>)
    | Page(page: string)
}
