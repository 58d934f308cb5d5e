/**
 * The site configuration of `config.rs` and `config/mod.rs`: the root and
 * child configuration records, the root/child discriminant applied before
 * deserialising, the friendlier root error messages, and the helpers on
 * navigation items. YAML documents are abstracted to `Yaml` values, and
 * deserialising one into a record is a parameter.
 */
module Configuration {
  import opened Wrappers
  import opened Strings
  import opened Paths
  import opened Util
  import opened ConfigTypes

  datatype GitConfig = GitConfig(url: string, gitRef: Option<string>, path: Option<string>, sparse: bool)

  /** Where a source's content comes from. */
  datatype SourceLocation =
    | ContentPath(contentPath: string)
    | LocalPath(path: string)
    | GitSource(git: GitConfig)

  datatype SourceConfig = SourceConfig(
    name: string,
    title: Option<string>,
    urlPrefix: Option<string>,
    repoUrl: Option<string>,
    editPath: Option<string>,
    nav: Option<seq<NavItem>>,
    location: SourceLocation)

  datatype SiteConfig = SiteConfig(name: string, url: Option<string>, output: string, favicon: Option<string>)

  const DefaultOutput := "_site"

  /** The theme's name; its free-form settings are kept as their JSON text. */
  datatype ThemeConfig = ThemeConfig(name: string, settings: string)

  datatype MarkdownConfig = MarkdownConfig(extensions: seq<string>)

  const DefaultMarkdownExtensions: seq<string> :=
    ["definition_lists", "footnotes", "gfm", "heading_attributes", "strikethrough", "tables", "tasklists"]

  datatype WatchConfig = WatchConfig(poll: bool, pollIntervalMs: nat, debounceMs: nat)

  const DefaultWatch := WatchConfig(false, 500, 100)

  datatype DevConfig = DevConfig(parent: Option<string>, watch: WatchConfig, liveReload: bool)

  const DefaultDev := DevConfig(None, DefaultWatch, true)

  datatype RootConfig = RootConfig(
    site: SiteConfig,
    sources: seq<SourceConfig>,
    theme: ThemeConfig,
    markdown: MarkdownConfig,
    dev: DevConfig)

  datatype SourceOverrides = SourceOverrides(repoUrl: Option<string>, editPath: Option<string>, nav: Option<seq<NavItem>>)

  /** A configuration kept in a source repository, naming the parent site and its source there. */
  datatype ChildConfig = ChildConfig(
    parent: string,
    parentRef: Option<string>,
    source: string,
    overrides: SourceOverrides,
    dev: Option<DevConfig>)

  datatype Config = Root(root: RootConfig) | Child(child: ChildConfig)

  function AsRoot(c: Config): (r: Option<RootConfig>)
    ensures r.Some? <==> c.Root?
    ensures r.Some? ==> r.value == c.root
  {
    match c
    case Root(root) => Some(root)
    case Child(_) => None
  }

  function AsChild(c: Config): (r: Option<ChildConfig>)
    ensures r.Some? <==> c.Child?
    ensures r.Some? ==> r.value == c.child
  {
    match c
    case Root(_) => None
    case Child(child) => Some(child)
  }

  /** Exactly one of the two views of a configuration is present. */
  lemma RootXorChild(c: Config)
    ensures AsRoot(c).Some? != AsChild(c).Some?
  {
  }

  // ---------------------------------------------------------------------
  // The root/child discriminant
  // ---------------------------------------------------------------------

  /** A YAML document: a mapping with string keys, a sequence, or any scalar. */
  datatype Yaml = Mapping(entries: map<string, Yaml>) | Sequence(items: seq<Yaml>) | Scalar(text: string)

  const NotMappingMessage := "config must be a YAML/JSON object, not a scalar or array"
  const BothKindsMessage := "config cannot have both 'site' (root config) and 'parent' (child config) fields"
  const NeitherKindMessage :=
    "invalid config: must have either 'site' field (for root config) or 'parent' field (for child config)"

  const InvalidConfig := "invalid config: "

  const SourcesRequiredMessage := InvalidConfig +
    "'sources' list is required\n\nExample:\n  sources:\n    - name: docs\n      local:\n        path: ./content"
  const NameRequiredMessage := InvalidConfig +
    "missing required 'name' field (check 'site.name' and each source's 'name')"
  const ThemeRequiredMessage := InvalidConfig +
    "'theme' is required\n\nExample:\n  theme:\n    location:\n      path: ./themes/default"
  const LocationRequiredMessage := InvalidConfig +
    "each source must have either 'local: { path: ... }' for inline content or 'location: { path/git: ... }' for external sources"

  /**
   * `format_root_error`: the deserialiser's message is checked for a missing
   * `sources`, `name` or `theme` field and for a source without a location,
   * in that order, each giving its own guidance; any other message is passed
   * on after "invalid config: ". Every result starts with "invalid config: ".
   */
  function FormatRootError(msg: string): (r: string)
    ensures StartsWith(r, InvalidConfig)
    ensures Contains(msg, "missing field `sources`") ==> r == SourcesRequiredMessage
    ensures (!Contains(msg, "missing field `sources`") && Contains(msg, "missing field `name`")) ==>
      r == NameRequiredMessage
    ensures (!Contains(msg, "missing field `sources`") && !Contains(msg, "missing field `name`") &&
             Contains(msg, "missing field `theme`")) ==> r == ThemeRequiredMessage
    ensures (!Contains(msg, "missing field `sources`") && !Contains(msg, "missing field `name`") &&
             !Contains(msg, "missing field `theme`") && Contains(msg, "location must have either")) ==>
      r == LocationRequiredMessage
    ensures (!Contains(msg, "missing field `sources`") && !Contains(msg, "missing field `name`") &&
             !Contains(msg, "missing field `theme`") && !Contains(msg, "location must have either")) ==>
      r == InvalidConfig + msg && EndsWith(r, msg)
  {
    if Contains(msg, "missing field `sources`") then SourcesRequiredMessage
    else if Contains(msg, "missing field `name`") then NameRequiredMessage
    else if Contains(msg, "missing field `theme`") then ThemeRequiredMessage
    else if Contains(msg, "location must have either") then LocationRequiredMessage
    else
      var r := InvalidConfig + msg;
      assert r[|r| - |msg|..] == msg;
      r
  }

  const LegacySourcesRequiredMessage := InvalidConfig +
    "'sources' list is required\n\nExample:\n  sources:\n    - name: docs\n      path: ./content"
  const PathRequiredMessage := InvalidConfig + "each source must have a 'path' field"

  /**
   * The `format_root_error` of `config.rs`, written for JSON values: it
   * checks for a missing `sources`, `name` or `path` field, in that order,
   * and passes any other message on after "invalid config: ".
   */
  function LegacyFormatRootError(msg: string): (r: string)
    ensures StartsWith(r, InvalidConfig)
    ensures Contains(msg, "missing field `sources`") ==> r == LegacySourcesRequiredMessage
    ensures (!Contains(msg, "missing field `sources`") && Contains(msg, "missing field `name`")) ==>
      r == NameRequiredMessage
    ensures (!Contains(msg, "missing field `sources`") && !Contains(msg, "missing field `name`") &&
             Contains(msg, "missing field `path`")) ==> r == PathRequiredMessage
    ensures (!Contains(msg, "missing field `sources`") && !Contains(msg, "missing field `name`") &&
             !Contains(msg, "missing field `path`")) ==>
      r == InvalidConfig + msg && EndsWith(r, msg)
  {
    if Contains(msg, "missing field `sources`") then LegacySourcesRequiredMessage
    else if Contains(msg, "missing field `name`") then NameRequiredMessage
    else if Contains(msg, "missing field `path`") then PathRequiredMessage
    else
      var r := InvalidConfig + msg;
      assert r[|r| - |msg|..] == msg;
      r
  }

  /**
   * The two versions of `format_root_error` agree on a message that names
   * none of `sources`, `theme`, `path` or a missing location, and on one that
   * names a missing `name` but not `sources`.
   */
  lemma FormatRootErrorVersions(msg: string)
    requires !Contains(msg, "missing field `sources`")
    requires Contains(msg, "missing field `name`") ||
      (!Contains(msg, "missing field `theme`") && !Contains(msg, "location must have either") &&
       !Contains(msg, "missing field `path`"))
    ensures LegacyFormatRootError(msg) == FormatRootError(msg)
  {
  }

  /**
   * `Config::deserialize`: the document must be a mapping; a `site` key
   * without `parent` makes it a root configuration, `parent` without `site`
   * a child one, and having both or neither is refused. The record itself is
   * read by `rootFromYaml` / `childFromYaml`, whose errors are reworded.
   */
  function Deserialize(
    v: Yaml,
    rootFromYaml: Yaml -> Result<RootConfig, string>,
    childFromYaml: Yaml -> Result<ChildConfig, string>): (r: Result<Config, string>)
    ensures !v.Mapping? ==> r == Err(NotMappingMessage)
    ensures v.Mapping? && "site" in v.entries && "parent" in v.entries ==> r == Err(BothKindsMessage)
    ensures v.Mapping? && "site" !in v.entries && "parent" !in v.entries ==> r == Err(NeitherKindMessage)
    ensures v.Mapping? && "site" in v.entries && "parent" !in v.entries ==>
      match rootFromYaml(v)
      case Ok(root) => r == Ok(Root(root))
      case Err(e) => r == Err(FormatRootError(e))
    ensures v.Mapping? && "parent" in v.entries && "site" !in v.entries ==>
      match childFromYaml(v)
      case Ok(child) => r == Ok(Child(child))
      case Err(e) => r == Err("invalid child config: " + e)
  {
    if !v.Mapping? then Err(NotMappingMessage)
    else
      var hasSite, hasParent := "site" in v.entries, "parent" in v.entries;
      if hasSite && !hasParent then
        match rootFromYaml(v)
        case Ok(root) => Ok(Root(root))
        case Err(e) => Err(FormatRootError(e))
      else if !hasSite && hasParent then
        match childFromYaml(v)
        case Ok(child) => Ok(Child(child))
        case Err(e) => Err("invalid child config: " + e)
      else if hasSite then Err(BothKindsMessage)
      else Err(NeitherKindMessage)
  }

  /**
   * Whatever the record readers do, a document that deserialises is a root
   * configuration exactly when it has `site`, and a child one exactly when it
   * has `parent`; and it always has exactly one of the two keys.
   */
  lemma DeserializedKind(
    v: Yaml,
    rootFromYaml: Yaml -> Result<RootConfig, string>,
    childFromYaml: Yaml -> Result<ChildConfig, string>)
    requires Deserialize(v, rootFromYaml, childFromYaml).Ok?
    ensures v.Mapping?
    ensures Deserialize(v, rootFromYaml, childFromYaml).value.Root? <==> "site" in v.entries
    ensures Deserialize(v, rootFromYaml, childFromYaml).value.Child? <==> "parent" in v.entries
  {
  }

  // ---------------------------------------------------------------------
  // Navigation item helpers
  // ---------------------------------------------------------------------

  predicate IsDirectory(item: NavItem)
  {
    item.Page? && EndsWith(item.page, "/")
  }

  /** `NavItem::page_path`: a plain non-directory path, or the first value of a titled entry. */
  function PagePath(item: NavItem): (r: Option<string>)
    ensures item.Page? ==> (r.Some? <==> !IsDirectory(item)) && (r.Some? ==> r.value == item.page)
    ensures item.Titled? ==> (r.Some? <==> item.entries != []) && (r.Some? ==> r.value == item.entries[0].1)
    ensures item.Section? || item.LinkWithChildren? ==> r.None?
  {
    match item
    case Page(p) => if !EndsWith(p, "/") then Some(p) else None
    case Titled(es) => if es == [] then None else Some(es[0].1)
    case _ => None
  }

  /** `title_from_slug` with every `-` and `_` made a space and nothing else changed. */
  function SlugSpaces(s: string): (r: string)
    ensures |r| == |s|
    ensures forall i :: 0 <= i < |s| ==> r[i] == if s[i] in Separators then ' ' else s[i]
  {
    seq(|s|, i requires 0 <= i < |s| => if IsSeparator(s[i]) then ' ' else s[i])
  }

  /**
   * `title_from_slug`: every `-` and `_` becomes a space and the first
   * character alone is upper-cased (ASCII).
   */
  function TitleFromSlug(s: string): (r: string)
    ensures |r| == |s|
    ensures s != [] ==> r[0] == if s[0] in Separators then ' ' else UpperChar(s[0])
    ensures forall i :: 0 < i < |s| ==> r[i] == if s[i] in Separators then ' ' else s[i]
  {
    var t := SlugSpaces(s);
    if t == [] then t else [UpperChar(t[0])] + t[1..]
  }

  /**
   * Compared with `title_case`, the slug title differs only right after a
   * separator, where `title_case` upper-cases and the slug title does not.
   */
  lemma TitleFromSlugAgreesWithTitleCase(s: string, i: nat)
    requires i < |s| && (i == 0 || s[i - 1] !in Separators)
    ensures |TitleCase(s)| == |s|
    ensures TitleFromSlug(s)[i] == TitleCase(s)[i]
  {
    TitleCaseAt(s, i);
  }

  /** `NavItem::title`: the title-cased stem of a plain page path, the first key of a titled entry, else none. */
  function NavTitle(item: NavItem): (r: Option<string>)
    ensures item.Page? && !IsDirectory(item) ==>
      (r.Some? <==> FileStem(item.page).Some?) && (r.Some? ==> r.value == TitleFromSlug(FileStem(item.page).value))
    ensures item.Titled? ==> (r.Some? <==> item.entries != []) && (r.Some? ==> r.value == item.entries[0].0)
    ensures item.Section? || item.LinkWithChildren? || IsDirectory(item) ==> r.None?
  {
    match item
    case Page(p) =>
      if !EndsWith(p, "/") then
        match FileStem(p)
        case Some(stem) => Some(TitleFromSlug(stem))
        case None => None
      else None
    case Titled(es) => if es == [] then None else Some(es[0].0)
    case _ => None
  }

  /** An item with a title has a page path, and a directory item has neither. */
  lemma NavItemHelpers(item: NavItem)
    ensures NavTitle(item).Some? ==> PagePath(item).Some?
    ensures IsDirectory(item) ==> PagePath(item).None? && NavTitle(item).None?
  {
  }
}
