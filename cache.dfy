/**
 * The build cache (`build/cache.rs`): what was built from which file, and
 * the decision of how much to rebuild after a batch of file changes.
 * Modification times are natural numbers supplied by the caller.
 */
module Cache {
  import opened Wrappers
  import opened Paths
  import Navigation

  /** A change seen by the watcher. */
  datatype ChangeKind =
    | Document(sourceName: string, path: string, deleted: bool)
    | StaticFile(sourceName: string, path: string, deleted: bool)
    | Template(path: string)
    | Config
    | ThemeConfig

  /** How much has to be rebuilt. */
  datatype InvalidationScope =
    | Files(paths: seq<string>)
    | Source(name: string)
    | AllDocuments
    | Full

  datatype CachedDocument = CachedDocument(
    sourceName: string,
    sourcePath: string,
    urlPath: string,
    outputPath: string,
    sourceMtime: nat)

  datatype CachedStaticFile = CachedStaticFile(
    sourceName: string,
    sourcePath: string,
    outputPath: string,
    sourceMtime: nat)

  // ---------------------------------------------------------------------
  // The invalidation decision, stated over the whole batch
  // ---------------------------------------------------------------------

  predicate AnyConfig(changes: seq<ChangeKind>)
  {
    exists c :: c in changes && (c.Config? || c.ThemeConfig?)
  }

  predicate AnyTemplate(changes: seq<ChangeKind>)
  {
    exists c :: c in changes && c.Template?
  }

  /** A document change alters its source's navigation when it is a deletion or an addition. */
  predicate NeedsNav(c: ChangeKind, cached: set<string>)
  {
    c.Document? && (c.deleted || c.path !in cached)
  }

  /** A change that only needs its own file rebuilt: a cached document modified, or any static file. */
  predicate RebuildsFile(c: ChangeKind, cached: set<string>)
  {
    (c.Document? && !NeedsNav(c, cached)) || c.StaticFile?
  }

  /** The sources whose navigation changes, each once, in the order of their first change. */
  function NavSources(changes: seq<ChangeKind>, cached: set<string>): seq<string>
    decreases |changes|
  {
    if changes == [] then []
    else
      var prev := NavSources(changes[..|changes| - 1], cached);
      var c := changes[|changes| - 1];
      if NeedsNav(c, cached) && c.sourceName !in prev then prev + [c.sourceName] else prev
  }

  /** The files to rebuild one by one, in change order. */
  function RebuildFiles(changes: seq<ChangeKind>, cached: set<string>): seq<string>
    decreases |changes|
  {
    if changes == [] then []
    else
      var prev := RebuildFiles(changes[..|changes| - 1], cached);
      var c := changes[|changes| - 1];
      if RebuildsFile(c, cached) then prev + [c.path] else prev
  }

  /**
   * The scope a batch of changes calls for, given the paths of the cached
   * documents: a full rebuild for any configuration change; else all
   * documents for any template change; else the first source whose
   * navigation changes; else the single files.
   */
  function ScopeOf(cached: set<string>, changes: seq<ChangeKind>): InvalidationScope
  {
    if AnyConfig(changes) then Full
    else if AnyTemplate(changes) then AllDocuments
    else
      var sources := NavSources(changes, cached);
      if sources != [] then Source(sources[0])
      else Files(RebuildFiles(changes, cached))
  }

  /** A source is marked exactly when one of its documents was added or deleted. */
  lemma {:induction false} NavSourcesMembers(changes: seq<ChangeKind>, cached: set<string>, n: string)
    ensures n in NavSources(changes, cached) <==>
      exists i :: 0 <= i < |changes| && NeedsNav(changes[i], cached) && changes[i].sourceName == n
    decreases |changes|
  {
    if changes != [] {
      var init := changes[..|changes| - 1];
      NavSourcesMembers(init, cached, n);
      assert forall i :: 0 <= i < |init| ==> init[i] == changes[i];
    }
  }

  predicate Distinct(s: seq<string>)
  {
    forall i, j :: 0 <= i < j < |s| ==> s[i] != s[j]
  }

  /** No source is marked twice. */
  lemma {:induction false} NavSourcesDistinct(changes: seq<ChangeKind>, cached: set<string>)
    ensures Distinct(NavSources(changes, cached))
    decreases |changes|
  {
    if changes != [] {
      var prev := NavSources(changes[..|changes| - 1], cached);
      NavSourcesDistinct(changes[..|changes| - 1], cached);
      var c := changes[|changes| - 1];
      if NeedsNav(c, cached) && c.sourceName !in prev {
        var r := prev + [c.sourceName];
        forall i, j | 0 <= i < j < |r|
          ensures r[i] != r[j]
        {
          if j == |prev| {
            assert r[i] == prev[i] && prev[i] in prev;
          } else {
            assert r[i] == prev[i] && r[j] == prev[j];
          }
        }
        assert Distinct(r);
      }
    }
  }

  /** Marking only ever appends: the sources of a prefix of the batch come first. */
  lemma {:induction false} NavSourcesPrefix(changes: seq<ChangeKind>, cached: set<string>, n: nat)
    requires n <= |changes|
    ensures var a := NavSources(changes[..n], cached);
      var b := NavSources(changes, cached);
      |a| <= |b| && a == b[..|a|]
    decreases |changes| - n
  {
    if n < |changes| {
      var init := changes[..|changes| - 1];
      assert init[..n] == changes[..n];
      NavSourcesPrefix(init, cached, n);
    } else {
      assert changes[..n] == changes;
    }
  }

  /** Before any document is added or deleted, no source is marked. */
  lemma {:induction false} NoNavSources(changes: seq<ChangeKind>, cached: set<string>)
    requires forall j :: 0 <= j < |changes| ==> !NeedsNav(changes[j], cached)
    ensures NavSources(changes, cached) == []
    decreases |changes|
  {
    if changes != [] {
      NoNavSources(changes[..|changes| - 1], cached);
    }
  }

  /** The first marked source is the source of the first document added or deleted. */
  lemma FirstNavSource(changes: seq<ChangeKind>, cached: set<string>, i: nat)
    requires i < |changes| && NeedsNav(changes[i], cached)
    requires forall j :: 0 <= j < i ==> !NeedsNav(changes[j], cached)
    ensures NavSources(changes, cached) != []
    ensures NavSources(changes, cached)[0] == changes[i].sourceName
  {
    var upto := changes[..i + 1];
    assert upto[..|upto| - 1] == changes[..i] && upto[|upto| - 1] == changes[i];
    NoNavSources(changes[..i], cached);
    assert NavSources(upto, cached) == [changes[i].sourceName];
    NavSourcesPrefix(changes, cached, i + 1);
  }

  /** A file is rebuilt on its own exactly when some change of it calls for that. */
  lemma {:induction false} RebuildFilesMembers(changes: seq<ChangeKind>, cached: set<string>, p: string)
    ensures p in RebuildFiles(changes, cached) <==>
      exists i :: 0 <= i < |changes| && RebuildsFile(changes[i], cached) && changes[i].path == p
    decreases |changes|
  {
    if changes != [] {
      var init := changes[..|changes| - 1];
      RebuildFilesMembers(init, cached, p);
      assert forall i :: 0 <= i < |init| ==> init[i] == changes[i];
    }
  }

  /** A configuration change anywhere in the batch wins over everything else. */
  lemma ConfigWins(cached: set<string>, changes: seq<ChangeKind>, i: nat)
    requires i < |changes| && (changes[i].Config? || changes[i].ThemeConfig?)
    ensures ScopeOf(cached, changes) == Full
  {
    assert changes[i] in changes;
  }

  /** Without configuration changes, a template change wins over document and static changes. */
  lemma TemplateWins(cached: set<string>, changes: seq<ChangeKind>, i: nat)
    requires i < |changes| && changes[i].Template?
    requires forall j :: 0 <= j < |changes| ==> !changes[j].Config? && !changes[j].ThemeConfig?
    ensures ScopeOf(cached, changes) == AllDocuments
  {
    assert changes[i] in changes;
  }

  /**
   * Without configuration or template changes, an added or deleted document
   * makes the scope the source of the first such document.
   */
  lemma SourceWins(cached: set<string>, changes: seq<ChangeKind>, i: nat)
    requires forall j :: 0 <= j < |changes| ==> changes[j].Document? || changes[j].StaticFile?
    requires i < |changes| && NeedsNav(changes[i], cached)
    requires forall j :: 0 <= j < i ==> !NeedsNav(changes[j], cached)
    ensures ScopeOf(cached, changes) == Source(changes[i].sourceName)
  {
    FirstNavSource(changes, cached, i);
  }

  /**
   * With only modified cached documents and static files, the scope lists
   * exactly their paths.
   */
  lemma FilesOnly(cached: set<string>, changes: seq<ChangeKind>, p: string)
    requires forall j :: 0 <= j < |changes| ==> RebuildsFile(changes[j], cached)
    ensures ScopeOf(cached, changes) == Files(RebuildFiles(changes, cached))
    ensures p in RebuildFiles(changes, cached) <==> exists j :: 0 <= j < |changes| && changes[j].path == p
  {
    NoNavSources(changes, cached);
    assert !AnyConfig(changes) && !AnyTemplate(changes);
    RebuildFilesMembers(changes, cached, p);
  }

  /** Each step of the loop extends the recursive definitions by the change at hand. */
  lemma ScopeStep(changes: seq<ChangeKind>, cached: set<string>, i: nat)
    requires i < |changes|
    ensures changes[..i + 1][..i] == changes[..i]
    ensures NavSources(changes[..i + 1], cached) ==
      var prev := NavSources(changes[..i], cached);
      if NeedsNav(changes[i], cached) && changes[i].sourceName !in prev then prev + [changes[i].sourceName] else prev
    ensures RebuildFiles(changes[..i + 1], cached) ==
      var prev := RebuildFiles(changes[..i], cached);
      if RebuildsFile(changes[i], cached) then prev + [changes[i].path] else prev
    ensures AnyConfig(changes[..i + 1]) <==> AnyConfig(changes[..i]) || changes[i].Config? || changes[i].ThemeConfig?
    ensures AnyTemplate(changes[..i + 1]) <==> AnyTemplate(changes[..i]) || changes[i].Template?
  {
    assert changes[..i + 1] == changes[..i] + [changes[i]];
  }

  /** `Vec::retain(|q| q != p)`: the paths other than `p`, in their order. */
  function Without(ps: seq<string>, p: string): (r: seq<string>)
    ensures forall q :: q in r <==> q in ps && q != p
    ensures |r| <= |ps|
  {
    if ps == [] then []
    else if ps[0] == p then Without(ps[1..], p)
    else [ps[0]] + Without(ps[1..], p)
  }

  // ---------------------------------------------------------------------
  // The cache
  // ---------------------------------------------------------------------

  class BuildCache {
    var documents: map<string, CachedDocument>
    var staticFiles: map<string, CachedStaticFile>
    var templateMtimes: map<string, nat>
    var navBySource: map<string, seq<Navigation.NavSection>>
    var documentsBySource: map<string, seq<string>>

    /** Every cached document is keyed by its own path and listed under its own source. */
    ghost predicate Valid()
      reads this
    {
      forall p :: p in documents ==>
        documents[p].sourcePath == p &&
        documents[p].sourceName in documentsBySource &&
        p in documentsBySource[documents[p].sourceName]
    }

    /** `BuildCache::new`: everything empty. */
    constructor()
      ensures Valid()
      ensures documents == map[] && staticFiles == map[] && templateMtimes == map[]
      ensures navBySource == map[] && documentsBySource == map[]
    {
      documents := map[];
      staticFiles := map[];
      templateMtimes := map[];
      navBySource := map[];
      documentsBySource := map[];
    }

    /**
     * `invalidation_scope`: one pass over the changes, returning `Full` at
     * the first configuration change and otherwise collecting files,
     * marked sources and whether a template changed.
     */
    method InvalidationScope(changes: seq<ChangeKind>) returns (scope: InvalidationScope)
      ensures scope == ScopeOf(documents.Keys, changes)
    {
      var files: seq<string> := [];
      var sources: seq<string> := [];
      var needsAll := false;
      for i := 0 to |changes|
        invariant files == RebuildFiles(changes[..i], documents.Keys)
        invariant sources == NavSources(changes[..i], documents.Keys)
        invariant needsAll == AnyTemplate(changes[..i])
        invariant !AnyConfig(changes[..i])
      {
        ScopeStep(changes, documents.Keys, i);
        match changes[i]
        case Config =>
          ConfigWins(documents.Keys, changes, i);
          return Full;
        case ThemeConfig =>
          ConfigWins(documents.Keys, changes, i);
          return Full;
        case Template(_) =>
          needsAll := true;
        case Document(name, path, deleted) =>
          if deleted || path !in documents {
            if name !in sources {
              sources := sources + [name];
            }
          } else {
            files := files + [path];
          }
        case StaticFile(_, path, _) =>
          files := files + [path];
      }
      assert changes[..|changes|] == changes;
      if needsAll {
        return AllDocuments;
      }
      if sources != [] {
        return Source(sources[0]);
      }
      return Files(files);
    }

    /** The documents cached for a source, taken from the cache's entries. */
    function DocumentsForSource(name: string): (r: set<CachedDocument>)
      reads this
      ensures forall d :: d in r ==> d.sourceName == name && d in documents.Values
      ensures forall p :: p in documents && documents[p].sourceName == name ==> documents[p] in r
      ensures Valid() ==> forall d :: d in r ==> name in documentsBySource && d.sourcePath in documentsBySource[name]
    {
      set p | p in documents && documents[p].sourceName == name :: documents[p]
    }

    /**
     * `document_needs_rebuild`, given the file's current modification time
     * (`None` when it cannot be read): an uncached document, an unreadable
     * time or a newer time all call for a rebuild.
     */
    predicate DocumentNeedsRebuild(path: string, mtime: Option<nat>)
      reads this
      ensures path !in documents || mtime.None? ==> DocumentNeedsRebuild(path, mtime)
      ensures path in documents && mtime.Some? && mtime.value <= documents[path].sourceMtime ==> !DocumentNeedsRebuild(path, mtime)
    {
      path !in documents || mtime.None? || mtime.value > documents[path].sourceMtime
    }

    /** `static_file_needs_copy`, in the same way. */
    predicate StaticFileNeedsCopy(path: string, mtime: Option<nat>)
      reads this
      ensures path !in staticFiles || mtime.None? ==> StaticFileNeedsCopy(path, mtime)
      ensures path in staticFiles && mtime.Some? && mtime.value <= staticFiles[path].sourceMtime ==> !StaticFileNeedsCopy(path, mtime)
    {
      path !in staticFiles || mtime.None? || mtime.value > staticFiles[path].sourceMtime
    }

    /** `update_document`: cache the entry under its path and list the path under its source. */
    method UpdateDocument(doc: CachedDocument)
      modifies this
      ensures documents == old(documents)[doc.sourcePath := doc]
      ensures documentsBySource == old(documentsBySource)[doc.sourceName :=
        (if doc.sourceName in old(documentsBySource) then old(documentsBySource)[doc.sourceName] else []) + [doc.sourcePath]]
      ensures staticFiles == old(staticFiles) && templateMtimes == old(templateMtimes) && navBySource == old(navBySource)
      ensures old(Valid()) ==> Valid()
      ensures !DocumentNeedsRebuild(doc.sourcePath, Some(doc.sourceMtime))
      ensures doc in DocumentsForSource(doc.sourceName)
    {
      var listed := if doc.sourceName in documentsBySource then documentsBySource[doc.sourceName] else [];
      documents := documents[doc.sourcePath := doc];
      documentsBySource := documentsBySource[doc.sourceName := listed + [doc.sourcePath]];
    }

    /** `update_static_file`: cache the entry under its path. */
    method UpdateStaticFile(file: CachedStaticFile)
      modifies this
      ensures staticFiles == old(staticFiles)[file.sourcePath := file]
      ensures documents == old(documents) && documentsBySource == old(documentsBySource)
      ensures templateMtimes == old(templateMtimes) && navBySource == old(navBySource)
      ensures !StaticFileNeedsCopy(file.sourcePath, Some(file.sourceMtime))
    {
      staticFiles := staticFiles[file.sourcePath := file];
    }

    /**
     * `remove_document`: drop the entry and its path from its source's list,
     * returning it; a path not cached changes nothing.
     */
    method RemoveDocument(path: string) returns (removed: Option<CachedDocument>)
      modifies this
      ensures path in old(documents) <==> removed.Some?
      ensures removed.Some? ==> removed.value == old(documents)[path]
      ensures documents == old(documents) - {path}
      ensures removed.Some? && removed.value.sourceName in old(documentsBySource) ==>
        documentsBySource == old(documentsBySource)[removed.value.sourceName :=
          Without(old(documentsBySource)[removed.value.sourceName], path)]
      ensures removed.None? || removed.value.sourceName !in old(documentsBySource) ==>
        documentsBySource == old(documentsBySource)
      ensures staticFiles == old(staticFiles) && templateMtimes == old(templateMtimes) && navBySource == old(navBySource)
      ensures old(Valid()) ==> Valid()
      ensures forall m :: DocumentNeedsRebuild(path, m)
    {
      if path in documents {
        var doc := documents[path];
        documents := documents - {path};
        if doc.sourceName in documentsBySource {
          documentsBySource := documentsBySource[doc.sourceName := Without(documentsBySource[doc.sourceName], path)];
        }
        removed := Some(doc);
      } else {
        removed := None;
      }
    }

    /** `remove_static_file`: drop the entry and return it. */
    method RemoveStaticFile(path: string) returns (removed: Option<CachedStaticFile>)
      modifies this
      ensures path in old(staticFiles) <==> removed.Some?
      ensures removed.Some? ==> removed.value == old(staticFiles)[path]
      ensures staticFiles == old(staticFiles) - {path}
      ensures documents == old(documents) && documentsBySource == old(documentsBySource)
      ensures templateMtimes == old(templateMtimes) && navBySource == old(navBySource)
      ensures forall m :: StaticFileNeedsCopy(path, m)
    {
      if path in staticFiles {
        removed := Some(staticFiles[path]);
        staticFiles := staticFiles - {path};
      } else {
        removed := None;
      }
    }

    /** `get_nav`: the navigation stored for a source. */
    function GetNav(name: string): (r: Option<seq<Navigation.NavSection>>)
      reads this
      ensures r.Some? <==> name in navBySource
      ensures r.Some? ==> r.value == navBySource[name]
    {
      if name in navBySource then Some(navBySource[name]) else None
    }

    /** `set_nav`: afterwards `get_nav` of that source gives the stored navigation; others are unchanged. */
    method SetNav(name: string, nav: seq<Navigation.NavSection>)
      modifies this
      ensures GetNav(name) == Some(nav)
      ensures forall n :: n != name ==> GetNav(n) == old(GetNav(n))
      ensures navBySource == old(navBySource)[name := nav]
      ensures documents == old(documents) && staticFiles == old(staticFiles)
      ensures templateMtimes == old(templateMtimes) && documentsBySource == old(documentsBySource)
    {
      navBySource := navBySource[name := nav];
    }

    /** `invalidate_nav`: afterwards `get_nav` of that source gives nothing; others are unchanged. */
    method InvalidateNav(name: string)
      modifies this
      ensures GetNav(name) == None
      ensures forall n :: n != name ==> GetNav(n) == old(GetNav(n))
      ensures navBySource == old(navBySource) - {name}
      ensures documents == old(documents) && staticFiles == old(staticFiles)
      ensures templateMtimes == old(templateMtimes) && documentsBySource == old(documentsBySource)
    {
      navBySource := navBySource - {name};
    }

    /** `update_template_mtime`. */
    method UpdateTemplateMtime(path: string, mtime: nat)
      modifies this
      ensures templateMtimes == old(templateMtimes)[path := mtime]
      ensures documents == old(documents) && staticFiles == old(staticFiles)
      ensures navBySource == old(navBySource) && documentsBySource == old(documentsBySource)
    {
      templateMtimes := templateMtimes[path := mtime];
    }

    /**
     * A template directory entry that counts as changed: an `.html` file
     * whose time can be read and that is either not tracked or newer than
     * the tracked time.
     */
    predicate TemplateChanged(entry: (string, Option<nat>))
      reads this
    {
      Extension(entry.0) == Some("html") && entry.1.Some? &&
      (entry.0 !in templateMtimes || entry.1.value > templateMtimes[entry.0])
    }

    /**
     * `any_template_changed`, given the directory's entries with their
     * modification times (an unreadable directory has no entries).
     */
    method AnyTemplateChanged(entries: seq<(string, Option<nat>)>) returns (changed: bool)
      ensures changed <==> exists i :: 0 <= i < |entries| && TemplateChanged(entries[i])
    {
      for i := 0 to |entries|
        invariant forall j :: 0 <= j < i ==> !TemplateChanged(entries[j])
      {
        var (path, mtime) := entries[i];
        if Extension(path) == Some("html") && mtime.Some? {
          if path !in templateMtimes || mtime.value > templateMtimes[path] {
            return true;
          }
        }
      }
      return false;
    }

    /** `clear`: every map emptied. */
    method Clear()
      modifies this
      ensures documents == map[] && staticFiles == map[] && templateMtimes == map[]
      ensures navBySource == map[] && documentsBySource == map[]
      ensures DocumentCount() == 0 && StaticFileCount() == 0
      ensures Valid()
    {
      documents := map[];
      staticFiles := map[];
      templateMtimes := map[];
      navBySource := map[];
      documentsBySource := map[];
    }

    function DocumentCount(): nat
      reads this
    {
      |documents|
    }

    function StaticFileCount(): nat
      reads this
    {
      |staticFiles|
    }
  }
}
