/**
 * Change classification for the file watcher (`build/watch.rs`): which
 * changed path means what, and which filesystem events become a batch
 * of changes. The source directories are a list in the order the map
 * iterates them.
 */
module Watch {
  import opened Wrappers
  import opened Strings
  import opened Paths
  import opened Cache

  datatype PathClassifier = PathClassifier(
    sourceDirs: seq<(string, string)>,
    themeDir: string,
    configPath: string,
    themeConfigPath: string)

  /** `PathClassifier::new`: the theme configuration is `undox-theme.yaml` in the theme directory. */
  function NewClassifier(sourceDirs: seq<(string, string)>, themeDir: string, configPath: string): (c: PathClassifier)
    ensures c.sourceDirs == sourceDirs && c.themeDir == themeDir && c.configPath == configPath
    ensures c.themeConfigPath == JoinPath(themeDir, "undox-theme.yaml")
  {
    PathClassifier(sourceDirs, themeDir, configPath, JoinPath(themeDir, "undox-theme.yaml"))
  }

  /** A path with a component starting with '.' is hidden. */
  predicate Hidden(path: string)
  {
    exists c :: c in Components(path) && StartsWith(c, ".")
  }

  /** The index of the first source directory that contains `path`, component-wise. */
  function FirstSource(dirs: seq<(string, string)>, path: string): (r: Option<nat>)
    ensures r.Some? ==> r.value < |dirs| && PathStartsWith(path, dirs[r.value].1)
    ensures r.Some? ==> forall j :: 0 <= j < r.value ==> !PathStartsWith(path, dirs[j].1)
    ensures r.None? ==> forall j :: 0 <= j < |dirs| ==> !PathStartsWith(path, dirs[j].1)
  {
    FirstSourceFrom(dirs, path, 0)
  }

  /** The search of `FirstSource` from index `k` on. */
  function FirstSourceFrom(dirs: seq<(string, string)>, path: string, k: nat): (r: Option<nat>)
    requires k <= |dirs|
    ensures r.Some? ==> k <= r.value < |dirs| && PathStartsWith(path, dirs[r.value].1)
    ensures r.Some? ==> forall j :: k <= j < r.value ==> !PathStartsWith(path, dirs[j].1)
    ensures r.None? ==> forall j :: k <= j < |dirs| ==> !PathStartsWith(path, dirs[j].1)
    decreases |dirs| - k
  {
    if k == |dirs| then None
    else if PathStartsWith(path, dirs[k].1) then Some(k)
    else FirstSourceFrom(dirs, path, k + 1)
  }

  predicate IsMarkdownExtension(path: string)
  {
    Extension(path) == Some("md") || Extension(path) == Some("markdown")
  }

  /** `PathClassifier::classify`: the checks in order, the first that applies deciding. */
  function Classify(c: PathClassifier, path: string, deleted: bool): (r: Option<ChangeKind>)
    ensures r.Some? ==> !Hidden(path)
    ensures r.Some? && (r.value.Template? || r.value.Document? || r.value.StaticFile?) ==> r.value.path == path
    ensures r.Some? && (r.value.Document? || r.value.StaticFile?) ==> r.value.deleted == deleted && FirstSource(c.sourceDirs, path).Some?
  {
    if Hidden(path) then None
    else if SamePath(path, c.configPath) then Some(Config)
    else if SamePath(path, c.themeConfigPath) then Some(ThemeConfig)
    else if PathStartsWith(path, c.themeDir) then
      if Extension(path) == Some("html") then Some(Template(path)) else None
    else match FirstSource(c.sourceDirs, path)
      case None => None
      case Some(i) =>
        var name := c.sourceDirs[i].0;
        if IsMarkdownExtension(path) then Some(Document(name, path, deleted))
        else Some(StaticFile(name, path, deleted))
  }

  /** Hidden paths are never classified, whatever else they match. */
  lemma HiddenIgnored(c: PathClassifier, path: string, deleted: bool)
    requires Hidden(path)
    ensures Classify(c, path, deleted) == None
  {
  }

  /** The configuration file is recognised before anything else but hidden paths. */
  lemma ConfigFirst(c: PathClassifier, path: string, deleted: bool)
    requires !Hidden(path) && SamePath(path, c.configPath)
    ensures Classify(c, path, deleted) == Some(Config)
  {
  }

  /**
   * Anything in the theme directory other than the two configuration files
   * is a template when it is HTML and ignored otherwise, even when it also
   * lies in a source directory.
   */
  lemma ThemeDirectoryFiles(c: PathClassifier, path: string, deleted: bool)
    requires !Hidden(path) && !SamePath(path, c.configPath) && !SamePath(path, c.themeConfigPath)
    requires PathStartsWith(path, c.themeDir)
    ensures Classify(c, path, deleted) == if Extension(path) == Some("html") then Some(Template(path)) else None
  {
  }

  /**
   * What a classification means: a document or static-file change carries
   * the path and the deletion flag, is named after the first source whose
   * directory holds the path, and is a document exactly for the `md` and
   * `markdown` extensions; a template lies in the theme directory; nothing
   * hidden is ever classified.
   */
  lemma ClassifySound(c: PathClassifier, path: string, deleted: bool)
    ensures var r := Classify(c, path, deleted);
      (r.Some? ==> !Hidden(path)) &&
      (r == Some(Config) <==> !Hidden(path) && SamePath(path, c.configPath)) &&
      (r.Some? && r.value.Template? ==> r.value.path == path && PathStartsWith(path, c.themeDir) && Extension(path) == Some("html")) &&
      (r.Some? && (r.value.Document? || r.value.StaticFile?) ==>
        r.value.path == path && r.value.deleted == deleted &&
        !PathStartsWith(path, c.themeDir) &&
        FirstSource(c.sourceDirs, path).Some? &&
        r.value.sourceName == c.sourceDirs[FirstSource(c.sourceDirs, path).value].0 &&
        (r.value.Document? <==> IsMarkdownExtension(path)))
  {
  }

  /** A path outside the theme directory and every source directory is ignored. */
  lemma UnknownIgnored(c: PathClassifier, path: string, deleted: bool)
    requires !SamePath(path, c.configPath) && !SamePath(path, c.themeConfigPath)
    requires !PathStartsWith(path, c.themeDir)
    requires forall j :: 0 <= j < |c.sourceDirs| ==> !PathStartsWith(path, c.sourceDirs[j].1)
    ensures Classify(c, path, deleted) == None
  {
  }

  // ---------------------------------------------------------------------
  // Events
  // ---------------------------------------------------------------------

  datatype ModifyKind = AnyModify | Data | Metadata | Name | OtherModify

  /** The kinds of filesystem event; the details inside them are not used. */
  datatype EventKind = AnyEvent | Access | Create | Modify(detail: ModifyKind) | Remove | OtherEvent

  datatype Event = Event(kind: EventKind, paths: seq<string>)

  datatype WatchEvent = FilesChanged(changes: seq<ChangeKind>) | Error(message: string)

  /** `is_relevant_event`: creations, removals, and data or name modifications. */
  predicate IsRelevantEvent(kind: EventKind)
    ensures kind.Create? || kind.Remove? ==> IsRelevantEvent(kind)
    ensures IsRelevantEvent(kind) && kind.Modify? ==> kind.detail.Data? || kind.detail.Name?
    ensures IsRelevantEvent(kind) ==> kind.Create? || kind.Remove? || kind.Modify?
  {
    kind.Create? || kind.Remove? || kind == Modify(Data) || kind == Modify(Name)
  }

  /** Access, metadata-only and unspecified events never cause a rebuild. */
  lemma IrrelevantEvents()
    ensures !IsRelevantEvent(Access) && !IsRelevantEvent(AnyEvent) && !IsRelevantEvent(OtherEvent)
    ensures !IsRelevantEvent(Modify(Metadata)) && !IsRelevantEvent(Modify(AnyModify)) && !IsRelevantEvent(Modify(OtherModify))
  {
  }

  /** The change one event contributes: only its first path is classified, as deleted iff it is a removal. */
  function EventChange(c: PathClassifier, e: Event): Option<ChangeKind>
  {
    if !IsRelevantEvent(e.kind) || e.paths == [] then None
    else Classify(c, e.paths[0], e.kind.Remove?)
  }

  /** The changes of a batch of events, in event order. */
  function BatchChanges(c: PathClassifier, events: seq<Event>): seq<ChangeKind>
    decreases |events|
  {
    if events == [] then []
    else
      var rest := BatchChanges(c, events[1..]);
      match EventChange(c, events[0])
      case Some(x) => [x] + rest
      case None => rest
  }

  /**
   * The messages the watcher callback sends for one debounced result: one
   * `FilesChanged` with the batch's changes when there are any, nothing
   * otherwise; one `Error` per error.
   */
  function CallbackMessages(c: PathClassifier, result: Result<seq<Event>, seq<string>>): (sent: seq<WatchEvent>)
    ensures result.Ok? ==> |sent| <= 1 && forall m :: m in sent ==> m.FilesChanged? && m.changes != []
    ensures result.Ok? && BatchChanges(c, result.value) != [] ==> sent == [FilesChanged(BatchChanges(c, result.value))]
    ensures result.Ok? && BatchChanges(c, result.value) == [] ==> sent == []
    ensures result.Err? ==> |sent| == |result.error|
    ensures result.Err? ==> forall i :: 0 <= i < |sent| ==> sent[i] == Error(result.error[i])
  {
    match result
    case Ok(events) =>
      var changes := BatchChanges(c, events);
      if changes != [] then [FilesChanged(changes)] else []
    case Err(errors) => seq(|errors|, i requires 0 <= i < |errors| => Error(errors[i]))
  }

  /** Each change of a batch comes from one relevant event, in order; batches split as events do. */
  lemma {:induction false} BatchChangesAppend(c: PathClassifier, a: seq<Event>, b: seq<Event>)
    ensures BatchChanges(c, a + b) == BatchChanges(c, a) + BatchChanges(c, b)
    decreases |a|
  {
    if a == [] {
      assert a + b == b;
    } else {
      assert (a + b)[0] == a[0];
      assert (a + b)[1..] == a[1..] + b;
      BatchChangesAppend(c, a[1..], b);
    }
  }

  /** A change is in the batch exactly when some event contributes it. */
  lemma {:induction false} BatchChangesMembers(c: PathClassifier, events: seq<Event>, x: ChangeKind)
    ensures x in BatchChanges(c, events) <==> exists i :: 0 <= i < |events| && EventChange(c, events[i]) == Some(x)
    decreases |events|
  {
    if events != [] {
      BatchChangesMembers(c, events[1..], x);
      assert forall i :: 0 < i < |events| ==> events[1..][i - 1] == events[i];
      if j :| 0 <= j < |events[1..]| && EventChange(c, events[1..][j]) == Some(x) {
        assert EventChange(c, events[j + 1]) == Some(x);
      }
    }
  }

  /**
   * A document or static-file change of an event carries the event's first
   * path and is marked deleted exactly when the event is a removal.
   */
  lemma EventChangeDeleted(c: PathClassifier, e: Event)
    ensures var r := EventChange(c, e);
      r.Some? && (r.value.Document? || r.value.StaticFile?) ==>
        IsRelevantEvent(e.kind) && e.paths != [] &&
        r.value.path == e.paths[0] && (r.value.deleted <==> e.kind.Remove?)
  {
    if IsRelevantEvent(e.kind) && e.paths != [] {
      ClassifySound(c, e.paths[0], e.kind.Remove?);
    }
  }
}
