/**
 * The document pipeline (`build/pipeline/`): a batch of documents goes
 * through named stages in order (by default tera, markdown, template,
 * write), each stage updating the documents one after another and the
 * first error stopping everything; finalize stages run once at the end.
 *
 * Template rendering (Tera), content rendering (the registered formats)
 * and page rendering are functions carried by the context; the output
 * directory is a map from file path to file contents.
 */
module Pipelines {
  import opened Wrappers
  import opened Strings
  import opened Paths
  import opened Documents
  import opened Formats
  import Navigation

  type FileSystem = map<string, string>

  datatype PipelineError =
    | TeraError(message: string)
    | MarkdownError(message: string)
    | IoError(message: string)
    | StageError(stage: string, message: string)

  // ---------------------------------------------------------------------
  // Documents in the pipeline (pipeline/document.rs)
  // ---------------------------------------------------------------------

  datatype ProcessingDocument = ProcessingDocument(
    doc: Document,
    sourcePath: string,
    content: string,
    toc: seq<TocEntry>,
    outputHtml: Option<string>)

  /**
   * `ProcessingDocument::new`: the content starts as the document's raw
   * content, with no table of contents and no output yet.
   */
  function NewProcessingDocument(doc: Document, sourcePath: string): (p: ProcessingDocument)
    ensures p.content == doc.rawContent && p.toc == [] && p.outputHtml == None
    ensures p.doc == doc && p.sourcePath == sourcePath
    ensures PageInfoOf(p).url == doc.urlPath && PageInfoOf(p).title == Title(doc)
  {
    ProcessingDocument(doc, sourcePath, doc.rawContent, [], None)
  }

  // ---------------------------------------------------------------------
  // The context (pipeline/context.rs)
  // ---------------------------------------------------------------------

  datatype UndoxContext = UndoxContext(dev: bool, liveReload: bool, version: string)

  datatype SourceTab = SourceTab(name: string, sourceId: string, url: string, isCurrent: bool, isTopLevel: bool)

  datatype PageInfo = PageInfo(title: string, url: string, description: Option<string>, extra: map<string, string>)

  datatype ContentRenderContext = ContentRenderContext(page: PageInfo, undox: UndoxContext)

  datatype PageContext = PageContext(
    page: PageInfo,
    content: string,
    nav: seq<Navigation.NavSection>,
    sources: seq<SourceTab>,
    toc: seq<TocEntry>,
    undox: UndoxContext)

  /**
   * The rendering services: a format's rendering of content, Tera's
   * rendering of content, and the page template. Each gives the error's
   * message on failure.
   */
  datatype Renderers = Renderers(
    renderFormat: (Format, string) -> Result<FormatOutput, string>,
    renderContent: (string, ContentRenderContext) -> Result<string, string>,
    renderPage: PageContext -> Result<string, string>)

  datatype PipelineContext = PipelineContext(
    outputDir: string,
    navBySource: map<string, seq<Navigation.NavSection>>,
    sourceTabs: seq<SourceTab>,
    formats: seq<Format>,
    renderers: Renderers,
    undox: UndoxContext)

  /**
   * `PipelineContext::new`: everything stored as given; live reload is on
   * only in development mode.
   */
  function NewContext(
    outputDir: string, navBySource: map<string, seq<Navigation.NavSection>>, sourceTabs: seq<SourceTab>,
    formats: seq<Format>, renderers: Renderers, devMode: bool, liveReload: bool, version: string): (c: PipelineContext)
    ensures c.undox.dev == devMode
    ensures c.undox.liveReload <==> devMode && liveReload
    ensures c.undox.version == version
    ensures c.outputDir == outputDir && c.navBySource == navBySource && c.sourceTabs == sourceTabs
    ensures c.formats == formats && c.renderers == renderers
  {
    PipelineContext(outputDir, navBySource, sourceTabs, formats, renderers,
      UndoxContext(devMode, devMode && liveReload, version))
  }

  /** `nav_for_source`: the stored navigation, or none for an unknown source. */
  function NavForSource(ctx: PipelineContext, name: string): (r: seq<Navigation.NavSection>)
    ensures name in ctx.navBySource ==> r == ctx.navBySource[name]
    ensures name !in ctx.navBySource ==> r == []
  {
    if name in ctx.navBySource then ctx.navBySource[name] else []
  }

  /** `source_tabs_for`: the tabs in order, the current one being the tab of `current`. */
  function SourceTabsFor(tabs: seq<SourceTab>, current: string): (r: seq<SourceTab>)
    ensures |r| == |tabs|
    ensures forall i :: 0 <= i < |r| ==>
      r[i].name == tabs[i].name && r[i].sourceId == tabs[i].sourceId && r[i].url == tabs[i].url &&
      r[i].isTopLevel == tabs[i].isTopLevel && (r[i].isCurrent <==> tabs[i].sourceId == current)
  {
    seq(|tabs|, i requires 0 <= i < |tabs| => tabs[i].(isCurrent := tabs[i].sourceId == current))
  }

  /** With distinct source ids, exactly the tab of the current source is marked, if there is one. */
  lemma CurrentTabUnique(tabs: seq<SourceTab>, current: string, k: nat)
    requires forall i, j :: 0 <= i < j < |tabs| ==> tabs[i].sourceId != tabs[j].sourceId
    requires k < |tabs| && tabs[k].sourceId == current
    ensures forall i :: 0 <= i < |tabs| ==> (SourceTabsFor(tabs, current)[i].isCurrent <==> i == k)
  {
  }

  // ---------------------------------------------------------------------
  // Stages
  // ---------------------------------------------------------------------

  /**
   * A stage: the four built-in ones, or a custom stage given by what it
   * does to one document (and to the output directory).
   */
  datatype Stage =
    | TeraStage
    | MarkdownStage
    | TemplateStage
    | WriteStage
    | CustomStage(name: string, step: (ProcessingDocument, FileSystem) -> Result<(ProcessingDocument, FileSystem), PipelineError>)

  /** A build-wide stage run once after every document stage has succeeded. */
  datatype FinalizeStage = FinalizeStage(name: string, finalize: PipelineContext -> Option<PipelineError>)

  function StageName(s: Stage): string
  {
    match s
    case TeraStage => "tera"
    case MarkdownStage => "markdown"
    case TemplateStage => "template"
    case WriteStage => "write"
    case CustomStage(name, _) => name
  }

  /** The page information the templates see. */
  function PageInfoOf(d: ProcessingDocument): PageInfo
  {
    PageInfo(Title(d.doc), d.doc.urlPath, d.doc.frontMatter.description, d.doc.frontMatter.extra)
  }

  /** `TeraStage`: the content rendered through Tera. */
  function TeraStep(ctx: PipelineContext, d: ProcessingDocument): (r: Result<ProcessingDocument, PipelineError>)
    ensures r.Ok? <==> ctx.renderers.renderContent(d.content, ContentRenderContext(PageInfoOf(d), ctx.undox)).Ok?
    ensures r.Ok? ==> ctx.renderers.renderContent(d.content, ContentRenderContext(PageInfoOf(d), ctx.undox)) == Ok(r.value.content)
    ensures r.Ok? ==> r.value.doc == d.doc && r.value.sourcePath == d.sourcePath && r.value.toc == d.toc && r.value.outputHtml == d.outputHtml
    ensures r.Err? ==> r.error.TeraError?
  {
    match ctx.renderers.renderContent(d.content, ContentRenderContext(PageInfoOf(d), ctx.undox))
    case Err(e) => Err(TeraError(e))
    case Ok(processed) => Ok(d.(content := processed))
  }

  /** The extension named in the "no format" message. */
  function ExtensionText(path: string): string
  {
    match Extension(path) case Some(e) => e case None => "(none)"
  }

  /** The format registered for a document's extension, if it has one. */
  function FormatFor(ctx: PipelineContext, d: ProcessingDocument): Option<Format>
  {
    match Extension(d.doc.sourcePath) case None => None case Some(e) => FindFormat(ctx.formats, e)
  }

  /**
   * `MarkdownStage`: find the format for the source file's extension and
   * render the content with it; the HTML and the table of contents replace
   * the content and the table of contents.
   */
  function MarkdownStep(ctx: PipelineContext, d: ProcessingDocument): (r: Result<ProcessingDocument, PipelineError>)
    ensures r.Ok? ==> r.value.doc == d.doc && r.value.sourcePath == d.sourcePath && r.value.outputHtml == d.outputHtml
    ensures r.Err? ==> r.error.StageError? && r.error.stage == "markdown"
    ensures FormatFor(ctx, d).None? ==>
      r == Err(StageError("markdown", "no format registered for extension: " + ExtensionText(d.doc.sourcePath)))
    ensures FormatFor(ctx, d).Some? && ctx.renderers.renderFormat(FormatFor(ctx, d).value, d.content).Err? ==>
      r.Err? && StartsWith(r.error.message, "failed to render " + d.doc.urlPath)
    ensures r.Ok? <==> (FormatFor(ctx, d).Some? && ctx.renderers.renderFormat(FormatFor(ctx, d).value, d.content).Ok?)
    ensures r.Ok? ==> (FormatFor(ctx, d).Some? &&
      ctx.renderers.renderFormat(FormatFor(ctx, d).value, d.content) == Ok(FormatOutput(r.value.content, r.value.toc)))
  {
    match FormatFor(ctx, d)
    case None =>
      Err(StageError("markdown", "no format registered for extension: " + ExtensionText(d.doc.sourcePath)))
    case Some(f) =>
      match ctx.renderers.renderFormat(f, d.content)
      case Err(e) =>
        var prefix := "failed to render " + d.doc.urlPath;
        PrefixOf(prefix, ": ", e);
        Err(StageError("markdown", prefix + ": " + e))
      case Ok(output) => Ok(d.(content := output.html, toc := output.toc))
  }

  /** `TemplateStage`: the page template applied, with the source's navigation and tabs. */
  function TemplateStep(ctx: PipelineContext, d: ProcessingDocument): (r: Result<ProcessingDocument, PipelineError>)
    ensures r.Ok? ==> r.value.outputHtml.Some? && r.value.doc == d.doc
  {
    var name := d.doc.sourceName;
    var page := PageContext(PageInfoOf(d), d.content, NavForSource(ctx, name),
      SourceTabsFor(ctx.sourceTabs, name), d.toc, ctx.undox);
    match ctx.renderers.renderPage(page)
    case Err(e) => Err(TeraError(e))
    case Ok(html) => Ok(d.(outputHtml := Some(html)))
  }

  /** Where a document's page is written. */
  function OutputFile(ctx: PipelineContext, d: ProcessingDocument): string
  {
    UrlToOutputPath(d.doc.urlPath, ctx.outputDir)
  }

  function NoOutputMessage(url: string): string
  {
    "document '" + url + "' has no output HTML (was template stage run?)"
  }

  /** `WriteStage`: the final HTML written at the document's output path; no HTML is an error. */
  function WriteStep(ctx: PipelineContext, d: ProcessingDocument, fs: FileSystem): (r: Result<FileSystem, PipelineError>)
    ensures d.outputHtml.None? <==> r.Err?
    ensures r.Err? ==> r.error == StageError("write", NoOutputMessage(d.doc.urlPath))
    ensures r.Ok? ==> r.value == fs[OutputFile(ctx, d) := d.outputHtml.value]
  {
    match d.outputHtml
    case None => Err(StageError("write", NoOutputMessage(d.doc.urlPath)))
    case Some(html) => Ok(fs[OutputFile(ctx, d) := html])
  }

  function WithFiles(r: Result<ProcessingDocument, PipelineError>, fs: FileSystem): Result<(ProcessingDocument, FileSystem), PipelineError>
  {
    match r case Ok(d) => Ok((d, fs)) case Err(e) => Err(e)
  }

  /** One stage's work on one document. */
  function Step(s: Stage, ctx: PipelineContext, d: ProcessingDocument, fs: FileSystem): Result<(ProcessingDocument, FileSystem), PipelineError>
  {
    match s
    case TeraStage => WithFiles(TeraStep(ctx, d), fs)
    case MarkdownStage => WithFiles(MarkdownStep(ctx, d), fs)
    case TemplateStage => WithFiles(TemplateStep(ctx, d), fs)
    case WriteStage => (match WriteStep(ctx, d, fs) case Ok(fs') => Ok((d, fs')) case Err(e) => Err(e))
    case CustomStage(_, step) => step(d, fs)
  }

  /** The documents and files after some processing, and the error that stopped it, if any. */
  datatype Outcome = Outcome(docs: seq<ProcessingDocument>, fs: FileSystem, error: Option<PipelineError>)

  /** A stage over a batch: the documents in order, stopping at the first error. */
  function StageRun(s: Stage, ctx: PipelineContext, docs: seq<ProcessingDocument>, fs: FileSystem): (o: Outcome)
    ensures |o.docs| == |docs|
    decreases |docs|
  {
    if docs == [] then Outcome([], fs, None)
    else match Step(s, ctx, docs[0], fs)
      case Err(e) => Outcome(docs, fs, Some(e))
      case Ok(r) =>
        var rest := StageRun(s, ctx, docs[1..], r.1);
        Outcome([r.0] + rest.docs, rest.fs, rest.error)
  }

  /** What a stage does to one document, as a function value. */
  type StepFunction = (ProcessingDocument, FileSystem) -> Result<(ProcessingDocument, FileSystem), PipelineError>

  function StepOf(s: Stage, ctx: PipelineContext): StepFunction
  {
    (d, fs) => Step(s, ctx, d, fs)
  }

  /** A step applied to the documents in order, stopping at the first error. */
  function RunSteps(step: StepFunction, docs: seq<ProcessingDocument>, fs: FileSystem): (o: Outcome)
    ensures |o.docs| == |docs|
    decreases |docs|
  {
    if docs == [] then Outcome([], fs, None)
    else match step(docs[0], fs)
      case Err(e) => Outcome(docs, fs, Some(e))
      case Ok(r) => Prepend([r.0], RunSteps(step, docs[1..], r.1))
  }

  /** A stage run is its step applied in order. */
  lemma {:induction false} StageRunSteps(s: Stage, ctx: PipelineContext, docs: seq<ProcessingDocument>, fs: FileSystem)
    ensures StageRun(s, ctx, docs, fs) == RunSteps(StepOf(s, ctx), docs, fs)
    decreases |docs|
  {
    if docs != [] && Step(s, ctx, docs[0], fs).Ok? {
      StageRunSteps(s, ctx, docs[1..], Step(s, ctx, docs[0], fs).value.1);
    }
  }

  /** The stages in order, each on the whole batch, stopping at the first error. */
  function StagesRun(stages: seq<Stage>, ctx: PipelineContext, docs: seq<ProcessingDocument>, fs: FileSystem): (o: Outcome)
    ensures |o.docs| == |docs|
    decreases |stages|
  {
    if stages == [] then Outcome(docs, fs, None)
    else
      var first := StageRun(stages[0], ctx, docs, fs);
      if first.error.Some? then first
      else StagesRun(stages[1..], ctx, first.docs, first.fs)
  }

  /** The finalize stages in order; the first error stops them. */
  function FinalizeRun(finals: seq<FinalizeStage>, ctx: PipelineContext): Option<PipelineError>
    decreases |finals|
  {
    if finals == [] then None
    else match finals[0].finalize(ctx)
      case Some(e) => Some(e)
      case None => FinalizeRun(finals[1..], ctx)
  }

  /** `Pipeline::run`: the stages, then, only if they all succeeded, the finalize stages. */
  function RunSpec(stages: seq<Stage>, finals: seq<FinalizeStage>, ctx: PipelineContext,
                   docs: seq<ProcessingDocument>, fs: FileSystem): Outcome
  {
    var o := StagesRun(stages, ctx, docs, fs);
    if o.error.Some? then o else o.(error := FinalizeRun(finals, ctx))
  }

  // ----- what the stage runs mean ---------------------------------------

  /** Running `a + b` is running `a`, then, if it succeeded, `b` on its result. */
  lemma {:induction false} StagesRunAppend(a: seq<Stage>, b: seq<Stage>, ctx: PipelineContext,
                                           docs: seq<ProcessingDocument>, fs: FileSystem)
    ensures var first := StagesRun(a, ctx, docs, fs);
      StagesRun(a + b, ctx, docs, fs) == if first.error.Some? then first else StagesRun(b, ctx, first.docs, first.fs)
    decreases |a|
  {
    if a == [] {
      assert a + b == b;
    } else {
      assert (a + b)[0] == a[0];
      assert (a + b)[1..] == a[1..] + b;
      var o := StageRun(a[0], ctx, docs, fs);
      if o.error.None? {
        StagesRunAppend(a[1..], b, ctx, o.docs, o.fs);
      }
    }
  }

  /** A stage that fails stops the run: the stages after it do not change anything. */
  lemma FailureStopsRun(a: seq<Stage>, b: seq<Stage>, finals: seq<FinalizeStage>, ctx: PipelineContext,
                        docs: seq<ProcessingDocument>, fs: FileSystem)
    requires StagesRun(a, ctx, docs, fs).error.Some?
    ensures RunSpec(a + b, finals, ctx, docs, fs) == StagesRun(a, ctx, docs, fs)
  {
    StagesRunAppend(a, b, ctx, docs, fs);
  }

  /** The per-document step of the stages that change only documents. */
  predicate DocumentStage(s: Stage)
  {
    s.TeraStage? || s.MarkdownStage? || s.TemplateStage?
  }

  function DocStep(s: Stage, ctx: PipelineContext, d: ProcessingDocument): Result<ProcessingDocument, PipelineError>
    requires DocumentStage(s)
  {
    match s
    case TeraStage => TeraStep(ctx, d)
    case MarkdownStage => MarkdownStep(ctx, d)
    case TemplateStage => TemplateStep(ctx, d)
  }

  type DocFunction = ProcessingDocument -> Result<ProcessingDocument, PipelineError>

  function DocStepOf(s: Stage, ctx: PipelineContext): DocFunction
    requires DocumentStage(s)
  {
    d => DocStep(s, ctx, d)
  }

  /** The step of a document stage changes no file. */
  lemma DocStepIsStep(s: Stage, ctx: PipelineContext, d: ProcessingDocument, fs: FileSystem)
    requires DocumentStage(s)
    ensures Step(s, ctx, d, fs) == WithFiles(DocStep(s, ctx, d), fs)
  {
  }

  /** The index of the first document `f` fails on, or the batch size. */
  function FailIndex(f: DocFunction, docs: seq<ProcessingDocument>): (k: nat)
    ensures k <= |docs|
    decreases |docs|
  {
    if docs == [] || f(docs[0]).Err? then 0
    else 1 + FailIndex(f, docs[1..])
  }

  /** `FailIndex` is the first document the step fails on. */
  lemma {:induction false} FailIndexFirst(f: DocFunction, docs: seq<ProcessingDocument>)
    ensures forall i :: 0 <= i < FailIndex(f, docs) ==> f(docs[i]).Ok?
    ensures FailIndex(f, docs) < |docs| ==> f(docs[FailIndex(f, docs)]).Err?
    decreases |docs|
  {
    if docs != [] && f(docs[0]).Ok? {
      FailIndexFirst(f, docs[1..]);
      assert forall i :: 1 <= i < |docs| ==> docs[i] == docs[1..][i - 1];
    }
  }

  /** The files are left alone by `step`, which does to documents what `f` does. */
  ghost predicate KeepsFiles(step: StepFunction, f: DocFunction, fs: FileSystem)
  {
    forall d :: step(d, fs) == WithFiles(f(d), fs)
  }

  /** A step that keeps the files fails exactly at the first failing document, with its error. */
  lemma {:induction false} KeepingFilesResult(step: StepFunction, f: DocFunction, docs: seq<ProcessingDocument>, fs: FileSystem)
    requires KeepsFiles(step, f, fs)
    ensures var o := RunSteps(step, docs, fs);
      var k := FailIndex(f, docs);
      o.fs == fs && (o.error.Some? <==> k < |docs|) &&
      (k < |docs| ==> f(docs[k]).Err? && o.error == Some(f(docs[k]).error))
    decreases |docs|
  {
    if docs != [] && f(docs[0]).Ok? {
      assert step(docs[0], fs) == WithFiles(f(docs[0]), fs);
      KeepingFilesResult(step, f, docs[1..], fs);
      if FailIndex(f, docs[1..]) < |docs[1..]| {
        assert docs[1..][FailIndex(f, docs[1..])] == docs[FailIndex(f, docs)];
      }
    } else if docs != [] {
      assert step(docs[0], fs) == WithFiles(f(docs[0]), fs);
    }
  }

  /** A step that keeps the files updates the documents before the first failure and no other. */
  lemma {:induction false} KeepingFilesDocument(step: StepFunction, f: DocFunction, docs: seq<ProcessingDocument>,
                                                fs: FileSystem, i: nat)
    requires KeepsFiles(step, f, fs) && i < |docs|
    ensures i < FailIndex(f, docs) ==> f(docs[i]).Ok? && RunSteps(step, docs, fs).docs[i] == f(docs[i]).value
    ensures i >= FailIndex(f, docs) ==> RunSteps(step, docs, fs).docs[i] == docs[i]
    decreases i
  {
    assert step(docs[0], fs) == WithFiles(f(docs[0]), fs);
    FailIndexFirst(f, docs);
    if f(docs[0]).Ok? && i > 0 {
      KeepingFilesDocument(step, f, docs[1..], fs, i - 1);
      assert docs[1..][i - 1] == docs[i];
    }
  }

  /** The step of a document stage keeps the files. */
  lemma DocumentStageKeepsFiles(s: Stage, ctx: PipelineContext, fs: FileSystem)
    requires DocumentStage(s)
    ensures KeepsFiles(StepOf(s, ctx), DocStepOf(s, ctx), fs)
  {
    forall d: ProcessingDocument ensures StepOf(s, ctx)(d, fs) == WithFiles(DocStepOf(s, ctx)(d), fs) {
      DocStepIsStep(s, ctx, d, fs);
    }
  }

  /**
   * A document stage processes the documents in order up to the first
   * failure: those before it carry their update, that one and the rest are
   * unchanged, no file is written, and the error is that document's.
   */
  lemma DocumentStageRun(s: Stage, ctx: PipelineContext, docs: seq<ProcessingDocument>, fs: FileSystem)
    requires DocumentStage(s)
    ensures var o := StageRun(s, ctx, docs, fs);
      var k := FailIndex(DocStepOf(s, ctx), docs);
      o.fs == fs && (o.error.Some? <==> k < |docs|) &&
      (k < |docs| ==> DocStep(s, ctx, docs[k]).Err? && o.error == Some(DocStep(s, ctx, docs[k]).error)) &&
      (forall i :: 0 <= i < k ==> DocStep(s, ctx, docs[i]).Ok? && o.docs[i] == DocStep(s, ctx, docs[i]).value) &&
      (forall i :: k <= i < |docs| ==> o.docs[i] == docs[i])
  {
    var f := DocStepOf(s, ctx);
    StageRunSteps(s, ctx, docs, fs);
    DocumentStageKeepsFiles(s, ctx, fs);
    KeepingFilesResult(StepOf(s, ctx), f, docs, fs);
    FailIndexFirst(f, docs);
    forall i | 0 <= i < |docs|
      ensures RunSteps(StepOf(s, ctx), docs, fs).docs[i] == if i < FailIndex(f, docs) then f(docs[i]).value else docs[i]
    {
      KeepingFilesDocument(StepOf(s, ctx), f, docs, fs, i);
    }
  }

  /** Every document has its page. */
  predicate HavePages(docs: seq<ProcessingDocument>)
    decreases |docs|
  {
    docs == [] || (docs[0].outputHtml.Some? && HavePages(docs[1..]))
  }

  lemma {:induction false} HavePagesMeans(docs: seq<ProcessingDocument>)
    ensures HavePages(docs) <==> forall i :: 0 <= i < |docs| ==> docs[i].outputHtml.Some?
    decreases |docs|
  {
    if docs != [] {
      HavePagesMeans(docs[1..]);
      assert forall i :: 0 < i < |docs| ==> docs[1..][i - 1] == docs[i];
    }
  }

  /** After a successful template stage every document has its page. */
  lemma {:induction false} TemplateGivesPages(ctx: PipelineContext, docs: seq<ProcessingDocument>, fs: FileSystem)
    requires StageRun(TemplateStage, ctx, docs, fs).error.None?
    ensures HavePages(StageRun(TemplateStage, ctx, docs, fs).docs)
    decreases |docs|
  {
    if docs != [] {
      var r := TemplateStep(ctx, docs[0]);
      var rest := StageRun(TemplateStage, ctx, docs[1..], fs);
      assert StageRun(TemplateStage, ctx, docs, fs) == Outcome([r.value] + rest.docs, rest.fs, rest.error);
      TemplateGivesPages(ctx, docs[1..], fs);
      assert ([r.value] + rest.docs)[1..] == rest.docs;
    }
  }

  /** The files after writing, in order, the pages of those of `docs` that have one. */
  function WriteAll(ctx: PipelineContext, docs: seq<ProcessingDocument>, fs: FileSystem): FileSystem
    decreases |docs|
  {
    if docs == [] then fs
    else WriteAll(ctx, docs[1..], WriteOne(ctx, docs[0], fs))
  }

  /** The files after writing the page of one document, if it has one. */
  function WriteOne(ctx: PipelineContext, d: ProcessingDocument, fs: FileSystem): FileSystem
  {
    match d.outputHtml
    case Some(h) => fs[OutputFile(ctx, d) := h]
    case None => fs
  }

  /** The write stage on a batch whose first document has its page. */
  lemma WriteStageCons(ctx: PipelineContext, docs: seq<ProcessingDocument>, fs: FileSystem)
    requires docs != [] && docs[0].outputHtml.Some?
    ensures var fs' := fs[OutputFile(ctx, docs[0]) := docs[0].outputHtml.value];
      StageRun(WriteStage, ctx, docs, fs) == Prepend([docs[0]], StageRun(WriteStage, ctx, docs[1..], fs')) &&
      WriteAll(ctx, docs, fs) == WriteAll(ctx, docs[1..], fs')
  {
    WriteStepPage(ctx, docs[0], fs);
    StageRunCons(WriteStage, ctx, docs, fs);
    WriteAllCons(ctx, docs, fs);
  }

  lemma WriteStepPage(ctx: PipelineContext, d: ProcessingDocument, fs: FileSystem)
    requires d.outputHtml.Some?
    ensures Step(WriteStage, ctx, d, fs) == Ok((d, fs[OutputFile(ctx, d) := d.outputHtml.value]))
  {
  }

  lemma WriteAllCons(ctx: PipelineContext, docs: seq<ProcessingDocument>, fs: FileSystem)
    requires docs != [] && docs[0].outputHtml.Some?
    ensures WriteAll(ctx, docs, fs) == WriteAll(ctx, docs[1..], fs[OutputFile(ctx, docs[0]) := docs[0].outputHtml.value])
  {
  }

  /** A stage whose step succeeds on the first document goes on with the rest. */
  lemma StageRunCons(s: Stage, ctx: PipelineContext, docs: seq<ProcessingDocument>, fs: FileSystem)
    requires docs != [] && Step(s, ctx, docs[0], fs).Ok?
    ensures var r := Step(s, ctx, docs[0], fs).value;
      StageRun(s, ctx, docs, fs) == Prepend([r.0], StageRun(s, ctx, docs[1..], r.1))
  {
  }

  /** The write stage succeeds on documents that all have their page, writing each in turn. */
  lemma {:induction false} WriteStageRun(ctx: PipelineContext, docs: seq<ProcessingDocument>, fs: FileSystem)
    requires HavePages(docs)
    ensures StageRun(WriteStage, ctx, docs, fs) == Outcome(docs, WriteAll(ctx, docs, fs), None)
    decreases |docs|
  {
    if docs != [] {
      WriteStageCons(ctx, docs, fs);
      WriteStageRun(ctx, docs[1..], fs[OutputFile(ctx, docs[0]) := docs[0].outputHtml.value]);
      assert [docs[0]] + docs[1..] == docs;
    }
  }

  /** The write stage fails on the first document without a page, after writing those before it. */
  lemma {:induction false} WriteStageFails(ctx: PipelineContext, docs: seq<ProcessingDocument>, fs: FileSystem, k: nat)
    requires k < |docs| && docs[k].outputHtml.None? && HavePages(docs[..k])
    ensures StageRun(WriteStage, ctx, docs, fs) ==
      Outcome(docs, WriteAll(ctx, docs[..k], fs), Some(StageError("write", NoOutputMessage(docs[k].doc.urlPath))))
    decreases k
  {
    if k > 0 {
      var d := docs[..k];
      assert d[0] == docs[0] && d[1..] == docs[1..][..k - 1];
      assert docs[1..][k - 1] == docs[k];
      var fs' := fs[OutputFile(ctx, docs[0]) := docs[0].outputHtml.value];
      WriteStageFails(ctx, docs[1..], fs', k - 1);
      WriteAllCons(ctx, d, fs);
      WriteStageCons(ctx, docs, fs);
      PrependFirst(docs);
    } else {
      WriteStageFailsFirst(ctx, docs, fs);
    }
  }

  lemma WriteStageFailsFirst(ctx: PipelineContext, docs: seq<ProcessingDocument>, fs: FileSystem)
    requires docs != [] && docs[0].outputHtml.None?
    ensures StageRun(WriteStage, ctx, docs, fs) ==
      Outcome(docs, WriteAll(ctx, docs[..0], fs), Some(StageError("write", NoOutputMessage(docs[0].doc.urlPath))))
  {
    assert docs[..0] == [];
  }

  lemma PrependFirst(docs: seq<ProcessingDocument>)
    requires docs != []
    ensures [docs[0]] + docs[1..] == docs
  {
  }

  /** A file no document's page goes to keeps what it held. */
  lemma {:induction false} WriteAllElsewhere(ctx: PipelineContext, docs: seq<ProcessingDocument>, fs: FileSystem, p: string)
    requires forall j :: 0 <= j < |docs| ==> OutputFile(ctx, docs[j]) != p
    ensures p in WriteAll(ctx, docs, fs) <==> p in fs
    ensures p in fs ==> WriteAll(ctx, docs, fs)[p] == fs[p]
    decreases |docs|
  {
    if docs != [] {
      var fs' := WriteOne(ctx, docs[0], fs);
      assert OutputFile(ctx, docs[0]) != p;
      assert (p in fs' <==> p in fs) && (p in fs ==> fs'[p] == fs[p]);
      assert forall j :: 0 <= j < |docs[1..]| ==> docs[1..][j] == docs[j + 1];
      WriteAllElsewhere(ctx, docs[1..], fs', p);
    }
  }

  /** A document's page ends up in its file unless a later document writes the same file. */
  lemma {:induction false} WriteAllLastWins(ctx: PipelineContext, docs: seq<ProcessingDocument>, fs: FileSystem, i: nat)
    requires i < |docs| && docs[i].outputHtml.Some?
    requires forall j :: i < j < |docs| ==> OutputFile(ctx, docs[j]) != OutputFile(ctx, docs[i])
    ensures OutputFile(ctx, docs[i]) in WriteAll(ctx, docs, fs)
    ensures WriteAll(ctx, docs, fs)[OutputFile(ctx, docs[i])] == docs[i].outputHtml.value
    decreases i
  {
    var fs' := WriteOne(ctx, docs[0], fs);
    LastWinsShift(ctx, docs, i);
    if i == 0 {
      WriteAllElsewhere(ctx, docs[1..], fs', OutputFile(ctx, docs[0]));
    } else {
      WriteAllLastWins(ctx, docs[1..], fs', i - 1);
    }
  }

  /** The precondition of `WriteAllLastWins`, moved to the documents after the first. */
  lemma LastWinsShift(ctx: PipelineContext, docs: seq<ProcessingDocument>, i: nat)
    requires i < |docs|
    requires forall j :: i < j < |docs| ==> OutputFile(ctx, docs[j]) != OutputFile(ctx, docs[i])
    ensures i == 0 ==> forall j :: 0 <= j < |docs[1..]| ==> OutputFile(ctx, docs[1..][j]) != OutputFile(ctx, docs[0])
    ensures i > 0 ==>
      (docs[1..][i - 1] == docs[i] &&
       forall j :: i - 1 < j < |docs[1..]| ==> OutputFile(ctx, docs[1..][j]) != OutputFile(ctx, docs[1..][i - 1]))
  {
    assert forall j :: 0 <= j < |docs[1..]| ==> docs[1..][j] == docs[j + 1];
  }

  /** In the default order, a successful template stage leaves the write stage nothing to fail on. */
  lemma TemplateThenWrite(ctx: PipelineContext, docs: seq<ProcessingDocument>, fs: FileSystem)
    requires StageRun(TemplateStage, ctx, docs, fs).error.None?
    ensures var t := StageRun(TemplateStage, ctx, docs, fs);
      StageRun(WriteStage, ctx, t.docs, t.fs).error.None?
  {
    TemplateGivesPages(ctx, docs, fs);
    var t := StageRun(TemplateStage, ctx, docs, fs);
    WriteStageRun(ctx, t.docs, t.fs);
  }

  // ---------------------------------------------------------------------
  // Stage lists
  // ---------------------------------------------------------------------

  function Names(stages: seq<Stage>): (r: seq<string>)
    ensures |r| == |stages| && forall i :: 0 <= i < |r| ==> r[i] == StageName(stages[i])
  {
    seq(|stages|, i requires 0 <= i < |stages| => StageName(stages[i]))
  }

  /** The index of the first stage named `name`, searching from `k` on. */
  function PositionFrom(stages: seq<Stage>, name: string, k: nat): (r: Option<nat>)
    requires k <= |stages|
    ensures r.Some? ==> k <= r.value < |stages| && StageName(stages[r.value]) == name
    ensures r.Some? ==> forall j :: k <= j < r.value ==> StageName(stages[j]) != name
    ensures r.None? ==> forall j :: k <= j < |stages| ==> StageName(stages[j]) != name
    decreases |stages| - k
  {
    if k == |stages| then None
    else if StageName(stages[k]) == name then Some(k)
    else PositionFrom(stages, name, k + 1)
  }

  /** `position(|s| s.name() == name)`: the first stage named `name`, which must exist. */
  function Position(stages: seq<Stage>, name: string): (p: nat)
    requires name in Names(stages)
    ensures p < |stages| && StageName(stages[p]) == name
    ensures forall j :: 0 <= j < p ==> StageName(stages[j]) != name
  {
    PositionFrom(stages, name, 0).value
  }

  /** `Vec::insert`. */
  function InsertAt(stages: seq<Stage>, p: nat, s: Stage): (r: seq<Stage>)
    requires p <= |stages|
    ensures |r| == |stages| + 1 && r[p] == s
    ensures forall i :: 0 <= i < p ==> r[i] == stages[i]
    ensures forall i :: p < i < |r| ==> r[i] == stages[i - 1]
  {
    stages[..p] + [s] + stages[p..]
  }

  /** `insert_before`: the new stage comes right before the first stage named `name`. */
  lemma InsertBeforeNames(stages: seq<Stage>, name: string, s: Stage)
    requires name in Names(stages)
    ensures var r := Names(InsertAt(stages, Position(stages, name), s));
      var p := Position(stages, name);
      r[p] == StageName(s) && r[p + 1] == name &&
      forall j :: 0 <= j < p ==> r[j] != name
  {
  }

  /** `insert_after`: the new stage comes right after the first stage named `name`. */
  lemma InsertAfterNames(stages: seq<Stage>, name: string, s: Stage)
    requires name in Names(stages)
    ensures var r := Names(InsertAt(stages, Position(stages, name) + 1, s));
      var p := Position(stages, name);
      r[p] == name && r[p + 1] == StageName(s) &&
      forall j :: 0 <= j < p ==> r[j] != name
  {
  }

  const DefaultStages := [TeraStage, MarkdownStage, TemplateStage, WriteStage]

  /** The default stages are named tera, markdown, template and write, in that order. */
  lemma DefaultStageNames()
    ensures Names(DefaultStages) == ["tera", "markdown", "template", "write"]
  {
  }

  // ---------------------------------------------------------------------
  // The pipeline (pipeline/mod.rs)
  // ---------------------------------------------------------------------

  /**
   * A stage's `process` on the batch in place: the documents in order,
   * each replaced by its processed version, the first error returned.
   */
  method ProcessStage(step: StepFunction, docs: array<ProcessingDocument>, fs: FileSystem)
    returns (fs': FileSystem, error: Option<PipelineError>)
    modifies docs
    ensures Outcome(docs[..], fs', error) == RunSteps(step, old(docs[..]), fs)
  {
    ghost var goal := RunSteps(step, docs[..], fs);
    ghost var orig := docs[..];
    ghost var processed: seq<ProcessingDocument> := [];
    fs' := fs;
    var i := 0;
    StageStart(step, orig, fs);
    while i < docs.Length
      invariant i <= docs.Length == |orig|
      invariant StageInv(step, orig, docs[..], processed, i, fs', goal)
    {
      StageStep(step, orig, docs[..], processed, i, fs', goal);
      var r := step(docs[i], fs');
      if r.Err? {
        return fs', Some(r.error);
      }
      ghost var before := docs[..];
      docs[i] := r.value.0;
      assert docs[..] == before[i := r.value.0];
      processed := processed + [r.value.0];
      fs' := r.value.1;
      i := i + 1;
    }
    StageDone(step, orig, docs[..], processed, fs', goal);
    return fs', None;
  }

  /**
   * The invariant of `ProcessStage`: the documents are `cur`, the first `i`
   * of them processed, and the goal is the processed ones in front of the
   * outcome of the others.
   */
  ghost predicate StageInv(step: StepFunction, orig: seq<ProcessingDocument>, cur: seq<ProcessingDocument>,
                           processed: seq<ProcessingDocument>, i: nat, fs: FileSystem, goal: Outcome)
  {
    |processed| == i <= |orig| && cur == processed + orig[i..] &&
    goal == Prepend(processed, RunSteps(step, orig[i..], fs))
  }

  lemma StageStart(step: StepFunction, orig: seq<ProcessingDocument>, fs: FileSystem)
    ensures StageInv(step, orig, orig, [], 0, fs, RunSteps(step, orig, fs))
  {
    assert orig[0..] == orig;
    assert Prepend([], RunSteps(step, orig, fs)) == RunSteps(step, orig, fs);
  }

  /** When every document is processed, the goal is the processed documents without an error. */
  lemma StageDone(step: StepFunction, orig: seq<ProcessingDocument>, cur: seq<ProcessingDocument>,
                  processed: seq<ProcessingDocument>, fs: FileSystem, goal: Outcome)
    requires StageInv(step, orig, cur, processed, |orig|, fs, goal)
    ensures goal == Outcome(cur, fs, None)
  {
    assert orig[|orig|..] == [] && processed + [] == processed;
  }

  /**
   * One document of `ProcessStage`: an error ends the goal here, and a
   * success moves the document to the processed ones.
   */
  lemma StageStep(step: StepFunction, orig: seq<ProcessingDocument>, cur: seq<ProcessingDocument>,
                  processed: seq<ProcessingDocument>, i: nat, fs: FileSystem, goal: Outcome)
    requires i < |orig| && StageInv(step, orig, cur, processed, i, fs, goal)
    ensures |cur| == |orig| && cur[i] == orig[i]
    ensures step(orig[i], fs).Err? ==> goal == Outcome(cur, fs, Some(step(orig[i], fs).error))
    ensures step(orig[i], fs).Ok? ==>
      var r := step(orig[i], fs).value;
      StageInv(step, orig, cur[i := r.0], processed + [r.0], i + 1, r.1, goal)
  {
    var tail := orig[i..];
    assert tail[0] == orig[i] && tail[1..] == orig[i + 1..];
    AdvanceStage(step, processed, tail, fs, goal);
    if step(orig[i], fs).Ok? {
      UpdateSplit(processed, tail, step(orig[i], fs).value.0);
    }
  }

  /** Replacing the first unprocessed document moves it to the processed ones. */
  lemma UpdateSplit(done: seq<ProcessingDocument>, tail: seq<ProcessingDocument>, x: ProcessingDocument)
    requires tail != []
    ensures (done + tail)[|done| := x] == (done + [x]) + tail[1..]
  {
  }

  /** Documents already processed, in front of the outcome of the rest. */
  function Prepend(done: seq<ProcessingDocument>, o: Outcome): Outcome
  {
    Outcome(done + o.docs, o.fs, o.error)
  }

  /** One more document processed: the goal of the loop of `ProcessStage` is kept. */
  lemma AdvanceStage(step: StepFunction, done: seq<ProcessingDocument>, tail: seq<ProcessingDocument>,
                     fs: FileSystem, goal: Outcome)
    requires tail != [] && goal == Prepend(done, RunSteps(step, tail, fs))
    ensures step(tail[0], fs).Err? ==> goal == Outcome(done + tail, fs, Some(step(tail[0], fs).error))
    ensures step(tail[0], fs).Ok? ==>
      var r := step(tail[0], fs).value;
      goal == Prepend(done + [r.0], RunSteps(step, tail[1..], r.1))
  {
    if step(tail[0], fs).Ok? {
      var r := step(tail[0], fs).value;
      PrependTwice(done, [r.0], RunSteps(step, tail[1..], r.1));
    }
  }

  lemma PrependTwice(a: seq<ProcessingDocument>, b: seq<ProcessingDocument>, o: Outcome)
    ensures Prepend(a, Prepend(b, o)) == Prepend(a + b, o)
  {
    assert a + (b + o.docs) == (a + b) + o.docs;
  }

  class Pipeline {
    var stages: seq<Stage>
    var finalizeStages: seq<FinalizeStage>

    /** `Pipeline::new`: no stages. */
    constructor()
      ensures stages == [] && finalizeStages == []
    {
      stages := [];
      finalizeStages := [];
    }

    /** `default_pipeline`: tera, markdown, template, write. */
    constructor DefaultPipeline()
      ensures stages == DefaultStages && finalizeStages == []
      ensures StageNames() == ["tera", "markdown", "template", "write"]
    {
      stages := DefaultStages;
      finalizeStages := [];
      DefaultStageNames();
    }

    function StageNames(): (r: seq<string>)
      reads this
      ensures |r| == |stages| && forall i :: 0 <= i < |r| ==> r[i] == StageName(stages[i])
    {
      Names(stages)
    }

    /** `add_stage`: appended; running the pipeline then runs it after the others. */
    method AddStage(s: Stage)
      modifies this
      ensures stages == old(stages) + [s] && finalizeStages == old(finalizeStages)
      ensures StageNames() == old(StageNames()) + [StageName(s)]
    {
      stages := stages + [s];
    }

    /** `insert_before`; the source panics when no stage has the name. */
    method InsertBefore(name: string, s: Stage)
      requires name in StageNames()
      modifies this
      ensures stages == InsertAt(old(stages), Position(old(stages), name), s)
      ensures finalizeStages == old(finalizeStages)
    {
      stages := InsertAt(stages, Position(stages, name), s);
    }

    /** `insert_after`; the source panics when no stage has the name. */
    method InsertAfter(name: string, s: Stage)
      requires name in StageNames()
      modifies this
      ensures stages == InsertAt(old(stages), Position(old(stages), name) + 1, s)
      ensures finalizeStages == old(finalizeStages)
    {
      stages := InsertAt(stages, Position(stages, name) + 1, s);
    }

    /** `add_finalize_stage`. */
    method AddFinalizeStage(f: FinalizeStage)
      modifies this
      ensures finalizeStages == old(finalizeStages) + [f] && stages == old(stages)
    {
      finalizeStages := finalizeStages + [f];
    }

    /**
     * `run`: each stage on the whole batch in order, the first error
     * returned at once; then the finalize stages.
     */
    method Run(docs: array<ProcessingDocument>, ctx: PipelineContext, fs: FileSystem)
      returns (fs': FileSystem, result: Result<(), PipelineError>)
      modifies docs
      ensures var o := RunSpec(stages, finalizeStages, ctx, old(docs[..]), fs);
        docs[..] == o.docs && fs' == o.fs &&
        result == if o.error.Some? then Err(o.error.value) else Ok(())
    {
      ghost var goal := StagesRun(stages, ctx, docs[..], fs);
      fs' := fs;
      var i := 0;
      while i < |stages|
        invariant 0 <= i <= |stages|
        invariant StagesRun(stages[i..], ctx, docs[..], fs') == goal
      {
        assert stages[i..][0] == stages[i] && stages[i..][1..] == stages[i + 1..];
        var error;
        StageRunSteps(stages[i], ctx, docs[..], fs');
        fs', error := ProcessStage(StepOf(stages[i], ctx), docs, fs');
        if error.Some? {
          return fs', Err(error.value);
        }
        i := i + 1;
      }
      assert stages[i..] == [];
      var j := 0;
      while j < |finalizeStages|
        invariant 0 <= j <= |finalizeStages|
        invariant FinalizeRun(finalizeStages[j..], ctx) == FinalizeRun(finalizeStages, ctx)
      {
        assert finalizeStages[j..][0] == finalizeStages[j] && finalizeStages[j..][1..] == finalizeStages[j + 1..];
        var r := finalizeStages[j].finalize(ctx);
        if r.Some? {
          return fs', Err(r.value);
        }
        j := j + 1;
      }
      assert finalizeStages[j..] == [];
      return fs', Ok(());
    }
  }
}
