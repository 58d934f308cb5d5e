# undox, modelled in Dafny

undox is a static site generator for documentation. It reads a site configuration listing content *sources*: local directories or git repositories of Markdown files. It discovers each source's documents and static files and maps their paths to URLs and output files. It builds one navigation tree per source, either from the configured `nav` list or from the directory structure. Each document then goes through a staged pipeline (tera, markdown, template, write). A file watcher classifies changed paths, and a build cache decides how much must be rebuilt.

This project models that core in Dafny and proves what it promises:

- **URLs and output paths**: `paths.dfy`, with examples in `paths_tests.dfy`.
- **Titles from slugs**: `util.dfy` and `util_tests.dfy`.
- **Documents, front matter and MIME types**: `document.dfy`.
- **Source resolution and the directory walk**: `source.dfy`.
- **Navigation**: `nav.dfy`, with the examples of its tests in `nav_tests.dfy`.
- **Configuration values and the root/child discriminant**: `config_types.dfy` and `configuration.dfy`.
- **Child-configuration resolution**: `resolve.dfy`.
- **The build cache and its invalidation rules**: `cache.dfy`.
- **Change classification for the watcher**: `watch.dfy`.
- **The format registry**: `format.dfy`.
- **The document pipeline and its stages**: `pipeline.dfy`.
- **Extension checking, slugs and heading ids**: `markdown.dfy`.
- **HTML escaping and plain code blocks**: `highlight.dfy`.
- **The builder's settings, theme lookup, source tabs and content collection**: `builder.dfy`.

Rust's `str` operations, `sort_by` and `Option`/`Result` are restated in `strings.dfy`, `sorting.dfy` and `wrappers.dfy`.

How the model represents the system:

- **Paths** are `/`-separated strings. `Path::starts_with` and path equality compare whole `/`-separated segments; the normalisation of components that Rust's `Path` performs besides is listed under "Left out".
- **The file system** is given as values:
  - sets of existing paths and directories;
  - a directory tree for the walk;
  - a map from file path to contents for the pages written.
- **Foreign code is a parameter:** YAML parsing, git fetching, Tera, the Markdown parser and the syntax highlighter.
- **Imperative code stays imperative:**
  - the build cache, the format registry and the pipeline are classes whose methods update their fields;
  - most loops in the source are methods with loop invariants, each proved equal to a recursive specification function. The per-document loops of the four stages are one such method, `Pipelines.ProcessStage`, over the stage's step;
  - three loops are recursive functions instead: the push loop of `convert_nav_config` (`Navigation.ConvertNavItems`), the first-match loop of `classify` over the source directories (`Watch.FirstSource` and `Watch.FirstSourceFrom`), and the watcher callback's loop sending one message per error (`Watch.CallbackMessages`);
  - a pipeline stage processes an array of documents in place.

Two files state the same behaviour twice:

- The URL helpers `path_to_url` and `path_to_static_url` in `src/build/source.rs` compute the same URLs as `source_path_to_url` and `static_path_to_url` in `src/build/paths.rs`. The model defines them once, in `paths.dfy`.
- `ChildConfig::resolve` in `src/config.rs` is the same as in `src/config/resolve.rs`, and is modelled once from the latter.

The two `format_root_error` functions do differ. Both are modelled, and `Configuration.FormatRootErrorVersions` states where they agree.

The source disagrees with itself in a few places, and the model follows the code that uses each shape:

- `build/document.rs` stores a document's text as staged content. The pipeline and navigation read a `raw_content` field instead, so a document carries both.
- `build/source.rs` matches a two-variant source location. `config.rs` declares three variants, and the model uses those three.

## Model

| member | source | states |
|---|---|---|
| Util.Capitalize | src/util.rs:10-16 | a word keeps its length; its first character is upper-cased and the rest is unchanged |
| Util.CapitalizeAll | src/util.rs:9-17 | every piece is capitalised, and the number of pieces does not change |
| Util.CapitalizeRun | src/util.rs:8-19 | the one-pass conversion keeps the length and leaves no `-` or `_` |
| Util.TitleCase | src/util.rs:8-19 | `title_case` keeps the length, leaves no `-` or `_`, and upper-cases the first character of a text that does not start with a separator; `TitleCaseSplitJoin` and `TitleCaseAt` give the whole result |
| Util.TitleCaseSplitJoin | src/util.rs:8-19 | `title_case` splits on `-` and `_`, capitalises each piece (an empty piece stays empty) and joins the pieces with single spaces |
| Util.TitleCaseAt | src/util.rs:8-19 | character by character: the length is kept; `-` and `_` become a space; the first character of each piece is upper-cased; everything else is kept |
| Util.TitleCaseWordCount | src/util.rs:9-18 | the result joins one piece more than there are separators |
| Util.TitleCaseWord | src/util.rs:10-16 | a piece without separators is only capitalised |
| Util.TitleCaseJoin | src/util.rs:9-18 | a separator between two parts becomes exactly one space, and each part is converted on its own |
| UtilTests.TitleCaseGettingStarted | src/util.rs:27 | "getting-started" becomes "Getting Started" |
| UtilTests.TitleCaseInstallation | src/util.rs:28 | "installation" becomes "Installation" |
| UtilTests.TitleCaseApiReference | src/util.rs:29 | "api_reference" becomes "Api Reference" |
| UtilTests.TitleCaseReadme | src/util.rs:30 | "README" is left as it is |
| UtilTests.TitleCaseMyCoolFeature | src/util.rs:31 | "my-cool-feature" becomes "My Cool Feature" |
| Paths.FileName | src/build/paths.rs:30 | the file name, when there is one, is non-empty, holds no `/` and ends the path; there is none only for an empty path, one ending in `/`, or one ending in `.` (the `.` and `..` segments); `FileNameSegment` adds that it is the whole final segment |
| Paths.FileNameSegment | src/build/paths.rs:30 | the file name is the whole final segment: it is the whole path or follows a `/` |
| Paths.ExtensionDot | src/build/paths.rs:30 | a file name splits at its last '.', and never at a leading one; nothing after the split holds a '.' |
| Paths.Extension | src/build/paths.rs:30 | an extension holds neither '.' nor '/' |
| Paths.WithoutExtension | src/build/paths.rs:30 | removing the extension leaves a prefix of the path; the path is that prefix, a '.' and the extension, or unchanged without one |
| Paths.JoinPath | src/build/paths.rs:97-103 | joining an absolute path gives that path; a relative path follows the base after exactly one separator: none after an empty base or one ending in `/`, otherwise a single `/` |
| Paths.Parent | src/build/paths.rs:110 | there is no parent exactly for the empty path and the root; otherwise the parent is a shorter prefix of the path |
| Paths.UrlBase | src/build/paths.rs:22-27 | the URL prefix with a trailing '/' ensured: it ends with '/', is never empty and starts with the prefix |
| Paths.StripIndex | src/build/paths.rs:34-41 | trimming the index part leaves a prefix of the text |
| Paths.SourcePathToUrl | src/build/paths.rs:21-56 | a document URL, with a `/` added back, starts with the prefix base, and is itself a leading part of the prefix base followed by the path text without its extension; `SourceUrlShape`, `SourceUrlNonIndex` and `TopIndexUrl` state its shape and the index case |
| Paths.StaticPathToUrl | src/build/paths.rs:67-79 | a static URL starts with the prefix base, and no `\` remains after it; `StaticUrlVerbatim` gives the whole URL |
| Paths.UrlToOutputPath | src/build/paths.rs:92-105 | the output file lies under the output directory and is longer than it; `OutputPathUnderOutputDir` gives its exact form |
| Paths.BasePathFromConfig | src/build/paths.rs:108-113 | the base path is "." or a shorter prefix of the configuration path; `BasePathDot` and `BasePathOfJoin` say which |
| Paths.WithoutExtensionShape | src/build/paths.rs:30 | removing the extension of a path that ends in a file name never leaves it empty or ending in '/' |
| Paths.WithoutExtensionAppendExt | src/build/paths.rs:30 | `d.e` has extension `e`, and removing it gives `d` back |
| Paths.UrlPathTextPlain | src/build/paths.rs:30-31 | without '\\' the URL text is the path without its extension |
| Paths.NormalizeUrlShape | src/build/paths.rs:45-53 | dropping one trailing '/' from an absolute URL without empty segments leaves no trailing '/' except for the root |
| Paths.SourceUrlShape | src/build/paths.rs:21-56 | every document URL starts with '/', and ends with '/' only when it is exactly "/" |
| Paths.EmptyPrefixIsRoot | src/build/paths.rs:25-27 | the empty prefix and "/" give the same URLs |
| Paths.SourceUrlNonIndex | src/build/paths.rs:21-56 | a page that is not an index is served at the prefix followed by its path without the extension, directories kept |
| Paths.UrlPathTextAppendExt | src/build/paths.rs:30-31 | the URL text of `d.e` is `d` |
| Paths.StripIndexPage | src/build/paths.rs:34-41 | stripping `d/index` gives `d` when `d` does not itself end in `index` |
| Paths.IndexPageSharesDirectoryUrl | src/build/paths.rs:33-41 | `d/index.md` is served at the same URL as `d.md` |
| Paths.TopIndexUrl | src/build/paths.rs:34-53 | the top `index.md` is served at the prefix itself, normalised |
| Paths.StaticUrlVerbatim | src/build/paths.rs:67-79 | a static file is served at the prefix, a '/', and its path verbatim, extension included |
| Paths.OutputPathUnderOutputDir | src/build/paths.rs:92-105 | the output file is the output directory, the join separator and then: the URL text itself when it holds a `.`, otherwise the URL text followed by `/index.html` (just `index.html` for the root URL, or after a URL already ending in `/`) |
| Paths.BasePathOfJoin | src/build/paths.rs:108-113 | the base path of `dir/file` is `dir` |
| Paths.BasePathDot | src/build/paths.rs:108-113 | the base path is "." exactly when the configuration path has no parent, or its parent is "." |
| PathsTests.TopIndexUnderPrefix | src/build/paths.rs:138 | `index.md` under "/cli" is served at "/cli" |
| PathsTests.TopIndexAtRoot | src/build/paths.rs:139 | `index.md` under the empty prefix is served at "/" |
| PathsTests.PlainPage | src/build/paths.rs:121-126 | `installation.md` under "/cli" is served at "/cli/installation" |
| PathsTests.PlainPageAtRoot | src/build/paths.rs:153-156 | `installation.md` under the empty prefix is served at "/installation" |
| PathsTests.NestedPage | src/build/paths.rs:129-134 | `getting-started/quickstart.md` under "/cli" is served at "/cli/getting-started/quickstart" |
| PathsTests.NestedIndex | src/build/paths.rs:143-148 | `guides/index.md` under "/cli" is served at "/cli/guides" |
| PathsTests.ReindexQuirk | src/build/paths.rs:34-38 | the index suffix is trimmed twice, so `reindex/index.md` under "/cli" is served at "/cli/re" |
| PathsTests.StaticImage | src/build/paths.rs:164-168 | `images/screenshot.png` under "/cli" is served at "/cli/images/screenshot.png" |
| PathsTests.OutputOfDocument | src/build/paths.rs:176-182 | "/cli/installation" is written to "/site/cli/installation/index.html" |
| PathsTests.OutputOfRoot | src/build/paths.rs:185-191 | "/" is written to "/site/index.html" |
| PathsTests.OutputOfStatic | src/build/paths.rs:194-200 | "/cli/style.css" is written to "/site/cli/style.css" |
| PathsTests.BasePathAbsolute | src/build/paths.rs:204-207 | the base path of "/project/undox.yaml" is "/project" |
| PathsTests.BasePathBare | src/build/paths.rs:208-211 | the base path of "undox.yaml" is "" |
| Documents.MimeTypeImage | src/build/document.rs:89-110 | the table gives an `image/` type exactly for png, jpg, jpeg, gif, svg, webp and ico |
| Documents.MimeFromPath | src/build/document.rs:87-112 | there is a MIME type exactly when the path has an extension whose lower-cased form is in the table, and it is that entry |
| Documents.NewStaticFile | src/build/document.rs:67-75 | a new static file keeps its source name, source path and output path, and its MIME type is guessed from the source path |
| Documents.IsImageByExtension | src/build/document.rs:78-83 | a static file is an image exactly when its lower-cased extension is one of the image extensions |
| Documents.SplitFrontMatter | src/build/document.rs:181-212 | there is no front-matter block exactly when the trimmed text does not open with `---` or has no later `\n---` |
| Documents.ParseFrontMatter | src/build/document.rs:180-228 | without a block, the front matter is the default and the content is the trimmed text; with one, the content is the body and the front matter is the parsed YAML, or the default when the YAML does not parse |
| Documents.FrontMatterBody | src/build/document.rs:203-212 | the body is a suffix of the trimmed text without leading newlines, and the YAML text has none either |
| Documents.FirstDelimiter | src/build/document.rs:193 | the search finds the delimiter that follows the YAML text, when that text holds no line starting with `---` |
| Documents.FrontMatterRoundTrip | src/build/document.rs:180-212 | `---`, a YAML text, `---` and a body split back into that YAML text and that body |
| Documents.EmptyFrontMatter | src/build/document.rs:180-212 | a closing `---` right after the opening one gives an empty YAML text, and the body is what follows without its leading newlines |
| Documents.EmptyFrontMatterExample | src/build/document.rs:393-398 | `---\n---\n\n# Content` splits into an empty YAML text and the body `# Content`, which is the parsed content |
| Documents.DiscoveredDocument | src/build/document.rs:246-254 | a discovered document keeps its names and URL, has the default front matter and is neither loaded nor rendered |
| Documents.FileNameOfJoin | src/build/document.rs:259-260 | the file name of a directory joined with a plain name is that name |
| Documents.StemOfName | src/build/document.rs:260 | `stem.ext` splits at the dot after `stem` |
| Documents.Title | src/build/document.rs:257-265 | the front-matter title when there is one; otherwise, without a file stem, "Untitled"; otherwise a text as long as the stem with no `-` or `_`, which `TitleFallback` identifies as the stem in title case |
| Documents.TitleFallback | src/build/document.rs:257-265 | without a front-matter title, a document at `dir/stem.ext` is titled by its stem in title case |
| Documents.TitleFromFrontMatter | src/build/document.rs:258 | a title in front matter wins over the file name |
| Documents.TitleUntitled | src/build/document.rs:263 | without a title and without a file name the title is "Untitled" |
| Documents.ContentStages | src/build/document.rs:268-299 | at most one of the raw, parsed and rendered texts is available, and one of them is available exactly when the document is loaded |
| Sources.Validate | src/build/source.rs:68-76 | a path that does not exist is `PathNotFound`, one that exists but is no directory is `NotADirectory`, and a directory resolves, each exactly |
| Sources.LocalTarget | src/build/source.rs:62-66 | an absolute location is taken as is; a relative one is the base path joined with it |
| Sources.Resolve | src/build/source.rs:54-101 | a local source is validated where it lies; a git source that cannot be fetched fails with the fetch error, without a subpath it is the fetched checkout, and with one the subpath under the checkout is validated; the configuration is kept |
| Sources.ResolvedIsDirectory | src/build/source.rs:68-74 | a resolved local or subpath directory exists and is a directory, and a missing path is reported before a non-directory |
| Sources.UrlPrefix | src/build/source.rs:104-109 | the configured URL prefix, and otherwise "/" followed by the source name |
| Sources.ClassifyFile | src/build/source.rs:168-196 | a file is a document exactly when its lower-cased extension is `md` or `markdown`; a document is discovered at its page URL, any other file is a static file at its static URL, both under the source's prefix and keeping the source name and relative path |
| Sources.ClassifyAllAppend | src/build/source.rs:159-160 | classifying two lists of paths one after the other is classifying their concatenation |
| Sources.FileStep | src/build/source.rs:157-161 | a file entry that is not skipped adds its own relative path and no error |
| Sources.DirectoryStep | src/build/source.rs:154-156 | a directory entry that is not skipped adds the files under it and the error of its walk |
| Sources.QuietStep | src/build/source.rs:142-150 | a hidden entry, a vendor directory, or an entry that is neither file nor directory adds nothing |
| Sources.ErrorStep | src/build/source.rs:133-136 | an unreadable entry ends the walk with `ReadEntry` for its directory |
| Sources.WalkDirectory | src/build/source.rs:121-165 | an unreadable directory is `ReadDir`; the first failing entry, in order and also inside sub-directories, gives its error; otherwise the items are those collected before followed by the classified files of the walk, in order |
| Sources.DiscoverContent | src/build/source.rs:114-118 | discovery is the walk of the source's directory from the empty relative path, with no items collected before |
| Sources.FilesInFound | src/build/source.rs:132-162 | a path is among the files of the first n entries exactly when it is reached through one of them |
| Sources.FilesFound | src/build/source.rs:121-165 | the walk finds exactly the files reachable through entries that are neither hidden nor vendor directories, each at its directory's relative path joined with its name |
| Sources.DiscoveredItems | src/build/source.rs:114-196 | every discovered item belongs to the source and sits at the relative path of a file the walk finds |
| Navigation.PathToDoc | src/build/nav.rs:47-53 | every document is found under its own source path, and every entry is a document at that path; of two documents with one path the later is kept |
| Navigation.ConvertNavItems | src/build/nav.rs:69-82 | the converted entries are no more than the configured ones |
| Navigation.ConvertNavItemsAppend | src/build/nav.rs:75-79 | converting a list converts each part in turn, so entries keep their order |
| Navigation.ConvertNavItemsSingle | src/build/nav.rs:75-79 | an entry that converts is kept, and one that does not is silently dropped |
| Navigation.ConvertNavItem | src/build/nav.rs:85-157 | a section entry converts only to a section, with its own title and at least one converted entry, and every other entry only to a link; a directory entry (`dir/`) and a titled entry without keys convert to nothing |
| Navigation.ConvertPage | src/build/nav.rs:141-155 | a plain path converts exactly when it is no directory and names a document, and then is a link with the document's title and URL and no children |
| Navigation.ConvertLinkWithChildren | src/build/nav.rs:106-126 | a link with children converts exactly when its own path names a document; its title is the configured one or else the document's, and its children are its converted children |
| Navigation.ConvertSection | src/build/nav.rs:90-105 | a section converts exactly when at least one of its entries does, and keeps its title and the converted entries |
| Navigation.ConvertNavItemSound | src/build/nav.rs:85-157 | configured navigation never invents a page: every link it produces, at any depth, is the URL of a known document |
| Navigation.ConvertNavItemsSound | src/build/nav.rs:69-82 | every converted entry of a list links only to known documents |
| Navigation.Insert | src/build/nav.rs:170-182 | a path of one part adds the link at this level; a longer one descends into the directory named by its first part, creating it if need be and leaving the links and other directories alone |
| Navigation.InsertAt | src/build/nav.rs:170-182 | after an insertion the node of the path's directories exists, and its links are those it had followed by the new one |
| Navigation.InsertKeeps | src/build/nav.rs:170-182 | an insertion keeps every link already in the tree, wherever it is |
| Navigation.LinkLeTotalPreorder | src/build/nav.rs:193-197 | the link order, index pages first and then by title, is total and transitive |
| Navigation.UrlStem | src/build/nav.rs:216-221 | the stem is the lower-cased last segment of the URL, trailing slashes ignored |
| Navigation.UrlStemOfSegment | src/build/nav.rs:216-221 | the stem of a URL ending in a lower-case segment is that segment |
| Navigation.IntoNavSections | src/build/nav.rs:189-260 | the method computes the navigation of a tree level |
| Navigation.MergeLoop | src/build/nav.rs:214-238 | the loop over the sorted links gives the merge of each link and the directories left over |
| Navigation.LeftoverLoop | src/build/nav.rs:241-257 | the loop over the remaining directories, by name, gives their sections |
| Navigation.MergeLinksEntries | src/build/nav.rs:214-238 | the merge gives one entry per link, in order; a link takes a directory's navigation as children exactly when its stem names a directory not claimed by an earlier link |
| Navigation.MergeLinksLeft | src/build/nav.rs:223-228 | the directories the merge leaves are exactly those that no link's stem names |
| Navigation.EmittedDirsAscending | src/build/nav.rs:241-257 | the directories that become sections keep the ascending name order |
| Navigation.DirSectionsAre | src/build/nav.rs:244-257 | the remaining directories give one section each, titled with `title_case` of the name, holding the directory's navigation |
| Navigation.StemsOfSorted | src/build/nav.rs:193-211 | sorting the links does not change the set of stems |
| Navigation.SectionsLinks | src/build/nav.rs:189-238 | a level begins with one link per document, sorted index first and then by title, each merged with the directory its stem names |
| Navigation.LeftAndUnskipped | src/build/nav.rs:223-248 | a directory is left over and not skipped exactly when its lower-cased name is no link's stem |
| Navigation.StemsAreLower | src/build/nav.rs:209 | every stem is its own lower-cased form |
| Navigation.SectionDirsAscending | src/build/nav.rs:241-242 | the directories that become sections come in strictly ascending name order |
| Navigation.SectionDirsMembers | src/build/nav.rs:241-257 | a directory becomes a section exactly when its navigation is not empty and its lower-cased name is no link's stem |
| Navigation.SectionsDirectories | src/build/nav.rs:240-257 | after the links, a level has one section per such directory, in name order, titled with `title_case` and holding the directory's navigation |
| Navigation.NoDirSections | src/build/nav.rs:189-260 | a level with no directory that becomes a section has only its link entries |
| Navigation.LeafSections | src/build/nav.rs:189-260 | a level with one link and no directories is that link alone |
| Navigation.PageMergesDirectory | src/build/nav.rs:223-228 | a page next to a directory named like its stem takes the directory's navigation as its children, and the directory gives no section |
| Navigation.PageThenSection | src/build/nav.rs:189-260 | a page and an unrelated non-empty directory give the page link and then the directory's section |
| Navigation.CaseMismatchedDirectoryDropped | src/build/nav.rs:223-248 | a directory named like a page's stem except for case is neither merged, since the lookup uses the lower-cased stem, nor listed, since the skip test lower-cases the name: its pages are missing from the navigation |
| Navigation.PathParts | src/build/nav.rs:286-287 | a source path always has at least one part |
| Navigation.GrowKeeps | src/build/nav.rs:278-290 | inserting documents keeps every link already in the tree |
| Navigation.GrowPlaces | src/build/nav.rs:278-290 | every inserted document has its link at the node of its directories |
| Navigation.AutoTreePlaces | src/build/nav.rs:271-290 | every document of the source appears in the tree, flagged as index or not, at the node of its directories |
| Navigation.AutoGenerateNav | src/build/nav.rs:271-294 | the method sorts the documents by source path, inserts each, and turns the tree into navigation |
| Navigation.DocsOf | src/build/nav.rs:28-35 | the documents grouped under a name all belong to that source |
| Navigation.DocsOfMembers | src/build/nav.rs:28-35 | a document is grouped under a name exactly when it is one of the items and belongs to that source |
| Navigation.GroupDocuments | src/build/nav.rs:26-35 | the grouping loop gives each source's documents in item order, and no entry for a source without documents |
| Navigation.SourceNav | src/build/nav.rs:41-62 | a source with configured navigation converts it through the path lookup; otherwise its navigation is generated |
| Navigation.BuildNavigationBySource | src/build/nav.rs:21-66 | the keys are exactly the source names, and each name has the navigation of the last source with that name |
| NavigationTests.BuildDirNav | src/build/nav.rs:353-410 | the `build/` directory's navigation is the details page alone |
| NavigationTests.CommandsDirNav | src/build/nav.rs:391-403 | `build.md` and `build/` merge: the details page becomes the Build link's only child |
| NavigationTests.NestedNav | src/build/nav.rs:353-410 | the index link comes first, then a "Commands" section holding the Build link with the details page as its child |
| NavigationTests.CapitalisedDirectoryDropped | src/build/nav.rs:223-248 | with `build.md` next to a `Build/` directory, the navigation is the Build link alone |
| NavigationTests.ConfigLookup | src/build/nav.rs:421-428 | each configured path finds its document |
| NavigationTests.ConfigChildren | src/build/nav.rs:434-437 | the two nested entries convert to the two pages' links, in order |
| NavigationTests.ConfigLinkWithChildren | src/build/nav.rs:412-466 | the configured title wins, the link points at the configuration page, and it holds the two child pages in order |
| ConfigTypes.FromCompact | src/config/types.rs:65-79 | the text before the first `#` is the URL and the rest the ref, which restores the text; without `#` the whole text is the URL and there is no ref; never a subpath |
| ConfigTypes.FromCompactOfParts | src/config/types.rs:65-79 | `url#ref`, for a URL without `#`, reads back as that URL and that ref, even when the ref holds `#` |
| ConfigTypes.ToLocation | src/config/types.rs:84-89 | the expanded form is kept; the compact form is parsed, and has a ref exactly when it holds `#` |
| ConfigTypes.AsPath | src/config/types.rs:95-100 | a path exactly for a path location, and it is that path |
| ConfigTypes.AsGit | src/config/types.rs:103-108 | a git location exactly for a git location, and it is its parsed form |
| ConfigTypes.RequirePath | src/config/types.rs:111-119 | a path location gives its path; a git location fails with its compact text or its expanded URL |
| ConfigTypes.ResolvePath | src/config/types.rs:132-143 | a path location resolves, an absolute path as it is and a relative one joined to the base (after a single `/` when the base does not end in one); a git location does not resolve |
| ConfigTypes.LocationKinds | src/config/types.rs:122-129 | every location is exactly one of a path and a git location |
| ConfigTypes.InnerLocation | src/config/types.rs:277-282 | the inner location of a local or a remote source |
| ConfigTypes.SourceLocationKinds | src/config/types.rs:267-274 | every source location is exactly one of local and remote |
| Configuration.AsRoot | src/config.rs:574-579 | a root configuration exactly for the root variant |
| Configuration.AsChild | src/config.rs:582-587 | a child configuration exactly for the child variant |
| Configuration.RootXorChild | src/config.rs:574-587 | exactly one of the two views is present |
| Configuration.FormatRootError | src/config/mod.rs:102-123 | a missing `sources`, `name` or `theme` field, or a source without a location, each gives its own message, checked in that order; any other message follows "invalid config: " |
| Configuration.LegacyFormatRootError | src/config.rs:86-104 | a missing `sources`, `name` or `path` field each gives its own message, checked in that order; any other message follows "invalid config: " |
| Configuration.FormatRootErrorVersions | src/config.rs:86-104 | the two versions give the same message for a missing `name`, and for a message that names none of the fields they treat differently |
| Configuration.Deserialize | src/config/mod.rs:60-99 | a value that is not a mapping, or that has both or neither of `site` and `parent`, is refused with its message; `site` alone reads a root configuration, whose errors are reworded, and `parent` alone a child one, whose errors are prefixed |
| Configuration.DeserializedKind | src/config/mod.rs:74-97 | a configuration that deserialises came from a mapping, and is a root exactly when it has `site` and a child exactly when it has `parent` |
| Configuration.PagePath | src/config.rs:432-438 | a plain path that is not a directory is its own page path; a titled entry has its first value; sections and links with children have none |
| Configuration.TitleFromSlug | src/config.rs:460-466 | every `-` and `_` becomes a space, only the first character is upper-cased, and the length is kept |
| Configuration.TitleFromSlugAgreesWithTitleCase | src/config.rs:460-466 | except right after a separator, the slug title and `title_case` agree character by character |
| Configuration.NavTitle | src/config.rs:442-454 | a plain page is titled by its file stem made into a slug title; a titled entry by its first key; sections, links with children and directories have none |
| Configuration.NavItemHelpers | src/config.rs:427-454 | an item with a title has a page path, and a directory item has neither |
| ChildResolution.ParentLocation | src/config/resolve.rs:33-37 | the parent location is `dev.parent` when that is set, and `parent` otherwise |
| ChildResolution.ParentFetch | src/config/resolve.rs:47-52 | the parent is fetched at its URL and the child's `parent_ref`, with no subpath and not sparse |
| ChildResolution.ParentPath | src/config/resolve.rs:40-62 | an `http://`, `https://` or `git@` location is fetched, and a failed fetch is an error; any other location is a path, kept when absolute and joined under the child's base when relative |
| ChildResolution.LoadParent | src/config/resolve.rs:65-77 | an unreadable `undox.yaml` is `ReadParent`, one that does not parse is a `Validation` error with the parser's message, and a child configuration is `ParentNotRoot`; otherwise it is the parent's root configuration |
| ChildResolution.FindSource | src/config/resolve.rs:80-84 | the position of the first source with the name, and none exactly when no source has it |
| ChildResolution.LocalContent | src/config/resolve.rs:92-96 | `<base>/content` when that is a directory, and the base otherwise |
| ChildResolution.RewriteTarget | src/config/resolve.rs:97-110 | the child's source points at the local content, each override that is set replaces its field, and name, title and prefix are kept |
| ChildResolution.RebaseOther | src/config/resolve.rs:113-119 | another source changes only when its content path is relative, and then it is rebased under the parent directory |
| ChildResolution.RewriteSources | src/config/resolve.rs:87-121 | the loop rewrites every source in place, keeping the number of sources |
| ChildResolution.RewritePreserves | src/config/resolve.rs:89-121 | every rewritten source keeps its name and position; the child's source points at the local content, and any other source without a relative content path is unchanged |
| ChildResolution.ResolveChild | src/config/resolve.rs:27-137 | a failed parent path, a failed load and a missing source each give their error, in that order; otherwise the synthetic root keeps the parent's site, theme, markdown and dev settings, has as many sources, each rewritten, and records the parent directory |
| Cache.NavSourcesMembers | src/build/cache.rs:128-138 | a source is marked for a navigation rebuild exactly when one of its documents in the batch is deleted or not yet cached |
| Cache.NavSourcesDistinct | src/build/cache.rs:134-136 | no source is marked twice |
| Cache.NavSourcesPrefix | src/build/cache.rs:134-136 | marking only appends, so the sources marked by a prefix of the batch stay first and in order |
| Cache.NoNavSources | src/build/cache.rs:128-138 | while no document has been added or deleted, no source is marked |
| Cache.FirstNavSource | src/build/cache.rs:153-157 | the first marked source is the source of the first added or deleted document |
| Cache.RebuildFilesMembers | src/build/cache.rs:139-145 | a path is listed for a single-file rebuild exactly when a cached document at it was modified or a static file at it changed |
| Cache.ConfigWins | src/build/cache.rs:121-123 | any configuration or theme-configuration change in the batch makes the scope a full rebuild |
| Cache.TemplateWins | src/build/cache.rs:124-126 | with no configuration change, any template change makes the scope all documents |
| Cache.SourceWins | src/build/cache.rs:153-157 | with neither, an added or deleted document makes the scope the source of the first such document |
| Cache.FilesOnly | src/build/cache.rs:159-164 | with only modified cached documents and static files, the scope lists exactly the paths that changed |
| Cache.ScopeStep | src/build/cache.rs:119-146 | one loop step extends the marked sources and listed files by the change at hand |
| Cache.Without | src/build/cache.rs:213-215 | the result holds exactly the listed paths other than the removed one and is no longer than the list |
| Cache.BuildCache.constructor | src/build/cache.rs:109-111 | a new cache has no entries, no navigation and no template times, and is consistent |
| Cache.BuildCache.InvalidationScope | src/build/cache.rs:114-164 | the loop's result equals the batch-level decision: full, else all documents, else the first marked source, else the changed files |
| Cache.BuildCache.DocumentsForSource | src/build/cache.rs:226-231 | exactly the cached documents of the source: every one returned belongs to it, is cached and is listed under it, and every cached document of the source is returned |
| Cache.BuildCache.DocumentNeedsRebuild | src/build/cache.rs:166-175 | an uncached document or an unreadable time calls for a rebuild; a cached document whose time is not newer than the cached one does not |
| Cache.BuildCache.StaticFileNeedsCopy | src/build/cache.rs:177-186 | an uncached static file or an unreadable time calls for a copy; a cached file whose time is not newer than the cached one does not |
| Cache.BuildCache.UpdateDocument | src/build/cache.rs:189-201 | the entry is stored under its path and its path appended under its source; consistency is kept, the document no longer needs a rebuild at its cached time, and it is among its source's documents |
| Cache.BuildCache.UpdateStaticFile | src/build/cache.rs:203-205 | the entry is stored under its path and needs no copy at its cached time; nothing else changes |
| Cache.BuildCache.RemoveDocument | src/build/cache.rs:208-219 | the entry is returned exactly when it was cached, dropped with its path from its source's list, consistency is kept, and afterwards the path always needs a rebuild |
| Cache.BuildCache.RemoveStaticFile | src/build/cache.rs:221-223 | the entry is returned exactly when it was cached and dropped, and afterwards the path always needs a copy |
| Cache.BuildCache.SetNav | src/build/cache.rs:234-241 | afterwards the source's stored navigation is the one given and every other source's is unchanged |
| Cache.BuildCache.GetNav | src/build/cache.rs:233-236 | navigation is returned exactly for a source that has some stored, and it is the stored one |
| Cache.BuildCache.InvalidateNav | src/build/cache.rs:244-246 | afterwards the source has no stored navigation and every other source's is unchanged |
| Cache.BuildCache.UpdateTemplateMtime | src/build/cache.rs:249-251 | the template's time is recorded and nothing else changes |
| Cache.BuildCache.AnyTemplateChanged | src/build/cache.rs:254-272 | true exactly when some entry is an `.html` file with a readable time that is untracked or newer than its tracked time |
| Cache.BuildCache.Clear | src/build/cache.rs:275-291 | every map is emptied, both counts are zero and the cache is consistent |
| Watch.NewClassifier | src/build/watch.rs:78-91 | the classifier keeps the given source directories, theme directory and configuration path, and expects the theme configuration as `undox-theme.yaml` in the theme directory |
| Watch.Classify | src/build/watch.rs:94-145 | nothing hidden is classified; a template, document or static-file change carries the path, and a document or static-file change carries the deletion flag and lies in some source directory; `ClassifySound` and the lemmas after it state the order of the checks |
| Watch.FirstSource | src/build/watch.rs:123-124 | the index found is of a source directory holding the path and no earlier one holds it; without an index, none holds it |
| Watch.HiddenIgnored | src/build/watch.rs:95-101 | a path with a component starting with `.` is never classified |
| Watch.ConfigFirst | src/build/watch.rs:103-106 | the configuration file, when not hidden, is a configuration change |
| Watch.ThemeDirectoryFiles | src/build/watch.rs:113-122 | anything else in the theme directory is a template when its extension is `html` and ignored otherwise, even when it also lies in a source directory |
| Watch.ClassifySound | src/build/watch.rs:94-143 | a classification is never of a hidden path; it is the configuration change exactly for the configuration file; a template is an `html` file in the theme directory; a document or static-file change carries the path and deletion flag, names the first source holding the path, and is a document exactly for the `md` and `markdown` extensions |
| Watch.UnknownIgnored | src/build/watch.rs:142 | a path outside the theme directory and every source directory, and neither configuration file, is ignored |
| Watch.IsRelevantEvent | src/build/watch.rs:282-290 | every creation and removal is relevant; a relevant modification changes data or a name; nothing else is relevant (see `IrrelevantEvents`) |
| Watch.IrrelevantEvents | src/build/watch.rs:282-290 | access, metadata-only, unspecified and other events are not relevant |
| Watch.CallbackMessages | src/build/watch.rs:180-208 | for a batch of events one message carrying their changes is sent when there are any and nothing otherwise; for errors, one error message per error, in order |
| Watch.BatchChangesAppend | src/build/watch.rs:183-197 | the changes of two batches of events one after the other are the changes of the first followed by those of the second |
| Watch.BatchChangesMembers | src/build/watch.rs:183-197 | a change is in the batch exactly when some event contributes it |
| Watch.EventChangeDeleted | src/build/watch.rs:186-196 | a document or static-file change comes from a relevant event with a path, carries its first path, and is marked deleted exactly when the event is a removal |
| Formats.LastHandling | src/build/format.rs:138-141 | the index found handles the extension and no later format below the bound does; without one, no format below the bound does |
| Formats.FindFormat | src/build/format.rs:135-143 | a format is found exactly when some registered format handles the lower-cased extension, and the one found handles it and is registered |
| Formats.AllExtensionsOf | src/build/format.rs:159-164 | an extension is listed exactly when some registered format handles it |
| Formats.AllExtensionsRegister | src/build/format.rs:128-130 | registering appends the new format's extensions to the list |
| Formats.LaterTakesPrecedence | src/build/format.rs:125-130 | a newly registered format is found for every extension it handles |
| Formats.RegisterKeepsOthers | src/build/format.rs:125-130 | for every other extension, registering changes nothing |
| Formats.LastHandlingPrefix | src/build/format.rs:138-141 | the search below a bound does not depend on the formats above it |
| Formats.FormatRegistry.constructor | src/build/format.rs:112-116 | a new registry has no formats |
| Formats.FormatRegistry.WithDefaults | src/build/format.rs:119-123 | the default registry holds Markdown alone and finds it for `md` and `markdown` |
| Formats.FormatRegistry.Register | src/build/format.rs:125-130 | the format is appended, is found for its own extensions, and lookups of all other extensions are unchanged |
| Formats.FormatRegistry.ForExtension | src/build/format.rs:135-143 | a format is found exactly when some registered format handles the lower-cased extension, and the one found handles it and is registered; `LaterTakesPrecedence` says which one |
| Formats.FormatRegistry.ForPath | src/build/format.rs:146-150 | a path without an extension has no format; otherwise the format is that of its extension |
| Formats.FormatRegistry.IsDocument | src/build/format.rs:152-155 | a path is a document exactly when it has an extension that some registered format handles, lower-cased |
| Formats.FormatRegistry.AllExtensions | src/build/format.rs:157-164 | an extension is listed exactly when some registered format handles it |
| Formats.DefaultLookups | src/build/format.rs:177-185 | with the defaults, `md`, `markdown` and `MD` find Markdown and `txt` finds nothing |
| Formats.DocumentByExtension | src/build/format.rs:146-155 | `stem.ext` is a document exactly when a format is registered for `ext` |
| Formats.DefaultMarkdownDocument | src/build/format.rs:152-155 | with the defaults, any `stem.md` or `stem.markdown` is a document |
| Formats.DefaultOtherFile | src/build/format.rs:152-155 | with the defaults, no `stem.png` or `stem.css` is a document |
| Formats.DefaultIsDocument | src/build/format.rs:188-195 | with the defaults, `docs/intro.md` and `guide.markdown` are documents and `image.png` and `style.css` are not |
| Formats.CustomFormat | src/build/format.rs:226-233 | a format registered after the defaults is found by each of its own extensions |
| Pipelines.NewProcessingDocument | src/build/pipeline/document.rs:46-70 | a new processing document starts from the document's raw content, with no table of contents and no page, and its page information has the document's URL and title |
| Pipelines.NewContext | src/build/pipeline/context.rs:55-84 | everything is stored as given, and live reload is on exactly in development mode with live reload asked for |
| Pipelines.NavForSource | src/build/pipeline/context.rs:87-92 | the stored navigation of a known source, and none for an unknown one |
| Pipelines.SourceTabsFor | src/build/pipeline/context.rs:95-106 | one tab per configured tab, in order, with everything kept but the mark, which is set exactly on the tabs of the current source |
| Pipelines.CurrentTabUnique | src/build/pipeline/context.rs:95-106 | with distinct source ids, exactly the current source's tab is marked |
| Pipelines.TeraStep | src/build/pipeline/stages/tera.rs:31-55 | the step succeeds exactly when rendering the content through Tera with the page information succeeds, and then the rendered text replaces the content and the document, source path, table of contents and page are kept; a failed render is a Tera error |
| Pipelines.MarkdownStep | src/build/pipeline/stages/markdown.rs:39-66 | the step succeeds exactly when a format is registered for the extension and rendering with it succeeds, and then the rendered HTML and table of contents replace the content and the document, source path and page are kept; a missing format or a failed render is a `markdown` stage error with the source's message |
| Pipelines.TemplateStep | src/build/pipeline/stages/template.rs:31-57 | a successful template step gives the document its page and keeps the document |
| Pipelines.WriteStep | src/build/pipeline/stages/write.rs:20-47 | the step fails exactly when the document has no page, with the stage's message; otherwise the page is written at the document's output file and nothing else changes |
| Pipelines.StageRun | src/build/pipeline/mod.rs:37-41 | a stage keeps the number of documents |
| Pipelines.RunSteps | src/build/pipeline/stages/write.rs:20-47 | applying a step in order keeps the number of documents |
| Pipelines.StageRunSteps | src/build/pipeline/mod.rs:37-41 | every stage runs its one-document step over the batch in order, stopping at the first error |
| Pipelines.StagesRun | src/build/pipeline/mod.rs:157-160 | running the stages keeps the number of documents |
| Pipelines.StagesRunAppend | src/build/pipeline/mod.rs:157-160 | running two lists of stages one after the other is running the first, then, when it succeeded, the second on its result |
| Pipelines.FailureStopsRun | src/build/pipeline/mod.rs:152-169 | once a stage fails, the later stages and the finalize stages do not run and the error is returned |
| Pipelines.DocStepIsStep | src/build/pipeline/stages/markdown.rs:39-66 | the markdown, template and tera steps change no file |
| Pipelines.FailIndex | src/build/pipeline/stages/markdown.rs:39-66 | the first failing position is at most the number of documents |
| Pipelines.FailIndexFirst | src/build/pipeline/stages/markdown.rs:39-66 | every document before the first failing position succeeds, and the one at it fails |
| Pipelines.KeepingFilesResult | src/build/pipeline/stages/markdown.rs:39-66 | a step that changes no file fails exactly at the first failing document, with its error, and leaves the files as they were |
| Pipelines.KeepingFilesDocument | src/build/pipeline/stages/markdown.rs:39-66 | such a step updates exactly the documents before the first failure |
| Pipelines.DocumentStageKeepsFiles | src/build/pipeline/stages/template.rs:31-57 | the steps of the document stages change no file |
| Pipelines.DocumentStageRun | src/build/pipeline/stages/template.rs:31-57 | a document stage updates the documents before the first failure, leaves that one and the rest unchanged, and changes no file |
| Pipelines.HavePagesMeans | src/build/pipeline/stages/write.rs:24-33 | every document of the batch has its page |
| Pipelines.TemplateGivesPages | src/build/pipeline/stages/template.rs:31-57 | after a successful template stage every document has its page |
| Pipelines.WriteStageRun | src/build/pipeline/stages/write.rs:20-47 | when every document has its page, the write stage succeeds, keeps the documents and writes each page in turn |
| Pipelines.WriteStageFails | src/build/pipeline/stages/write.rs:24-33 | the write stage fails at the first document without a page, with its message, after writing the pages before it |
| Pipelines.WriteAllElsewhere | src/build/pipeline/stages/write.rs:36-43 | a file no document's page goes to keeps what it held |
| Pipelines.WriteAllLastWins | src/build/pipeline/stages/write.rs:36-43 | a document's page ends up in its output file unless a later document writes the same file |
| Pipelines.TemplateThenWrite | src/build/pipeline/mod.rs:97-104 | in the default order, a successful template stage leaves the write stage nothing to fail on, and it writes every page |
| Pipelines.PositionFrom | src/build/pipeline/mod.rs:119-123 | the stage found has the name and none before it from the starting point has; without one, none has |
| Pipelines.Position | src/build/pipeline/mod.rs:119-123 | the position is of the first stage with the name |
| Pipelines.InsertAt | src/build/pipeline/mod.rs:124 | the new stage is at the position, the stages before it are unchanged and those after it are shifted by one |
| Pipelines.InsertBeforeNames | src/build/pipeline/mod.rs:118-126 | afterwards the new stage's name comes right before the first stage with the given name |
| Pipelines.InsertAfterNames | src/build/pipeline/mod.rs:134-142 | afterwards the new stage's name comes right after the first stage with the given name |
| Pipelines.DefaultStageNames | src/build/pipeline/mod.rs:97-104 | the default stages are tera, markdown, template and write, in that order |
| Pipelines.Pipeline.StageNames | src/build/pipeline/mod.rs:170-174 | one name per stage, in the pipeline's order, each the stage's own name |
| Pipelines.ProcessStage | src/build/pipeline/stages/write.rs:20-47 | processing the array in place leaves the documents, files and error that applying the step in order up to the first error gives |
| Pipelines.StageStep | src/build/pipeline/stages/write.rs:20-47 | one document of the loop: an error ends the run there, a success moves the document to the processed ones |
| Pipelines.Pipeline.constructor | src/build/pipeline/mod.rs:87-92 | a new pipeline has no stages and no finalize stages |
| Pipelines.Pipeline.DefaultPipeline | src/build/pipeline/mod.rs:97-104 | the default pipeline's stages are named tera, markdown, template and write |
| Pipelines.Pipeline.AddStage | src/build/pipeline/mod.rs:107-110 | the stage is appended and its name ends the list of names |
| Pipelines.Pipeline.InsertBefore | src/build/pipeline/mod.rs:118-126 | the stage is inserted at the position of the first stage with the name |
| Pipelines.Pipeline.InsertAfter | src/build/pipeline/mod.rs:134-142 | the stage is inserted right after the first stage with the name |
| Pipelines.Pipeline.AddFinalizeStage | src/build/pipeline/mod.rs:146-149 | the finalize stage is appended and the stages are unchanged |
| Pipelines.Pipeline.Run | src/build/pipeline/mod.rs:152-169 | the documents, files and result are those of every stage on the whole batch in order, the first error returned at once, then the finalize stages in order |
| Markdown.OptionForKnown | src/build/markdown.rs:28-37 | a name enables an option exactly when it is one of the seven known extension names, and no two names enable the same option |
| Markdown.FirstUnknown | src/build/markdown.rs:28-37 | the index found is of an unknown name and all names before it are known; without one, every name is known |
| Markdown.ParseExtensions | src/build/markdown.rs:27-38 | the loop fails exactly when some name is unknown, naming the first unknown one; otherwise the options are exactly those the names enable |
| Markdown.DefaultsAccepted | src/build/markdown.rs:28-37 | the default extension names are all accepted |
| Markdown.NameOf | src/build/markdown.rs:28-37 | every option is enabled by one of the default names |
| Markdown.UnknownExtensionRejected | src/build/markdown.rs:219-229 | `not_a_real_extension` is rejected |
| Markdown.KeepSlugChars | src/build/markdown.rs:180 | only the kept characters remain, each taken from the input |
| Markdown.Slugify | src/build/markdown.rs:177-181 | a slug holds only lower-case letters, digits and `-` |
| Markdown.SlugifyEach | src/build/markdown.rs:177-181 | lower-casing, replacing spaces and dropping characters act on each character on its own |
| Markdown.SlugifyIdempotent | src/build/markdown.rs:177-181 | a slug is its own slug |
| Markdown.SlugTwoWords | src/build/markdown.rs:177-181 | two words separated by a space give their slugs joined by `-` |
| Markdown.SlugifyExamples | src/build/markdown.rs:187-192 | `Hello World`, `What's New?` and `API Reference` give `hello-world`, `whats-new` and `api-reference` |
| Markdown.CandidateInjective | src/build/markdown.rs:90-94 | the slug and its numbered variants are all different |
| Markdown.CandidatesSize | src/build/markdown.rs:90-94 | the first n candidates are n distinct ids |
| Markdown.TakenBound | src/build/markdown.rs:90-94 | only as many candidates as there are used ids can all be taken, so the suffix search ends |
| Markdown.LeastFreeFrom | src/build/markdown.rs:90-94 | the candidate found is unused and every earlier one is used |
| Markdown.LeastFree | src/build/markdown.rs:90-94 | the index is that of the first unused candidate |
| Markdown.LeastFreeUnique | src/build/markdown.rs:90-94 | there is only one first unused candidate |
| Markdown.UniqueId | src/build/markdown.rs:88-95 | the suffix loop returns an unused id, and it is the first unused candidate among the slug, `slug-1`, `slug-2`, ... |
| Markdown.FreeSlugKept | src/build/markdown.rs:88-95 | an unused slug is taken as it is |
| Markdown.NextId | src/build/markdown.rs:88-95 | the id a heading receives is not yet used |
| Markdown.AssignEntries | src/build/markdown.rs:66-104 | the table of contents has one entry per heading without an explicit id, in order, with its text and level |
| Markdown.AssignFresh | src/build/markdown.rs:66-104 | no generated id was used before, and no two generated ids are equal |
| Markdown.AssignUsed | src/build/markdown.rs:66-95 | afterwards the used ids are the earlier ones, every explicit id and every generated id |
| Markdown.AssignSplit | src/build/markdown.rs:57-104 | processing a page in two parts gives the same entries, the second part starting from the ids the first used |
| Markdown.NoEarlierId | src/build/markdown.rs:66-104 | a heading's id is its slug's first free candidate given all headings before it, so it differs from every earlier explicit or generated id |
| Markdown.RenderToc | src/build/markdown.rs:22-104 | rendering fails exactly when an extension name is unknown, naming the first one; otherwise the table of contents is the one the headings define |
| Markdown.SingleHeading | src/build/markdown.rs:195-206 | a page with one heading gets one entry, with its text, level and slug |
| Markdown.RepeatedHeading | src/build/markdown.rs:88-95 | a second heading with the same text receives the slug followed by `-1` |
| Markdown.ExplicitIdRespected | src/build/markdown.rs:66-69 | a heading whose slug equals an earlier explicit id receives the slug followed by `-1` |
| Highlight.HtmlEscape | src/build/highlight.rs:79-84 | the escaped text holds no `<`, `>` or `"` |
| Highlight.EscapeOne | src/build/highlight.rs:79-84 | the chained replacements turn each single character into its entity or leave it as it is |
| Highlight.HtmlEscapeAppend | src/build/highlight.rs:79-84 | escaping a concatenation escapes each part on its own |
| Highlight.HtmlEscapeEach | src/build/highlight.rs:79-84 | because `&` is replaced first, no entity is escaped twice: the chain equals escaping character by character |
| Highlight.UnescapeEscape | src/build/highlight.rs:79-84 | escaping loses nothing: decoding the four entities gives the text back |
| Highlight.PlainText | src/build/highlight.rs:79-84 | text with none of the four characters is left unchanged |
| Highlight.EscapeTag | src/build/highlight.rs:79-84 | a tag whose name needs no escaping becomes `&lt;` name `&gt;` |
| Highlight.EscapeDivExample | src/build/highlight.rs:110-112 | `<div>&</div>` escapes to `&lt;div&gt;&amp;&lt;/div&gt;` |
| Highlight.PlainCodeBlock | src/build/highlight.rs:58-68 | the escaped code inside `<pre><code>`, with a `language-` class exactly when a language is named |
| Highlight.PlainCodeBlockContents | src/build/highlight.rs:58-68 | a plain code block starts with `<pre><code`, ends with `</code></pre>`, holds no tag between them, and decoding its inside gives the code back |
| Highlight.HighlightCode | src/build/highlight.rs:20-49 | a named language other than `plaintext` or `text` that is not recognised, or a highlighter failure, gives the plain code block; otherwise the highlighter's output |
| Highlight.UnknownLanguage | src/build/highlight.rs:100-107 | an unknown language gives a block starting with `<pre><code` whose inside decodes to the code |
| Builder.NewBuilder | src/build/builder.rs:58-66 | a new builder keeps the configuration and base path, with no theme base path and development mode and live reload off |
| Builder.WithThemeBasePath | src/build/builder.rs:68-73 | the theme base path is set to the one given and every other setting is kept |
| Builder.WithDevMode | src/build/builder.rs:75-79 | development mode is set as given and every other setting is kept |
| Builder.WithLiveReload | src/build/builder.rs:81-85 | live reload is set as given and every other setting is kept |
| Builder.SettersIndependent | src/build/builder.rs:68-85 | each setter sets its own setting and leaves the others as they were |
| Builder.OutputDir | src/build/builder.rs:260-267 | an absolute output directory is kept as it is, and a relative one lies under the base path |
| Builder.OutputDirIsJoin | src/build/builder.rs:260-267 | the output directory is the base path joined with the configured output |
| Builder.ThemeBase | src/build/builder.rs:272-273 | relative theme paths are taken from the theme base path when one is set, else from the base path |
| Builder.ChildThemeBase | src/build/builder.rs:68-73 | a builder given a parent directory as theme base finds relative themes there, and a plain builder in its own base path |
| Builder.ResolveThemePath | src/build/builder.rs:270-317 | a resolved theme always exists; a local theme is its path taken from the theme base, or the missing-theme error naming it; a failed fetch is a git error |
| Builder.FetchedTheme | src/build/builder.rs:294-315 | a fetched theme lies in the checkout, at its subpath when one is given, and is reported missing with the after-fetch message |
| Builder.SourceTabOf | src/build/builder.rs:138-159 | a source's tab carries its name as id, is not current, is top-level exactly when the source's prefix is `/`, has URL `/` or the prefix followed by `/`, and is named by the source's title or else its title-cased name |
| Builder.SourceTabs | src/build/builder.rs:138-161 | one tab per source, in order |
| Builder.TabUrlEndsWithSlash | src/build/builder.rs:150-154 | every tab's URL ends with `/` |
| Builder.DefaultPrefixTab | src/build/builder.rs:140-154 | a named source without a configured prefix has the URL `/` name `/` and is not top-level |
| Builder.PageTabs | src/build/builder.rs:138-161 | on a page of one source, when source names are distinct, exactly that source's tab is marked current |
| Builder.WithSourcePath | src/build/builder.rs:117-119 | every item of a source is paired with the source's local directory, in order |
| Builder.CollectItems | src/build/builder.rs:104-120 | the loop collects the items of every source in order with their directories, and stops at the first source whose discovery fails, with its error |
| Builder.FailureStays | src/build/builder.rs:104-120 | once a source's discovery fails, the later sources do not change the result |
| Builder.CollectedFromSources | src/build/builder.rs:104-120 | every collected item comes from some source's discovery and carries that source's directory |
| Builder.Partition | src/build/builder.rs:187-200 | the loop separates the items into the documents, each made ready for the pipeline, and the static files with their directories, both in order |
| Builder.PartitionCounts | src/build/builder.rs:122-127 | the document count is the number of documents passed on, and the total minus it is the number of static files |
| Builder.DocumentsFromItems | src/build/builder.rs:191-195 | each document passed on is a collected document, with its source directory and fresh pipeline state |

## Left out

- **YAML**: front-matter parsing, reading `undox.yaml` and deserialising configuration records are parameters. A YAML value is kept as its text, or as a mapping with its keys.
- **Git**: fetching a repository is a parameter returning a checkout path or an error. The `GitFetcher` cache layout and `src/git.rs` are not part of this model.
- **Rendering**: Tera (`render_content`, `render_page`), format rendering and the Markdown parser are parameters. The markdown stage therefore sees a format's output as given.
  - The heading handling of `render_markdown` works on the list of headings the parser reports. The HTML it writes around headings and code blocks is not modelled.
- **Highlighting**: `Language::guess` and the highlighter are parameters of `Highlight.HighlightCode`. `generate_css` and the theme name stored by `SyntaxHighlighter::new` are not modelled; both belong to the foreign library.
- **The file system**:
  - directory reads are a tree value; existence and directory tests are sets;
  - the pages written are a map.
  - `canonicalize`, `create_dir_all`, copying the theme's and the sources' static files (`copy_dir_recursive`) and the printed progress lines of `build()` are not modelled.
- **I/O errors**:
  - Pipelines.WriteStep: an I/O error while creating directories or writing the file is not modelled; the step fails only for a missing page.
  - The orchestration in `Builder::build` is not modelled as one operation, because it is I/O between the modelled parts. The parts are modelled: sources resolved, items collected, counts, tabs, navigation, separation and the pipeline run.
- **Modification times** are natural numbers. An unreadable time is `None`, and a template directory that cannot be read has no entries.
- Cache.BuildCache.DocumentsForSource: returns a set rather than a `Vec` in the map's order, because that order is the arbitrary order of a `HashMap`.
- **Path normalisation**: paths are plain `/`-separated strings. Rust's `Path` drops a trailing `/` and an interior `.` component when it splits a path into components; the model does neither. Call sites only pass paths built by joining directory entries, which have neither, but the members differ on such inputs:
  - Paths.FileName: for a path ending in `/` (`a/b/`) gives `None`, where Rust's `file_name` gives the last component (`b`); for a path ending in a `.` segment (`a/.`) it gives `None`, where Rust drops the trailing `.` and gives `a`.
  - Paths.Parent: for `a/b/` gives `a/b`, where Rust's `parent` gives `a`; for `a//b` it gives `a/`, where Rust trims the repeated separator and gives `a`; and for `a/b/.` it gives `a/b`, where Rust gives `a`.
  - Paths.Extension: follows `Paths.FileName`, so a path ending in `/` has no extension here; `Paths.WithoutExtension` and `Paths.FileStem` likewise.
  - Paths.Components: keeps an interior `.` segment (`a/./b` has three), where Rust drops it; `Paths.SamePath` and `Paths.PathStartsWith`, and through them the watcher's `Watch.FirstSource` and config test, therefore tell `a/./b` from `a/b` where Rust does not. `Paths.Components` collapses repeated `/` as Rust does, but `Paths.Parent` and `Paths.FileName` work on the raw text and do not.
- **HashMap order**: the source directories of the watcher are a sequence in the order the map is iterated, since `classify` takes the first match. Which source wins when two source directories nest is therefore fixed by that sequence.
- **Text is ASCII**:
  - Markdown.Slugify: keeps only ASCII letters, digits and `-`, and lower-cases only ASCII letters. Rust's `is_alphanumeric` and `to_lowercase` also accept and map other Unicode letters.
  - Util.TitleCase: upper-cases only ASCII letters.
  - Configuration.TitleFromSlug: upper-cases only ASCII letters.
  - Sources.ClassifyFile: lower-cases the extension with ASCII `Lower`, where Rust's `to_lowercase` maps every Unicode letter; the same holds for the extension lookups of Documents.MimeFromPath, Documents.IsImageByExtension and Formats.FindFormat. Extensions outside ASCII are therefore compared case-sensitively here.
  - Navigation.UrlStem: lower-cases only ASCII letters, and Navigation.DirSections compares directory names with it. So a page `Über.md` beside a directory `Über/` has the stem `Über` here and the directory becomes the page's children, while in Rust the stem is `über`, the lookup misses and the directory is dropped as matching a stem (the path Navigation.CaseMismatchedDirectoryDropped shows for ASCII names).
- **Heading levels** are natural numbers rather than `pulldown_cmark::HeadingLevel` cast to `u8`.
- **Out of scope**:
  - The watcher's OS threads, debouncer and channels (`FileWatcher`, `add_watch_paths_to_debouncer`), and its `recv`, are concurrency. Only the callback's translation of a debounced result into messages is modelled.
  - The command-line commands, the development server, search indexing (`src/build/search.rs`), theme loading (`src/theme.rs`) and configuration loading (`src/config/load.rs`) are not part of this model.
- **Pipeline stages**: custom stages are given by what they do to one document and the output files. The pipeline's error type is modelled only as far as the stages produce it.
