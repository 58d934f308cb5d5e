/**
 * Paths as '/'-separated strings, with the parts of Rust's `Path` that the
 * site generator uses (file name, stem, extension, `with_extension("")`,
 * `join`, `parent`, components), and the URL and output-path mapping of
 * `build/paths.rs`.
 */
module Paths {
  import opened Wrappers
  import opened Strings

  /** Index at which the final segment of `p` starts: just after its last '/'. */
  function LastSegmentStart(p: string): (k: nat)
    ensures k <= |p|
    ensures k > 0 ==> p[k - 1] == '/'
    ensures forall i :: k <= i < |p| ==> p[i] != '/'
    decreases |p|
  {
    if p == [] then 0
    else if p[|p| - 1] == '/' then |p|
    else LastSegmentStart(p[..|p| - 1])
  }

  /** `Path::file_name`: the final segment, unless it is empty, `.` or `..`. */
  function FileName(p: string): (r: Option<string>)
    ensures r.Some? ==> r.value != [] && '/' !in r.value && EndsWith(p, r.value)
    ensures r.None? ==> p == [] || p[|p| - 1] == '/' || EndsWith(p, ".")
  {
    var n := p[LastSegmentStart(p)..];
    if n == [] || n == "." || n == ".." then None else Some(n)
  }

  /** Index of the last '.' in `n`, if there is one. */
  function LastDot(n: string): (r: Option<nat>)
    ensures r.Some? ==> r.value < |n| && n[r.value] == '.'
    ensures r.Some? ==> forall i :: r.value < i < |n| ==> n[i] != '.'
    ensures r.None? ==> '.' !in n
    decreases |n|
  {
    if n == [] then None
    else if n[|n| - 1] == '.' then Some(|n| - 1)
    else
      var r := LastDot(n[..|n| - 1]);
      assert forall i :: 0 <= i < |n| - 1 ==> n[..|n| - 1][i] == n[i];
      r
  }

  /**
   * Where a file name splits into stem and extension (Rust's
   * `rsplit_file_at_dot`): at its last '.', unless that dot is the first
   * character (`.hidden` has no extension) or the name is `..`.
   */
  function ExtensionDot(n: string): (r: Option<nat>)
    ensures r.Some? ==> 0 < r.value < |n| && n[r.value] == '.'
    ensures r.Some? ==> '.' !in n[r.value + 1..]
  {
    if n == ".." then None
    else match LastDot(n)
      case None => None
      case Some(i) => if i == 0 then None else Some(i)
  }

  /** `Path::file_stem`. */
  function FileStem(p: string): Option<string>
  {
    match FileName(p)
    case None => None
    case Some(n) => Some(match ExtensionDot(n) case None => n case Some(i) => n[..i])
  }

  /** `Path::extension`. */
  function Extension(p: string): (r: Option<string>)
    ensures r.Some? ==> '.' !in r.value && '/' !in r.value
  {
    match FileName(p)
    case None => None
    case Some(n) => match ExtensionDot(n) case None => None case Some(i) => Some(n[i + 1..])
  }

  /** `Path::with_extension("")`: the path with the final extension and its dot removed. */
  function WithoutExtension(p: string): (r: string)
    ensures |r| <= |p| && r == p[..|r|]
    ensures Extension(p).None? ==> r == p
    ensures Extension(p).Some? ==> p == r + "." + Extension(p).value
  {
    match Extension(p)
    case None => p
    case Some(e) =>
      var n := FileName(p).value;
      var i := ExtensionDot(n).value;
      assert n == n[..i] + "." + e;
      assert p == p[..|p| - |n|] + n;
      var r := p[..|p| - |e| - 1];
      assert r == p[..|p| - |n|] + n[..i];
      assert p == r + "." + e;
      r
  }

  predicate IsAbsolute(p: string)
  {
    StartsWith(p, "/")
  }

  /** What `Path::join` puts between a directory and a relative path: nothing after a '/' or an empty directory, else one '/'. */
  function Separator(dir: string): string
  {
    if dir == [] || EndsWith(dir, "/") then "" else "/"
  }

  /** `Path::join`: an absolute `q` replaces `base`; otherwise a '/' is inserted when needed. */
  function JoinPath(base: string, q: string): (r: string)
    ensures !IsAbsolute(q) ==> StartsWith(r, base)
    ensures !IsAbsolute(q) ==> r == base + Separator(base) + q
    ensures IsAbsolute(q) ==> r == q
  {
    if IsAbsolute(q) then q
    else if base == [] || EndsWith(base, "/") then base + q
    else base + "/" + q
  }

  /** `Path::parent`: None for the empty path and the root, else everything before the final segment. */
  function Parent(p: string): (r: Option<string>)
    ensures r.None? <==> p == [] || p == "/"
    ensures r.Some? ==> |r.value| < |p| && StartsWith(p, r.value)
  {
    if p == [] || p == "/" then None
    else
      var k := LastSegmentStart(p);
      if k == 0 then Some("")
      else if k == 1 then Some("/")
      else Some(p[..k - 1])
  }

  /** Nonempty '/'-separated segments. */
  function Segments(p: string): (r: seq<string>)
    ensures forall i :: 0 <= i < |r| ==> r[i] != [] && '/' !in r[i]
  {
    NonEmpty(Split(p, {'/'}))
  }

  function NonEmpty(ss: seq<string>): (r: seq<string>)
    ensures forall i :: 0 <= i < |r| ==> r[i] != [] && r[i] in ss
    decreases |ss|
  {
    if ss == [] then []
    else if ss[0] == [] then NonEmpty(ss[1..])
    else [ss[0]] + NonEmpty(ss[1..])
  }

  /** `Path::components`, as strings: a root component "/" for an absolute path, then the segments. */
  function Components(p: string): seq<string>
  {
    (if IsAbsolute(p) then ["/"] else []) + Segments(p)
  }

  /** `Path::starts_with`: whole components, not characters. */
  predicate PathStartsWith(p: string, base: string)
  {
    var pc, bc := Components(p), Components(base);
    |bc| <= |pc| && pc[..|bc|] == bc
  }

  /** Paths are equal as Rust compares them: component by component. */
  predicate SamePath(p: string, q: string)
  {
    Components(p) == Components(q)
  }

  // ---------------------------------------------------------------------
  // URL mapping (build/paths.rs)
  // ---------------------------------------------------------------------

  /** The URL prefix with a trailing '/' ensured; the empty prefix becomes "/". */
  function UrlBase(prefix: string): (r: string)
    ensures EndsWith(r, "/") && r != []
    ensures StartsWith(r, prefix)
  {
    if prefix == [] || !EndsWith(prefix, "/") then prefix + "/" else prefix
  }

  /** The path text after `with_extension("")` and the '\' to '/' replacement. */
  function UrlPathText(path: string): string
  {
    ReplaceChar(WithoutExtension(path), '\\', "/")
  }

  /** An index page stands for its directory: trailing `/index` and then `index` are stripped, repeatedly. */
  function StripIndex(t: string): (r: string)
    ensures |r| <= |t| && r == t[..|r|]
  {
    if EndsWith(t, "/index") || t == "index" then
      var a := TrimEndMatches(t, "/index");
      var b := TrimEndMatches(a, "index");
      assert b == t[..|b|];
      b
    else t
  }

  /** Drops one trailing '/' unless the URL is a single character; the empty URL becomes "/". */
  function NormalizeUrl(url: string): string
  {
    var u := if |url| > 1 && EndsWith(url, "/") then url[..|url| - 1] else url;
    if u == [] then "/" else u
  }

  /** `source_path_to_url`: the URL a markdown document is served at. */
  function SourcePathToUrl(path: string, prefix: string): (r: string)
    ensures StartsWith(r + "/", UrlBase(prefix))
    ensures StartsWith(UrlBase(prefix) + UrlPathText(path), r)
  {
    NormalizedUnderBase(UrlBase(prefix), StripIndex(UrlPathText(path)), UrlPathText(path));
    NormalizeUrl(UrlBase(prefix) + StripIndex(UrlPathText(path)))
  }

  /** Normalising the base followed by a prefix `s` of `t` keeps the base and stays within `base + t`. */
  lemma NormalizedUnderBase(base: string, s: string, t: string)
    requires base != [] && |s| <= |t| && s == t[..|s|]
    ensures StartsWith(NormalizeUrl(base + s) + "/", base)
    ensures StartsWith(base + t, NormalizeUrl(base + s))
  {
    var r := NormalizeUrl(base + s);
    assert StartsWith(base + s, r) && StartsWith(r + "/", base + s);
    assert (base + s) == (base + t)[..|base + s|];
    assert base == (base + s)[..|base|];
    assert base == (r + "/")[..|base|];
  }

  /** `static_path_to_url`: the URL of a static file; the extension is kept. */
  function StaticPathToUrl(path: string, prefix: string): (r: string)
    ensures StartsWith(r, UrlBase(prefix))
    ensures '\\' !in r[|UrlBase(prefix)|..]
  {
    UrlBase(prefix) + ReplaceChar(path, '\\', "/")
  }

  /** `url_to_output_path`: the file a URL is written to, under `outputDir`. */
  function UrlToOutputPath(url: string, outputDir: string): (r: string)
    ensures StartsWith(r, outputDir) && |r| > |outputDir|
  {
    var u := TrimStartChar(url, '/');
    OutputFileForm(u, outputDir);
    OutputFile(u, outputDir)
  }

  /** The file for URL text `u`, its leading '/' already trimmed. */
  function OutputFile(u: string, outputDir: string): string
  {
    if u == [] then JoinPath(outputDir, "index.html")
    else if '.' in u then JoinPath(outputDir, u)
    else JoinPath(JoinPath(outputDir, u), "index.html")
  }

  /** `base_path_from_config`: the directory holding the configuration file. */
  function BasePathFromConfig(configPath: string): (r: string)
    ensures r == "." || (|r| < |configPath| && StartsWith(configPath, r))
  {
    Parent(configPath).UnwrapOr(".")
  }

  // ---------------------------------------------------------------------
  // Properties
  // ---------------------------------------------------------------------

  /** No two adjacent '/' characters. */
  predicate NoDoubleSlash(s: string)
  {
    forall i :: 0 <= i < |s| - 1 ==> !(s[i] == '/' && s[i + 1] == '/')
  }

  /** A URL prefix as configured: empty, or absolute without empty segments. */
  predicate ValidPrefix(prefix: string)
  {
    prefix == [] || (StartsWith(prefix, "/") && NoDoubleSlash(prefix))
  }

  /** A source-relative path as discovery produces it: '/'-separated, no empty segments. */
  predicate WellFormedRelative(p: string)
  {
    p != [] && p[0] != '/' && p[|p| - 1] != '/' && '\\' !in p && NoDoubleSlash(p)
  }

  /** The path text an index page is recognised by. */
  predicate IsIndexText(t: string)
  {
    EndsWith(t, "/index") || t == "index"
  }

  lemma NoDoubleSlashConcat(a: string, b: string)
    requires NoDoubleSlash(a) && NoDoubleSlash(b)
    requires a == [] || b == [] || a[|a| - 1] != '/' || b[0] != '/'
    ensures NoDoubleSlash(a + b)
  {
    var s := a + b;
    forall i | 0 <= i < |s| - 1
      ensures !(s[i] == '/' && s[i + 1] == '/')
    {
      if i + 1 < |a| {
        assert s[i] == a[i] && s[i + 1] == a[i + 1];
      } else if i >= |a| {
        assert s[i] == b[i - |a|] && s[i + 1] == b[i - |a| + 1];
      }
    }
  }

  lemma NoDoubleSlashPrefix(s: string, n: nat)
    requires NoDoubleSlash(s) && n <= |s|
    ensures NoDoubleSlash(s[..n])
  {
    var t := s[..n];
    forall i | 0 <= i < |t| - 1
      ensures !(t[i] == '/' && t[i + 1] == '/')
    {
      assert t[i] == s[i] && t[i + 1] == s[i + 1];
    }
  }

  lemma UrlBaseNoDoubleSlash(prefix: string)
    requires ValidPrefix(prefix)
    ensures NoDoubleSlash(UrlBase(prefix)) && UrlBase(prefix)[0] == '/'
  {
    if prefix != [] && !EndsWith(prefix, "/") {
      NoDoubleSlashConcat(prefix, "/");
    }
  }

  /** The file name is the whole final segment: it starts the path or follows a '/'. */
  lemma FileNameSegment(p: string)
    requires FileName(p).Some?
    ensures var n := FileName(p).value;
      |n| == |p| || p[|p| - |n| - 1] == '/'
  {
    var k := LastSegmentStart(p);
    assert FileName(p).value == p[k..];
  }

  /** The last segment starts at the one index just after a '/' with no '/' following. */
  lemma LastSegmentStartUnique(p: string, k: nat)
    requires k <= |p|
    requires k > 0 ==> p[k - 1] == '/'
    requires forall i :: k <= i < |p| ==> p[i] != '/'
    ensures LastSegmentStart(p) == k
  {
  }

  lemma LastDotUnique(n: string, j: nat)
    requires j < |n| && n[j] == '.'
    requires forall i :: j < i < |n| ==> n[i] != '.'
    ensures LastDot(n) == Some(j)
  {
  }

  /** Removing the extension of a path that ends in a file name never leaves it empty or ending in '/'. */
  lemma WithoutExtensionShape(p: string)
    requires p != [] && p[|p| - 1] != '/'
    ensures WithoutExtension(p) != [] && WithoutExtension(p)[|WithoutExtension(p)| - 1] != '/'
  {
    match Extension(p)
    case None =>
    case Some(e) =>
      var n := FileName(p).value;
      var i := ExtensionDot(n).value;
      var k := LastSegmentStart(p);
      assert n == p[k..];
      assert |e| == |n| - i - 1;
      assert WithoutExtension(p)[|WithoutExtension(p)| - 1] == n[i - 1];
  }

  /** Appending `.ext` to a path that ends in a file name gives that extension, and removing it gives the path back. */
  lemma WithoutExtensionAppendExt(d: string, e: string)
    requires d != [] && d[|d| - 1] != '/'
    requires e != [] && '.' !in e && '/' !in e
    ensures Extension(d + "." + e) == Some(e)
    ensures WithoutExtension(d + "." + e) == d
  {
    var p := d + "." + e;
    var k := LastSegmentStart(d);
    LastSegmentStartUnique(p, k);
    var n := p[k..];
    assert |n| >= 3 && n != [] && n != "." && n != "..";
    assert FileName(p) == Some(n);
    var j := |d| - k;
    assert n[j] == '.' && j > 0;
    LastDotUnique(n, j);
    assert ExtensionDot(n) == Some(j);
    assert n[j + 1..] == e;
    assert p[..|p| - |e| - 1] == d;
  }

  /** Without '\\', the URL text is the path with its extension removed, a prefix of the path. */
  lemma UrlPathTextPlain(path: string)
    requires '\\' !in path
    ensures UrlPathText(path) == WithoutExtension(path)
    ensures UrlPathText(path) == path[..|UrlPathText(path)|]
  {
    var w := WithoutExtension(path);
    assert forall i :: 0 <= i < |w| ==> w[i] == path[i];
    ReplaceCharAbsent(w, '\\', "/");
  }

  /** Dropping one trailing '/' from an absolute URL without empty segments leaves no trailing '/' except for the root. */
  lemma NormalizeUrlShape(url: string)
    requires url != [] && url[0] == '/' && NoDoubleSlash(url)
    ensures var r := NormalizeUrl(url);
      StartsWith(r, "/") && (r == "/" || !EndsWith(r, "/"))
  {
    if |url| > 1 && EndsWith(url, "/") {
      assert url[|url| - 1..] == "/";
      assert url[|url| - 1] == '/';
      assert url[|url| - 2] != '/';
      var r := url[..|url| - 1];
      assert r[|r| - 1] == url[|url| - 2];
    }
  }

  /**
   * Every document URL starts with '/', and ends with '/' only when it is
   * exactly "/", for a configured prefix and a discovered path.
   */
  lemma SourceUrlShape(path: string, prefix: string)
    requires ValidPrefix(prefix) && WellFormedRelative(path)
    ensures var r := SourcePathToUrl(path, prefix);
      StartsWith(r, "/") && (r == "/" || !EndsWith(r, "/"))
  {
    var base := UrlBase(prefix);
    var t := StripIndex(UrlPathText(path));
    IndexStrippedText(path);
    UrlBaseNoDoubleSlash(prefix);
    NoDoubleSlashConcat(base, t);
    assert (base + t)[0] == base[0];
    NormalizeUrlShape(base + t);
  }

  /** The URL text of a well-formed path, its index part stripped, has no empty segment. */
  lemma IndexStrippedText(path: string)
    requires WellFormedRelative(path)
    ensures NoDoubleSlash(StripIndex(UrlPathText(path)))
  {
    UrlPathTextPlain(path);
    var t := StripIndex(UrlPathText(path));
    assert t == path[..|t|];
    NoDoubleSlashPrefix(path, |t|);
  }

  /** Without a prefix, documents are served from the root. */
  lemma EmptyPrefixIsRoot(path: string)
    ensures SourcePathToUrl(path, "") == SourcePathToUrl(path, "/")
  {
  }

  /**
   * A document that is not an index page is served at the prefix followed by
   * its whole path, directories kept, extension removed.
   */
  lemma SourceUrlNonIndex(path: string, prefix: string)
    requires WellFormedRelative(path) && !IsIndexText(WithoutExtension(path))
    ensures SourcePathToUrl(path, prefix) == UrlBase(prefix) + WithoutExtension(path)
  {
    var w := WithoutExtension(path);
    UrlPathTextPlain(path);
    WithoutExtensionShape(path);
    assert StripIndex(UrlPathText(path)) == w;
    NormalizeKeeps(UrlBase(prefix) + w);
  }

  lemma NormalizeKeeps(url: string)
    requires url != [] && url[|url| - 1] != '/'
    ensures NormalizeUrl(url) == url
  {
    assert url[|url| - 1..] != "/";
  }

  /** The URL text of `d.e` is `d`. */
  lemma UrlPathTextAppendExt(d: string, e: string)
    requires d != [] && d[|d| - 1] != '/' && '\\' !in d
    requires e != [] && '.' !in e && '/' !in e
    ensures UrlPathText(d + "." + e) == d
  {
    WithoutExtensionAppendExt(d, e);
    ReplaceCharAbsent(d, '\\', "/");
  }

  /** Stripping the index part of `d/index` gives `d`, unless `d` itself ends in `index`. */
  lemma StripIndexPage(d: string)
    requires !EndsWith(d, "index")
    ensures StripIndex(d + "/index") == d
  {
    var t := d + "/index";
    assert t[|t| - 6..] == "/index";
    assert t[..|t| - 6] == d;
    assert TrimEndMatches(d, "/index") == d;
    assert TrimEndMatches(d, "index") == d;
  }

  /**
   * `d/index.md` is served at the same URL as `d.md`: an index page stands for
   * its directory. (A directory name ending in `index` is excluded: the
   * repeated trimming also eats that suffix, see `ReindexQuirk`.)
   */
  lemma IndexPageSharesDirectoryUrl(d: string, prefix: string)
    requires WellFormedRelative(d) && !EndsWith(d, "index")
    ensures SourcePathToUrl(d + "/index.md", prefix) == SourcePathToUrl(d + ".md", prefix)
  {
    var t := d + "/index";
    var p1, p2 := d + "/index.md", d + ".md";
    assert t[|t| - 1] == 'x';
    assert p1 == t + "." + "md";
    assert p2 == d + "." + "md";
    UrlPathTextAppendExt(t, "md");
    UrlPathTextAppendExt(d, "md");
    StripIndexPage(d);
    assert !IsIndexText(d);
    assert StripIndex(UrlPathText(p1)) == d == StripIndex(UrlPathText(p2));
  }

  /** The index page at the top of a source is served at the prefix itself, or at "/" for the root. */
  lemma TopIndexUrl(path: string, prefix: string)
    requires path == "index.md"
    ensures SourcePathToUrl(path, prefix) == NormalizeUrl(UrlBase(prefix))
  {
    var t := path[..5];
    assert t == "index";
    assert path == t + "." + "md";
    UrlPathTextAppendExt(t, "md");
    assert TrimEndMatches(t, "/index") == t;
    assert TrimEndMatches(t[..0], "index") == [];
    assert UrlBase(prefix) + [] == UrlBase(prefix);
  }

  /** A static file is served at the prefix, then '/', then its path verbatim, extension included. */
  lemma StaticUrlVerbatim(path: string, prefix: string)
    requires '\\' !in path
    ensures StaticPathToUrl(path, prefix) == UrlBase(prefix) + path
  {
    ReplaceCharAbsent(path, '\\', "/");
  }

  lemma JoinRelative(base: string, q: string)
    requires !IsAbsolute(q)
    ensures StartsWith(JoinPath(base, q), base) && EndsWith(JoinPath(base, q), q)
  {
    var j := JoinPath(base, q);
    assert j[|j| - |q|..] == q;
  }

  /**
   * The output file always lies under the output directory, after the one
   * separator `Path::join` puts there: a URL with a '.' is kept as a file,
   * any other URL names a directory holding an `index.html` (the empty URL
   * the output directory itself).
   */
  lemma OutputPathUnderOutputDir(url: string, outputDir: string)
    ensures var u, r := TrimStartChar(url, '/'), UrlToOutputPath(url, outputDir);
      StartsWith(r, outputDir) &&
      r == outputDir + Separator(outputDir) + (if '.' in u then u else u + Separator(u) + "index.html")
  {
    OutputFileForm(TrimStartChar(url, '/'), outputDir);
  }

  lemma OutputFileForm(u: string, outputDir: string)
    requires u == [] || u[0] != '/'
    ensures var t := if '.' in u then u else u + Separator(u) + "index.html";
      OutputFile(u, outputDir) == outputDir + Separator(outputDir) + t && StartsWith(OutputFile(u, outputDir), outputDir)
  {
    var t := if '.' in u then u else u + Separator(u) + "index.html";
    if u == [] {
      OutputIndex(outputDir);
    } else if '.' in u {
      OutputStatic(u, outputDir);
    } else {
      OutputDocument(u, outputDir);
    }
    PrefixOf(outputDir, Separator(outputDir), t);
  }

  lemma OutputIndex(outputDir: string)
    ensures OutputFile([], outputDir) == outputDir + Separator(outputDir) + ([] + Separator([]) + "index.html")
  {
    IndexHtmlFacts([]);
    JoinForm(outputDir, "index.html");
  }

  lemma OutputStatic(u: string, outputDir: string)
    requires u != [] && u[0] != '/' && '.' in u
    ensures OutputFile(u, outputDir) == outputDir + Separator(outputDir) + u
  {
    assert !IsAbsolute(u) by { assert u[..1] != "/"; }
    JoinForm(outputDir, u);
  }

  lemma OutputDocument(u: string, outputDir: string)
    requires u != [] && u[0] != '/' && '.' !in u
    ensures OutputFile(u, outputDir) == outputDir + Separator(outputDir) + (u + Separator(u) + "index.html")
  {
    assert OutputFile(u, outputDir) == JoinPath(JoinPath(outputDir, u), "index.html");
    DocumentOutputPath(outputDir, u);
    Regroup(outputDir + Separator(outputDir), u, Separator(u), "index.html");
  }

  lemma Regroup(a: string, b: string, c: string, d: string)
    ensures a + b + c + d == a + (b + c + d)
  {
  }

  lemma JoinForm(base: string, q: string)
    requires !IsAbsolute(q)
    ensures JoinPath(base, q) == base + Separator(base) + q
  {
  }

  lemma PrefixOf(a: string, b: string, c: string)
    ensures StartsWith(a + b + c, a)
  {
    assert (a + b + c)[..|a|] == a;
  }

  /** The directory of document `u` gets its `index.html` after the separator `u` itself calls for. */
  lemma DocumentOutputPath(outputDir: string, u: string)
    requires u != [] && u[0] != '/'
    ensures JoinPath(JoinPath(outputDir, u), "index.html") == (outputDir + Separator(outputDir) + u) + Separator(u) + "index.html"
  {
    var d := outputDir + Separator(outputDir) + u;
    assert !IsAbsolute(u) by { assert u[..1] != "/"; }
    JoinForm(outputDir, u);
    assert d[|d| - 1] == u[|u| - 1];
    SeparatorByLast(d);
    SeparatorByLast(u);
    IndexHtmlFacts(u);
    JoinForm(d, "index.html");
  }

  lemma SeparatorByLast(x: string)
    requires x != []
    ensures Separator(x) == if x[|x| - 1] == '/' then "" else "/"
  {
    assert EndsWith(x, "/") <==> x[|x| - 1..] == "/";
    assert x[|x| - 1..] == [x[|x| - 1]];
  }

  lemma IndexHtmlFacts(u: string)
    ensures "index.html" != [] && "index.html"[0] != '/'
    ensures u + "/" + "index.html" == u + "/index.html"
  {
  }

  lemma JoinInsertsSlash(j: string, q: string)
    requires j != [] && j[|j| - 1] != '/' && q != [] && q[0] != '/'
    ensures JoinPath(j, q) == j + "/" + q
  {
    assert !IsAbsolute(q);
    assert !EndsWith(j, "/") by {
      assert j[|j| - 1..] != "/";
    }
  }

  /** The configuration's directory: joining a file name to a directory and taking the base path gives the directory back. */
  lemma BasePathOfJoin(dir: string, file: string)
    requires file != [] && '/' !in file
    requires dir == [] || dir == "/" || !EndsWith(dir, "/")
    ensures BasePathFromConfig(JoinPath(dir, file)) == dir
  {
    var p := JoinPath(dir, file);
    if dir == [] {
      LastSegmentStartUnique(p, 0);
    } else if dir == "/" {
      LastSegmentStartUnique(p, 1);
    } else {
      assert p == dir + "/" + file;
      LastSegmentStartUnique(p, |dir| + 1);
      assert p[..|dir|] == dir;
    }
  }

  /** "." is the base path only when the configuration path has no parent, or its parent is ".". */
  lemma BasePathDot(configPath: string)
    ensures BasePathFromConfig(configPath) == "." <==>
      configPath == [] || configPath == "/" || Parent(configPath) == Some(".")
  {
  }
}
