/**
 * The URL and output-path examples of `build/paths.rs` and `build/source.rs`.
 * Each example chains the general lemmas; the facts about the literal
 * strings involved are established in small lemmas of their own.
 */
module PathsTests {
  import opened Wrappers
  import opened Strings
  import opened Paths

  // ----- index pages ---------------------------------------------------

  lemma CliBase(prefix: string)
    requires prefix == "/cli"
    ensures NormalizeUrl(UrlBase(prefix)) == "/cli"
  {
  }

  lemma TopIndexUnderPrefix(path: string, prefix: string)
    requires path == "index.md" && prefix == "/cli"
    ensures SourcePathToUrl(path, prefix) == "/cli"
  {
    TopIndexUrl(path, prefix);
    CliBase(prefix);
  }

  lemma TopIndexAtRoot(path: string, prefix: string)
    requires path == "index.md" && (prefix == "" || prefix == "/")
    ensures SourcePathToUrl(path, prefix) == "/"
  {
    TopIndexUrl(path, prefix);
  }

  // ----- ordinary pages ------------------------------------------------

  lemma InstallationFacts(path: string)
    requires path == "installation.md"
    ensures WellFormedRelative(path) && WithoutExtension(path) == "installation"
    ensures !IsIndexText(WithoutExtension(path))
  {
    assert WellFormedRelative(path);
    var d := path[..12];
    assert d == "installation";
    assert !IsIndexText(d);
    assert path == d + "." + "md";
    WithoutExtensionAppendExt(d, "md");
  }

  lemma InstallationConcat(prefix: string, d: string)
    requires d == "installation"
    ensures prefix == "/cli" ==> UrlBase(prefix) + d == "/cli/installation"
    ensures prefix == "" ==> UrlBase(prefix) + d == "/installation"
  {
  }

  lemma PlainPage(path: string, prefix: string)
    requires path == "installation.md" && prefix == "/cli"
    ensures SourcePathToUrl(path, prefix) == "/cli/installation"
  {
    InstallationFacts(path);
    SourceUrlNonIndex(path, prefix);
    InstallationConcat(prefix, WithoutExtension(path));
  }

  lemma PlainPageAtRoot(path: string, prefix: string)
    requires path == "installation.md" && prefix == ""
    ensures SourcePathToUrl(path, prefix) == "/installation"
  {
    InstallationFacts(path);
    SourceUrlNonIndex(path, prefix);
    InstallationConcat(prefix, WithoutExtension(path));
  }

  lemma QuickstartFacts(path: string)
    requires path == "getting-started/quickstart.md"
    ensures WellFormedRelative(path) && WithoutExtension(path) == "getting-started/quickstart"
    ensures !IsIndexText(WithoutExtension(path))
  {
    assert WellFormedRelative(path);
    var d := path[..26];
    assert d == "getting-started/quickstart";
    assert !IsIndexText(d);
    assert path == d + "." + "md";
    WithoutExtensionAppendExt(d, "md");
  }

  lemma QuickstartConcat(prefix: string, d: string)
    requires prefix == "/cli" && d == "getting-started/quickstart"
    ensures UrlBase(prefix) + d == "/cli/getting-started/quickstart"
  {
  }

  lemma NestedPage(path: string, prefix: string)
    requires path == "getting-started/quickstart.md" && prefix == "/cli"
    ensures SourcePathToUrl(path, prefix) == "/cli/getting-started/quickstart"
  {
    QuickstartFacts(path);
    SourceUrlNonIndex(path, prefix);
    QuickstartConcat(prefix, WithoutExtension(path));
  }

  // ----- nested index pages --------------------------------------------

  lemma GuidesFacts(path: string, d: string)
    requires path == "guides/index.md" && d == "guides"
    ensures path == d + "/index.md" && WellFormedRelative(d) && !EndsWith(d, "index")
    ensures WellFormedRelative(d + ".md") && WithoutExtension(d + ".md") == d && !IsIndexText(d)
  {
    assert path == d + "/index.md";
    assert WellFormedRelative(d) && !EndsWith(d, "index") && !IsIndexText(d);
    GuidesPageFacts(d, d + ".md");
  }

  lemma GuidesPageFacts(d: string, p: string)
    requires d == "guides" && p == d + ".md"
    ensures WellFormedRelative(p) && WithoutExtension(p) == d
  {
    assert WellFormedRelative(p);
    assert p == d + "." + "md";
    WithoutExtensionAppendExt(d, "md");
  }

  lemma GuidesConcat(prefix: string, d: string)
    requires prefix == "/cli" && d == "guides"
    ensures UrlBase(prefix) + d == "/cli/guides"
  {
  }

  lemma NestedIndex(path: string, prefix: string)
    requires path == "guides/index.md" && prefix == "/cli"
    ensures SourcePathToUrl(path, prefix) == "/cli/guides"
  {
    var d := "guides";
    GuidesFacts(path, d);
    IndexPageSharesDirectoryUrl(d, prefix);
    SourceUrlNonIndex(d + ".md", prefix);
    GuidesConcat(prefix, WithoutExtension(d + ".md"));
  }

  lemma ReindexFacts(path: string)
    requires path == "reindex/index.md"
    ensures StripIndex(UrlPathText(path)) == "re"
  {
    var t := path[..13];
    assert t == "reindex/index";
    assert path == t + "." + "md";
    UrlPathTextAppendExt(t, "md");
    ReindexStrip(t);
  }

  lemma ReindexStrip(t: string)
    requires t == "reindex/index"
    ensures StripIndex(t) == "re"
  {
    var a := t[..7];
    assert EndsWith(t, "/index");
    ReindexTrimSlashIndex(t, a);
    ReindexTrimIndex(a);
  }

  lemma ReindexTrimSlashIndex(t: string, a: string)
    requires t == "reindex/index" && a == "reindex"
    ensures TrimEndMatches(t, "/index") == a
  {
    assert t[..|t| - 6] == a;
    assert !EndsWith(a, "/index");
  }

  lemma ReindexTrimIndex(a: string)
    requires a == "reindex"
    ensures TrimEndMatches(a, "index") == "re"
  {
    assert a[..|a| - 5] == "re";
    assert !EndsWith("re", "index");
  }

  lemma ReConcat(prefix: string, t: string)
    requires prefix == "/cli" && t == "re"
    ensures NormalizeUrl(UrlBase(prefix) + t) == "/cli/re"
  {
  }

  /**
   * The repeated trimming of the index suffix also removes an `index` at the
   * end of the directory name: `reindex/index.md` is served at `/cli/re`.
   */
  lemma ReindexQuirk(path: string, prefix: string)
    requires path == "reindex/index.md" && prefix == "/cli"
    ensures SourcePathToUrl(path, prefix) == "/cli/re"
  {
    ReindexFacts(path);
    ReConcat(prefix, StripIndex(UrlPathText(path)));
  }

  // ----- static files --------------------------------------------------

  lemma ScreenshotConcat(prefix: string, path: string)
    requires prefix == "/cli" && path == "images/screenshot.png"
    ensures '\\' !in path && UrlBase(prefix) + path == "/cli/images/screenshot.png"
  {
  }

  lemma StaticImage(path: string, prefix: string)
    requires path == "images/screenshot.png" && prefix == "/cli"
    ensures StaticPathToUrl(path, prefix) == "/cli/images/screenshot.png"
  {
    ScreenshotConcat(prefix, path);
    StaticUrlVerbatim(path, prefix);
  }

  // ----- output paths --------------------------------------------------

  /**
   * A proof step for the output-path examples below, not a property of its
   * own: `UrlToOutputPath` unfolded into its two non-root branches, so that
   * each example only has to evaluate the joins.
   */
  lemma OutputByParts(url: string, out: string, u: string)
    requires u == TrimStartChar(url, '/') && u != []
    ensures '.' in u ==> UrlToOutputPath(url, out) == JoinPath(out, u)
    ensures '.' !in u ==> UrlToOutputPath(url, out) == JoinPath(JoinPath(out, u), "index.html")
  {
  }

  lemma TrimmedUrl(url: string)
    requires |url| >= 2 && url[0] == '/' && url[1] != '/'
    ensures TrimStartChar(url, '/') == url[1..]
  {
    assert url[1..][0] != '/';
  }

  lemma InstallationOutputFacts(url: string, out: string, u: string)
    requires url == "/cli/installation" && out == "/site" && u == url[1..]
    ensures '.' !in u && u != []
    ensures JoinPath(JoinPath(out, u), "index.html") == "/site/cli/installation/index.html"
  {
    assert u == "cli/installation";
    InstallationDir(out, u);
    InstallationIndex(JoinPath(out, u));
  }

  lemma InstallationDir(out: string, u: string)
    requires out == "/site" && u == "cli/installation"
    ensures JoinPath(out, u) == "/site/cli/installation"
  {
    JoinInsertsSlash(out, u);
  }

  lemma InstallationIndex(j: string)
    requires j == "/site/cli/installation"
    ensures JoinPath(j, "index.html") == "/site/cli/installation/index.html"
  {
    JoinInsertsSlash(j, "index.html");
  }

  lemma OutputOfDocument(url: string, out: string)
    requires url == "/cli/installation" && out == "/site"
    ensures UrlToOutputPath(url, out) == "/site/cli/installation/index.html"
  {
    TrimmedUrl(url);
    InstallationOutputFacts(url, out, url[1..]);
    OutputByParts(url, out, url[1..]);
  }

  lemma OutputOfRoot(url: string, out: string)
    requires url == "/" && out == "/site"
    ensures UrlToOutputPath(url, out) == "/site/index.html"
  {
    RootTrimmed(url);
    RootOutputFacts(out);
  }

  lemma RootTrimmed(url: string)
    requires url == "/"
    ensures TrimStartChar(url, '/') == []
  {
    assert url[1..] == [];
  }

  lemma RootOutputFacts(out: string)
    requires out == "/site"
    ensures JoinPath(out, "index.html") == "/site/index.html"
  {
    assert "index.html"[0] == 'i';
    JoinInsertsSlash(out, "index.html");
  }

  lemma StyleOutputFacts(url: string, out: string, u: string)
    requires url == "/cli/style.css" && out == "/site" && u == url[1..]
    ensures '.' in u && u != []
    ensures JoinPath(out, u) == "/site/cli/style.css"
  {
    assert u == "cli/style.css";
    assert u[9] == '.';
    JoinInsertsSlash(out, u);
  }

  lemma OutputOfStatic(url: string, out: string)
    requires url == "/cli/style.css" && out == "/site"
    ensures UrlToOutputPath(url, out) == "/site/cli/style.css"
  {
    TrimmedUrl(url);
    StyleOutputFacts(url, out, url[1..]);
    OutputByParts(url, out, url[1..]);
  }

  // ----- configuration base path ---------------------------------------

  lemma ProjectFacts(p: string, dir: string, file: string)
    requires p == "/project/undox.yaml" && dir == "/project" && file == "undox.yaml"
    ensures file != [] && '/' !in file && !EndsWith(dir, "/")
    ensures JoinPath(dir, file) == p
  {
  }

  lemma BasePathAbsolute(p: string)
    requires p == "/project/undox.yaml"
    ensures BasePathFromConfig(p) == "/project"
  {
    ProjectFacts(p, "/project", "undox.yaml");
    BasePathOfJoin("/project", "undox.yaml");
  }

  lemma BasePathBare(p: string)
    requires p == "undox.yaml"
    ensures BasePathFromConfig(p) == ""
  {
    BasePathOfJoin("", p);
  }
}
