/**
 * The navigation examples of the test module of `build/nav.rs`, checked
 * against the model. The facts about the literal strings involved are
 * established in small lemmas of their own.
 */
module NavigationTests {
  import opened Strings
  import opened Util
  import opened Wrappers
  import opened Documents
  import opened Navigation
  import ConfigTypes

  const Details := NavLink("Details", "/cli/commands/build/details", [])
  const Build := NavLink("Build", "/cli/commands/build", [])
  const Index := NavLink("Index", "/cli", [])

  /** The tree of the nested example: `index.md`, `commands/build.md`, `commands/build/details.md`. */
  const BuildDir := NavTree([(false, Details)], map[])
  const CommandsDir := NavTree([(false, Build)], map["build" := BuildDir])
  const NestedTree := NavTree([(true, Index)], map["commands" := CommandsDir])

  lemma BuildStem()
    ensures UrlStem(Build.url) == "build"
  {
    assert Lower("build") == "build";
    UrlStemOfSegment("/cli/commands", "build");
    assert Build.url == "/cli/commands" + "/" + "build";
  }

  lemma IndexStem()
    ensures UrlStem(Index.url) == "cli"
  {
    assert Lower("cli") == "cli";
    UrlStemOfSegment("", "cli");
    assert Index.url == "" + "/" + "cli";
  }

  lemma CommandsLower()
    ensures Lower("commands") == "commands"
  {
  }

  lemma CommandsTitle()
    ensures TitleCase("commands") == "Commands"
  {
    TitleCaseWord("commands");
    assert Capitalize("commands") == "Commands";
  }

  /** The `build/` directory holds the details page alone. */
  lemma BuildDirNav()
    ensures Sections(BuildDir) == [Link(Details)]
  {
    LeafSections(BuildDir);
  }

  /** `build.md` and the `build/` directory merge: the directory's pages become the link's children. */
  lemma CommandsDirNav()
    ensures Sections(CommandsDir) == [Link(NavLink("Build", "/cli/commands/build", [Link(Details)]))]
  {
    BuildStem();
    PageMergesDirectory(CommandsDir);
    BuildDirNav();
  }

  /** The index link comes first, then the `commands/` directory as the "Commands" section. */
  lemma NestedNav()
    ensures Sections(NestedTree) ==
      [Link(Index), Section("Commands", [Link(NavLink("Build", "/cli/commands/build", [Link(Details)]))])]
  {
    IndexStem();
    CommandsLower();
    CommandsDirNav();
    CommandsTitle();
    PageThenSection(NestedTree, "commands");
  }

  /** A `Build/` directory next to `build.md`: the details page is lost from the navigation. */
  const CapitalisedTree := NavTree([(false, Build)], map["Build" := BuildDir])

  lemma BuildLower()
    ensures Lower("Build") == "build"
  {
  }

  lemma CapitalisedDirectoryDropped()
    ensures Sections(CapitalisedTree) == [Link(Build)]
  {
    BuildStem();
    BuildLower();
    CaseMismatchedDirectoryDropped(CapitalisedTree, "Build");
  }

  // ----- a configured link with children -------------------------------

  const ConfigDoc := Document("docs", "configuration.md", "/docs/configuration", DefaultFrontMatter, Discovered, "")
  const RootDoc := Document("docs", "configuration/root.md", "/docs/configuration/root", DefaultFrontMatter, Discovered, "")
  const SubDoc := Document("docs", "configuration/sub.md", "/docs/configuration/sub", DefaultFrontMatter, Discovered, "")

  const ConfigNav := [ConfigTypes.LinkWithChildren("configuration.md", Some("Configuration"),
    [ConfigTypes.Page("configuration/root.md"), ConfigTypes.Page("configuration/sub.md")])]

  /** Each configured path finds its document. */
  lemma ConfigLookup()
    ensures var lookup := PathToDoc([ConfigDoc, RootDoc, SubDoc]);
      "configuration.md" in lookup && lookup["configuration.md"] == ConfigDoc &&
      "configuration/root.md" in lookup && lookup["configuration/root.md"] == RootDoc &&
      "configuration/sub.md" in lookup && lookup["configuration/sub.md"] == SubDoc
  {
    var docs := [ConfigDoc, RootDoc, SubDoc];
    assert docs[0].sourcePath == "configuration.md";
    assert docs[1].sourcePath == "configuration/root.md";
    assert docs[2].sourcePath == "configuration/sub.md";
    assert |docs[0].sourcePath| == 16 && |docs[1].sourcePath| == 21 && |docs[2].sourcePath| == 20;
  }

  lemma ChildPathsArePages()
    ensures !EndsWith("configuration/root.md", "/") && !EndsWith("configuration/sub.md", "/")
  {
    assert "configuration/root.md"[20] == 'd';
    assert "configuration/sub.md"[19] == 'd';
  }

  /** The nested entries convert to the two pages' links, in order. */
  lemma ConfigChildren(lookup: map<string, Document>)
    requires lookup == PathToDoc([ConfigDoc, RootDoc, SubDoc])
    ensures ConvertNavItems(ConfigNav[0].children, lookup) ==
      [Link(NavLink(Title(RootDoc), "/docs/configuration/root", [])),
       Link(NavLink(Title(SubDoc), "/docs/configuration/sub", []))]
  {
    ConfigLookup();
    ChildPathsArePages();
    var a, b := ConfigTypes.Page("configuration/root.md"), ConfigTypes.Page("configuration/sub.md");
    assert ConfigNav[0].children == [a] + [b];
    ConvertNavItemsAppend([a], [b], lookup);
    ConvertNavItemsSingle(a, lookup);
    ConvertNavItemsSingle(b, lookup);
    ConvertPage("configuration/root.md", lookup);
    ConvertPage("configuration/sub.md", lookup);
  }

  /** The configured title wins; the link points at the page and holds the two child pages. */
  lemma ConfigLinkWithChildren(lookup: map<string, Document>)
    requires lookup == PathToDoc([ConfigDoc, RootDoc, SubDoc])
    ensures ConvertNavItems(ConfigNav, lookup) ==
      [Link(NavLink("Configuration", "/docs/configuration",
        [Link(NavLink(Title(RootDoc), "/docs/configuration/root", [])),
         Link(NavLink(Title(SubDoc), "/docs/configuration/sub", []))]))]
  {
    ConfigLookup();
    ConfigChildren(lookup);
    ConvertNavItemsSingle(ConfigNav[0], lookup);
  }
}
