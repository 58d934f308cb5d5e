/**
 * Navigation building (`build/nav.rs`): one navigation tree per source,
 * either converted from the source's configured `nav` list or generated
 * from the directory structure of its documents, where a page and a
 * directory of the same name are merged into one link with children.
 */
module Navigation {
  import opened Wrappers
  import opened Strings
  import opened Paths
  import opened Util
  import opened Sorting
  import opened Documents
  import ConfigTypes
  import opened Configuration
  import opened Sources

  /** A navigation link; `children` holds the pages nested under it. */
  datatype NavLink = NavLink(title: string, url: string, children: seq<NavSection>)

  /** A navigation entry: a titled group without a link of its own, or a link. */
  datatype NavSection =
    | Section(section: string, items: seq<NavSection>)
    | Link(link: NavLink)

  // ---------------------------------------------------------------------
  // Configured navigation
  // ---------------------------------------------------------------------

  /**
   * The lookup from relative source path to document; when two documents
   * share a path the later one is kept, as collecting into a map does.
   */
  function PathToDoc(docs: seq<Document>): (m: map<string, Document>)
    ensures forall i :: 0 <= i < |docs| ==> docs[i].sourcePath in m
    ensures forall p :: p in m ==> m[p].sourcePath == p && m[p] in docs
  {
    if docs == [] then map[]
    else
      var last := docs[|docs| - 1];
      var m := PathToDoc(docs[..|docs| - 1]);
      assert forall i :: 0 <= i < |docs| - 1 ==> docs[i] == docs[..|docs| - 1][i];
      m[last.sourcePath := last]
  }

  /**
   * `convert_nav_item`: a configured entry as a navigation entry, or none when
   * the page it names is not among the documents. A section is kept only if
   * some nested entry is kept; a directory entry (`dir/`) gives nothing.
   */
  function ConvertNavItem(item: ConfigTypes.NavItem, lookup: map<string, Document>): (r: Option<NavSection>)
    ensures r.Some? ==> (r.value.Section? <==> item.Section?)
    ensures r.Some? && r.value.Section? ==> r.value.section == item.section && r.value.items != []
    ensures item.Page? && EndsWith(item.page, "/") ==> r.None?
    ensures item.Titled? && item.entries == [] ==> r.None?
    decreases item
  {
    match item
    case Section(title, items) =>
      var converted := ConvertNavItems(items, lookup);
      if converted != [] then Some(Section(title, converted)) else None
    case LinkWithChildren(path, title, children) =>
      if path in lookup then
        var doc := lookup[path];
        Some(Link(NavLink(title.UnwrapOr(Title(doc)), doc.urlPath, ConvertNavItems(children, lookup))))
      else None
    case Titled(entries) =>
      if entries != [] && entries[0].1 in lookup then
        Some(Link(NavLink(entries[0].0, lookup[entries[0].1].urlPath, [])))
      else None
    case Page(path) =>
      if !EndsWith(path, "/") && path in lookup then
        var doc := lookup[path];
        Some(Link(NavLink(Title(doc), doc.urlPath, [])))
      else None
  }

  /** `convert_nav_config` and the nested `filter_map`s: the entries that convert, in order. */
  function ConvertNavItems(items: seq<ConfigTypes.NavItem>, lookup: map<string, Document>): (r: seq<NavSection>)
    ensures |r| <= |items|
    decreases items
  {
    if items == [] then []
    else
      var rest := ConvertNavItems(items[1..], lookup);
      match ConvertNavItem(items[0], lookup)
      case Some(s) => [s] + rest
      case None => rest
  }

  /** Converting a list converts its parts: entries keep their relative order. */
  lemma {:induction false} ConvertNavItemsAppend(a: seq<ConfigTypes.NavItem>, b: seq<ConfigTypes.NavItem>, lookup: map<string, Document>)
    ensures ConvertNavItems(a + b, lookup) == ConvertNavItems(a, lookup) + ConvertNavItems(b, lookup)
    decreases |a|
  {
    if a == [] {
      assert a + b == b;
    } else {
      assert (a + b)[0] == a[0];
      assert (a + b)[1..] == a[1..] + b;
      ConvertNavItemsAppend(a[1..], b, lookup);
    }
  }

  /** A single entry converts to itself if it resolves, and is silently dropped otherwise. */
  lemma ConvertNavItemsSingle(x: ConfigTypes.NavItem, lookup: map<string, Document>)
    ensures ConvertNavItems([x], lookup) == if ConvertNavItem(x, lookup).Some? then [ConvertNavItem(x, lookup).value] else []
  {
    assert [x][1..] == [];
  }

  /** A plain page entry is a link titled after its document, at the document's URL, without children. */
  lemma ConvertPage(path: string, lookup: map<string, Document>)
    ensures var r := ConvertNavItem(ConfigTypes.Page(path), lookup);
      (r.Some? <==> !EndsWith(path, "/") && path in lookup) &&
      (r.Some? ==> r.value == Link(NavLink(Title(lookup[path]), lookup[path].urlPath, [])))
  {
  }

  /**
   * A link with children resolves through its own path only; its title is
   * the configured one or else the document's, and its children are its
   * nested entries converted.
   */
  lemma ConvertLinkWithChildren(path: string, title: Option<string>, children: seq<ConfigTypes.NavItem>, lookup: map<string, Document>)
    ensures var r := ConvertNavItem(ConfigTypes.LinkWithChildren(path, title, children), lookup);
      (r.Some? <==> path in lookup) &&
      (r.Some? ==>
         r.value.Link? &&
         r.value.link.url == lookup[path].urlPath &&
         r.value.link.title == (if title.Some? then title.value else Title(lookup[path])) &&
         r.value.link.children == ConvertNavItems(children, lookup))
  {
  }

  /** A section is emitted exactly when at least one of its entries resolves. */
  lemma ConvertSection(title: string, items: seq<ConfigTypes.NavItem>, lookup: map<string, Document>)
    ensures var r := ConvertNavItem(ConfigTypes.Section(title, items), lookup);
      (r.Some? <==> ConvertNavItems(items, lookup) != []) &&
      (r.Some? ==> r.value == Section(title, ConvertNavItems(items, lookup)))
  {
  }

  /** Every link of a navigation tree points at one of the given URLs. */
  predicate LinksWithin(n: NavSection, urls: set<string>)
    decreases n
  {
    match n
    case Section(_, items) => forall k :: 0 <= k < |items| ==> LinksWithin(items[k], urls)
    case Link(l) => l.url in urls && forall k :: 0 <= k < |l.children| ==> LinksWithin(l.children[k], urls)
  }

  function UrlsOf(lookup: map<string, Document>): set<string>
  {
    set p | p in lookup :: lookup[p].urlPath
  }

  /** Configured navigation never invents a page: every link it produces is the URL of a known document. */
  lemma {:induction false} ConvertNavItemSound(item: ConfigTypes.NavItem, lookup: map<string, Document>)
    ensures ConvertNavItem(item, lookup).Some? ==> LinksWithin(ConvertNavItem(item, lookup).value, UrlsOf(lookup))
    decreases item
  {
    match item
    case Section(_, items) => ConvertNavItemsSound(items, lookup);
    case LinkWithChildren(path, _, children) =>
      if path in lookup {
        ConvertNavItemsSound(children, lookup);
        assert lookup[path].urlPath in UrlsOf(lookup);
      }
    case Titled(entries) =>
      if entries != [] && entries[0].1 in lookup {
        assert lookup[entries[0].1].urlPath in UrlsOf(lookup);
      }
    case Page(path) =>
      if path in lookup {
        assert lookup[path].urlPath in UrlsOf(lookup);
      }
  }

  lemma {:induction false} ConvertNavItemsSound(items: seq<ConfigTypes.NavItem>, lookup: map<string, Document>)
    ensures forall k :: 0 <= k < |ConvertNavItems(items, lookup)| ==> LinksWithin(ConvertNavItems(items, lookup)[k], UrlsOf(lookup))
    decreases items
  {
    if items != [] {
      ConvertNavItemSound(items[0], lookup);
      ConvertNavItemsSound(items[1..], lookup);
    }
  }

  // ---------------------------------------------------------------------
  // Auto-generated navigation: the directory tree of the documents
  // ---------------------------------------------------------------------

  /**
   * `NavTreeNode`: the links of the documents at one directory level, each
   * flagged as an index page or not, and the subdirectories by name.
   */
  datatype NavTree = NavTree(links: seq<(bool, NavLink)>, children: map<string, NavTree>)

  const EmptyTree := NavTree([], map[])

  /**
   * `NavTreeNode::insert`: a path of one part adds the link at this level;
   * a longer path descends into the directory named by its first part,
   * creating it when absent.
   */
  function Insert(t: NavTree, parts: seq<string>, isIndex: bool, link: NavLink): (r: NavTree)
    ensures |parts| <= 1 ==> r.links == t.links + [(isIndex, link)] && r.children == t.children
    ensures |parts| > 1 ==>
      r.links == t.links &&
      r.children.Keys == t.children.Keys + {parts[0]} &&
      (forall k :: k in t.children && k != parts[0] ==> r.children[k] == t.children[k])
    decreases |parts|
  {
    if |parts| <= 1 then t.(links := t.links + [(isIndex, link)])
    else
      var child := if parts[0] in t.children then t.children[parts[0]] else EmptyTree;
      t.(children := t.children[parts[0] := Insert(child, parts[1..], isIndex, link)])
  }

  /** The node reached by descending through the directories `dirs`, if it exists. */
  function Subtree(t: NavTree, dirs: seq<string>): Option<NavTree>
    decreases |dirs|
  {
    if dirs == [] then Some(t)
    else if dirs[0] in t.children then Subtree(t.children[dirs[0]], dirs[1..])
    else None
  }

  /**
   * After an insertion the node of the path's directories exists, and its
   * links are the ones it had before followed by the new link.
   */
  lemma {:induction false} InsertAt(t: NavTree, parts: seq<string>, isIndex: bool, link: NavLink)
    requires parts != []
    ensures var node := Subtree(Insert(t, parts, isIndex, link), parts[..|parts| - 1]);
      var before := Subtree(t, parts[..|parts| - 1]);
      node.Some? &&
      node.value.links == (if before.Some? then before.value.links else []) + [(isIndex, link)]
    decreases |parts|
  {
    if |parts| > 1 {
      var child := if parts[0] in t.children then t.children[parts[0]] else EmptyTree;
      InsertAt(child, parts[1..], isIndex, link);
      assert parts[..|parts| - 1][0] == parts[0];
      assert parts[..|parts| - 1][1..] == parts[1..][..|parts[1..]| - 1];
      if parts[0] !in t.children {
        SubtreeOfEmpty(parts[1..][..|parts[1..]| - 1]);
      }
    }
  }

  lemma SubtreeOfEmpty(dirs: seq<string>)
    ensures Subtree(EmptyTree, dirs) == if dirs == [] then Some(EmptyTree) else None
  {
  }

  /** An insertion keeps every link already in the tree, wherever it is. */
  lemma {:induction false} InsertKeeps(t: NavTree, parts: seq<string>, isIndex: bool, link: NavLink, dirs: seq<string>, x: (bool, NavLink))
    requires Subtree(t, dirs).Some? && x in Subtree(t, dirs).value.links
    ensures Subtree(Insert(t, parts, isIndex, link), dirs).Some?
    ensures x in Subtree(Insert(t, parts, isIndex, link), dirs).value.links
    decreases |parts|
  {
    var r := Insert(t, parts, isIndex, link);
    if dirs != [] && |parts| > 1 && dirs[0] == parts[0] {
      InsertKeeps(t.children[parts[0]], parts[1..], isIndex, link, dirs[1..], x);
    }
  }

  /**
   * The order of links at one level: index pages first, then by title
   * (the comparison closure of `into_nav_sections`).
   */
  predicate LinkLe(a: (bool, NavLink), b: (bool, NavLink))
  {
    (a.0 && !b.0) || (a.0 == b.0 && LexLe(a.1.title, b.1.title))
  }

  lemma LinkLeTotalPreorder()
    ensures TotalPreorder(LinkLe)
  {
    forall a: (bool, NavLink), b: (bool, NavLink)
      ensures LinkLe(a, b) || LinkLe(b, a)
    {
      LexLeTotal(a.1.title, b.1.title);
    }
    forall a: (bool, NavLink), b: (bool, NavLink), c: (bool, NavLink) | LinkLe(a, b) && LinkLe(b, c)
      ensures LinkLe(a, c)
    {
      if a.0 == b.0 && b.0 == c.0 {
        LexLeTransitive(a.1.title, b.1.title, c.1.title);
      }
    }
  }

  /** The lower-cased last segment of a URL, trailing slashes ignored. */
  function UrlStem(url: string): (r: string)
    ensures '/' !in r
    ensures Lower(r) == r
  {
    var s := TrimEndMatches(url, "/");
    var seg := s[LastSegmentStart(s)..];
    LowerSegment(seg);
    Lower(seg)
  }

  /** Lower-casing a segment keeps it free of slashes and is idempotent. */
  lemma LowerSegment(t: string)
    requires '/' !in t
    ensures '/' !in Lower(t) && Lower(Lower(t)) == Lower(t)
  {
  }

  /** The stem of a URL ending in a lower-case segment `name` is `name`. */
  lemma UrlStemOfSegment(dir: string, name: string)
    requires name != [] && '/' !in name && Lower(name) == name
    ensures UrlStem(dir + "/" + name) == name
  {
    var url := dir + "/" + name;
    assert url[|url| - 1] == name[|name| - 1];
    assert TrimEndMatches(url, "/") == url;
    LastSegmentStartUnique(url, |dir| + 1);
    assert url[|dir| + 1..] == name;
  }

  /** `link_stems`: the stems of all links at one level. */
  function Stems(links: seq<(bool, NavLink)>): set<string>
  {
    set i | 0 <= i < |links| :: UrlStem(links[i].1.url)
  }

  /** Whether `m` is `t.children` with some directories removed. */
  predicate ChildrenLeft(t: NavTree, m: map<string, NavTree>)
  {
    forall k :: k in m ==> k in t.children && m[k] == t.children[k]
  }

  /**
   * `into_nav_sections`: the links of one level in sorted order, each
   * merged with the directory named by its stem if still present, then
   * the remaining directories as sections.
   */
  function Sections(t: NavTree): seq<NavSection>
    decreases t, 4
  {
    LinkEntries(t) + DirEntries(t)
  }

  /** The links of one level, sorted: index pages first, then by title. */
  function SortedLinks(t: NavTree): seq<(bool, NavLink)>
  {
    SortBy(t.links, LinkLe)
  }

  /** The entries the merge loop makes of the sorted links. */
  function LinkEntries(t: NavTree): seq<NavSection>
    decreases t, 3
  {
    MergeLinks(t, SortedLinks(t), t.children).0
  }

  /** The sections made of the directories the merge loop leaves, by name. */
  function DirEntries(t: NavTree): seq<NavSection>
    decreases t, 3
  {
    var left := MergeLinks(t, SortedLinks(t), t.children).1;
    DirSections(t, SortedKeys(left.Keys), Stems(SortedLinks(t)))
  }

  /** The merge loop: the links as entries, and the directories left over. */
  function MergeLinks(t: NavTree, links: seq<(bool, NavLink)>, left: map<string, NavTree>): (r: (seq<NavSection>, map<string, NavTree>))
    requires ChildrenLeft(t, left)
    ensures |r.0| == |links| && ChildrenLeft(t, r.1)
    decreases t, 2, |links|
  {
    if links == [] then ([], left)
    else
      var link := links[0].1;
      var stem := UrlStem(link.url);
      if stem in left then
        var rest := MergeLinks(t, links[1..], left - {stem});
        ([Link(link.(children := Sections(t.children[stem])))] + rest.0, rest.1)
      else
        var rest := MergeLinks(t, links[1..], left);
        ([Link(link)] + rest.0, rest.1)
  }

  /** The remaining directories, in the given order: skipped if a link has their (lower-cased) name, omitted if empty. */
  function DirSections(t: NavTree, names: seq<string>, stems: set<string>): (r: seq<NavSection>)
    requires forall n :: n in names ==> n in t.children
    ensures |r| <= |names|
    decreases t, 1, |names|
  {
    if names == [] then []
    else
      var name := names[0];
      var rest := DirSections(t, names[1..], stems);
      if Lower(name) in stems then rest
      else
        var items := Sections(t.children[name]);
        if items == [] then rest else [Section(TitleCase(name), items)] + rest
  }

  /** One step of the merge loop at position `i`, for a link whose stem names a directory still present. */
  lemma MergeStepMerged(t: NavTree, links: seq<(bool, NavLink)>, i: nat, left: map<string, NavTree>)
    requires ChildrenLeft(t, left) && i < |links| && UrlStem(links[i].1.url) in left
    ensures var stem := UrlStem(links[i].1.url);
      var rest := MergeLinks(t, links[i + 1..], left - {stem});
      MergeLinks(t, links[i..], left) == ([Link(links[i].1.(children := Sections(t.children[stem])))] + rest.0, rest.1)
  {
    assert links[i..][0] == links[i] && links[i..][1..] == links[i + 1..];
  }

  /** One step of the merge loop at position `i`, for a link whose stem names no directory left. */
  lemma MergeStepKept(t: NavTree, links: seq<(bool, NavLink)>, i: nat, left: map<string, NavTree>)
    requires ChildrenLeft(t, left) && i < |links| && UrlStem(links[i].1.url) !in left
    ensures var rest := MergeLinks(t, links[i + 1..], left);
      MergeLinks(t, links[i..], left) == ([Link(links[i].1)] + rest.0, rest.1)
  {
    assert links[i..][0] == links[i] && links[i..][1..] == links[i + 1..];
  }

  /** One step of the leftover-directory loop: the smallest name first. */
  lemma DirStep(t: NavTree, names: set<string>, stems: set<string>)
    requires names != {} && names <= t.children.Keys
    ensures var name := Least(names);
      var rest := DirSections(t, SortedKeys(names - {name}), stems);
      DirSections(t, SortedKeys(names), stems) ==
        if Lower(name) in stems || Sections(t.children[name]) == [] then rest
        else [Section(TitleCase(name), Sections(t.children[name]))] + rest
  {
    var name := Least(names);
    assert SortedKeys(names) == [name] + SortedKeys(names - {name});
    assert SortedKeys(names)[1..] == SortedKeys(names - {name});
  }

  /**
   * `NavTreeNode::into_nav_sections` as the source runs it: sort the links,
   * walk them merging each with the directory its stem names (removing the
   * directory once used), then walk the leftover directories by name.
   */
  method IntoNavSections(t: NavTree) returns (result: seq<NavSection>)
    ensures result == Sections(t)
    decreases t, 4
  {
    var links := SortBy(t.links, LinkLe);
    var merged, children := MergeLoop(t, links);
    var dirs := LeftoverLoop(t, children, Stems(links));
    result := merged + dirs;
  }

  /** The loop over the sorted links, with the `remove` of each merged directory. */
  method MergeLoop(t: NavTree, links: seq<(bool, NavLink)>) returns (result: seq<NavSection>, children: map<string, NavTree>)
    ensures (result, children) == MergeLinks(t, links, t.children)
    decreases t, 3
  {
    ghost var goal := MergeLinks(t, links, t.children);
    children := t.children;
    result := [];
    var i := 0;
    assert links[0..] == links;
    ghost var rest := goal;
    while i < |links|
      invariant 0 <= i <= |links|
      invariant ChildrenLeft(t, children)
      invariant rest == MergeLinks(t, links[i..], children)
      invariant goal.0 == result + rest.0 && goal.1 == rest.1
    {
      var entry;
      entry, children := MergeOne(t, links, i, children);
      ghost var rest' := MergeLinks(t, links[i + 1..], children);
      MergeLoopStep(goal, result, entry, rest, rest');
      result := result + [entry];
      rest := rest';
      i := i + 1;
    }
    assert links[i..] == [];
    assert result == goal.0 && children == goal.1;
  }

  /** The merge loop's invariant survives one step: the entry moves from what is left to the result. */
  lemma MergeLoopStep<T, M>(goal: (seq<T>, M), result: seq<T>, entry: T, before: (seq<T>, M), after: (seq<T>, M))
    requires goal.0 == result + before.0 && goal.1 == before.1
    requires before == ([entry] + after.0, after.1)
    ensures goal.0 == (result + [entry]) + after.0 && goal.1 == after.1
  {
    assert result + ([entry] + after.0) == (result + [entry]) + after.0;
  }

  /** The body of the merge loop for the link at `i`. */
  method MergeOne(t: NavTree, links: seq<(bool, NavLink)>, i: nat, left: map<string, NavTree>)
      returns (entry: NavSection, left': map<string, NavTree>)
    requires ChildrenLeft(t, left) && i < |links|
    ensures ChildrenLeft(t, left')
    ensures MergeLinks(t, links[i..], left) ==
      ([entry] + MergeLinks(t, links[i + 1..], left').0, MergeLinks(t, links[i + 1..], left').1)
    decreases t, 1
  {
    var link := links[i].1;
    var stem := UrlStem(link.url);
    left' := left;
    if stem in left {
      MergeStepMerged(t, links, i, left);
      var child := t.children[stem];
      assert child < t;
      var kids := IntoNavSections(child);
      link := link.(children := kids);
      left' := left - {stem};
    } else {
      MergeStepKept(t, links, i, left);
    }
    entry := Link(link);
  }

  /** The loop over the leftover directories, sorted by name. */
  method LeftoverLoop(t: NavTree, children: map<string, NavTree>, stems: set<string>) returns (result: seq<NavSection>)
    requires ChildrenLeft(t, children)
    ensures result == DirSections(t, SortedKeys(children.Keys), stems)
    decreases t, 3
  {
    ghost var goal := DirSections(t, SortedKeys(children.Keys), stems);
    result := [];
    var names := children.Keys;
    while names != {}
      invariant names <= t.children.Keys
      invariant goal == result + DirSections(t, SortedKeys(names), stems)
      decreases |names|
    {
      var name := Least(names);
      var entries := LeftoverOne(t, names, stems);
      ghost var rest := DirSections(t, SortedKeys(names - {name}), stems);
      ConcatAssociative(result, entries, rest);
      result := result + entries;
      names := names - {name};
    }
  }

  lemma ConcatAssociative(a: seq<NavSection>, b: seq<NavSection>, c: seq<NavSection>)
    ensures a + (b + c) == (a + b) + c
  {
  }

  /** The body of the leftover-directory loop for the smallest name still to do. */
  method LeftoverOne(t: NavTree, names: set<string>, stems: set<string>) returns (entries: seq<NavSection>)
    requires names != {} && names <= t.children.Keys
    ensures DirSections(t, SortedKeys(names), stems) == entries + DirSections(t, SortedKeys(names - {Least(names)}), stems)
    decreases t, 1
  {
    var name := Least(names);
    DirStep(t, names, stems);
    entries := [];
    if Lower(name) !in stems {
      var child := t.children[name];
      assert child < t;
      var items := IntoNavSections(child);
      if items != [] {
        entries := [Section(TitleCase(name), items)];
      }
    }
  }

  // ---------------------------------------------------------------------
  // What the auto-generated navigation of one level looks like
  // ---------------------------------------------------------------------

  /** No link before position `i` has the same stem as the link at `i`. */
  predicate FirstWithStem(links: seq<(bool, NavLink)>, i: nat)
    requires i < |links|
  {
    forall j :: 0 <= j < i ==> UrlStem(links[j].1.url) != UrlStem(links[i].1.url)
  }

  /** Dropping the first link: a later link is first with its stem iff it was, and its stem differs from the dropped one's. */
  lemma FirstWithStemTail(links: seq<(bool, NavLink)>, i: nat)
    requires 1 <= i < |links|
    ensures FirstWithStem(links, i) <==>
      UrlStem(links[i].1.url) != UrlStem(links[0].1.url) && FirstWithStem(links[1..], i - 1)
  {
    if FirstWithStem(links, i) {
      FirstWithStemDrop(links, i);
    }
    if UrlStem(links[i].1.url) != UrlStem(links[0].1.url) && FirstWithStem(links[1..], i - 1) {
      FirstWithStemAdd(links, i);
    }
  }

  lemma FirstWithStemDrop(links: seq<(bool, NavLink)>, i: nat)
    requires 1 <= i < |links| && FirstWithStem(links, i)
    ensures FirstWithStem(links[1..], i - 1)
  {
    forall j | 0 <= j < i - 1
      ensures UrlStem(links[1..][j].1.url) != UrlStem(links[1..][i - 1].1.url)
    {
      assert links[1..][j] == links[j + 1];
    }
  }

  lemma FirstWithStemAdd(links: seq<(bool, NavLink)>, i: nat)
    requires 1 <= i < |links| && FirstWithStem(links[1..], i - 1)
    requires UrlStem(links[i].1.url) != UrlStem(links[0].1.url)
    ensures FirstWithStem(links, i)
  {
    forall j | 0 < j < i
      ensures UrlStem(links[j].1.url) != UrlStem(links[i].1.url)
    {
      assert links[1..][j - 1] == links[j];
    }
  }

  /** The entry the merge loop makes of the link at `i`. */
  function MergedEntry(t: NavTree, links: seq<(bool, NavLink)>, i: nat, left: map<string, NavTree>): NavSection
    requires ChildrenLeft(t, left) && i < |links|
  {
    var stem := UrlStem(links[i].1.url);
    if stem in left && FirstWithStem(links, i) then Link(links[i].1.(children := Sections(t.children[stem])))
    else Link(links[i].1)
  }

  /**
   * The merge loop gives one link entry per link, in order; a link takes a
   * directory's navigation as its children exactly when its stem names a
   * directory and no earlier link has already taken it.
   */
  lemma {:induction false} MergeLinksEntries(t: NavTree, links: seq<(bool, NavLink)>, left: map<string, NavTree>)
    requires ChildrenLeft(t, left)
    ensures forall i :: 0 <= i < |links| ==> MergeLinks(t, links, left).0[i] == MergedEntry(t, links, i, left)
    decreases |links|
  {
    if links != [] {
      var stem := UrlStem(links[0].1.url);
      var left' := if stem in left then left - {stem} else left;
      MergeLinksEntries(t, links[1..], left');
      forall i | 1 <= i < |links|
        ensures MergeLinks(t, links, left).0[i] == MergedEntry(t, links, i, left)
      {
        MergedEntryTail(t, links, left, left', i);
      }
    }
  }

  /** One step of `MergeLinksEntries`: a later entry is the tail's entry, shifted. */
  lemma MergedEntryTail(t: NavTree, links: seq<(bool, NavLink)>, left: map<string, NavTree>, left': map<string, NavTree>, i: nat)
    requires ChildrenLeft(t, left) && 1 <= i < |links|
    requires left' == if UrlStem(links[0].1.url) in left then left - {UrlStem(links[0].1.url)} else left
    requires MergeLinks(t, links[1..], left').0[i - 1] == MergedEntry(t, links[1..], i - 1, left')
    ensures MergeLinks(t, links, left).0[i] == MergedEntry(t, links, i, left)
  {
    var r := MergeLinks(t, links, left);
    var rest := MergeLinks(t, links[1..], left');
    assert r.0[1..] == rest.0;
    FirstWithStemTail(links, i);
    assert links[1..][i - 1] == links[i];
    assert r.0[i] == rest.0[i - 1];
  }

  /** Adding a link in front adds its stem. */
  lemma StemsCons(links: seq<(bool, NavLink)>)
    requires links != []
    ensures Stems(links) == {UrlStem(links[0].1.url)} + Stems(links[1..])
  {
    forall x | x in Stems(links)
      ensures x in {UrlStem(links[0].1.url)} + Stems(links[1..])
    {
      var i :| 0 <= i < |links| && UrlStem(links[i].1.url) == x;
      if i > 0 {
        assert links[1..][i - 1] == links[i];
      }
    }
    forall x | x in Stems(links[1..])
      ensures x in Stems(links)
    {
      var i :| 0 <= i < |links[1..]| && UrlStem(links[1..][i].1.url) == x;
      assert links[1..][i] == links[i + 1];
    }
  }

  /** The directories the merge loop leaves are exactly those no link's stem names. */
  lemma {:induction false} MergeLinksLeft(t: NavTree, links: seq<(bool, NavLink)>, left: map<string, NavTree>)
    requires ChildrenLeft(t, left)
    ensures MergeLinks(t, links, left).1.Keys == left.Keys - Stems(links)
    decreases |links|
  {
    if links != [] {
      var stem := UrlStem(links[0].1.url);
      var left' := if stem in left then left - {stem} else left;
      MergeLinksLeft(t, links[1..], left');
      MergeLinksLeftStep(t, links, left, left');
    }
  }

  lemma MergeLinksLeftStep(t: NavTree, links: seq<(bool, NavLink)>, left: map<string, NavTree>, left': map<string, NavTree>)
    requires ChildrenLeft(t, left) && links != []
    requires left' == if UrlStem(links[0].1.url) in left then left - {UrlStem(links[0].1.url)} else left
    requires MergeLinks(t, links[1..], left').1.Keys == left'.Keys - Stems(links[1..])
    ensures MergeLinks(t, links, left).1.Keys == left.Keys - Stems(links)
  {
    StemsCons(links);
    assert MergeLinks(t, links, left).1 == MergeLinks(t, links[1..], left').1;
  }

  /** The directories of `names` that become sections: not claimed by a link stem, and not empty. */
  function EmittedDirs(t: NavTree, names: seq<string>, stems: set<string>): (r: seq<string>)
    requires forall n :: n in names ==> n in t.children
    ensures forall n :: n in r <==> n in names && Lower(n) !in stems && Sections(t.children[n]) != []
    decreases |names|
  {
    if names == [] then []
    else
      var rest := EmittedDirs(t, names[1..], stems);
      if Lower(names[0]) !in stems && Sections(t.children[names[0]]) != [] then [names[0]] + rest else rest
  }

  /** Keeping some of an ascending sequence of names keeps it ascending. */
  lemma {:induction false} EmittedDirsAscending(t: NavTree, names: seq<string>, stems: set<string>)
    requires forall n :: n in names ==> n in t.children
    requires StrictlyAscending(names)
    ensures StrictlyAscending(EmittedDirs(t, names, stems))
    decreases |names|
  {
    if names != [] {
      EmittedDirsAscending(t, names[1..], stems);
      var rest := EmittedDirs(t, names[1..], stems);
      forall j | 0 <= j < |rest|
        ensures LexLe(names[0], rest[j]) && names[0] != rest[j]
      {
        assert rest[j] in names[1..];
        var m :| 0 <= m < |names[1..]| && names[1..][m] == rest[j];
        assert names[m + 1] == rest[j];
      }
    }
  }

  /** The leftover directories give one section each, titled by the directory's name. */
  lemma {:induction false} DirSectionsAre(t: NavTree, names: seq<string>, stems: set<string>)
    requires forall n :: n in names ==> n in t.children
    ensures TitledSections(t, DirSections(t, names, stems), EmittedDirs(t, names, stems))
    decreases |names|
  {
    if names != [] {
      DirSectionsAre(t, names[1..], stems);
      DirSectionsCons(t, names, stems);
    }
  }

  /** Each section is titled by its directory and holds that directory's navigation. */
  predicate TitledSections(t: NavTree, r: seq<NavSection>, dirs: seq<string>)
  {
    |r| == |dirs| &&
    forall i :: 0 <= i < |dirs| ==> dirs[i] in t.children && r[i] == Section(TitleCase(dirs[i]), Sections(t.children[dirs[i]]))
  }

  lemma DirSectionsCons(t: NavTree, names: seq<string>, stems: set<string>)
    requires names != [] && forall n :: n in names ==> n in t.children
    requires TitledSections(t, DirSections(t, names[1..], stems), EmittedDirs(t, names[1..], stems))
    ensures TitledSections(t, DirSections(t, names, stems), EmittedDirs(t, names, stems))
  {
    var name := names[0];
    if Lower(name) !in stems && Sections(t.children[name]) != [] {
      TitledPrepend(t, name, DirSections(t, names[1..], stems), EmittedDirs(t, names[1..], stems));
    }
  }

  lemma TitledPrepend(t: NavTree, name: string, r: seq<NavSection>, dirs: seq<string>)
    requires name in t.children && TitledSections(t, r, dirs)
    ensures TitledSections(t, [Section(TitleCase(name), Sections(t.children[name]))] + r, [name] + dirs)
  {
  }

  /** The stems of the sorted links are the stems of the links. */
  lemma StemsOfSorted(links: seq<(bool, NavLink)>)
    ensures Stems(SortBy(links, LinkLe)) == Stems(links)
  {
    var sorted := SortBy(links, LinkLe);
    forall x | x in Stems(sorted)
      ensures x in Stems(links)
    {
      var i :| 0 <= i < |sorted| && UrlStem(sorted[i].1.url) == x;
      SortByMembers(links, LinkLe, sorted[i]);
      var j :| 0 <= j < |links| && links[j] == sorted[i];
    }
    forall x | x in Stems(links)
      ensures x in Stems(sorted)
    {
      var i :| 0 <= i < |links| && UrlStem(links[i].1.url) == x;
      SortByMembers(links, LinkLe, links[i]);
      var j :| 0 <= j < |sorted| && sorted[j] == links[i];
    }
  }

  /**
   * One level of the auto-generated navigation begins with one link per
   * document, index pages first and the rest by title, each the merge of
   * its sorted link.
   */
  lemma SectionsLinks(t: NavTree)
    ensures var sorted := SortedLinks(t);
      multiset(sorted) == multiset(t.links) &&
      (forall i, j :: 0 <= i < j < |sorted| ==> LinkLe(sorted[i], sorted[j])) &&
      |LinkEntries(t)| == |t.links| &&
      forall i :: 0 <= i < |t.links| ==> LinkEntries(t)[i] == MergedEntry(t, sorted, i, t.children)
  {
    LinkLeTotalPreorder();
    MergeLinksEntries(t, SortedLinks(t), t.children);
  }

  /** A directory is left over by the merge and not skipped exactly when its lower-cased name is no link's stem. */
  lemma LeftAndUnskipped(t: NavTree, n: string)
    ensures var sorted := SortedLinks(t);
      (n in MergeLinks(t, sorted, t.children).1 && Lower(n) !in Stems(sorted)) <==>
      (n in t.children && Lower(n) !in Stems(t.links))
  {
    var sorted := SortBy(t.links, LinkLe);
    MergeLinksLeft(t, sorted, t.children);
    StemsOfSorted(t.links);
    StemsAreLower(sorted, n);
  }

  /** Stems are lower-case, so a name that is a stem is its own lower-cased form. */
  lemma StemsAreLower(links: seq<(bool, NavLink)>, n: string)
    ensures n in Stems(links) ==> Lower(n) == n
  {
  }

  /** The directories of one level that become sections, in order. */
  function SectionDirs(t: NavTree): seq<string>
  {
    var left := MergeLinks(t, SortedLinks(t), t.children).1;
    EmittedDirs(t, SortedKeys(left.Keys), Stems(SortedLinks(t)))
  }

  /** The directories that become sections come in strictly ascending name order. */
  lemma SectionDirsAscending(t: NavTree)
    ensures StrictlyAscending(SectionDirs(t))
  {
    var left := MergeLinks(t, SortedLinks(t), t.children).1;
    EmittedDirsAscending(t, SortedKeys(left.Keys), Stems(SortedLinks(t)));
  }

  /**
   * A directory becomes a section exactly when it is not empty and its
   * lower-cased name is no link's stem; in particular a directory that a
   * link's stem claims is never also a section.
   */
  lemma SectionDirsMembers(t: NavTree, n: string)
    ensures n in SectionDirs(t) <==> n in t.children && Lower(n) !in Stems(t.links) && Sections(t.children[n]) != []
  {
    LeftAndUnskipped(t, n);
  }

  /**
   * After the links, one level of the auto-generated navigation has one
   * section per such directory, in that order, titled with `title_case`
   * and holding the directory's own navigation.
   */
  lemma SectionsDirectories(t: NavTree)
    ensures var dirs := SectionDirs(t);
      |DirEntries(t)| == |dirs| &&
      forall i :: 0 <= i < |dirs| ==> DirEntries(t)[i] == Section(TitleCase(dirs[i]), Sections(t.children[dirs[i]]))
  {
    var left := MergeLinks(t, SortedLinks(t), t.children).1;
    DirSectionsAre(t, SortedKeys(left.Keys), Stems(SortedLinks(t)));
  }


  /** Sorting a single link leaves it as it is. */
  lemma SingleSorted(t: NavTree)
    requires |t.links| == 1
    ensures SortedLinks(t) == t.links
  {
    assert t.links[1..] == [];
  }

  /** A level with no directory that becomes a section has only its link entries. */
  lemma NoDirSections(t: NavTree)
    requires forall n :: n in t.children ==> Lower(n) in Stems(t.links) || Sections(t.children[n]) == []
    ensures Sections(t) == LinkEntries(t)
  {
    SectionsDirectories(t);
    if SectionDirs(t) != [] {
      SectionDirsMembers(t, SectionDirs(t)[0]);
    }
  }

  /** A level with a single link and no directories is that link alone. */
  lemma LeafSections(t: NavTree)
    requires |t.links| == 1 && t.children == map[]
    ensures Sections(t) == [Link(t.links[0].1)]
  {
    SingleSorted(t);
    SectionsLinks(t);
    NoDirSections(t);
  }

  /**
   * A page with a directory of the same (lower-case) name next to it: the
   * directory's navigation becomes the page link's children, and the
   * directory is not listed again as a section.
   */
  lemma PageMergesDirectory(t: NavTree)
    requires |t.links| == 1 && t.children.Keys == {UrlStem(t.links[0].1.url)}
    ensures Sections(t) == [Link(t.links[0].1.(children := Sections(t.children[UrlStem(t.links[0].1.url)])))]
  {
    SingleSorted(t);
    SectionsLinks(t);
    assert UrlStem(t.links[0].1.url) in Stems(t.links);
    NoDirSections(t);
  }

  /**
   * A page whose stem names no directory, next to one non-empty directory
   * whose lower-cased name is not that stem: the page link comes first,
   * then the directory as a section titled with `title_case`.
   */
  lemma PageThenSection(t: NavTree, k: string)
    requires |t.links| == 1 && t.children.Keys == {k}
    requires UrlStem(t.links[0].1.url) != k && Lower(k) != UrlStem(t.links[0].1.url)
    requires Sections(t.children[k]) != []
    ensures Sections(t) == [Link(t.links[0].1), Section(TitleCase(k), Sections(t.children[k]))]
  {
    SingleSorted(t);
    SectionsLinks(t);
    SectionsDirectories(t);
    OneSectionDir(t, k);
  }

  /**
   * A directory whose name differs from a page's stem only in case is
   * neither merged into the page (the lookup is by the lower-cased stem)
   * nor listed as a section (the skip test lower-cases the name): its
   * pages are not in the navigation at all.
   */
  lemma CaseMismatchedDirectoryDropped(t: NavTree, k: string)
    requires |t.links| == 1 && t.children.Keys == {k}
    requires k != UrlStem(t.links[0].1.url) && Lower(k) == UrlStem(t.links[0].1.url)
    ensures Sections(t) == [Link(t.links[0].1)]
  {
    SingleSorted(t);
    SectionsLinks(t);
    assert UrlStem(t.links[0].1.url) in Stems(t.links);
    NoDirSections(t);
  }

  /** Under the conditions of `PageThenSection`, `k` is the only directory listed. */
  lemma OneSectionDir(t: NavTree, k: string)
    requires |t.links| == 1 && t.children.Keys == {k}
    requires Lower(k) != UrlStem(t.links[0].1.url)
    requires Sections(t.children[k]) != []
    ensures SectionDirs(t) == [k]
  {
    assert Stems(t.links) == {UrlStem(t.links[0].1.url)};
    SectionDirsMembers(t, k);
    SectionDirsAscending(t);
    var dirs := SectionDirs(t);
    forall n | n in dirs
      ensures n == k
    {
      SectionDirsMembers(t, n);
    }
    OnlyMember(dirs, k);
  }

  // ---------------------------------------------------------------------
  // auto_generate_nav and build_navigation_by_source
  // ---------------------------------------------------------------------

  /** Documents ordered by source path. */
  predicate DocLe(a: Document, b: Document)
  {
    LexLe(a.sourcePath, b.sourcePath)
  }

  /** The parts of a source path: slashes trimmed from both ends, then split at each '/'. */
  function PathParts(p: string): (r: seq<string>)
    ensures r != []
  {
    Split(TrimStartChar(TrimEndMatches(p, "/"), '/'), {'/'})
  }

  /** The directories of a source path: its parts but the last. */
  function DirParts(p: string): seq<string>
  {
    var parts := PathParts(p);
    parts[..|parts| - 1]
  }

  /** A document is an index page when its file stem is "index". */
  predicate IsIndexDoc(d: Document)
  {
    FileStem(d.sourcePath) == Some("index")
  }

  /** The navigation link of a document: its title and URL, no children. */
  function DocLink(d: Document): NavLink
  {
    NavLink(Title(d), d.urlPath, [])
  }

  /** What inserting one document needs: its path parts, whether it is an index page, its link. */
  type Entry = (seq<string>, bool, NavLink)

  function EntryOf(d: Document): (e: Entry)
    ensures e.0 != []
  {
    (PathParts(d.sourcePath), IsIndexDoc(d), DocLink(d))
  }

  function EntriesOf(docs: seq<Document>): (es: seq<Entry>)
    ensures |es| == |docs| && forall k :: 0 <= k < |docs| ==> es[k] == EntryOf(docs[k])
  {
    seq(|docs|, k requires 0 <= k < |docs| => EntryOf(docs[k]))
  }

  /** The tree after inserting the entries in order. */
  function GrowEntries(t: NavTree, es: seq<Entry>): NavTree
    decreases |es|
  {
    if es == [] then t
    else GrowEntries(Insert(t, es[0].0, es[0].1, es[0].2), es[1..])
  }

  /** The tree after inserting `docs` in order. */
  function Grow(t: NavTree, docs: seq<Document>): NavTree
  {
    GrowEntries(t, EntriesOf(docs))
  }

  /** The tree `auto_generate_nav` builds: the documents sorted by path, inserted in that order. */
  function AutoTree(docs: seq<Document>): NavTree
  {
    Grow(EmptyTree, SortBy(docs, DocLe))
  }

  /** The auto-generated navigation of a list of documents. */
  function AutoNav(docs: seq<Document>): seq<NavSection>
  {
    Sections(AutoTree(docs))
  }

  /** The entry's link, flagged as index or not, sits at the node of its directories. */
  predicate Placed(tree: NavTree, e: Entry)
    requires e.0 != []
  {
    var node := Subtree(tree, e.0[..|e.0| - 1]);
    node.Some? && (e.1, e.2) in node.value.links
  }

  /** Growing the tree keeps every link it already has. */
  lemma {:induction false} GrowKeeps(t: NavTree, es: seq<Entry>, dirs: seq<string>, x: (bool, NavLink))
    requires Subtree(t, dirs).Some? && x in Subtree(t, dirs).value.links
    ensures Subtree(GrowEntries(t, es), dirs).Some? && x in Subtree(GrowEntries(t, es), dirs).value.links
    decreases |es|
  {
    if es != [] {
      InsertKeeps(t, es[0].0, es[0].1, es[0].2, dirs, x);
      GrowKeeps(Insert(t, es[0].0, es[0].1, es[0].2), es[1..], dirs, x);
    }
  }

  /** Every entry grown into the tree has its link at the node of its directories. */
  lemma {:induction false} GrowPlaces(t: NavTree, es: seq<Entry>, k: nat)
    requires k < |es| && forall j :: 0 <= j < |es| ==> es[j].0 != []
    ensures Placed(GrowEntries(t, es), es[k])
    decreases |es|
  {
    var e := es[0];
    var t' := Insert(t, e.0, e.1, e.2);
    if k == 0 {
      InsertAt(t, e.0, e.1, e.2);
      GrowKeeps(t', es[1..], e.0[..|e.0| - 1], (e.1, e.2));
    } else {
      GrowPlaces(t', es[1..], k - 1);
      assert es[1..][k - 1] == es[k];
    }
  }

  /**
   * Every document of the source appears in the tree: its link, flagged as
   * index or not, sits at the node of its directories.
   */
  lemma AutoTreePlaces(docs: seq<Document>, d: Document)
    requires d in docs
    ensures var node := Subtree(AutoTree(docs), DirParts(d.sourcePath));
      node.Some? && (IsIndexDoc(d), DocLink(d)) in node.value.links
  {
    var sorted := SortBy(docs, DocLe);
    SortByMembers(docs, DocLe, d);
    var k :| 0 <= k < |sorted| && sorted[k] == d;
    var es := EntriesOf(sorted);
    GrowPlaces(EmptyTree, es, k);
    PlacedDoc(GrowEntries(EmptyTree, es), d, es[k]);
  }

  /** For a document's own entry, the placement is at the document's directories. */
  lemma PlacedDoc(tree: NavTree, d: Document, e: Entry)
    requires e == EntryOf(d) && Placed(tree, e)
    ensures var node := Subtree(tree, DirParts(d.sourcePath));
      node.Some? && (IsIndexDoc(d), DocLink(d)) in node.value.links
  {
  }

  /**
   * `auto_generate_nav`: sort the documents by source path, insert each
   * one's link at its path, and turn the tree into navigation.
   */
  method AutoGenerateNav(docs: seq<Document>) returns (nav: seq<NavSection>)
    ensures nav == AutoNav(docs)
  {
    var sorted := SortBy(docs, DocLe);
    ghost var es := EntriesOf(sorted);
    var root := EmptyTree;
    var i := 0;
    assert es[0..] == es;
    while i < |sorted|
      invariant 0 <= i <= |sorted|
      invariant GrowEntries(root, es[i..]) == AutoTree(docs)
    {
      var d := sorted[i];
      assert es[i..][1..] == es[i + 1..] && es[i..][0] == EntryOf(d);
      root := Insert(root, PathParts(d.sourcePath), IsIndexDoc(d), DocLink(d));
      i := i + 1;
    }
    assert es[i..] == [];
    nav := IntoNavSections(root);
  }

  /** The documents among `items` that belong to the source `name`, in order. */
  function DocsOf(items: seq<(ContentItem, string)>, name: string): (r: seq<Document>)
    ensures forall k :: 0 <= k < |r| ==> r[k].sourceName == name
    decreases |items|
  {
    if items == [] then []
    else
      var rest := DocsOf(items[..|items| - 1], name);
      var last := items[|items| - 1].0;
      if last.DocumentItem? && last.doc.sourceName == name then rest + [last.doc] else rest
  }

  /** Only documents are grouped, each under its own source's name. */
  lemma {:induction false} DocsOfMembers(items: seq<(ContentItem, string)>, name: string, d: Document)
    ensures d in DocsOf(items, name) <==>
      d.sourceName == name && exists k :: 0 <= k < |items| && items[k].0 == DocumentItem(d)
    decreases |items|
  {
    if items != [] {
      var init := items[..|items| - 1];
      DocsOfMembers(init, name, d);
      if exists k :: 0 <= k < |items| && items[k].0 == DocumentItem(d) {
        var k :| 0 <= k < |items| && items[k].0 == DocumentItem(d);
        if k < |items| - 1 {
          assert init[k] == items[k];
        }
      }
      if exists k :: 0 <= k < |init| && init[k].0 == DocumentItem(d) {
        var k :| 0 <= k < |init| && init[k].0 == DocumentItem(d);
        assert items[k] == init[k];
      }
    }
  }

  /** The navigation of one source: its configured `nav` converted if it has one, else generated. */
  function NavFor(source: ResolvedSource, items: seq<(ContentItem, string)>): seq<NavSection>
  {
    var docs := DocsOf(items, source.config.name);
    match source.config.nav
    case Some(nav) => ConvertNavItems(nav, PathToDoc(docs))
    case None => AutoNav(docs)
  }

  /** No later source has the same name as the one at `i`. */
  predicate LastWithName(sources: seq<ResolvedSource>, i: nat)
    requires i < |sources|
  {
    forall k :: i < k < |sources| ==> sources[k].config.name != sources[i].config.name
  }

  function SourceNames(sources: seq<ResolvedSource>): set<string>
  {
    set i | 0 <= i < |sources| :: sources[i].config.name
  }

  /**
   * `build_navigation_by_source`: group the documents by source, then give
   * every resolved source its navigation, keyed by its name (a later source
   * of the same name replacing an earlier one).
   */
  method BuildNavigationBySource(items: seq<(ContentItem, string)>, sources: seq<ResolvedSource>)
      returns (navBySource: map<string, seq<NavSection>>)
    ensures navBySource.Keys == SourceNames(sources)
    ensures forall i :: 0 <= i < |sources| && LastWithName(sources, i) ==>
      navBySource[sources[i].config.name] == NavFor(sources[i], items)
  {
    var docsBySource := GroupDocuments(items);
    ghost var wanted := seq(|sources|, j requires 0 <= j < |sources| => NavFor(sources[j], items));
    navBySource := map[];
    var i := 0;
    while i < |sources|
      invariant 0 <= i <= |sources|
      invariant NavsUpTo(navBySource, sources, wanted, i)
    {
      var nav := SourceNav(sources[i], docsBySource, items);
      NavsStep(navBySource, sources, wanted, i, nav);
      navBySource := navBySource[sources[i].config.name := nav];
      i := i + 1;
    }
    assert sources[..i] == sources;
  }

  /** The state of the loop after the first `i` sources. */
  predicate NavsUpTo<V(==)>(navs: map<string, V>, sources: seq<ResolvedSource>, wanted: seq<V>, i: nat)
    requires i <= |sources| == |wanted|
  {
    navs.Keys == SourceNames(sources[..i]) &&
    forall j :: 0 <= j < i && LastWithName(sources[..i], j) ==> navs[sources[j].config.name] == wanted[j]
  }

  lemma NavsStep<V>(navs: map<string, V>, sources: seq<ResolvedSource>, wanted: seq<V>, i: nat, nav: V)
    requires i < |sources| == |wanted| && NavsUpTo(navs, sources, wanted, i) && nav == wanted[i]
    ensures NavsUpTo(navs[sources[i].config.name := nav], sources, wanted, i + 1)
  {
    NamesStep(sources, i);
    LastWithNameStep(sources, i);
  }

  /** The loop body for one source: look up its documents, then convert or generate. */
  method SourceNav(source: ResolvedSource, docsBySource: map<string, seq<Document>>, items: seq<(ContentItem, string)>)
      returns (nav: seq<NavSection>)
    requires forall n :: n in docsBySource ==> docsBySource[n] == DocsOf(items, n)
    requires forall n :: n !in docsBySource ==> DocsOf(items, n) == []
    ensures nav == NavFor(source, items)
  {
    var name := source.config.name;
    var docs := if name in docsBySource then docsBySource[name] else [];
    if source.config.nav.Some? {
      nav := ConvertNavItems(source.config.nav.value, PathToDoc(docs));
    } else {
      nav := AutoGenerateNav(docs);
    }
  }

  lemma NamesStep(sources: seq<ResolvedSource>, i: nat)
    requires i < |sources|
    ensures SourceNames(sources[..i + 1]) == SourceNames(sources[..i]) + {sources[i].config.name}
  {
    var a, b := sources[..i + 1], sources[..i];
    forall x | x in SourceNames(a)
      ensures x in SourceNames(b) + {sources[i].config.name}
    {
      var k :| 0 <= k < |a| && a[k].config.name == x;
      if k < i {
        assert b[k] == a[k];
      }
    }
    forall x | x in SourceNames(b)
      ensures x in SourceNames(a)
    {
      var k :| 0 <= k < |b| && b[k].config.name == x;
      assert a[k] == b[k];
    }
  }

  lemma LastWithNameStep(sources: seq<ResolvedSource>, i: nat)
    requires i < |sources|
    ensures LastWithName(sources[..i + 1], i)
    ensures forall j :: 0 <= j < i && LastWithName(sources[..i + 1], j) ==>
      LastWithName(sources[..i], j) && sources[j].config.name != sources[i].config.name
  {
    forall j | 0 <= j < i && LastWithName(sources[..i + 1], j)
      ensures LastWithName(sources[..i], j) && sources[j].config.name != sources[i].config.name
    {
      assert sources[..i + 1][i] == sources[i];
      forall k | j < k < i
        ensures sources[..i][k].config.name != sources[..i][j].config.name
      {
        assert sources[..i + 1][k] == sources[..i][k];
      }
    }
  }

  /** The grouping loop: each source's documents, in order, keyed by source name. */
  method GroupDocuments(items: seq<(ContentItem, string)>) returns (docsBySource: map<string, seq<Document>>)
    ensures forall n :: n in docsBySource ==> docsBySource[n] == DocsOf(items, n)
    ensures forall n :: n !in docsBySource ==> DocsOf(items, n) == []
  {
    docsBySource := map[];
    var i := 0;
    while i < |items|
      invariant 0 <= i <= |items|
      invariant Grouped(docsBySource, items[..i])
    {
      ghost var before := docsBySource;
      var item := items[i].0;
      if item.DocumentItem? {
        var name := item.doc.sourceName;
        var docs := if name in docsBySource then docsBySource[name] else [];
        docsBySource := docsBySource[name := docs + [item.doc]];
        GroupDocumentStep(before, items, i);
      } else {
        GroupOtherStep(before, items, i);
      }
      i := i + 1;
    }
    assert items[..i] == items;
  }

  /** The grouping loop's invariant: the map holds each source's documents among `items`. */
  ghost predicate Grouped(m: map<string, seq<Document>>, items: seq<(ContentItem, string)>)
  {
    (forall n :: n in m ==> m[n] == DocsOf(items, n)) &&
    (forall n :: n !in m ==> DocsOf(items, n) == [])
  }

  lemma GroupDocumentStep(m: map<string, seq<Document>>, items: seq<(ContentItem, string)>, i: nat)
    requires i < |items| && items[i].0.DocumentItem? && Grouped(m, items[..i])
    ensures var d := items[i].0.doc;
      Grouped(m[d.sourceName := (if d.sourceName in m then m[d.sourceName] else []) + [d]], items[..i + 1])
  {
    assert items[..i + 1][..i] == items[..i];
  }

  lemma GroupOtherStep(m: map<string, seq<Document>>, items: seq<(ContentItem, string)>, i: nat)
    requires i < |items| && !items[i].0.DocumentItem? && Grouped(m, items[..i])
    ensures Grouped(m, items[..i + 1])
  {
    assert items[..i + 1][..i] == items[..i];
  }
}
