/**
 * The parts of Markdown rendering (`build/markdown.rs`) that do not belong
 * to the CommonMark parser: checking the configured extension names,
 * turning heading text into a slug, giving every heading without an
 * explicit id a fresh one, and collecting the table of contents. The
 * parser is abstracted to the list of headings it reports.
 */
module Markdown {
  import opened Wrappers
  import opened Strings
  import opened Configuration
  import opened Formats

  datatype MarkdownError = InvalidExtension(name: string)

  /** The parser options the seven extension names switch on. */
  datatype MarkdownOption =
    | DefinitionList | Footnotes | Gfm | HeadingAttributes | Strikethrough | Tables | Tasklists

  /** The option an extension name enables; None for an unknown name. */
  function OptionFor(name: string): Option<MarkdownOption>
  {
    match name
    case "definition_lists" => Some(DefinitionList)
    case "footnotes" => Some(Footnotes)
    case "gfm" => Some(Gfm)
    case "heading_attributes" => Some(HeadingAttributes)
    case "strikethrough" => Some(Strikethrough)
    case "tables" => Some(Tables)
    case "tasklists" => Some(Tasklists)
    case _ => None
  }

  /** The known names are exactly the default ones, and each enables its own option. */
  lemma OptionForKnown(name: string)
    ensures OptionFor(name).Some? <==> name in DefaultMarkdownExtensions
    ensures forall other :: OptionFor(other).Some? && OptionFor(other) == OptionFor(name) ==> other == name
  {
  }

  /** The index of the first unknown extension name. */
  function FirstUnknown(names: seq<string>): (r: Option<nat>)
    ensures r.Some? ==> r.value < |names| && OptionFor(names[r.value]).None?
    ensures r.Some? ==> forall j :: 0 <= j < r.value ==> OptionFor(names[j]).Some?
    ensures r.None? ==> forall j :: 0 <= j < |names| ==> OptionFor(names[j]).Some?
    decreases |names|
  {
    if names == [] then None
    else if OptionFor(names[0]).None? then Some(0)
    else match FirstUnknown(names[1..])
      case None => None
      case Some(k) => Some(k + 1)
  }

  /**
   * The extension loop of `render_markdown`: every name must be known,
   * and the first unknown one is reported; otherwise the options of all
   * the names are enabled.
   */
  method ParseExtensions(names: seq<string>) returns (r: Result<set<MarkdownOption>, MarkdownError>)
    ensures r.Err? <==> FirstUnknown(names).Some?
    ensures r.Err? ==> r.error == InvalidExtension(names[FirstUnknown(names).value])
    ensures r.Ok? ==> forall o :: o in r.value <==> exists j :: 0 <= j < |names| && OptionFor(names[j]) == Some(o)
  {
    var options: set<MarkdownOption> := {};
    for i := 0 to |names|
      invariant forall j :: 0 <= j < i ==> OptionFor(names[j]).Some?
      invariant forall o :: o in options <==> exists j :: 0 <= j < i && OptionFor(names[j]) == Some(o)
    {
      match OptionFor(names[i])
      case None =>
        return Err(InvalidExtension(names[i]));
      case Some(o) =>
        options := options + {o};
    }
    return Ok(options);
  }

  /** The default extensions are all accepted. */
  lemma DefaultsAccepted()
    ensures FirstUnknown(DefaultMarkdownExtensions) == None
  {
  }

  /** The name that enables an option: one of the defaults, so the defaults enable every option. */
  function NameOf(o: MarkdownOption): (name: string)
    ensures OptionFor(name) == Some(o)
    ensures name in DefaultMarkdownExtensions
  {
    match o
    case DefinitionList => "definition_lists"
    case Footnotes => "footnotes"
    case Gfm => "gfm"
    case HeadingAttributes => "heading_attributes"
    case Strikethrough => "strikethrough"
    case Tables => "tables"
    case Tasklists => "tasklists"
  }

  /** An unknown name is rejected and named in the error. */
  lemma UnknownExtensionRejected()
    ensures FirstUnknown(["not_a_real_extension"]) == Some(0)
  {
  }

  // ---------------------------------------------------------------------
  // Slugs
  // ---------------------------------------------------------------------

  /** The characters a slug keeps. */
  predicate IsSlugChar(c: char)
  {
    IsAsciiAlphanumeric(c) || c == '-'
  }

  /** Removing every character that is neither alphanumeric nor `-`. */
  function KeepSlugChars(s: string): (r: string)
    ensures forall c :: c in r ==> c in s && IsSlugChar(c)
    decreases |s|
  {
    if s == [] then []
    else (if IsSlugChar(s[0]) then [s[0]] else []) + KeepSlugChars(s[1..])
  }

  /** `slugify`: lower-case, spaces to `-`, then drop the other non-alphanumeric characters. */
  function Slugify(s: string): (r: string)
    ensures forall c :: c in r ==> IsAsciiLower(c) || IsAsciiDigit(c) || c == '-'
  {
    var spaced := ReplaceChar(Lower(s), ' ', "-");
    assert forall c :: c in Lower(s) ==> !IsAsciiUpper(c);
    KeepSlugChars(spaced)
  }

  /** What `slugify` makes of a single character. */
  function SlugOfChar(c: char): string
  {
    var l := LowerChar(c);
    if l == ' ' then "-" else if IsSlugChar(l) then [l] else []
  }

  /** Slugging character by character. */
  function SlugEach(s: string): string
    decreases |s|
  {
    if s == [] then [] else SlugOfChar(s[0]) + SlugEach(s[1..])
  }

  lemma {:induction false} KeepSlugCharsAppend(a: string, b: string)
    ensures KeepSlugChars(a + b) == KeepSlugChars(a) + KeepSlugChars(b)
    decreases |a|
  {
    if a == [] {
      assert a + b == b;
    } else {
      assert (a + b)[0] == a[0] && (a + b)[1..] == a[1..] + b;
      KeepSlugCharsAppend(a[1..], b);
    }
  }

  lemma LowerCons(c: char, t: string)
    ensures Lower([c] + t) == [LowerChar(c)] + Lower(t)
  {
  }

  lemma SlugifyChar(c: char)
    ensures KeepSlugChars(ReplaceChar([LowerChar(c)], ' ', "-")) == SlugOfChar(c)
  {
    var l := LowerChar(c);
    assert [l][1..] == [];
    if l == ' ' {
      assert KeepSlugChars("-") == "-" by { assert "-"[1..] == []; }
    }
  }

  /** The three steps of `slugify` act on each character on its own. */
  lemma {:induction false} SlugifyEach(s: string)
    ensures Slugify(s) == SlugEach(s)
    decreases |s|
  {
    if s != [] {
      var c, t := s[0], s[1..];
      assert s == [c] + t;
      LowerCons(c, t);
      ReplaceCharAppend([LowerChar(c)], Lower(t), ' ', "-");
      KeepSlugCharsAppend(ReplaceChar([LowerChar(c)], ' ', "-"), ReplaceChar(Lower(t), ' ', "-"));
      SlugifyChar(c);
      SlugifyEach(t);
    }
  }

  lemma {:induction false} SlugEachFixed(s: string)
    requires forall c :: c in s ==> IsAsciiLower(c) || IsAsciiDigit(c) || c == '-'
    ensures SlugEach(s) == s
    decreases |s|
  {
    if s != [] {
      assert s[0] in s;
      SlugEachFixed(s[1..]);
    }
  }

  /** A slug is its own slug. */
  lemma SlugifyIdempotent(s: string)
    ensures Slugify(Slugify(s)) == Slugify(s)
  {
    SlugifyEach(Slugify(s));
    SlugEachFixed(Slugify(s));
  }

  lemma {:induction false} SlugEachAppend(a: string, b: string)
    ensures SlugEach(a + b) == SlugEach(a) + SlugEach(b)
    decreases |a|
  {
    if a == [] {
      assert a + b == b;
    } else {
      assert (a + b)[0] == a[0] && (a + b)[1..] == a[1..] + b;
      SlugEachAppend(a[1..], b);
    }
  }

  /** Slugging two words separated by a space joins their slugs with `-`. */
  lemma SlugTwoWords(a: string, b: string)
    ensures Slugify(a + " " + b) == SlugEach(a) + "-" + SlugEach(b)
  {
    SlugifyEach(a + " " + b);
    SlugEachAppend(a + " ", b);
    SlugEachAppend(a, " ");
    assert SlugEach(" ") == "-" by { assert " "[1..] == []; }
  }

  /** The examples of the test module of `build/markdown.rs`. */
  lemma SlugifyExamples(a: string, b: string, c: string)
    requires a == "Hello World" && b == "What's New?" && c == "API Reference"
    ensures Slugify(a) == "hello-world"
    ensures Slugify(b) == "whats-new"
    ensures Slugify(c) == "api-reference"
  {
    SlugExampleSplits();
    SlugTwoWords("Hello", "World");
    SlugTwoWords("What's", "New?");
    SlugTwoWords("API", "Reference");
    SlugHello();
    SlugWorld();
    SlugWhats();
    SlugNew();
    SlugAPI();
    SlugReference();
    SlugJoinFacts();
  }

  lemma SlugExampleSplits()
    ensures "Hello World" == "Hello" + " " + "World"
    ensures "What's New?" == "What's" + " " + "New?"
    ensures "API Reference" == "API" + " " + "Reference"
  {
  }

  lemma SlugHello()
    ensures SlugEach("Hello") == "hello"
  {
  }

  lemma SlugWorld()
    ensures SlugEach("World") == "world"
  {
  }

  lemma SlugWhats()
    ensures SlugEach("What's") == "whats"
  {
    assert "What's" == "Wha" + "t's";
    SlugEachAppend("Wha", "t's");
    SlugWhatsParts();
  }

  lemma SlugWhatsParts()
    ensures SlugEach("Wha") == "wha" && SlugEach("t's") == "ts"
    ensures "wha" + "ts" == "whats"
  {
  }

  lemma SlugNew()
    ensures SlugEach("New?") == "new"
  {
  }

  lemma SlugAPI()
    ensures SlugEach("API") == "api"
  {
  }

  lemma SlugReference()
    ensures SlugEach("Reference") == "reference"
  {
    assert "Reference" == "Refer" + "ence";
    SlugEachAppend("Refer", "ence");
    SlugRefer();
  }

  lemma SlugRefer()
    ensures SlugEach("Refer") == "refer" && SlugEach("ence") == "ence"
    ensures "refer" + "ence" == "reference"
  {
  }

  lemma SlugJoinFacts()
    ensures "hello" + "-" + "world" == "hello-world"
    ensures "whats" + "-" + "new" == "whats-new"
    ensures "api" + "-" + "reference" == "api-reference"
  {
  }

  // ---------------------------------------------------------------------
  // Heading ids
  // ---------------------------------------------------------------------

  /** The `n`-th id tried for a heading: the slug itself, then `slug-1`, `slug-2`, ... */
  function Candidate(base: string, n: nat): string
  {
    if n == 0 then base else base + "-" + NatToString(n)
  }

  /** Different attempts give different ids. */
  lemma CandidateInjective(base: string, i: nat, j: nat)
    requires Candidate(base, i) == Candidate(base, j)
    ensures i == j
  {
    if i > 0 && j > 0 {
      var a, b := Candidate(base, i), Candidate(base, j);
      assert a[|base| + 1..] == NatToString(i);
      assert b[|base| + 1..] == NatToString(j);
      NatToStringInjective(i, j);
    }
  }

  /** The first `n` candidates. */
  function Candidates(base: string, n: nat): set<string>
  {
    if n == 0 then {} else Candidates(base, n - 1) + {Candidate(base, n - 1)}
  }

  lemma {:induction false} CandidatesMembers(base: string, n: nat, x: string)
    ensures x in Candidates(base, n) <==> exists j :: 0 <= j < n && x == Candidate(base, j)
  {
    if n > 0 {
      CandidatesMembers(base, n - 1, x);
    }
  }

  /** The first `n` candidates are `n` distinct ids. */
  lemma {:induction false} CandidatesSize(base: string, n: nat)
    ensures |Candidates(base, n)| == n
  {
    if n > 0 {
      CandidatesSize(base, n - 1);
      if Candidate(base, n - 1) in Candidates(base, n - 1) {
        CandidatesMembers(base, n - 1, Candidate(base, n - 1));
        var j :| 0 <= j < n - 1 && Candidate(base, n - 1) == Candidate(base, j);
        CandidateInjective(base, n - 1, j);
      }
    }
  }

  /** Only as many candidates as there are used ids can all be taken. */
  lemma TakenBound(used: set<string>, base: string, n: nat)
    requires forall j :: 0 <= j < n ==> Candidate(base, j) in used
    ensures n <= |used|
  {
    forall x | x in Candidates(base, n) ensures x in used {
      CandidatesMembers(base, n, x);
    }
    CandidatesSize(base, n);
    SubsetSize(Candidates(base, n), used);
  }

  lemma {:induction false} SubsetSize(a: set<string>, b: set<string>)
    requires a <= b
    ensures |a| <= |b|
    decreases a
  {
    if a != {} {
      var x :| x in a;
      SubsetSize(a - {x}, b - {x});
    }
  }

  /** `n` is the first attempt that is not yet used. */
  ghost predicate IsLeastFree(used: set<string>, base: string, n: nat)
  {
    Candidate(base, n) !in used && forall j :: 0 <= j < n ==> Candidate(base, j) in used
  }

  /** The index of the first unused candidate, searching from `n`. */
  function LeastFreeFrom(used: set<string>, base: string, n: nat): (r: nat)
    requires forall j :: 0 <= j < n ==> Candidate(base, j) in used
    ensures n <= r && Candidate(base, r) !in used
    ensures forall j :: 0 <= j < r ==> Candidate(base, j) in used
    decreases |used| - n
  {
    if Candidate(base, n) !in used then n
    else
      TakenBound(used, base, n + 1);
      LeastFreeFrom(used, base, n + 1)
  }

  /** The index of the id a heading with slug `base` receives. */
  function LeastFree(used: set<string>, base: string): (r: nat)
    ensures IsLeastFree(used, base, r)
  {
    LeastFreeFrom(used, base, 0)
  }

  /** There is only one first unused candidate. */
  lemma LeastFreeUnique(used: set<string>, base: string, n: nat)
    requires IsLeastFree(used, base, n)
    ensures n == LeastFree(used, base)
  {
  }

  /**
   * The suffix loop of `render_markdown`: try the slug, then `slug-1`,
   * `slug-2`, ... until one is not used yet.
   */
  method UniqueId(used: set<string>, base: string) returns (id: string)
    ensures id !in used
    ensures id == Candidate(base, LeastFree(used, base))
  {
    id := base;
    var suffix: nat := 1;
    while id in used
      invariant suffix >= 1 && id == Candidate(base, suffix - 1)
      invariant forall j :: 0 <= j < suffix - 1 ==> Candidate(base, j) in used
      decreases |used| - (suffix - 1)
    {
      TakenBound(used, base, suffix);
      id := base + "-" + NatToString(suffix);
      suffix := suffix + 1;
    }
    LeastFreeUnique(used, base, suffix - 1);
  }

  /** An unused slug is taken as it is. */
  lemma FreeSlugKept(used: set<string>, base: string)
    requires base !in used
    ensures Candidate(base, LeastFree(used, base)) == base
  {
    LeastFreeUnique(used, base, 0);
  }

  /** The id a heading with text `text` receives when the ids `used` are taken. */
  function NextId(used: set<string>, text: string): (id: string)
    ensures id !in used
  {
    Candidate(Slugify(text), LeastFree(used, Slugify(text)))
  }

  /** A heading as the parser reports it: its level, its text and the id written in the source, if any. */
  datatype Heading = Heading(level: nat, text: string, id: Option<string>)

  /** The headings that receive a generated id, in order. */
  function AutoHeadings(headings: seq<Heading>): seq<Heading>
    decreases |headings|
  {
    if headings == [] then []
    else (if headings[0].id.None? then [headings[0]] else []) + AutoHeadings(headings[1..])
  }

  /** The ids written in the source. */
  function ExplicitIds(headings: seq<Heading>): set<string>
    decreases |headings|
  {
    if headings == [] then {}
    else (if headings[0].id.Some? then {headings[0].id.value} else {}) + ExplicitIds(headings[1..])
  }

  function IdsOf(toc: seq<TocEntry>): set<string>
  {
    set k | 0 <= k < |toc| :: toc[k].id
  }

  /**
   * Processing the headings in order with the ids `used` so far: an
   * explicit id is recorded; any other heading receives the first unused
   * candidate of its slug, which is recorded and listed in the table of
   * contents. Gives the table of contents and the ids used afterwards.
   */
  function AssignFrom(headings: seq<Heading>, used: set<string>): (r: (seq<TocEntry>, set<string>))
    decreases |headings|
  {
    if headings == [] then ([], used)
    else
      var h := headings[0];
      match h.id
      case Some(e) => AssignFrom(headings[1..], used + {e})
      case None =>
        var id := NextId(used, h.text);
        var rest := AssignFrom(headings[1..], used + {id});
        ([TocEntry(h.text, id, h.level)] + rest.0, rest.1)
  }

  /** The table of contents of a page. */
  function TocOf(headings: seq<Heading>): seq<TocEntry>
  {
    AssignFrom(headings, {}).0
  }

  /** `toc` has one entry per heading of `auto`, in order, with its text and level. */
  predicate EntriesFor(toc: seq<TocEntry>, auto: seq<Heading>)
  {
    |toc| == |auto| &&
    forall k :: 0 <= k < |toc| ==> toc[k].text == auto[k].text && toc[k].level == auto[k].level
  }

  /** One entry per heading without an explicit id, in order, with its text and level. */
  lemma {:induction false} AssignEntries(headings: seq<Heading>, used: set<string>)
    ensures EntriesFor(AssignFrom(headings, used).0, AutoHeadings(headings))
    decreases |headings|
  {
    if headings != [] {
      var h := headings[0];
      match h.id
      case Some(e) =>
        AssignEntries(headings[1..], used + {e});
      case None =>
        var id := NextId(used, h.text);
        AssignEntries(headings[1..], used + {id});
        EntriesCons(TocEntry(h.text, id, h.level), AssignFrom(headings[1..], used + {id}).0, h, AutoHeadings(headings[1..]));
    }
  }

  lemma EntriesCons(e: TocEntry, toc: seq<TocEntry>, h: Heading, auto: seq<Heading>)
    requires EntriesFor(toc, auto) && e.text == h.text && e.level == h.level
    ensures EntriesFor([e] + toc, [h] + auto)
  {
  }

  /** No id of `toc` is in `used`, and no two of them are the same. */
  predicate FreshIds(toc: seq<TocEntry>, used: set<string>)
  {
    (forall k :: 0 <= k < |toc| ==> toc[k].id !in used) &&
    forall k, l :: 0 <= k < l < |toc| ==> toc[k].id != toc[l].id
  }

  /** No generated id was in use before, and no two generated ids are the same. */
  lemma {:induction false} AssignFresh(headings: seq<Heading>, used: set<string>)
    ensures FreshIds(AssignFrom(headings, used).0, used)
    decreases |headings|
  {
    if headings != [] {
      var h := headings[0];
      match h.id
      case Some(e) =>
        AssignFresh(headings[1..], used + {e});
      case None =>
        var id := NextId(used, h.text);
        var rest := AssignFrom(headings[1..], used + {id}).0;
        AssignFresh(headings[1..], used + {id});
        var toc := [TocEntry(h.text, id, h.level)] + rest;
        assert AssignFrom(headings, used).0 == toc;
        forall k, l | 0 <= k < l < |toc| ensures toc[k].id != toc[l].id {
          assert toc[l].id == rest[l - 1].id;
          if k > 0 { assert toc[k].id == rest[k - 1].id; }
        }
        forall k | 0 <= k < |toc| ensures toc[k].id !in used {
          if k > 0 { assert toc[k].id == rest[k - 1].id; }
        }
    }
  }

  /** Afterwards, every explicit and every generated id counts as used. */
  lemma {:induction false} AssignUsed(headings: seq<Heading>, used: set<string>)
    ensures AssignFrom(headings, used).1 == used + ExplicitIds(headings) + IdsOf(AssignFrom(headings, used).0)
    decreases |headings|
  {
    if headings != [] {
      var h := headings[0];
      match h.id
      case Some(e) =>
        AssignUsed(headings[1..], used + {e});
      case None =>
        var id := NextId(used, h.text);
        var rest := AssignFrom(headings[1..], used + {id});
        AssignUsed(headings[1..], used + {id});
        assert IdsOf([TocEntry(h.text, id, h.level)] + rest.0) == {id} + IdsOf(rest.0) by {
          var toc := [TocEntry(h.text, id, h.level)] + rest.0;
          forall x | x in IdsOf(toc) ensures x in {id} + IdsOf(rest.0) {
            var k :| 0 <= k < |toc| && toc[k].id == x;
            if k > 0 { assert rest.0[k - 1].id == x; }
          }
          forall x | x in IdsOf(rest.0) ensures x in IdsOf(toc) {
            var k :| 0 <= k < |rest.0| && rest.0[k].id == x;
            assert toc[k + 1].id == x;
          }
          assert toc[0].id == id;
        }
    }
  }

  /** Processing a page in two parts: the second starts with the ids the first used. */
  lemma {:induction false} AssignSplit(a: seq<Heading>, b: seq<Heading>, used: set<string>)
    ensures AssignFrom(a + b, used) ==
      (AssignFrom(a, used).0 + AssignFrom(b, AssignFrom(a, used).1).0, AssignFrom(b, AssignFrom(a, used).1).1)
    decreases |a|
  {
    if a == [] {
      assert a + b == b;
      assert [] + AssignFrom(b, used).0 == AssignFrom(b, used).0;
    } else {
      assert (a + b)[0] == a[0] && (a + b)[1..] == a[1..] + b;
      var h := a[0];
      match h.id
      case Some(e) =>
        AssignSplit(a[1..], b, used + {e});
      case None =>
        var id := NextId(used, h.text);
        AssignSplit(a[1..], b, used + {id});
        var e := [TocEntry(h.text, id, h.level)];
        var first := AssignFrom(a[1..], used + {id});
        var second := AssignFrom(b, first.1);
        assert e + (first.0 + second.0) == (e + first.0) + second.0;
    }
  }

  /**
   * The id a heading without one receives is its slug's first free
   * candidate given everything before it, so it differs from every
   * explicit and every generated id of the earlier headings.
   */
  lemma NoEarlierId(a: seq<Heading>, h: Heading, b: seq<Heading>)
    requires h.id.None?
    ensures var before := AssignFrom(a, {});
      var toc := TocOf(a + [h] + b);
      |before.0| < |toc| &&
      toc[|before.0|] == TocEntry(h.text, NextId(before.1, h.text), h.level) &&
      toc[|before.0|].id !in ExplicitIds(a) && toc[|before.0|].id !in IdsOf(before.0)
  {
    var before := AssignFrom(a, {});
    AssignSplit(a, [h] + b, {});
    assert a + [h] + b == a + ([h] + b);
    assert ([h] + b)[0] == h && ([h] + b)[1..] == b;
    AssignUsed(a, {});
  }

  /**
   * The extension check, then the headings: the table of contents part of
   * `render_markdown` (the HTML itself comes from the parser).
   */
  method RenderToc(config: MarkdownConfig, headings: seq<Heading>) returns (r: Result<seq<TocEntry>, MarkdownError>)
    ensures r.Err? <==> FirstUnknown(config.extensions).Some?
    ensures r.Err? ==> r.error == InvalidExtension(config.extensions[FirstUnknown(config.extensions).value])
    ensures r.Ok? ==> r.value == TocOf(headings)
  {
    var options := ParseExtensions(config.extensions);
    if options.Err? {
      return Err(options.error);
    }
    var used: set<string> := {};
    var toc: seq<TocEntry> := [];
    assert headings[0..] == headings;
    assert [] + AssignFrom(headings, used).0 == AssignFrom(headings, used).0;
    for i := 0 to |headings|
      invariant AssignFrom(headings, {}) == (toc + AssignFrom(headings[i..], used).0, AssignFrom(headings[i..], used).1)
    {
      AssignStep(headings, i, used);
      var h := headings[i];
      match h.id
      case Some(e) =>
        used := used + {e};
      case None =>
        var id := UniqueId(used, Slugify(h.text));
        used := used + {id};
        ghost var rest := AssignFrom(headings[i + 1..], used);
        assert toc + ([TocEntry(h.text, id, h.level)] + rest.0) == (toc + [TocEntry(h.text, id, h.level)]) + rest.0;
        toc := toc + [TocEntry(h.text, id, h.level)];
    }
    assert headings[|headings|..] == [];
    return Ok(toc);
  }

  lemma AssignStep(headings: seq<Heading>, i: nat, used: set<string>)
    requires i < |headings|
    ensures headings[i].id.Some? ==> AssignFrom(headings[i..], used) == AssignFrom(headings[i + 1..], used + {headings[i].id.value})
    ensures headings[i].id.None? ==> (AssignFrom(headings[i..], used) ==
      ([TocEntry(headings[i].text, NextId(used, headings[i].text), headings[i].level)] + AssignFrom(headings[i + 1..], used + {NextId(used, headings[i].text)}).0,
       AssignFrom(headings[i + 1..], used + {NextId(used, headings[i].text)}).1))
  {
    assert headings[i..][0] == headings[i] && headings[i..][1..] == headings[i + 1..];
  }

  lemma AssignAuto(h: Heading, rest: seq<Heading>, used: set<string>)
    requires h.id.None?
    ensures AssignFrom([h] + rest, used) ==
      ([TocEntry(h.text, NextId(used, h.text), h.level)] + AssignFrom(rest, used + {NextId(used, h.text)}).0,
       AssignFrom(rest, used + {NextId(used, h.text)}).1)
  {
    assert ([h] + rest)[0] == h && ([h] + rest)[1..] == rest;
  }

  lemma AssignExplicit(h: Heading, rest: seq<Heading>, used: set<string>)
    requires h.id.Some?
    ensures AssignFrom([h] + rest, used) == AssignFrom(rest, used + {h.id.value})
  {
    assert ([h] + rest)[0] == h && ([h] + rest)[1..] == rest;
  }

  /** A page with one heading: its slug becomes its id (the basic example of the tests). */
  lemma SingleHeading(level: nat, text: string)
    ensures TocOf([Heading(level, text, None)]) == [TocEntry(text, Slugify(text), level)]
  {
    var h := Heading(level, text, None);
    assert [h] == [h] + [];
    AssignAuto(h, [], {});
    FreeSlugKept({}, Slugify(text));
  }

  /** Two headings with the same text: the second receives the slug with `-1`. */
  lemma RepeatedHeading(l1: nat, l2: nat, text: string)
    ensures TocOf([Heading(l1, text, None), Heading(l2, text, None)]) ==
      [TocEntry(text, Slugify(text), l1), TocEntry(text, Slugify(text) + "-1", l2)]
  {
    var base := Slugify(text);
    var h1, h2 := Heading(l1, text, None), Heading(l2, text, None);
    assert [h1, h2] == [h1] + [h2] && [h2] == [h2] + [];
    AssignAuto(h1, [h2], {});
    FreeSlugKept({}, base);
    AssignAuto(h2, [], {base});
    SecondCandidate(base);
  }

  /** A heading whose slug equals an earlier explicit id receives the slug with `-1`. */
  lemma ExplicitIdRespected(l1: nat, l2: nat, t1: string, text: string)
    ensures TocOf([Heading(l1, t1, Some(Slugify(text))), Heading(l2, text, None)]) == [TocEntry(text, Slugify(text) + "-1", l2)]
  {
    var base := Slugify(text);
    var h1, h2 := Heading(l1, t1, Some(base)), Heading(l2, text, None);
    assert [h1, h2] == [h1] + [h2] && [h2] == [h2] + [];
    AssignExplicit(h1, [h2], {});
    assert {} + {base} == {base};
    AssignAuto(h2, [], {base});
    SecondCandidate(base);
  }

  lemma SecondCandidate(base: string)
    ensures LeastFree({base}, base) == 1 && Candidate(base, 1) == base + "-1"
  {
    assert NatToString(1) == "1";
    assert |Candidate(base, 1)| > |base|;
    LeastFreeUnique({base}, base, 1);
  }
}
