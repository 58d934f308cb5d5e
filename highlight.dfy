/**
 * The fallback of the syntax highlighter (`build/highlight.rs`): HTML
 * escaping and the plain code block used when a language is not
 * recognised or highlighting fails. Language detection and the
 * highlighting itself belong to a foreign library and are parameters.
 */
module Highlight {
  import opened Wrappers
  import opened Strings

  /** `html_escape`: `&` first, then `<`, `>` and `"`, each replaced everywhere. */
  function HtmlEscape(s: string): (r: string)
    ensures '<' !in r && '>' !in r && '"' !in r
  {
    var amp := ReplaceChar(s, '&', "&amp;");
    var lt := ReplaceChar(amp, '<', "&lt;");
    var gt := ReplaceChar(lt, '>', "&gt;");
    ReplaceChar(gt, '"', "&quot;")
  }

  /** What escaping makes of one character. */
  function EscapeChar(c: char): string
  {
    if c == '&' then "&amp;"
    else if c == '<' then "&lt;"
    else if c == '>' then "&gt;"
    else if c == '"' then "&quot;"
    else [c]
  }

  /** Escaping character by character. */
  function EscapeEach(s: string): string
    decreases |s|
  {
    if s == [] then [] else EscapeChar(s[0]) + EscapeEach(s[1..])
  }

  /** Escaping one character by the chained replacements. */
  lemma EscapeOne(c: char)
    ensures HtmlEscape([c]) == EscapeChar(c)
  {
    if c == '&' {
      EscapeAmp();
    } else if c == '<' {
      EscapeLt();
    } else if c == '>' {
      EscapeGt();
    } else {
      ReplaceOne(c, '&', "&amp;");
      ReplaceOne(c, '<', "&lt;");
      ReplaceOne(c, '>', "&gt;");
      ReplaceOne(c, '"', "&quot;");
    }
  }

  lemma EscapeAmp()
    ensures HtmlEscape("&") == "&amp;"
  {
    ReplaceOne('&', '&', "&amp;");
    AmpKept();
  }

  /** An escaped ampersand is left alone by the later replacements. */
  lemma AmpKept()
    ensures ReplaceChar("&amp;", '<', "&lt;") == "&amp;"
    ensures ReplaceChar("&amp;", '>', "&gt;") == "&amp;"
    ensures ReplaceChar("&amp;", '"', "&quot;") == "&amp;"
  {
    assert '<' !in "&amp;" && '>' !in "&amp;" && '"' !in "&amp;";
    ReplaceCharAbsent("&amp;", '<', "&lt;");
    ReplaceCharAbsent("&amp;", '>', "&gt;");
    ReplaceCharAbsent("&amp;", '"', "&quot;");
  }

  lemma EscapeLt()
    ensures HtmlEscape("<") == "&lt;"
  {
    ReplaceOne('<', '&', "&amp;");
    ReplaceOne('<', '<', "&lt;");
    LtKept();
  }

  lemma LtKept()
    ensures ReplaceChar("&lt;", '>', "&gt;") == "&lt;"
    ensures ReplaceChar("&lt;", '"', "&quot;") == "&lt;"
  {
    assert '>' !in "&lt;" && '"' !in "&lt;";
    ReplaceCharAbsent("&lt;", '>', "&gt;");
    ReplaceCharAbsent("&lt;", '"', "&quot;");
  }

  lemma EscapeGt()
    ensures HtmlEscape(">") == "&gt;"
  {
    ReplaceOne('>', '&', "&amp;");
    ReplaceOne('>', '<', "&lt;");
    ReplaceOne('>', '>', "&gt;");
    GtKept();
  }

  lemma GtKept()
    ensures ReplaceChar("&gt;", '"', "&quot;") == "&gt;"
  {
    assert '"' !in "&gt;";
    ReplaceCharAbsent("&gt;", '"', "&quot;");
  }

  lemma ReplaceOne(x: char, c: char, rep: string)
    ensures ReplaceChar([x], c, rep) == if x == c then rep else [x]
  {
    assert [x][1..] == [];
  }

  /**
   * Because `&` is replaced first, the entities the later replacements
   * introduce are not escaped again: the chain escapes each character on
   * its own.
   */
  lemma {:induction false} HtmlEscapeEach(s: string)
    ensures HtmlEscape(s) == EscapeEach(s)
    decreases |s|
  {
    if s != [] {
      var c, t := s[0], s[1..];
      assert s == [c] + t;
      HtmlEscapeAppend([c], t);
      EscapeOne(c);
      HtmlEscapeEach(t);
    }
  }

  lemma HtmlEscapeAppend(a: string, b: string)
    ensures HtmlEscape(a + b) == HtmlEscape(a) + HtmlEscape(b)
  {
    var amp := ReplaceChar(a + b, '&', "&amp;");
    ReplaceCharAppend(a, b, '&', "&amp;");
    var ampA, ampB := ReplaceChar(a, '&', "&amp;"), ReplaceChar(b, '&', "&amp;");
    ReplaceCharAppend(ampA, ampB, '<', "&lt;");
    var ltA, ltB := ReplaceChar(ampA, '<', "&lt;"), ReplaceChar(ampB, '<', "&lt;");
    ReplaceCharAppend(ltA, ltB, '>', "&gt;");
    var gtA, gtB := ReplaceChar(ltA, '>', "&gt;"), ReplaceChar(ltB, '>', "&gt;");
    ReplaceCharAppend(gtA, gtB, '"', "&quot;");
  }

  /** Decoding the four entities escaping produces; every other character stays. */
  function Unescape(s: string): string
    decreases |s|
  {
    if s == [] then []
    else if StartsWith(s, "&amp;") then "&" + Unescape(s[5..])
    else if StartsWith(s, "&lt;") then "<" + Unescape(s[4..])
    else if StartsWith(s, "&gt;") then ">" + Unescape(s[4..])
    else if StartsWith(s, "&quot;") then "\"" + Unescape(s[6..])
    else [s[0]] + Unescape(s[1..])
  }

  lemma UnescapeChar(c: char, rest: string)
    ensures Unescape(EscapeChar(c) + rest) == [c] + Unescape(rest)
  {
    if c == '&' {
      UnescapeEntity("&amp;", c, rest);
    } else if c == '<' {
      UnescapeEntity("&lt;", c, rest);
    } else if c == '>' {
      UnescapeEntity("&gt;", c, rest);
    } else if c == '"' {
      UnescapeEntity("&quot;", c, rest);
    } else {
      UnescapePlain(c, rest);
    }
  }

  lemma UnescapeEntity(e: string, c: char, rest: string)
    requires (e, c) in [("&amp;", '&'), ("&lt;", '<'), ("&gt;", '>'), ("&quot;", '"')]
    ensures Unescape(e + rest) == [c] + Unescape(rest)
  {
    var s := e + rest;
    assert s[..|e|] == e && s[|e|..] == rest;
    assert s[1] == e[1] && StartsWith(s, e);
    if e != "&amp;" {
      assert !StartsWith(s, "&amp;") by {
        if |s| >= 5 { assert s[..5][1] == e[1]; }
      }
    }
    if e == "&quot;" {
      assert !StartsWith(s, "&lt;") && !StartsWith(s, "&gt;") by { assert s[..4][1] == 'q'; }
    }
  }

  lemma UnescapePlain(c: char, rest: string)
    requires c != '&'
    ensures Unescape([c] + rest) == [c] + Unescape(rest)
  {
    var s := [c] + rest;
    assert s[0] == c && s[1..] == rest;
  }

  /** Escaping loses nothing: decoding gives the text back. */
  lemma {:induction false} UnescapeEscape(s: string)
    ensures Unescape(HtmlEscape(s)) == s
  {
    HtmlEscapeEach(s);
    UnescapeEach(s);
  }

  lemma {:induction false} UnescapeEach(s: string)
    ensures Unescape(EscapeEach(s)) == s
    decreases |s|
  {
    if s != [] {
      UnescapeChar(s[0], EscapeEach(s[1..]));
      UnescapeEach(s[1..]);
    }
  }

  /** The example of the test module of `build/highlight.rs`. */
  lemma EscapeDivExample(s: string)
    requires s == "<div>&</div>"
    ensures HtmlEscape(s) == "&lt;div&gt;&amp;&lt;/div&gt;"
  {
    DivFacts();
    EscapeThree("<" + "div" + ">", "&", "<" + "/div" + ">");
    EscapeTag("div");
    EscapeTag("/div");
    EscapeOne('&');
  }

  lemma DivFacts()
    ensures "<div>&</div>" == ("<" + "div" + ">") + "&" + ("<" + "/div" + ">")
    ensures ("&lt;" + "div" + "&gt;") + "&amp;" + ("&lt;" + "/div" + "&gt;") == "&lt;div&gt;&amp;&lt;/div&gt;"
  {
  }

  lemma EscapeThree(a: string, b: string, c: string)
    ensures HtmlEscape(a + b + c) == HtmlEscape(a) + HtmlEscape(b) + HtmlEscape(c)
  {
    HtmlEscapeAppend(a + b, c);
    HtmlEscapeAppend(a, b);
  }

  /** A tag whose name needs no escaping. */
  lemma EscapeTag(name: string)
    requires '&' !in name && '<' !in name && '>' !in name && '"' !in name
    ensures HtmlEscape("<" + name + ">") == "&lt;" + name + "&gt;"
  {
    PlainText(name);
    EscapeOne('<');
    EscapeOne('>');
    HtmlEscapeAppend("<" + name, ">");
    HtmlEscapeAppend("<", name);
  }

  /** Text without any of the four characters is left as it is. */
  lemma PlainText(s: string)
    requires '&' !in s && '<' !in s && '>' !in s && '"' !in s
    ensures HtmlEscape(s) == s
  {
    ReplaceCharAbsent(s, '&', "&amp;");
    ReplaceCharAbsent(s, '<', "&lt;");
    ReplaceCharAbsent(s, '>', "&gt;");
    ReplaceCharAbsent(s, '"', "&quot;");
  }

  // ---------------------------------------------------------------------
  // Code blocks
  // ---------------------------------------------------------------------

  /** The opening tags of a plain code block. */
  function CodeOpen(language: string): string
  {
    if language == [] then "<pre><code>" else "<pre><code class=\"language-" + language + "\">"
  }

  const CodeClose := "</code></pre>"

  /**
   * `plain_code_block`: the escaped code in `<pre><code>`, with a
   * `language-` class when a language is named.
   */
  function PlainCodeBlock(code: string, language: string): (r: string)
    ensures language == [] ==> r == "<pre><code>" + HtmlEscape(code) + "</code></pre>"
    ensures language != [] ==> r == "<pre><code class=\"language-" + language + "\">" + HtmlEscape(code) + "</code></pre>"
  {
    CodeOpen(language) + HtmlEscape(code) + CodeClose
  }

  /**
   * The code inside a plain code block holds no tag, so the block ends
   * where it says, and decoding its inside gives the code back.
   */
  lemma PlainCodeBlockContents(code: string, language: string)
    ensures var r := PlainCodeBlock(code, language);
      var inner := r[|CodeOpen(language)|..|r| - |CodeClose|];
      StartsWith(r, "<pre><code") && EndsWith(r, CodeClose) &&
      '<' !in inner && Unescape(inner) == code
  {
    var r := PlainCodeBlock(code, language);
    assert r[|CodeOpen(language)|..|r| - |CodeClose|] == HtmlEscape(code);
    UnescapeEscape(code);
  }

  /**
   * `highlight`, with language detection and the highlighter as
   * parameters: `guessedPlainText` says the language was not recognised,
   * `formatted` is the highlighter's output, None when it failed.
   */
  function HighlightCode(code: string, language: string, guessedPlainText: bool, formatted: Option<string>): (r: string)
    ensures guessedPlainText && language != [] && language != "plaintext" && language != "text" ==>
      r == PlainCodeBlock(code, language)
    ensures formatted.None? ==> r == PlainCodeBlock(code, language)
    ensures formatted.Some? && !(guessedPlainText && language != [] && language != "plaintext" && language != "text") ==>
      r == formatted.value
  {
    if guessedPlainText && language != [] && language != "plaintext" && language != "text" then
      PlainCodeBlock(code, language)
    else match formatted
      case Some(html) => html
      case None => PlainCodeBlock(code, language)
  }

  /** An unrecognised language falls back to a plain code block holding the code. */
  lemma UnknownLanguage(code: string, formatted: Option<string>)
    ensures var r := HighlightCode(code, "unknown_lang_xyz", true, formatted);
      StartsWith(r, "<pre><code") && Unescape(r[|CodeOpen("unknown_lang_xyz")|..|r| - |CodeClose|]) == code
  {
    PlainCodeBlockContents(code, "unknown_lang_xyz");
  }
}
