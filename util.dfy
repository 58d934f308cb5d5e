/** Slug-to-title conversion shared by navigation, documents and source tabs. */
module Util {
  import opened Strings

  /** The word separators of a slug. */
  const Separators: set<char> := {'-', '_'}

  predicate IsSeparator(c: char)
    ensures IsSeparator(c) <==> c in Separators
  {
    c == '-' || c == '_'
  }

  /** A word with its first character upper-cased and the rest unchanged. */
  function Capitalize(w: string): (r: string)
    ensures |r| == |w|
    ensures w != [] ==> r[0] == UpperChar(w[0]) && r[1..] == w[1..]
  {
    if w == [] then [] else [UpperChar(w[0])] + w[1..]
  }

  function CapitalizeAll(ws: seq<string>): (r: seq<string>)
    ensures |r| == |ws|
    ensures forall i :: 0 <= i < |ws| ==> r[i] == Capitalize(ws[i])
  {
    seq(|ws|, i requires 0 <= i < |ws| => Capitalize(ws[i]))
  }

  /**
   * One pass over a slug: a separator becomes a space, and a character right
   * after a separator (or at the start, when `atStart`) is upper-cased.
   */
  function CapitalizeRun(s: string, atStart: bool): (r: string)
    ensures |r| == |s|
    ensures forall i :: 0 <= i < |r| ==> r[i] !in Separators
    decreases |s|
  {
    if s == [] then []
    else [RunChar(s[0], atStart)] + CapitalizeRun(s[1..], IsSeparator(s[0]))
  }

  function RunChar(c: char, atStart: bool): char
  {
    if IsSeparator(c) then ' ' else if atStart then UpperChar(c) else c
  }

  /**
   * `title_case`: capitalise every `-`/`_`-separated piece and join the pieces
   * with single spaces. It is computed in one pass; `TitleCaseSplitJoin` proves
   * it equal to the split, capitalise and join pipeline of the source.
   */
  function TitleCase(s: string): (r: string)
    ensures |r| == |s|
    ensures forall i :: 0 <= i < |r| ==> r[i] !in Separators
    ensures s != [] && s[0] !in Separators ==> r[0] == UpperChar(s[0])
  {
    CapitalizeRun(s, true)
  }

  lemma JoinConsHead(c: char, x: string, rest: seq<string>, sep: string)
    ensures Join([[c] + x] + rest, sep) == [c] + Join([x] + rest, sep)
  {
    if rest != [] {
      assert ([[c] + x] + rest)[1..] == rest == ([x] + rest)[1..];
    }
  }

  /**
   * The pieces after the first are capitalised; the first one only when
   * `atStart`. Joined, they read as `CapitalizeRun`.
   */
  lemma {:induction false} PiecesRun(s: string, atStart: bool)
    ensures var p := Split(s, Separators);
      Join([if atStart then Capitalize(p[0]) else p[0]] + CapitalizeAll(p[1..]), " ")
        == CapitalizeRun(s, atStart)
    decreases |s|
  {
    var p := Split(s, Separators);
    if s == [] {
    } else {
      var p' := Split(s[1..], Separators);
      PiecesRun(s[1..], s[0] in Separators);
      if s[0] in Separators {
        assert p == [""] + p';
        assert p[1..] == p';
        var tail := CapitalizeAll(p');
        assert tail == [Capitalize(p'[0])] + CapitalizeAll(p'[1..]);
        assert ([""] + tail)[1..] == tail;
      } else {
        assert p == [[s[0]] + p'[0]] + p'[1..];
        var first := if atStart then Capitalize(p[0]) else p[0];
        var c := if atStart then UpperChar(s[0]) else s[0];
        assert first == [c] + p'[0];
        JoinConsHead(c, p'[0], CapitalizeAll(p'[1..]), " ");
      }
    }
  }

  /**
   * `title_case` is the source's pipeline: split on `-` and `_`, capitalise
   * each piece (an empty piece stays empty), join with single spaces.
   */
  lemma TitleCaseSplitJoin(s: string)
    ensures TitleCase(s) == Join(CapitalizeAll(Split(s, Separators)), " ")
  {
    var p := Split(s, Separators);
    assert CapitalizeAll(p) == [Capitalize(p[0])] + CapitalizeAll(p[1..]);
    PiecesRun(s, true);
  }

  lemma {:induction false} CapitalizeRunAt(s: string, atStart: bool, i: nat)
    requires i < |s|
    ensures |CapitalizeRun(s, atStart)| == |s|
    ensures CapitalizeRun(s, atStart)[i] ==
      if s[i] in Separators then ' '
      else if (if i == 0 then atStart else s[i - 1] in Separators) then UpperChar(s[i])
      else s[i]
    decreases |s|
  {
    if i > 0 {
      CapitalizeRunAt(s[1..], s[0] in Separators, i - 1);
    } else if |s| > 1 {
      CapitalizeRunAt(s[1..], s[0] in Separators, 0);
    }
  }

  /**
   * Character by character: `title_case` keeps the length, turns every `-` and
   * `_` into a space, upper-cases the first character of every piece and leaves
   * every other character as it was.
   */
  lemma TitleCaseAt(s: string, i: nat)
    requires i < |s|
    ensures |TitleCase(s)| == |s|
    ensures TitleCase(s)[i] ==
      if s[i] in Separators then ' '
      else if i == 0 || s[i - 1] in Separators then UpperChar(s[i])
      else s[i]
  {
    CapitalizeRunAt(s, true, i);
  }

  /** The pipeline joins one piece per separator plus one. */
  lemma TitleCaseWordCount(s: string)
    ensures |CapitalizeAll(Split(s, Separators))| == CountIn(s, Separators) + 1
  {
    SplitCount(s, Separators);
  }

  /** The one-pass reading works piece by piece. */
  lemma {:induction false} CapitalizeRunAppend(a: string, b: string, atStart: bool)
    ensures CapitalizeRun(a + b, atStart) ==
      CapitalizeRun(a, atStart) + CapitalizeRun(b, if a == [] then atStart else a[|a| - 1] in Separators)
    decreases |a|
  {
    if a == [] {
      assert a + b == b;
    } else {
      assert (a + b)[1..] == a[1..] + b;
      CapitalizeRunAppend(a[1..], b, a[0] in Separators);
    }
  }

  lemma {:induction false} CapitalizeRunPlain(w: string)
    requires '-' !in w && '_' !in w
    ensures CapitalizeRun(w, false) == w
    decreases |w|
  {
    if w != [] {
      CapitalizeRunPlain(w[1..]);
    }
  }

  /** A piece without separators is capitalised: first character upper-cased, the rest kept. */
  lemma TitleCaseWord(w: string)
    requires '-' !in w && '_' !in w
    ensures TitleCase(w) == Capitalize(w)
  {
    if w != [] {
      CapitalizeRunPlain(w[1..]);
    }
  }

  /** A separator between two parts becomes exactly one space, and each part is converted on its own. */
  lemma TitleCaseJoin(a: string, sep: char, b: string)
    requires IsSeparator(sep)
    ensures TitleCase(a + [sep] + b) == TitleCase(a) + " " + TitleCase(b)
  {
    assert a + [sep] + b == a + ([sep] + b);
    CapitalizeRunAppend(a, [sep] + b, true);
    assert ([sep] + b)[1..] == b;
  }
}
