/**
  The whitespace normalisation of `clean_html`: markup removal is an opaque
  `getText` function, after which runs of whitespace collapse to one space and
  both ends are stripped. The result is proved equal to Python's
  `' '.join(s.split())`, an independent definition of the same text.
*/
module Cleaner {
  import opened Text

  /** Text as `clean_html` leaves it: no whitespace at either end, no two
      whitespace characters in a row, and only plain spaces. */
  predicate Normalized(s: string) {
    Trimmed(s) && NoDoubleSpace(s) && OnlyPlainSpaces(s)
  }

  /** `re.sub(r'\s+', ' ', s).strip()`. */
  function Normalize(s: string): (r: string)
    ensures Normalized(r)
    ensures NonSpace(r) == NonSpace(s)
  {
    CollapseShape(s);
    StripKeepsShape(Collapse(s));
    Strip(Collapse(s))
  }

  /** `clean_html(text)`: "" for empty input, otherwise the normalised text
      that `getText` extracts from the markup. */
  function CleanHtml(text: string, getText: string -> string): (r: string)
    ensures text == "" ==> r == ""
    ensures Normalized(r)
  {
    if text == "" then "" else Normalize(getText(text))
  }

  /** For non-empty input, `clean_html` is `' '.join(get_text(text).split())`
      and keeps every non-whitespace character of the extracted text. */
  lemma CleanHtmlIsSplitJoin(text: string, getText: string -> string)
    requires text != ""
    ensures CleanHtml(text, getText) == JoinSpaced(Words(getText(text)))
    ensures NonSpace(CleanHtml(text, getText)) == NonSpace(getText(text))
  {
    NormalizeIsSplitJoin(getText(text));
  }

  /** Normalised text is exactly the text that normalising leaves unchanged. */
  lemma NormalizeFixesNormalized(s: string)
    ensures Normalized(s) <==> Normalize(s) == s
  {
    if Normalized(s) {
      CollapseSingleSpaced(s);
      StripTrimmed(s);
    }
  }

  /** Normalising twice is normalising once. */
  lemma NormalizeIdempotent(s: string)
    ensures Normalize(Normalize(s)) == Normalize(s)
  {
    NormalizeFixesNormalized(Normalize(s));
  }

  /** The extra `.strip()` applied to `clean_html`'s result changes nothing. */
  lemma CleanHtmlIsStripped(text: string, getText: string -> string)
    ensures Strip(CleanHtml(text, getText)) == CleanHtml(text, getText)
  {
    StripTrimmed(CleanHtml(text, getText));
  }

  // ---------------------------------------------------------------------------
  // Reference definition: Python's `' '.join(s.split())`

  /** The longest prefix of `s` without whitespace. */
  function Word(s: string): (w: string)
    ensures |w| <= |s|
    decreases |s|
  {
    if |s| > 0 && !IsSpace(s[0]) then [s[0]] + Word(s[1..]) else ""
  }

  /** The word is a prefix, holds no whitespace, and is followed by whitespace
      or the end of the text. */
  lemma {:induction false} WordIsMaximalRun(s: string)
    ensures Word(s) == s[..|Word(s)|]
    ensures forall i :: 0 <= i < |Word(s)| ==> !IsSpace(Word(s)[i])
    ensures |Word(s)| < |s| ==> IsSpace(s[|Word(s)|])
    decreases |s|
  {
    if |s| > 0 && !IsSpace(s[0]) {
      WordIsMaximalRun(s[1..]);
    }
  }

  /** Python's `s.split()` with no separator: the maximal non-empty runs of
      non-whitespace characters, in order. */
  function Words(s: string): seq<string>
    decreases |s|
  {
    var t := TrimLeft(s);
    if |t| == 0 then []
    else
      var w := Word(t);
      assert |w| > 0 by { assert w == [t[0]] + Word(t[1..]); }
      [w] + Words(t[|w|..])
  }

  /** Python's `' '.join(ws)`. */
  function JoinSpaced(ws: seq<string>): string
  {
    if |ws| == 0 then ""
    else if |ws| == 1 then ws[0]
    else ws[0] + " " + JoinSpaced(ws[1..])
  }

  /** Normalising is the same as splitting into words and joining them with
      single spaces. */
  lemma {:induction false} NormalizeIsSplitJoin(s: string)
    ensures Normalize(s) == JoinSpaced(Words(s))
    decreases |s|
  {
    var t := TrimLeft(s);
    NormalizeSkipsLeadingSpace(s);
    if |t| > 0 {
      var w := Word(t);
      var rest := t[|w|..];
      WordIsMaximalRun(t);
      CollapseWord(t);
      assert Words(s) == [w] + Words(rest);
      StripWordThenRest(w, rest);
      NormalizeIsSplitJoin(rest);
      JoinSpacedCons(w, Words(rest));
    }
  }

  /** `' '.join([w] + ws)` is `w` alone or `w`, a space and the rest joined. */
  lemma JoinSpacedCons(w: string, ws: seq<string>)
    ensures JoinSpaced([w] + ws) == if |ws| == 0 then w else w + " " + JoinSpaced(ws)
  {
    assert ([w] + ws)[1..] == ws;
  }

  /** A word followed by whitespace-led text normalises to the word, then one
      space and the normalised rest when the rest has any words. */
  lemma StripWordThenRest(w: string, rest: string)
    requires |w| > 0 && forall i :: 0 <= i < |w| ==> !IsSpace(w[i])
    requires |rest| > 0 ==> IsSpace(rest[0])
    ensures Strip(w + Collapse(rest)) ==
            if |Words(rest)| == 0 then w else w + " " + Normalize(rest)
  {
    assert TrimRight(w) == w;
    assert TrimLeft(w) == w;
    assert TrimLeft(w + Collapse(rest)) == w + Collapse(rest);
    var t2 := TrimLeft(rest);
    if |rest| == 0 {
      assert w + Collapse(rest) == w;
    } else if |t2| == 0 {
      assert Collapse(rest) == " ";
      assert TrimRight(" ") == "";
      TrimRightAppendSpaces(w, " ");
    } else {
      assert |Words(rest)| > 0;
      StripWordThenWords(w, rest);
    }
  }

  /** The case of `StripWordThenRest` where the rest still holds a word. */
  lemma StripWordThenWords(w: string, rest: string)
    requires |w| > 0 && !IsSpace(w[0])
    requires |rest| > 0 && IsSpace(rest[0]) && |TrimLeft(rest)| > 0
    ensures Strip(w + Collapse(rest)) == w + " " + Normalize(rest)
  {
    var y := Collapse(TrimLeft(rest));
    assert Collapse(rest) == " " + y;
    StripAroundSpace(w, y);
    NormalizeSkipsLeadingSpace(rest);
    assert TrimLeft(y) == y;
  }

  /** Stripping `w + " " + y` keeps `w` and the space when `y` starts with a
      non-whitespace character. */
  lemma StripAroundSpace(w: string, y: string)
    requires |w| > 0 && !IsSpace(w[0])
    requires |y| > 0 && !IsSpace(y[0])
    ensures Strip(w + (" " + y)) == w + " " + TrimRight(y)
  {
    var x := w + (" " + y);
    assert Strip(x) == TrimRight(x) by {
      assert x[0] == w[0];
    }
    TrimRightKeepsVisible(y);
    TrimRightAppend(" ", y);
    TrimRightAppend(w, " " + y);
    assert w + (" " + TrimRight(y)) == w + " " + TrimRight(y);
  }

  /** Leading whitespace does not change the normalised text. */
  lemma NormalizeSkipsLeadingSpace(s: string)
    ensures Normalize(s) == Normalize(TrimLeft(s))
  {
    if |s| > 0 && IsSpace(s[0]) {
      var c := Collapse(TrimLeft(s));
      assert (" " + c)[1..] == c;
      assert TrimLeft(" " + c) == TrimLeft(c);
    }
  }

  /** Collapsing text that starts with a word keeps the word and collapses the rest. */
  lemma {:induction false} CollapseWord(t: string)
    requires |t| > 0 && !IsSpace(t[0])
    ensures Collapse(t) == Word(t) + Collapse(t[|Word(t)|..])
    decreases |t|
  {
    var u := t[1..];
    VisibleHead(t);
    if |u| > 0 && !IsSpace(u[0]) {
      CollapseWord(u);
      var x, y := Word(u), Collapse(u[|Word(u)|..]);
      assert u[|x|..] == t[|Word(t)|..];
      assert [t[0]] + (x + y) == ([t[0]] + x) + y;
    } else {
      assert Word(u) == "";
      assert t[|Word(t)|..] == u;
    }
  }

  /** A visible first character heads both the word and the collapse. */
  lemma VisibleHead(t: string)
    requires |t| > 0 && !IsSpace(t[0])
    ensures Collapse(t) == [t[0]] + Collapse(t[1..])
    ensures Word(t) == [t[0]] + Word(t[1..])
  {
  }
}