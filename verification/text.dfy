/**
  String helpers shared by the news pipeline, each stated as Python defines it:
  the whitespace class used both by the `\s` regular-expression class and by
  `str.strip()`, the `in` substring test, prefix slicing `s[:n]`, `strip()`,
  and the `re.sub(r'\s+', ' ', s)` collapse.
*/
module Text {

  /** Python's `str.isspace()` for one character; the `\s` class of a `str`
      regular expression is the same set of code points. */
  predicate IsSpace(c: char) {
    || ('\t' <= c <= '\r')
    || ('\U{1C}' <= c <= '\U{1F}')
    || c == ' '
    || c == '\U{85}'
    || c == '\U{A0}'
    || c == '\U{1680}'
    || ('\U{2000}' <= c <= '\U{200A}')
    || c == '\U{2028}'
    || c == '\U{2029}'
    || c == '\U{202F}'
    || c == '\U{205F}'
    || c == '\U{3000}'
  }

  function Min(a: int, b: int): int { if a <= b then a else b }

  function Max(a: int, b: int): int { if a <= b then b else a }

  // ---------------------------------------------------------------------------
  // Substrings

  /** `needle` occurs in `hay` starting at index `i`. */
  ghost predicate OccursAt(hay: string, needle: string, i: int) {
    0 <= i && i + |needle| <= |hay| && hay[i..i + |needle|] == needle
  }

  /** Python's `needle in hay` on two strings. */
  function Contains(hay: string, needle: string): (b: bool)
    ensures b <==> exists i :: OccursAt(hay, needle, i)
    decreases |hay|
  {
    if |needle| <= |hay| && hay[..|needle|] == needle then
      assert OccursAt(hay, needle, 0);
      true
    else if |hay| == 0 then
      false
    else
      var b := Contains(hay[1..], needle);
      OccursShift(hay, needle);
      b
  }

  /** An occurrence in `hay` other than at 0 is an occurrence in `hay[1..]`, shifted by one. */
  lemma OccursShift(hay: string, needle: string)
    requires |hay| > 0 && !OccursAt(hay, needle, 0)
    ensures (exists i :: OccursAt(hay, needle, i)) <==> (exists i :: OccursAt(hay[1..], needle, i))
  {
    if exists i :: OccursAt(hay, needle, i) {
      var i :| OccursAt(hay, needle, i);
      assert i >= 1;
      assert hay[1..][i - 1..i - 1 + |needle|] == hay[i..i + |needle|];
      assert OccursAt(hay[1..], needle, i - 1);
    }
    if exists i :: OccursAt(hay[1..], needle, i) {
      var i :| OccursAt(hay[1..], needle, i);
      assert hay[1..][i..i + |needle|] == hay[i + 1..i + 1 + |needle|];
      assert OccursAt(hay, needle, i + 1);
    }
  }

  // ---------------------------------------------------------------------------
  // Slicing

  /** Python's prefix slice `s[:n]`, including a negative `n`, which drops
      `-n` elements from the end. */
  function Take<T>(s: seq<T>, n: int): (r: seq<T>)
    ensures r <= s
    ensures n >= 0 ==> |r| == Min(n, |s|)
    ensures n < 0 ==> |r| == Max(0, |s| + n)
  {
    if n >= 0 then (if n <= |s| then s[..n] else s)
    else if -n <= |s| then s[..|s| + n]
    else []
  }

  // ---------------------------------------------------------------------------
  // Whitespace

  /** No two adjacent whitespace characters. */
  predicate NoDoubleSpace(s: string) {
    forall i :: 0 <= i < |s| - 1 ==> !(IsSpace(s[i]) && IsSpace(s[i + 1]))
  }

  /** Every whitespace character in `s` is the plain space. */
  predicate OnlyPlainSpaces(s: string) {
    forall i :: 0 <= i < |s| && IsSpace(s[i]) ==> s[i] == ' '
  }

  /** `s.endswith(t)`. */
  predicate EndsWith(s: string, t: string) {
    |t| <= |s| && s[|s| - |t|..] == t
  }

  /** Neither end of `s` is whitespace. */
  predicate Trimmed(s: string) {
    |s| > 0 ==> !IsSpace(s[0]) && !IsSpace(s[|s| - 1])
  }

  /** The non-whitespace characters of `s`, in order. */
  function NonSpace(s: string): string
  {
    if |s| == 0 then ""
    else (if IsSpace(s[0]) then "" else [s[0]]) + NonSpace(s[1..])
  }

  /** Python's `str.lstrip()` (`TrimLeftIsSuffix`). */
  function TrimLeft(s: string): (r: string)
    ensures |r| <= |s|
    ensures |r| > 0 ==> !IsSpace(r[0])
    decreases |s|
  {
    if |s| > 0 && IsSpace(s[0]) then TrimLeft(s[1..]) else s
  }

  /** Left-trimming drops a prefix made of whitespace only. */
  lemma {:induction false} TrimLeftIsSuffix(s: string)
    ensures TrimLeft(s) == s[|s| - |TrimLeft(s)|..]
    ensures forall i :: 0 <= i < |s| - |TrimLeft(s)| ==> IsSpace(s[i])
    decreases |s|
  {
    if |s| > 0 && IsSpace(s[0]) {
      TrimLeftIsSuffix(s[1..]);
      assert s[1..][|s| - 1 - |TrimLeft(s)|..] == s[|s| - |TrimLeft(s)|..];
      forall i | 1 <= i < |s| - |TrimLeft(s)| ensures IsSpace(s[i]) {
        assert s[i] == s[1..][i - 1];
      }
    }
  }

  /** Python's `str.rstrip()` (`TrimRightIsPrefix`). */
  function TrimRight(s: string): (r: string)
    ensures |r| <= |s|
    ensures |r| > 0 ==> !IsSpace(r[|r| - 1])
    decreases |s|
  {
    if |s| > 0 && IsSpace(s[|s| - 1]) then TrimRight(s[..|s| - 1]) else s
  }

  /** Right-trimming drops a suffix made of whitespace only. */
  lemma {:induction false} TrimRightIsPrefix(s: string)
    ensures TrimRight(s) == s[..|TrimRight(s)|]
    ensures forall i :: |TrimRight(s)| <= i < |s| ==> IsSpace(s[i])
    decreases |s|
  {
    if |s| > 0 && IsSpace(s[|s| - 1]) {
      var p := s[..|s| - 1];
      TrimRightIsPrefix(p);
      assert p[..|TrimRight(s)|] == s[..|TrimRight(s)|];
      forall i | |TrimRight(s)| <= i < |s| - 1 ensures IsSpace(s[i]) {
        assert s[i] == p[i];
      }
    }
  }

  /** Python's `str.strip()`: the slice of `s` between its first and last
      non-whitespace characters, or "" when there are none (`StripIsSlice`). */
  function Strip(s: string): (r: string)
    ensures Trimmed(r)
  {
    var t := TrimLeft(s);
    TrimRightIsPrefix(t);
    TrimRight(t)
  }

  /** `r` is `s[a..a + |r|]` and everything of `s` outside that slice is whitespace. */
  ghost predicate SliceBetweenSpaces(s: string, r: string, a: int) {
    && 0 <= a <= |s| - |r|
    && r == s[a..a + |r|]
    && (forall i :: 0 <= i < a ==> IsSpace(s[i]))
    && (forall i :: a + |r| <= i < |s| ==> IsSpace(s[i]))
  }

  /** The stripped text is a slice of the original with only whitespace around it. */
  lemma StripIsSlice(s: string) returns (a: nat)
    ensures SliceBetweenSpaces(s, Strip(s), a)
  {
    var t := TrimLeft(s);
    TrimLeftIsSuffix(s);
    TrimRightIsPrefix(t);
    a := |s| - |t|;
    assert t[..|Strip(s)|] == s[a..a + |Strip(s)|];
    forall i | a + |Strip(s)| <= i < |s| ensures IsSpace(s[i]) {
      assert s[i] == t[i - a];
    }
  }

  /** Python's `re.sub(r'\s+', ' ', s)`: every maximal run of whitespace
      becomes one plain space (`CollapseShape`). */
  function Collapse(s: string): (r: string)
    ensures |r| == 0 <==> |s| == 0
    ensures |s| > 0 ==> (IsSpace(r[0]) <==> IsSpace(s[0]))
    decreases |s|
  {
    if |s| == 0 then ""
    else if IsSpace(s[0]) then " " + Collapse(TrimLeft(s))
    else [s[0]] + Collapse(s[1..])
  }

  /** The collapse has single plain spaces only and the same non-whitespace
      characters as the original. */
  lemma {:induction false} CollapseShape(s: string)
    ensures NoDoubleSpace(Collapse(s)) && OnlyPlainSpaces(Collapse(s))
    ensures NonSpace(Collapse(s)) == NonSpace(s)
    decreases |s|
  {
    if |s| > 0 {
      var r := Collapse(s);
      var t := if IsSpace(s[0]) then TrimLeft(s) else s[1..];
      var c := Collapse(t);
      CollapseShape(t);
      var h := if IsSpace(s[0]) then " " else [s[0]];
      assert r == h + c;
      assert r[1..] == c;
      assert NoDoubleSpace(r) by {
        forall i | 0 <= i < |r| - 1 ensures !(IsSpace(r[i]) && IsSpace(r[i + 1])) {
          if i > 0 { assert r[i] == c[i - 1] && r[i + 1] == c[i]; }
        }
      }
      assert OnlyPlainSpaces(r) by {
        forall i | 0 <= i < |r| && IsSpace(r[i]) ensures r[i] == ' ' {
          if i > 0 { assert r[i] == c[i - 1]; }
        }
      }
      if IsSpace(s[0]) {
        NonSpaceSkipsSpaces(s);
      }
    }
  }

  /** Dropping leading whitespace does not change the non-whitespace characters. */
  lemma {:induction false} NonSpaceSkipsSpaces(s: string)
    ensures NonSpace(TrimLeft(s)) == NonSpace(s)
    decreases |s|
  {
    if |s| > 0 && IsSpace(s[0]) {
      NonSpaceSkipsSpaces(s[1..]);
    }
  }

  /** The non-whitespace characters of a concatenation are those of its parts. */
  lemma {:induction false} NonSpaceAppend(a: string, b: string)
    ensures NonSpace(a + b) == NonSpace(a) + NonSpace(b)
    decreases |a|
  {
    if |a| == 0 {
      assert a + b == b;
    } else {
      assert (a + b)[0] == a[0];
      assert (a + b)[1..] == a[1..] + b;
      NonSpaceAppend(a[1..], b);
    }
  }

  /** A string of whitespace only has no non-whitespace characters. */
  lemma {:induction false} NonSpaceOfSpaces(s: string)
    requires forall i :: 0 <= i < |s| ==> IsSpace(s[i])
    ensures NonSpace(s) == ""
    decreases |s|
  {
    if |s| > 0 {
      NonSpaceOfSpaces(s[1..]);
    }
  }

  /** Right-trimming keeps a visible first character. */
  lemma TrimRightKeepsVisible(s: string)
    requires |s| > 0 && !IsSpace(s[0])
    ensures |TrimRight(s)| > 0
  {
    TrimRightIsPrefix(s);
  }

  /** Right-trimming a concatenation whose tail keeps a non-whitespace character
      only trims the tail. */
  lemma {:induction false} TrimRightAppend(a: string, b: string)
    requires |TrimRight(b)| > 0
    ensures TrimRight(a + b) == a + TrimRight(b)
    decreases |b|
  {
    if IsSpace(b[|b| - 1]) {
      assert (a + b)[..|a + b| - 1] == a + b[..|b| - 1];
      TrimRightAppend(a, b[..|b| - 1]);
    }
  }

  /** Right-trimming a concatenation whose tail is all whitespace trims the
      tail away and then the head. */
  lemma {:induction false} TrimRightAppendSpaces(a: string, b: string)
    requires |TrimRight(b)| == 0
    ensures TrimRight(a + b) == TrimRight(a)
    decreases |b|
  {
    if |b| == 0 {
      assert a + b == a;
    } else {
      assert (a + b)[..|a + b| - 1] == a + b[..|b| - 1];
      TrimRightAppendSpaces(a, b[..|b| - 1]);
    }
  }

  /** Stripping removes only whitespace and keeps the spacing inside the text. */
  lemma StripKeepsShape(s: string)
    ensures NonSpace(Strip(s)) == NonSpace(s)
    ensures NoDoubleSpace(s) ==> NoDoubleSpace(Strip(s))
    ensures OnlyPlainSpaces(s) ==> OnlyPlainSpaces(Strip(s))
  {
    var r := Strip(s);
    var a := StripIsSlice(s);
    StripKeepsNonSpace(s, r, a);
    if NoDoubleSpace(s) {
      forall i | 0 <= i < |r| - 1
        ensures !(IsSpace(r[i]) && IsSpace(r[i + 1]))
      {
        assert r[i] == s[a + i] && r[i + 1] == s[a + i + 1];
      }
    }
    if OnlyPlainSpaces(s) {
      forall i | 0 <= i < |r| && IsSpace(r[i])
        ensures r[i] == ' '
      {
        assert r[i] == s[a + i];
      }
    }
  }

  lemma StripKeepsNonSpace(s: string, r: string, a: int)
    requires SliceBetweenSpaces(s, r, a)
    ensures NonSpace(r) == NonSpace(s)
  {
    var head, tail := s[..a], s[a + |r|..];
    assert s == head + (r + tail);
    NonSpaceAppend(head, r + tail);
    NonSpaceAppend(r, tail);
    NonSpaceOfSpaces(head);
    NonSpaceOfSpaces(tail);
  }

  /** Text with no whitespace at either end is its own strip. */
  lemma StripTrimmed(s: string)
    requires Trimmed(s)
    ensures Strip(s) == s
  {
    assert TrimLeft(s) == s;
  }

  /** Text already in single-space form is its own collapse. */
  lemma {:induction false} CollapseSingleSpaced(s: string)
    requires NoDoubleSpace(s) && OnlyPlainSpaces(s)
    ensures Collapse(s) == s
    decreases |s|
  {
    if |s| > 0 {
      var u := s[1..];
      assert NoDoubleSpace(u) by {
        forall i | 0 <= i < |u| - 1 ensures !(IsSpace(u[i]) && IsSpace(u[i + 1])) {
          assert u[i] == s[i + 1] && u[i + 1] == s[i + 2];
        }
      }
      assert OnlyPlainSpaces(u) by {
        forall i | 0 <= i < |u| && IsSpace(u[i]) ensures u[i] == ' ' {
          assert u[i] == s[i + 1];
        }
      }
      CollapseSingleSpaced(u);
      if IsSpace(s[0]) {
        assert TrimLeft(s) == u;
        assert s == " " + u;
      } else {
        assert s == [s[0]] + u;
      }
    }
  }
}
