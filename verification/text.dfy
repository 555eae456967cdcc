/**
 This module defines the string operations the tag checker relies on:
 Python's substring test `marker in text`, `str.strip()` and `str.splitlines()`.
 Strings are sequences of Unicode scalar values. Python's `str` may also hold
 the surrogate code points U+D800 to U+DFFF, which Dafny's `char` excludes.
 */
module Text {

  // ---------------------------------------------------------------------------
  // Substring search (`marker in text`)
  // ---------------------------------------------------------------------------

  /** `marker` occurs in `text` starting at position `i`. */
  ghost predicate OccursAt(text: string, marker: string, i: int) {
    0 <= i && i + |marker| <= |text| && text[i..i + |marker|] == marker
  }

  /** Python's `marker in text`: a literal, case-sensitive substring test.
      The empty marker occurs in every text. */
  predicate Contains(text: string, marker: string)
    decreases |text|
  {
    marker <= text || (|text| > 0 && Contains(text[1..], marker))
  }

  /** A slice of a slice is a slice of the original. */
  lemma {:induction false} SubSlice(s: string, a: int, b: int, i: int, j: int)
    requires 0 <= a <= b <= |s| && 0 <= i <= j <= b - a
    ensures s[a..b][i..j] == s[a + i..a + j]
  {
    assert forall t :: 0 <= t < j - i ==> s[a..b][i..j][t] == s[a + i..a + j][t];
  }

  /** A marker found by the scan occurs at some position. */
  lemma {:induction false} ContainsOccurs(text: string, marker: string)
    requires Contains(text, marker)
    ensures exists i :: OccursAt(text, marker, i)
    decreases |text|
  {
    if marker <= text {
      assert text[0..|marker|] == marker;
      assert OccursAt(text, marker, 0);
    } else {
      var t := text[1..];
      ContainsOccurs(t, marker);
      var i :| OccursAt(t, marker, i);
      assert t == text[1..|text|];
      SubSlice(text, 1, |text|, i, i + |marker|);
      assert text[i + 1..i + 1 + |marker|] == marker;
      assert OccursAt(text, marker, i + 1);
    }
  }

  /** A marker occurring at position `i` is found by the scan. */
  lemma {:induction false} OccursContains(text: string, marker: string, i: int)
    requires OccursAt(text, marker, i)
    ensures Contains(text, marker)
    decreases i
  {
    if i == 0 {
      assert marker == text[..|marker|];
    } else {
      var t := text[1..];
      assert t == text[1..|text|];
      SubSlice(text, 1, |text|, i - 1, i - 1 + |marker|);
      assert t[i - 1..i - 1 + |marker|] == marker;
      assert OccursAt(t, marker, i - 1);
      OccursContains(t, marker, i - 1);
    }
  }

  /** The scanning definition agrees with the positional one. */
  lemma {:induction false} ContainsIffOccurs(text: string, marker: string)
    ensures Contains(text, marker) <==> exists i :: OccursAt(text, marker, i)
  {
    if Contains(text, marker) {
      ContainsOccurs(text, marker);
    }
    if exists i :: OccursAt(text, marker, i) {
      var i :| OccursAt(text, marker, i);
      OccursContains(text, marker, i);
    }
  }

  /** A marker found inside a piece of a text is found in the whole text. */
  lemma {:induction false} ContainsTransitive(text: string, piece: string, marker: string)
    requires Contains(text, piece)
    requires Contains(piece, marker)
    ensures Contains(text, marker)
  {
    ContainsIffOccurs(text, piece);
    ContainsIffOccurs(piece, marker);
    var i :| OccursAt(text, piece, i);
    var j :| OccursAt(piece, marker, j);
    SubSlice(text, i, i + |piece|, j, j + |marker|);
    assert OccursAt(text, marker, i + j);
    ContainsIffOccurs(text, marker);
  }

  /** Every code point of a marker found in a text is a code point of the text;
      so a marker holding a code point the text lacks is not found in it. */
  lemma {:induction false} ContainsCodePoint(text: string, marker: string, c: char)
    ensures Contains(text, marker) && c in marker ==> c in text
  {
    if Contains(text, marker) && c in marker {
      ContainsIffOccurs(text, marker);
      var i :| OccursAt(text, marker, i);
      var j :| 0 <= j < |marker| && marker[j] == c;
      assert text[i + j] == text[i..i + |marker|][j];
    }
  }

  /** A one-code-point marker is found exactly when the code point occurs. */
  lemma {:induction false} ContainsCodePointMarker(text: string, c: char)
    ensures Contains(text, [c]) <==> c in text
  {
    ContainsIffOccurs(text, [c]);
    if c in text {
      var i :| 0 <= i < |text| && text[i] == c;
      assert text[i..i + 1] == [c];
      assert OccursAt(text, [c], i);
    }
    if Contains(text, [c]) {
      var i :| OccursAt(text, [c], i);
      assert text[i] == text[i..i + 1][0];
    }
  }

  /** A text that starts with the marker contains it. */
  lemma {:induction false} PrefixContains(text: string, marker: string)
    requires marker <= text
    ensures Contains(text, marker)
  {
  }

  // ---------------------------------------------------------------------------
  // Whitespace and `str.strip()`
  // ---------------------------------------------------------------------------

  /** The code points for which Python's `str.isspace()` holds. */
  predicate IsSpace(c: char) {
    || ('\t' <= c <= '\r')                 // \t \n \v \f \r
    || ('\U{1C}' <= c <= '\U{1F}')          // file, group, record, unit separators
    || c == ' ' || c == '\U{85}' || c == '\U{A0}' || c == '\U{1680}'
    || ('\U{2000}' <= c <= '\U{200A}')
    || c == '\U{2028}' || c == '\U{2029}' || c == '\U{202F}' || c == '\U{205F}'
    || c == '\U{3000}'
  }

  /** `s` with its leading whitespace removed. */
  function TrimStart(s: string): string
    decreases |s|
  {
    if s != [] && IsSpace(s[0]) then TrimStart(s[1..]) else s
  }

  /** `s` with its trailing whitespace removed. */
  function TrimEnd(s: string): string
    decreases |s|
  {
    if s != [] && IsSpace(s[|s| - 1]) then TrimEnd(s[..|s| - 1]) else s
  }

  /** Python's `s.strip()`. */
  function Strip(s: string): string {
    TrimEnd(TrimStart(s))
  }

  /** TrimStart removes exactly the leading whitespace. */
  lemma {:induction false} TrimStartSpec(s: string)
    ensures var r := TrimStart(s);
            && |r| <= |s| && r == s[|s| - |r|..]
            && (forall k :: 0 <= k < |s| - |r| ==> IsSpace(s[k]))
            && (r != [] ==> !IsSpace(r[0]))
    decreases |s|
  {
    if s != [] && IsSpace(s[0]) {
      TrimStartSpec(s[1..]);
    }
  }

  /** TrimEnd removes exactly the trailing whitespace. */
  lemma {:induction false} TrimEndSpec(s: string)
    ensures var r := TrimEnd(s);
            && |r| <= |s| && r == s[..|r|]
            && (forall k :: |r| <= k < |s| ==> IsSpace(s[k]))
            && (r != [] ==> !IsSpace(r[|r| - 1]))
    decreases |s|
  {
    if s != [] && IsSpace(s[|s| - 1]) {
      TrimEndSpec(s[..|s| - 1]);
    }
  }

  /** `r` is the slice of `s` at `i`, and everything of `s` around it is whitespace. */
  ghost predicate StrippedAt(s: string, r: string, i: int) {
    && 0 <= i && i + |r| <= |s| && s[i..i + |r|] == r
    && (forall k :: 0 <= k < i ==> IsSpace(s[k]))
    && (forall k :: i + |r| <= k < |s| ==> IsSpace(s[k]))
  }

  /** `s.strip()` is the slice of `s` that neither starts nor ends with
      whitespace, everything cut off being whitespace. */
  lemma {:induction false} StripSpec(s: string)
    ensures var r := Strip(s);
            && (r != [] ==> !IsSpace(r[0]) && !IsSpace(r[|r| - 1]))
            && exists i :: StrippedAt(s, r, i)
  {
    var t := TrimStart(s);
    var r := TrimEnd(t);
    TrimStartSpec(s);
    TrimEndSpec(t);
    var i := |s| - |t|;
    assert s[i..i + |r|] == r;
    assert StrippedAt(s, r, i);
  }

  /** Stripping twice is stripping once. */
  lemma {:induction false} StripIdempotent(s: string)
    ensures Strip(Strip(s)) == Strip(s)
  {
    var r := Strip(s);
    StripSpec(s);
    if r != [] {
      assert TrimStart(r) == r;
      assert TrimEnd(r) == r;
    }
  }

  // ---------------------------------------------------------------------------
  // Line splitting (`str.splitlines()`)
  // ---------------------------------------------------------------------------

  /** The line boundaries of Python's `str.splitlines()`: \n, \r (and the pair
      \r\n, handled by BreakWidth), \v, \f, the file, group and record
      separators, NEL, LINE SEPARATOR and PARAGRAPH SEPARATOR. */
  predicate IsLineBreak(c: char) {
    || c == '\n' || c == '\r' || c == '\U{0B}' || c == '\U{0C}'
    || c == '\U{1C}' || c == '\U{1D}' || c == '\U{1E}'
    || c == '\U{85}' || c == '\U{2028}' || c == '\U{2029}'
  }

  /** Does `s` hold no line boundary? */
  predicate NoBreaks(s: string) {
    forall j :: 0 <= j < |s| ==> !IsLineBreak(s[j])
  }

  /** Position of the first line boundary in `text`, or `|text|` if none. */
  function FirstBreak(text: string): (k: nat)
    ensures k <= |text|
    decreases |text|
  {
    if text == [] || IsLineBreak(text[0]) then 0 else 1 + FirstBreak(text[1..])
  }

  /** The first boundary is a boundary, and none comes before it. */
  lemma {:induction false} FirstBreakSpec(text: string)
    ensures var k := FirstBreak(text);
            && NoBreaks(text[..k])
            && (k < |text| ==> IsLineBreak(text[k]))
    decreases |text|
  {
    if text != [] && !IsLineBreak(text[0]) {
      FirstBreakSpec(text[1..]);
      assert forall j :: 1 <= j < FirstBreak(text) ==> text[j] == text[1..][j - 1];
    }
  }

  /** Width of the boundary starting at `k`: 2 for \r\n, 1 otherwise. */
  function BreakWidth(text: string, k: nat): (w: nat)
    requires k < |text|
    ensures 1 <= w <= 2 && k + w <= |text|
  {
    if text[k] == '\r' && k + 1 < |text| && text[k + 1] == '\n' then 2 else 1
  }

  /** Python's `text.splitlines()`: the lines of `text` without their boundaries,
      with no empty line after a final boundary. */
  function Lines(text: string): (r: seq<string>)
    ensures r == [] <==> text == []
    decreases |text|
  {
    if text == [] then []
    else
      var k := FirstBreak(text);
      if k == |text| then [text]
      else [text[..k]] + Lines(text[k + BreakWidth(text, k)..])
  }

  /** `text` with every line-boundary code point removed. */
  function RemoveBreaks(text: string): (r: string)
    ensures |r| <= |text|
    decreases |text|
  {
    if text == [] then []
    else (if IsLineBreak(text[0]) then [] else [text[0]]) + RemoveBreaks(text[1..])
  }

  /** Concatenation of a sequence of lines. */
  function Concat(lines: seq<string>): string {
    if lines == [] then [] else lines[0] + Concat(lines[1..])
  }

  lemma {:induction false} RemoveBreaksAppend(a: string, b: string)
    ensures RemoveBreaks(a + b) == RemoveBreaks(a) + RemoveBreaks(b)
    decreases |a|
  {
    if a != [] {
      assert (a + b)[1..] == a[1..] + b;
      RemoveBreaksAppend(a[1..], b);
    } else {
      assert a + b == b;
    }
  }

  lemma {:induction false} RemoveBreaksClean(a: string)
    requires NoBreaks(a)
    ensures RemoveBreaks(a) == a
    decreases |a|
  {
    if a != [] {
      RemoveBreaksClean(a[1..]);
    }
  }

  /** One step of the split: the first line, then the lines after its boundary. */
  lemma {:induction false} LinesStep(text: string)
    requires text != [] && FirstBreak(text) < |text|
    ensures var k := FirstBreak(text);
            Lines(text) == [text[..k]] + Lines(text[k + BreakWidth(text, k)..])
  {
  }

  /** A boundary removes to nothing. */
  lemma {:induction false} RemoveBreaksOfBreak(text: string, k: nat)
    requires k < |text| && IsLineBreak(text[k])
    ensures RemoveBreaks(text[k..k + BreakWidth(text, k)]) == []
  {
    var b := text[k..k + BreakWidth(text, k)];
    assert IsLineBreak(b[0]);
    if |b| == 2 {
      assert IsLineBreak(b[1..][0]);
      assert b[1..][1..] == [];
    }
  }

  /** A text is its three pieces cut at `a` and `b`. */
  lemma SplitAt(s: string, a: nat, b: nat)
    requires a <= b <= |s|
    ensures s == s[..a] + (s[a..b] + s[b..])
  {
    assert s[a..] == s[a..b] + s[b..];
    assert s == s[..a] + s[a..];
  }

  /** Removing boundaries around the first boundary of a text. */
  lemma {:induction false} RemoveBreaksStep(text: string)
    requires text != [] && FirstBreak(text) < |text|
    ensures var k := FirstBreak(text);
            RemoveBreaks(text) == text[..k] + RemoveBreaks(text[k + BreakWidth(text, k)..])
  {
    var k := FirstBreak(text);
    FirstBreakSpec(text);
    var w := BreakWidth(text, k);
    var line, boundary, rest := text[..k], text[k..k + w], text[k + w..];
    SplitAt(text, k, k + w);
    RemoveBreaksAppend(line, boundary + rest);
    RemoveBreaksAppend(boundary, rest);
    RemoveBreaksClean(line);
    RemoveBreaksOfBreak(text, k);
    assert RemoveBreaks(boundary + rest) == RemoveBreaks(rest);
  }

  lemma {:induction false} ConcatCons(line: string, lines: seq<string>)
    ensures Concat([line] + lines) == line + Concat(lines)
  {
    assert ([line] + lines)[1..] == lines;
  }

  /** Splitting loses nothing but the boundaries: the lines, put back together,
      are the text with its boundary code points removed. */
  lemma {:induction false} LinesKeepText(text: string)
    ensures Concat(Lines(text)) == RemoveBreaks(text)
    decreases |text|
  {
    if text != [] {
      var k := FirstBreak(text);
      FirstBreakSpec(text);
      if k == |text| {
        RemoveBreaksClean(text);
        assert Lines(text) == [text];
        ConcatCons(text, []);
      } else {
        var rest := text[k + BreakWidth(text, k)..];
        LinesKeepText(rest);
        LinesStep(text);
        ConcatCons(text[..k], Lines(rest));
        RemoveBreaksStep(text);
      }
    }
  }

  /** A marker found in a suffix of a text is found in the text. */
  lemma {:induction false} SuffixContains(text: string, start: nat, marker: string)
    requires start <= |text|
    requires Contains(text[start..], marker)
    ensures Contains(text, marker)
  {
    var rest := text[start..];
    ContainsIffOccurs(rest, marker);
    var j :| OccursAt(rest, marker, j);
    assert rest == text[start..|text|];
    SubSlice(text, start, |text|, j, j + |marker|);
    assert OccursAt(text, marker, start + j);
    ContainsIffOccurs(text, marker);
  }

  /** The first line is a piece of the text. */
  lemma {:induction false} FirstLineInText(text: string)
    requires text != []
    ensures Contains(text, Lines(text)[0])
  {
    var k := FirstBreak(text);
    if k == |text| {
      assert Lines(text)[0] == text;
      PrefixContains(text, text);
    } else {
      LinesStep(text);
      assert Lines(text)[0] == text[..k];
      PrefixContains(text, text[..k]);
    }
  }

  /** Every line is a piece of the text it was split from. */
  lemma {:induction false} LineInText(text: string, i: nat)
    requires i < |Lines(text)|
    ensures Contains(text, Lines(text)[i])
    decreases |text|
  {
    if i == 0 {
      FirstLineInText(text);
    } else {
      var k := FirstBreak(text);
      assert k < |text|;
      var start := k + BreakWidth(text, k);
      var rest := text[start..];
      LinesStep(text);
      var line := Lines(rest)[i - 1];
      assert Lines(text)[i] == line;
      LineInText(rest, i - 1);
      SuffixContains(text, start, line);
    }
  }

  /** No line holds a boundary code point. */
  lemma {:induction false} LinesHaveNoBreaks(text: string, i: nat)
    requires i < |Lines(text)|
    ensures NoBreaks(Lines(text)[i])
    decreases |text|
  {
    var lines := Lines(text);
    var k := FirstBreak(text);
    FirstBreakSpec(text);
    if k == |text| {
      assert lines == [text];
    } else {
      var rest := text[k + BreakWidth(text, k)..];
      LinesStep(text);
      assert lines == [text[..k]] + Lines(rest);
      if i == 0 {
        assert lines[0] == text[..k];
      } else {
        LinesHaveNoBreaks(rest, i - 1);
        assert lines[i] == Lines(rest)[i - 1];
      }
    }
  }

  // ---------------------------------------------------------------------------
  // The rules of `str.splitlines()`
  // ---------------------------------------------------------------------------

  /** A text without boundaries has its first boundary at its end. */
  lemma {:induction false} FirstBreakClean(a: string)
    requires NoBreaks(a)
    ensures FirstBreak(a) == |a|
    decreases |a|
  {
    if a != [] {
      assert NoBreaks(a[1..]) by {
        forall j | 0 <= j < |a[1..]| ensures !IsLineBreak(a[1..][j]) {
          assert a[1..][j] == a[j + 1];
        }
      }
      FirstBreakClean(a[1..]);
    }
  }

  /** In `a + b`, with no boundary in `a` and one opening `b`, the first
      boundary is the one opening `b`. */
  lemma {:induction false} FirstBreakOf(a: string, b: string)
    requires NoBreaks(a) && b != [] && IsLineBreak(b[0])
    ensures FirstBreak(a + b) == |a|
    decreases |a|
  {
    if a == [] {
      assert a + b == b;
    } else {
      assert (a + b)[1..] == a[1..] + b;
      assert NoBreaks(a[1..]) by {
        forall j | 0 <= j < |a[1..]| ensures !IsLineBreak(a[1..][j]) {
          assert a[1..][j] == a[j + 1];
        }
      }
      FirstBreakOf(a[1..], b);
    }
  }

  /** A text without boundaries is one line, or no line at all when empty. */
  lemma {:induction false} LinesOfClean(a: string)
    requires NoBreaks(a)
    ensures Lines(a) == if a == [] then [] else [a]
  {
    FirstBreakClean(a);
  }

  /** The pair \r\n is one boundary: it ends the line before it, and no empty
      line stands between \r and \n. */
  lemma {:induction false} LinesCrLf(a: string, b: string)
    requires NoBreaks(a)
    ensures Lines(a + "\r\n" + b) == [a] + Lines(b)
  {
    var t := a + "\r\n" + b;
    assert t == a + ("\r\n" + b);
    FirstBreakOf(a, "\r\n" + b);
    var k := |a|;
    assert t[k] == '\r' && t[k + 1] == '\n';
    assert BreakWidth(t, k) == 2;
    LinesStep(t);
    assert t[..k] == a;
    assert t[k + 2..] == b;
  }

  /** Any other boundary ends the line before it and counts once. */
  lemma {:induction false} LinesSingleBreak(a: string, c: char, b: string)
    requires NoBreaks(a) && IsLineBreak(c)
    requires !(c == '\r' && b != [] && b[0] == '\n')
    ensures Lines(a + [c] + b) == [a] + Lines(b)
  {
    var t := a + [c] + b;
    assert t == a + ([c] + b);
    FirstBreakOf(a, [c] + b);
    var k := |a|;
    assert t[k] == c;
    assert b != [] ==> t[k + 1] == b[0];
    assert BreakWidth(t, k) == 1;
    LinesStep(t);
    assert t[..k] == a;
    assert t[k + 1..] == b;
  }

  /** A final boundary adds no empty last line. */
  lemma {:induction false} LinesFinalBreak(a: string, c: char)
    requires NoBreaks(a) && IsLineBreak(c)
    ensures Lines(a + [c]) == [a]
  {
    LinesSingleBreak(a, c, []);
    assert a + [c] + [] == a + [c];
  }

  /** Worked case: \r\n is one boundary. */
  lemma {:induction false} LinesCrLfExample()
    ensures Lines("a\r\nb") == ["a", "b"]
  {
    LinesCrLf("a", "b");
    assert "a" + "\r\n" + "b" == "a\r\nb";
    LinesOfClean("b");
  }

  /** Worked case: a final boundary adds no line. */
  lemma {:induction false} LinesFinalExample()
    ensures Lines("a\n") == ["a"]
  {
    LinesFinalBreak("a", '\n');
    assert "a" + ['\n'] == "a\n";
  }

  /** Worked case: \n\r is two boundaries, with an empty line between them. */
  lemma {:induction false} LinesLfCrExample()
    ensures Lines("a\n\rb") == ["a", "", "b"]
  {
    var rest := "\rb";
    LinesSingleBreak("", '\r', "b");
    assert "" + ['\r'] + "b" == rest;
    LinesOfClean("b");
    assert Lines(rest) == ["", "b"];
    LinesSingleBreak("a", '\n', rest);
    assert "a" + ['\n'] + rest == "a\n\rb";
  }
}
