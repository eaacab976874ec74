/**
 * `drawWrappedText`: the text is split on single spaces, the words are
 * packed greedily into lines (a line is broken before a word only when the
 * line with that word would measure wider than the limit, and never before
 * the first word), and the lines are drawn trimmed, one line height apart,
 * as a block centred on `y`.  The canvas text measurement is the parameter
 * `measure`.
 */
module TextWrap {

  /** `String.prototype.split` with a one-character separator. */
  function Split(s: string, sep: char): (parts: seq<string>)
    ensures |parts| >= 1
    ensures forall i | 0 <= i < |parts| :: sep !in parts[i]
  {
    if s == [] then [""]
    else
      var r := Split(s[..|s| - 1], sep);
      var c := s[|s| - 1];
      if c == sep then r + [""]
      else r[..|r| - 1] + [r[|r| - 1] + [c]]
  }

  /** `Array.prototype.join` with a one-character separator. */
  function Join(parts: seq<string>, sep: char): string
    requires |parts| >= 1
  {
    if |parts| == 1 then parts[0]
    else Join(parts[..|parts| - 1], sep) + [sep] + parts[|parts| - 1]
  }

  /** Splitting and joining again gives back the text. */
  lemma {:induction false} JoinSplit(s: string, sep: char)
    ensures Join(Split(s, sep), sep) == s
  {
    if s != [] {
      var init := s[..|s| - 1];
      var r := Split(init, sep);
      JoinSplit(init, sep);
      var c := s[|s| - 1];
      if c == sep {
        assert (r + [""])[..|r|] == r;
      } else if |r| > 1 {
        var r' := r[..|r| - 1] + [r[|r| - 1] + [c]];
        assert r'[..|r'| - 1] == r[..|r| - 1];
      }
      assert s == init + [c];
    }
  }

  lemma {:induction false} SplitOneWord(w: string, sep: char)
    requires sep !in w
    ensures Split(w, sep) == [w]
  {
    if w != [] {
      SplitOneWord(w[..|w| - 1], sep);
      assert w == w[..|w| - 1] + [w[|w| - 1]];
    }
  }

  lemma {:induction false} SplitAfterSeparator(s: string, sep: char, w: string)
    requires sep !in w
    ensures Split(s + [sep] + w, sep) == Split(s, sep) + [w]
  {
    if w == [] {
      assert s + [sep] + w == s + [sep];
      assert (s + [sep])[..|s|] == s;
    } else {
      var w' := w[..|w| - 1];
      SplitAfterSeparator(s, sep, w');
      var t := s + [sep] + w;
      assert t[..|t| - 1] == s + [sep] + w';
      assert w == w' + [w[|w| - 1]];
    }
  }

  /** Joining parts that hold no separator and splitting again gives back the parts. */
  lemma {:induction false} SplitJoin(parts: seq<string>, sep: char)
    requires |parts| >= 1
    requires forall i | 0 <= i < |parts| :: sep !in parts[i]
    ensures Split(Join(parts, sep), sep) == parts
  {
    if |parts| == 1 {
      SplitOneWord(parts[0], sep);
    } else {
      var init := parts[..|parts| - 1];
      SplitJoin(init, sep);
      SplitAfterSeparator(Join(init, sep), sep, parts[|parts| - 1]);
      assert parts == init + [parts[|parts| - 1]];
    }
  }

  /** A run of words as the wrapping loop accumulates it: every word followed by a space. */
  function Spaced(words: seq<string>): string {
    if words == [] then ""
    else Spaced(words[..|words| - 1]) + words[|words| - 1] + " "
  }

  /** Adding a word to a run appends the word and a space. */
  lemma SpacedSnoc(words: seq<string>, w: string)
    ensures Spaced(words + [w]) == Spaced(words) + w + " "
  {
    assert (words + [w])[..|words|] == words;
  }

  /**
   * One step of the greedy packing: word `w` extends the last line unless it
   * is not the first word and the extended line measures wider than
   * `maxWidth`, in which case it opens a new line.
   */
  function Extend(g: seq<seq<string>>, w: string, first: bool, measure: string -> real, maxWidth: real): seq<seq<string>>
    requires |g| >= 1
  {
    var cur := g[|g| - 1];
    if measure(Spaced(cur) + w + " ") > maxWidth && !first then g + [[w]]
    else g[..|g| - 1] + [cur + [w]]
  }

  /** Reference definition of the greedy packing: the words of each line. */
  function Groups(words: seq<string>, measure: string -> real, maxWidth: real): (g: seq<seq<string>>)
    ensures |g| >= 1
  {
    if words == [] then [[]]
    else
      var n := |words| - 1;
      Extend(Groups(words[..n], measure, maxWidth), words[n], n == 0, measure, maxWidth)
  }

  /** The words of a sequence of lines, in order. */
  function Flatten<T>(groups: seq<seq<T>>): seq<T> {
    if groups == [] then []
    else Flatten(groups[..|groups| - 1]) + groups[|groups| - 1]
  }

  /** Adding a line appends its words. */
  lemma FlattenSnoc<T>(groups: seq<seq<T>>, last: seq<T>)
    ensures Flatten(groups + [last]) == Flatten(groups) + last
  {
    assert (groups + [last])[..|groups|] == groups;
  }

  /** Growing the last line appends to the words of the lines. */
  lemma FlattenGrowLast<T>(init: seq<seq<T>>, cur: seq<T>, w: T)
    ensures Flatten(init + [cur + [w]]) == Flatten(init + [cur]) + [w]
  {
    FlattenSnoc(init, cur + [w]);
    FlattenSnoc(init, cur);
    AppendAssoc(Flatten(init), cur, [w]);
  }

  lemma AppendAssoc<T>(a: seq<T>, b: seq<T>, c: seq<T>)
    ensures a + (b + c) == (a + b) + c
  {
  }

  /** A packing step appends the word to the words of the lines. */
  lemma ExtendKeepsWords(g: seq<seq<string>>, w: string, first: bool, measure: string -> real, maxWidth: real)
    requires |g| >= 1
    ensures Flatten(Extend(g, w, first, measure, maxWidth)) == Flatten(g) + [w]
  {
    var e := Extend(g, w, first, measure, maxWidth);
    if e == g + [[w]] {
      FlattenSnoc(g, [w]);
    } else {
      assert e == g[..|g| - 1] + [g[|g| - 1] + [w]];
      SplitLast(g);
      FlattenGrowLast(g[..|g| - 1], g[|g| - 1], w);
    }
  }

  /** Packing loses, adds and reorders no word. */
  lemma {:induction false} GroupsKeepWords(words: seq<string>, measure: string -> real, maxWidth: real)
    ensures Flatten(Groups(words, measure, maxWidth)) == words
  {
    if words != [] {
      var n := |words| - 1;
      var g0 := Groups(words[..n], measure, maxWidth);
      assert Groups(words, measure, maxWidth) == Extend(g0, words[n], n == 0, measure, maxWidth);
      GroupsKeepWords(words[..n], measure, maxWidth);
      ExtendKeepsWords(g0, words[n], n == 0, measure, maxWidth);
      SplitLast(words);
    }
  }

  /** A non-empty sequence is its prefix followed by its last element. */
  lemma SplitLast<T>(s: seq<T>)
    requires s != []
    ensures s[..|s| - 1] + [s[|s| - 1]] == s
  {
  }

  /** When there are words, no line is empty. */
  lemma {:induction false} GroupsLinesNonEmpty(words: seq<string>, measure: string -> real, maxWidth: real)
    requires words != []
    ensures forall line | line in Groups(words, measure, maxWidth) :: line != []
  {
    var n := |words| - 1;
    var w := words[n];
    var g0 := Groups(words[..n], measure, maxWidth);
    var g := Groups(words, measure, maxWidth);
    if n == 0 {
      assert words[..n] == [];
      assert g == [[] + [w]];
    } else {
      GroupsLinesNonEmpty(words[..n], measure, maxWidth);
      var cur := g0[|g0| - 1];
      var l := |g0| - 1;
      if measure(Spaced(cur) + w + " ") > maxWidth {
        assert g == g0 + [[w]];
      } else {
        assert g == g0[..l] + [cur + [w]];
        assert forall line | line in g0[..l] :: line in g0;
      }
    }
  }

  /**
   * Packing loses, adds and reorders no word; there is always a line, and
   * when there are words no line is empty.
   */
  lemma GroupsShape(words: seq<string>, measure: string -> real, maxWidth: real)
    ensures var g := Groups(words, measure, maxWidth);
      |g| >= 1 && Flatten(g) == words &&
      (words != [] ==> forall j | 0 <= j < |g| :: g[j] != [])
  {
    GroupsKeepWords(words, measure, maxWidth);
    if words != [] {
      GroupsLinesNonEmpty(words, measure, maxWidth);
      var g := Groups(words, measure, maxWidth);
      forall j | 0 <= j < |g|
        ensures g[j] != []
      {
        assert g[j] in g;
      }
    }
  }

  /** A line is broken only because the next word did not fit on it. */
  lemma {:induction false} GroupsBreakOnlyWhenFull(words: seq<string>, measure: string -> real, maxWidth: real)
    ensures var g := Groups(words, measure, maxWidth);
      forall j | 1 <= j < |g| ::
        g[j] != [] && measure(Spaced(g[j - 1]) + g[j][0] + " ") > maxWidth
  {
    if words != [] {
      var n := |words| - 1;
      var w := words[n];
      var g0 := Groups(words[..n], measure, maxWidth);
      GroupsBreakOnlyWhenFull(words[..n], measure, maxWidth);
      GroupsShape(words[..n], measure, maxWidth);
      var g := Groups(words, measure, maxWidth);
      var l := |g0| - 1;
      var cur := g0[l];
      if measure(Spaced(cur) + w + " ") > maxWidth && n > 0 {
        assert g == g0 + [[w]];
        forall j | 1 <= j < |g|
          ensures g[j] != [] && measure(Spaced(g[j - 1]) + g[j][0] + " ") > maxWidth
        {
          if j < |g0| {
            assert g[j] == g0[j] && g[j - 1] == g0[j - 1];
          }
        }
      } else {
        assert g == g0[..l] + [cur + [w]];
        forall j | 1 <= j < |g|
          ensures g[j] != [] && measure(Spaced(g[j - 1]) + g[j][0] + " ") > maxWidth
        {
          assert g[j - 1] == g0[j - 1];
          if j < l {
            assert g[j] == g0[j];
          } else {
            assert g[j][0] == g0[j][0];
          }
        }
      }
    }
  }

  /** Every word after the first on a line was placed there because the line still fit. */
  lemma {:induction false} GroupsFit(words: seq<string>, measure: string -> real, maxWidth: real)
    ensures forall line, k | line in Groups(words, measure, maxWidth) && 1 < k <= |line| ::
      measure(Spaced(line[..k])) <= maxWidth
  {
    if words != [] {
      var n := |words| - 1;
      var g0 := Groups(words[..n], measure, maxWidth);
      GroupsFit(words[..n], measure, maxWidth);
      if n == 0 {
        assert words[..n] == [];
      }
      ExtendFits(g0, words[n], n == 0, measure, maxWidth);
    }
  }

  /** A packing step keeps every line's prefixes within the width. */
  lemma ExtendFits(g: seq<seq<string>>, w: string, first: bool, measure: string -> real, maxWidth: real)
    requires |g| >= 1 && (first ==> g[|g| - 1] == [])
    requires forall line, k | line in g && 1 < k <= |line| :: measure(Spaced(line[..k])) <= maxWidth
    ensures forall line, k | line in Extend(g, w, first, measure, maxWidth) && 1 < k <= |line| ::
      measure(Spaced(line[..k])) <= maxWidth
  {
    var l := |g| - 1;
    var cur := g[l];
    if !(measure(Spaced(cur) + w + " ") > maxWidth && !first) {
      var last := cur + [w];
      assert forall line | line in g[..l] :: line in g;
      forall k | 1 < k <= |last|
        ensures measure(Spaced(last[..k])) <= maxWidth
      {
        if k <= |cur| {
          TakeSnoc(cur, w, k);
        } else {
          TakeSnoc(cur, w, |cur| + 1);
          SpacedSnoc(cur, w);
        }
      }
    }
  }

  /** Taking from a sequence with one more element at the end. */
  lemma TakeSnoc<T>(s: seq<T>, x: T, k: nat)
    requires k <= |s| + 1
    ensures (s + [x])[..k] == if k <= |s| then s[..k] else s + [x]
  {
  }

  /** JavaScript `String.prototype.trim` whitespace: WhiteSpace and LineTerminator characters. */
  predicate IsWhitespace(c: char) {
    var n := c as int;
    (0x09 <= n <= 0x0D) || n == 0x20 || n == 0xA0 || n == 0x1680 ||
    (0x2000 <= n <= 0x200A) || n == 0x2028 || n == 0x2029 || n == 0x202F ||
    n == 0x205F || n == 0x3000 || n == 0xFEFF
  }

  function TrimEnd(s: string): (r: string)
    ensures |r| <= |s|
  {
    if s != [] && IsWhitespace(s[|s| - 1]) then TrimEnd(s[..|s| - 1]) else s
  }

  function TrimStart(s: string): (r: string)
    ensures |r| <= |s|
  {
    if s != [] && IsWhitespace(s[0]) then TrimStart(s[1..]) else s
  }

  /** `String.prototype.trim`. */
  function Trim(s: string): (r: string)
    ensures |r| <= |s|
    ensures s != [] && !IsWhitespace(s[0]) && !IsWhitespace(s[|s| - 1]) ==> r == s
  {
    TrimStart(TrimEnd(s))
  }

  lemma {:induction false} TrimEndShape(s: string)
    ensures var r := TrimEnd(s);
      r <= s && (r == [] || !IsWhitespace(r[|r| - 1])) &&
      forall i | |r| <= i < |s| :: IsWhitespace(s[i])
  {
    if s != [] && IsWhitespace(s[|s| - 1]) {
      TrimEndShape(s[..|s| - 1]);
    }
  }

  lemma {:induction false} TrimStartShape(s: string)
    ensures var r := TrimStart(s);
      |r| <= |s| && r == s[|s| - |r|..] && (r == [] || !IsWhitespace(r[0])) &&
      forall i | 0 <= i < |s| - |r| :: IsWhitespace(s[i])
  {
    if s != [] && IsWhitespace(s[0]) {
      var t := s[1..];
      TrimStartShape(t);
      var r := TrimStart(t);
      assert t[|t| - |r|..] == s[|s| - |r|..];
      forall i | 0 <= i < |s| - |r|
        ensures IsWhitespace(s[i])
      {
        if i > 0 {
          assert s[i] == t[i - 1];
        }
      }
    }
  }

  /**
   * Trimming removes exactly the whitespace at both ends: the result is a
   * slice of the input that neither starts nor ends with whitespace, and
   * everything cut off is whitespace.
   */
  lemma TrimShape(s: string)
    ensures exists a, b | 0 <= a <= b <= |s| ::
      (Trim(s) == s[a..b] &&
       (forall i | 0 <= i < a :: IsWhitespace(s[i])) &&
       (forall i | b <= i < |s| :: IsWhitespace(s[i])))
    ensures Trim(s) == [] || (!IsWhitespace(Trim(s)[0]) && !IsWhitespace(Trim(s)[|Trim(s)| - 1]))
  {
    var e := TrimEnd(s);
    TrimEndShape(s);
    TrimStartShape(e);
    var r := TrimStart(e);
    var a, b := |e| - |r|, |e|;
    assert r == s[a..b];
  }

  /** A word with no whitespace at either end. */
  predicate Clean(w: string) {
    w != [] && !IsWhitespace(w[0]) && !IsWhitespace(w[|w| - 1])
  }

  lemma {:induction false} SpacedIsJoin(words: seq<string>)
    requires words != []
    ensures Spaced(words) == Join(words, ' ') + " "
  {
    if |words| > 1 {
      SpacedIsJoin(words[..|words| - 1]);
    } else {
      assert words[..0] == [];
    }
  }

  /** Clean words joined by spaces form a clean string. */
  lemma {:induction false} JoinClean(words: seq<string>)
    requires words != []
    requires forall w | w in words :: Clean(w)
    ensures Clean(Join(words, ' '))
  {
    if |words| > 1 {
      var init := words[..|words| - 1];
      assert forall w | w in init :: w in words;
      JoinClean(init);
      assert words[|words| - 1] in words;
    } else {
      assert words[0] in words;
    }
  }

  /** A trimmed line of clean words is its words joined by single spaces. */
  lemma TrimLine(words: seq<string>)
    requires words != []
    requires forall w | w in words :: Clean(w)
    ensures Trim(Spaced(words)) == Join(words, ' ')
  {
    var s := Join(words, ' ');
    SpacedIsJoin(words);
    JoinClean(words);
    assert (s + " ")[..|s|] == s;
    assert TrimEnd(s + " ") == s;
  }

  lemma {:induction false} JoinAppend(a: seq<string>, b: seq<string>, sep: char)
    requires a != [] && b != []
    ensures Join(a + b, sep) == Join(a, sep) + [sep] + Join(b, sep)
  {
    if |b| == 1 {
      assert (a + b)[..|a + b| - 1] == a;
    } else {
      var b' := b[..|b| - 1];
      JoinAppend(a, b', sep);
      assert (a + b)[..|a + b| - 1] == a + b';
    }
  }

  /** The lines' texts joined with spaces are all words joined with spaces. */
  lemma {:induction false} JoinGroups(groups: seq<seq<string>>)
    requires groups != []
    requires forall j | 0 <= j < |groups| :: groups[j] != []
    ensures Join(seq(|groups|, j requires 0 <= j < |groups| => Join(groups[j], ' ')), ' ') == Join(Flatten(groups), ' ')
  {
    var texts := seq(|groups|, j requires 0 <= j < |groups| => Join(groups[j], ' '));
    var init := groups[..|groups| - 1];
    if |groups| == 1 {
      assert texts == [Join(groups[0], ' ')];
      assert Join(texts, ' ') == Join(groups[0], ' ');
      assert Flatten(groups) == Flatten(init) + groups[0];
      assert Flatten(init) == [];
      assert Flatten(groups) == groups[0];
    } else {
      JoinGroups(init);
      var initTexts := seq(|init|, j requires 0 <= j < |init| => Join(init[j], ' '));
      assert texts[..|texts| - 1] == initTexts;
      assert Flatten(init) != [] by {
        FlattenNonEmpty(init);
      }
      JoinAppend(Flatten(init), groups[|groups| - 1], ' ');
    }
  }

  lemma {:induction false} FlattenNonEmpty(groups: seq<seq<string>>)
    requires groups != [] && groups[|groups| - 1] != []
    ensures Flatten(groups) != []
  {
  }

  /** Vertical centre of line `j` of a block of `count` lines centred on `y`. */
  function LineY(y: real, lineHeight: real, count: nat, j: nat): (yy: real)
    ensures yy == y + (j as real - (count as real - 1.0) / 2.0) * lineHeight
  {
    y - (count as real * lineHeight) / 2.0 + lineHeight / 2.0 + j as real * lineHeight
  }

  lemma LineYStep(y: real, lineHeight: real, count: nat, j: nat)
    ensures LineY(y, lineHeight, count, j + 1) == LineY(y, lineHeight, count, j) + lineHeight
  {
    assert (j + 1) as real * lineHeight == j as real * lineHeight + lineHeight;
  }

  /** The first and last lines of a block sit symmetrically about `y`. */
  lemma BlockCentred(y: real, lineHeight: real, count: nat)
    requires count >= 1
    ensures LineY(y, lineHeight, count, 0) + LineY(y, lineHeight, count, count - 1) == 2.0 * y
    ensures forall j | 0 <= j < count - 1 :: LineY(y, lineHeight, count, j + 1) - LineY(y, lineHeight, count, j) == lineHeight
  {
  }

  /** One `fillText` call. */
  datatype TextDraw = TextDraw(text: string, x: real, y: real)

  /** The text of each line as the wrapping loop builds it. */
  function LineTexts(groups: seq<seq<string>>): (texts: seq<string>)
    ensures |texts| == |groups|
  {
    seq(|groups|, j requires 0 <= j < |groups| => Spaced(groups[j]))
  }

  /** Line texts are determined line by line. */
  lemma LineTextsOf(texts: seq<string>, groups: seq<seq<string>>)
    requires |texts| == |groups|
    requires forall j | 0 <= j < |texts| :: texts[j] == Spaced(groups[j])
    ensures texts == LineTexts(groups)
  {
  }

  /**
   * A packing step keeps every line but the last; the last line is either
   * closed and followed by a line holding just `w`, or extended by `w`.
   */
  lemma ExtendLines(g: seq<seq<string>>, w: string, first: bool, measure: string -> real, maxWidth: real)
    requires |g| >= 1
    ensures var e := Extend(g, w, first, measure, maxWidth);
      var broke := measure(Spaced(g[|g| - 1]) + w + " ") > maxWidth && !first;
      |e| == (if broke then |g| + 1 else |g|) &&
      (forall j | 0 <= j < |g| - 1 :: e[j] == g[j]) &&
      (broke ==> e[|g| - 1] == g[|g| - 1] && Spaced(e[|e| - 1]) == w + " ") &&
      (!broke ==> Spaced(e[|e| - 1]) == Spaced(g[|g| - 1]) + w + " ")
  {
    var cur := g[|g| - 1];
    if measure(Spaced(cur) + w + " ") > maxWidth && !first {
      SpacedSnoc([], w);
      assert [] + [w] == [w];
    } else {
      SpacedSnoc(cur, w);
    }
  }

  /** The texts of all lines but the last, then the text of the last. */
  lemma LineTextsOfLast(texts: seq<string>, last: string, groups: seq<seq<string>>)
    requires |groups| >= 1 && |texts| == |groups| - 1 && last == Spaced(groups[|groups| - 1])
    requires forall j | 0 <= j < |texts| :: texts[j] == Spaced(groups[j])
    ensures texts + [last] == LineTexts(groups)
  {
    LineTextsOf(texts + [last], groups);
  }

  /** The state of the first loop of `drawWrappedText`: the finished lines and the line being built. */
  datatype Packing = Packing(done: seq<string>, line: string)

  /** The loop state after the words `words`, one word at a time. */
  function Packed(words: seq<string>, measure: string -> real, maxWidth: real): Packing {
    if words == [] then Packing([], "")
    else
      var n := |words| - 1;
      var p := Packed(words[..n], measure, maxWidth);
      var testLine := p.line + words[n] + " ";
      if measure(testLine) > maxWidth && n > 0 then Packing(p.done + [p.line], words[n] + " ")
      else Packing(p.done, testLine)
  }

  /** The loop state holds the texts of the reference packing: all lines but the last, and the last. */
  lemma {:induction false} PackedIsGroups(words: seq<string>, measure: string -> real, maxWidth: real)
    ensures var p := Packed(words, measure, maxWidth);
      var g := Groups(words, measure, maxWidth);
      |p.done| == |g| - 1 && p.line == Spaced(g[|g| - 1]) &&
      forall j | 0 <= j < |p.done| :: p.done[j] == Spaced(g[j])
  {
    if words != [] {
      var n := |words| - 1;
      PackedIsGroups(words[..n], measure, maxWidth);
      ExtendLines(Groups(words[..n], measure, maxWidth), words[n], n == 0, measure, maxWidth);
    }
  }

  /** First loop of `drawWrappedText`: packs the words into lines. */
  method BreakLines(measure: string -> real, words: seq<string>, maxWidth: real) returns (lines: seq<string>)
    ensures lines == LineTexts(Groups(words, measure, maxWidth))
  {
    var line := "";
    lines := [];
    var n := 0;
    while n < |words|
      invariant 0 <= n <= |words|
      invariant Packing(lines, line) == Packed(words[..n], measure, maxWidth)
    {
      assert words[..n + 1][..n] == words[..n];
      var testLine := line + words[n] + " ";
      if measure(testLine) > maxWidth && n > 0 {
        lines := lines + [line];
        line := words[n] + " ";
      } else {
        line := testLine;
      }
      n := n + 1;
    }
    assert words[..n] == words;
    PackedIsGroups(words, measure, maxWidth);
    LineTextsOfLast(lines, line, Groups(words, measure, maxWidth));
    lines := lines + [line];
  }

  /** Second loop of `drawWrappedText`: draws each trimmed line, one line height below the previous. */
  method PlaceLines(lines: seq<string>, x: real, y: real, lineHeight: real) returns (draws: seq<TextDraw>)
    ensures |draws| == |lines|
    ensures forall j | 0 <= j < |lines| :: draws[j] == TextDraw(Trim(lines[j]), x, LineY(y, lineHeight, |lines|, j))
  {
    var yy := y - (|lines| as real * lineHeight) / 2.0 + lineHeight / 2.0;
    draws := [];
    var i := 0;
    while i < |lines|
      invariant 0 <= i <= |lines|
      invariant |draws| == i
      invariant yy == LineY(y, lineHeight, |lines|, i)
      invariant forall j | 0 <= j < i :: draws[j] == TextDraw(Trim(lines[j]), x, LineY(y, lineHeight, |lines|, j))
    {
      var ln := lines[i];
      draws := draws + [TextDraw(Trim(ln), x, yy)];
      LineYStep(y, lineHeight, |lines|, i);
      yy := yy + lineHeight;
      i := i + 1;
    }
  }

  /**
   * `drawWrappedText`: splits `text` on spaces, packs the words into lines
   * and returns the text drawn for each line and where.
   */
  method DrawWrappedText(measure: string -> real, text: string, x: real, y: real, maxWidth: real, lineHeight: real)
    returns (draws: seq<TextDraw>)
    ensures var g := Groups(Split(text, ' '), measure, maxWidth);
      |draws| == |g| &&
      forall j | 0 <= j < |g| :: draws[j] == TextDraw(Trim(Spaced(g[j])), x, LineY(y, lineHeight, |g|, j))
  {
    var words := Split(text, ' ');
    var lines := BreakLines(measure, words, maxWidth);
    draws := PlaceLines(lines, x, y, lineHeight);
  }

  /** Trimming the lines of clean words gives each line's words joined by spaces. */
  lemma TrimmedLines(groups: seq<seq<string>>, words: seq<string>)
    requires Flatten(groups) == words
    requires forall j | 0 <= j < |groups| :: groups[j] != []
    requires forall w | w in words :: Clean(w)
    ensures seq(|groups|, j requires 0 <= j < |groups| => Trim(Spaced(groups[j]))) ==
            seq(|groups|, j requires 0 <= j < |groups| => Join(groups[j], ' '))
  {
    var trimmed := seq(|groups|, j requires 0 <= j < |groups| => Trim(Spaced(groups[j])));
    var joined := seq(|groups|, j requires 0 <= j < |groups| => Join(groups[j], ' '));
    forall j | 0 <= j < |groups|
      ensures trimmed[j] == joined[j]
    {
      FlattenMember(groups, j);
      TrimLine(groups[j]);
    }
    assert trimmed == joined;
  }

  /**
   * Read back: when every word of the text is clean, the drawn lines joined
   * with single spaces are the original text.
   */
  lemma DrawnLinesReadBack(text: string, measure: string -> real, maxWidth: real)
    requires forall w | w in Split(text, ' ') :: Clean(w)
    ensures var g := Groups(Split(text, ' '), measure, maxWidth);
      Join(seq(|g|, j requires 0 <= j < |g| => Trim(Spaced(g[j]))), ' ') == text
  {
    var words := Split(text, ' ');
    var g := Groups(words, measure, maxWidth);
    GroupsShape(words, measure, maxWidth);
    TrimmedLines(g, words);
    JoinGroups(g);
    JoinSplit(text, ' ');
  }

  /** Every word of a line is a word of the flattened sequence. */
  lemma {:induction false} FlattenMember(groups: seq<seq<string>>, j: nat)
    requires j < |groups|
    ensures forall w | w in groups[j] :: w in Flatten(groups)
  {
    if j < |groups| - 1 {
      FlattenMember(groups[..|groups| - 1], j);
    }
  }
}
