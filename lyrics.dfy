/**
 * Lyric selection of `drawLyrics` and the highlight geometry of
 * `karaokeText`.  The lyric table is fixed, sorted and contiguous; at time
 * `t` the active line is the first line with `start <= t < end` and the next
 * line is the first line with `t < start`.
 */
module Lyrics {
  import opened Seqs
  import Stage

  datatype LyricLine = LyricLine(text: string, start: real, end: real)

  /** The lyric table, times in seconds. */
  const Lines: seq<LyricLine> := [
    LyricLine("Twinkle, twinkle, little star", 0.5, 4.5),
    LyricLine("How I wonder what you are", 4.5, 8.5),
    LyricLine("Up above the world so high", 8.5, 12.5),
    LyricLine("Like a diamond in the sky", 12.5, 16.5),
    LyricLine("Twinkle, twinkle, little star", 16.5, 20.5),
    LyricLine("How I wonder what you are", 20.5, 24.5)
  ]

  /** Title drawn in place of a lyric when no line is active. */
  const FallbackTitle: string := "Twinkle, Twinkle Little Star"

  /** Width available to a highlighted lyric: the canvas less 80 px per side. */
  const MaxLineWidth: real := (Stage.Width - 160) as real

  /** Narrowest highlight clip, in pixels. */
  const MinClipWidth: real := 20.0

  predicate ActiveAt(l: LyricLine, t: real) {
    t >= l.start && t < l.end
  }

  predicate UpcomingAt(l: LyricLine, t: real) {
    t < l.start
  }

  /** Index of the line being sung at `t`, if any. */
  function Active(t: real): (r: Option<nat>)
    ensures r.Some? ==> r.value < |Lines| && ActiveAt(Lines[r.value], t) &&
                        forall j | 0 <= j < r.value :: !ActiveAt(Lines[j], t)
    ensures r.None? ==> forall k | 0 <= k < |Lines| :: !ActiveAt(Lines[k], t)
  {
    FindFirst(Lines, Sung(t))
  }

  /** Index of the first line still to come at `t`, if any. */
  function Next(t: real): (r: Option<nat>)
    ensures r.Some? ==> r.value < |Lines| && UpcomingAt(Lines[r.value], t) &&
                        forall j | 0 <= j < r.value :: !UpcomingAt(Lines[j], t)
    ensures r.None? ==> forall k | 0 <= k < |Lines| :: !UpcomingAt(Lines[k], t)
  {
    FindFirst(Lines, Upcoming(t))
  }

  /** The search predicate of `Active`. */
  function Sung(t: real): LyricLine -> bool {
    l => ActiveAt(l, t)
  }

  /** The search predicate of `Next`. */
  function Upcoming(t: real): LyricLine -> bool {
    l => UpcomingAt(l, t)
  }

  /** Every line lasts a positive time and starts where the previous one ends. */
  ghost predicate Contiguous(lines: seq<LyricLine>) {
    (forall i | 0 <= i < |lines| :: lines[i].start < lines[i].end) &&
    (forall i | 0 <= i < |lines| - 1 :: lines[i].end == lines[i + 1].start)
  }

  lemma LinesContiguous()
    ensures Contiguous(Lines)
  {
  }

  /** In a contiguous table an earlier line ends no later than a later line starts. */
  lemma {:induction false} ContiguousSorted(lines: seq<LyricLine>, i: nat, j: nat)
    requires Contiguous(lines)
    requires i < j < |lines|
    ensures lines[i].end <= lines[j].start
    decreases j - i
  {
    if i + 1 < j {
      ContiguousSorted(lines, i + 1, j);
    }
  }

  /** At most one line of a contiguous table is active at any time. */
  lemma AtMostOneActive(lines: seq<LyricLine>, t: real, i: nat, j: nat)
    requires Contiguous(lines)
    requires i < |lines| && j < |lines|
    requires ActiveAt(lines[i], t) && ActiveAt(lines[j], t)
    ensures i == j
  {
    if i < j {
      ContiguousSorted(lines, i, j);
    } else if j < i {
      ContiguousSorted(lines, j, i);
    }
  }

  /** Some line of a non-empty contiguous table is active throughout its span. */
  lemma {:induction false} SomeLineActive(lines: seq<LyricLine>, t: real)
    requires Contiguous(lines) && lines != []
    requires lines[0].start <= t < lines[|lines| - 1].end
    ensures exists i | 0 <= i < |lines| :: ActiveAt(lines[i], t)
  {
    if !ActiveAt(lines[0], t) {
      var rest := lines[1..];
      assert Contiguous(rest);
      SomeLineActive(rest, t);
      var i :| 0 <= i < |rest| && ActiveAt(rest[i], t);
      assert ActiveAt(lines[i + 1], t);
    }
  }

  /**
   * The selected line is exactly the line whose interval holds `t`, and a
   * line is selected exactly for `t` in [0.5, 24.5).
   */
  lemma ActiveIsUnique(t: real, k: nat)
    ensures Active(t) == Some(k) <==> k < |Lines| && ActiveAt(Lines[k], t)
    ensures Active(t).Some? <==> 0.5 <= t < 24.5
  {
    LinesContiguous();
    var r := Active(t);
    if k < |Lines| && ActiveAt(Lines[k], t) {
      AtMostOneActive(Lines, t, r.value, k);
    }
    if 0.5 <= t < 24.5 {
      SomeLineActive(Lines, t);
    }
  }

  /** At a shared boundary the later line is the active one. */
  lemma ActiveAtBoundary()
    ensures Active(4.5) == Some(1)
  {
    ActiveIsUnique(4.5, 1);
  }

  /** In contiguous lines, the first line still to come while line `k` is active is line `k + 1`. */
  lemma NextOfContiguous(lines: seq<LyricLine>, t: real, k: nat)
    requires Contiguous(lines) && k < |lines| && ActiveAt(lines[k], t)
    ensures FindFirst(lines, Upcoming(t)) == if k + 1 < |lines| then Some(k + 1) else None
  {
    forall j | 0 <= j <= k
      ensures !UpcomingAt(lines[j], t)
    {
      if j < k {
        ContiguousSorted(lines, j, k);
      }
    }
    if k + 1 < |lines| {
      assert UpcomingAt(lines[k + 1], t);
    }
  }

  /** While line `k` is active the next line is line `k + 1`, or none after the last line. */
  lemma NextFollowsActive(t: real, k: nat)
    requires Active(t) == Some(k)
    ensures Next(t) == if k + 1 < |Lines| then Some(k + 1) else None
  {
    LinesContiguous();
    NextOfContiguous(Lines, t, k);
  }

  /** There is a next line exactly while `t` is before the start of the last line. */
  lemma NextExists(t: real)
    ensures Next(t).None? <==> t >= 20.5
  {
  }

  /** Fraction of line `l` sung at time `t`. */
  function Progress(l: LyricLine, t: real): (p: real)
    requires l.start < l.end
    ensures ActiveAt(l, t) ==> 0.0 <= p < 1.0
    ensures t == l.start ==> p == 0.0
    ensures t == l.end ==> p == 1.0
  {
    var d := l.end - l.start;
    var p := (t - l.start) / d;
    QuotientBounds(t - l.start, d);
    p
  }

  lemma QuotientBounds(x: real, d: real)
    requires d > 0.0
    ensures 0.0 <= x ==> 0.0 <= x / d
    ensures x < d ==> x / d < 1.0
    ensures x == d ==> x / d == 1.0
  {
    assert (x / d) * d == x;
    assert (x / d - 1.0) * d == x - d;
  }

  /** Scaling by a non-negative factor keeps the order of its operands. */
  lemma ScaleMonotone(w: real, c1: real, c2: real)
    requires w >= 0.0 && c1 <= c2
    ensures w * c1 <= w * c2
  {
    assert w * c2 - w * c1 == w * (c2 - c1);
  }

  /** Progress never decreases as time advances. */
  lemma ProgressMonotone(l: LyricLine, t1: real, t2: real)
    requires l.start < l.end
    requires t1 <= t2
    ensures Progress(l, t1) <= Progress(l, t2)
  {
    var d := l.end - l.start;
    assert Progress(l, t2) - Progress(l, t1) == (t2 - t1) / d;
    QuotientBounds(t2 - t1, d);
  }

  /** What `drawLyrics` writes: the main text, the karaoke progress when a line is active, and the upcoming line. */
  datatype Panel = Panel(main: string, progress: Option<real>, upcoming: Option<string>)

  /**
   * The lyric panel at time `t`: the active line with its progress, or the
   * fallback title; and the next line while one is still to come.
   */
  function DrawLyrics(t: real): (panel: Panel)
    ensures panel.progress.Some? <==> 0.5 <= t < 24.5
    ensures panel.progress.None? ==> panel.main == FallbackTitle
    ensures panel.progress.Some? ==>
      exists k | 0 <= k < |Lines| :: ActiveAt(Lines[k], t) && panel.main == Lines[k].text &&
                                     panel.progress.value == Progress(Lines[k], t)
    ensures panel.progress.Some? ==> 0.0 <= panel.progress.value < 1.0
    ensures panel.upcoming.Some? <==> t < 20.5
    ensures panel.upcoming.Some? ==>
      exists k | 0 <= k < |Lines| :: UpcomingAt(Lines[k], t) && panel.upcoming.value == Lines[k].text &&
                                     forall j | 0 <= j < k :: !UpcomingAt(Lines[j], t)
  {
    ActiveIsUnique(t, 0);
    NextExists(t);
    var upcoming :=
      match Next(t)
      case Some(k) => Some(Lines[k].text)
      case None => None;
    match Active(t)
    case Some(k) => Panel(Lines[k].text, Some(Progress(Lines[k], t)), upcoming)
    case None => Panel(FallbackTitle, None, upcoming)
  }

  /** Two seconds into the song the first line is half sung and the second is up next. */
  lemma PanelAtTwoAndAHalf()
    ensures DrawLyrics(2.5) == Panel("Twinkle, twinkle, little star", Some(0.5), Some("How I wonder what you are"))
  {
    ActiveIsUnique(2.5, 0);
    NextFollowsActive(2.5, 0);
  }

  function Min(a: real, b: real): real {
    if a <= b then a else b
  }

  function Max(a: real, b: real): real {
    if a >= b then a else b
  }

  /** Progress clamped into [0, 1]. */
  function Clamp01(p: real): (c: real)
    ensures 0.0 <= c <= 1.0
    ensures 0.0 <= p <= 1.0 ==> c == p
    ensures p < 0.0 ==> c == 0.0
    ensures p > 1.0 ==> c == 1.0
  {
    Min(1.0, Max(0.0, p))
  }

  /** The highlight clip of `karaokeText`: a rectangle from the left edge of the centred text. */
  datatype ClipRect = ClipRect(left: real, width: real)

  /**
   * Highlight clip for a lyric measured at `textWidth` pixels: the text
   * width is capped at `MaxLineWidth` and the clip covers the clamped
   * progress of it, but never less than `MinClipWidth`.
   */
  function HighlightClip(textWidth: real, progress: real): (c: ClipRect)
    ensures c.left == -Min(textWidth, MaxLineWidth) / 2.0
    ensures MinClipWidth <= c.width <= Max(MinClipWidth, Min(textWidth, MaxLineWidth))
    ensures c.width <= Max(MinClipWidth, MaxLineWidth)
    ensures progress >= 1.0 ==> c.width == Max(MinClipWidth, Min(textWidth, MaxLineWidth))
    ensures progress <= 0.0 ==> c.width == MinClipWidth
  {
    var totalW := Min(textWidth, MaxLineWidth);
    var c := Clamp01(progress);
    ScaledWithin(totalW, c);
    ClipRect(-totalW / 2.0, Max(MinClipWidth, totalW * c))
  }

  /** A width scaled by a fraction in [0, 1] does not exceed the width, or zero when negative. */
  lemma ScaledWithin(w: real, c: real)
    requires 0.0 <= c <= 1.0
    ensures w * c <= Max(0.0, w)
  {
    if w >= 0.0 {
      ScaleMonotone(w, c, 1.0);
    } else {
      ScaleMonotone(-w, 0.0, c);
    }
  }

  /** For a progress in [0, 1] the clip covers that fraction of the capped width, at least `MinClipWidth`. */
  lemma HighlightWidth(textWidth: real, p: real)
    requires 0.0 <= p <= 1.0
    ensures HighlightClip(textWidth, p).width == Max(MinClipWidth, Min(textWidth, MaxLineWidth) * p)
  {
    var w := Min(textWidth, MaxLineWidth);
    var c := Clamp01(p);
    assert c == p;
    assert HighlightClip(textWidth, p) == ClipRect(-w / 2.0, Max(MinClipWidth, w * c));
  }

  /** The clip never narrows as the progress grows within [0, 1]. */
  lemma ClipWidthMonotone(textWidth: real, p1: real, p2: real)
    requires textWidth >= 0.0
    requires 0.0 <= p1 <= p2 <= 1.0
    ensures HighlightClip(textWidth, p1).width <= HighlightClip(textWidth, p2).width
  {
    assert MaxLineWidth == 1120.0;
    HighlightWidth(textWidth, p1);
    HighlightWidth(textWidth, p2);
    ClipScaleMonotone(Min(textWidth, MaxLineWidth), p1, p2);
  }

  /** Scaling by a larger fraction never gives a narrower clip. */
  lemma ClipScaleMonotone(w: real, p1: real, p2: real)
    requires w >= 0.0 && p1 <= p2
    ensures Max(MinClipWidth, w * p1) <= Max(MinClipWidth, w * p2)
  {
    ScaleMonotone(w, p1, p2);
  }

  /** While a line is sung its highlight only grows. */
  lemma HighlightSweeps(l: LyricLine, textWidth: real, t1: real, t2: real)
    requires textWidth >= 0.0
    requires ActiveAt(l, t1) && ActiveAt(l, t2) && t1 <= t2
    ensures HighlightClip(textWidth, Progress(l, t1)).width <= HighlightClip(textWidth, Progress(l, t2)).width
  {
    ProgressMonotone(l, t1, t2);
    ClipWidthMonotone(textWidth, Progress(l, t1), Progress(l, t2));
  }
}
