/**
 * The deterministic content of `drawScene` at elapsed time `t`: the moon's
 * horizontal position and the lyric panel.  The painted shapes are not part
 * of this model.
 */
module Scene {
  import Stage
  import Lyrics

  /** `width * (0.15 + 0.7 * (t / TOTAL_DURATION))`. */
  function MoonX(t: real): (x: real)
    ensures 0.0 <= t <= Stage.TotalDuration ==> 0.15 * Stage.Width as real <= x <= 0.85 * Stage.Width as real
  {
    Stage.Width as real * (0.15 + 0.7 * (t / Stage.TotalDuration))
  }

  /** The moon glides from 15% to 85% of the width over the song, never moving back. */
  lemma MoonGlides(t1: real, t2: real)
    requires t1 <= t2
    ensures MoonX(0.0) == Stage.Width as real * 0.15
    ensures MoonX(Stage.TotalDuration) == Stage.Width as real * 0.85
    ensures MoonX(t1) <= MoonX(t2)
  {
  }

  /** What a frame shows that is not decoration. */
  datatype Frame = Frame(moonX: real, lyrics: Lyrics.Panel)

  function DrawScene(t: real): (f: Frame)
    ensures 0.0 <= t <= Stage.TotalDuration ==> 192.0 <= f.moonX <= 1088.0
  {
    Frame(MoonX(t), Lyrics.DrawLyrics(t))
  }
}
