/**
 * The melody schedule of `getMelodyNotes`: a fixed table of 48 steps, one
 * beat (0.5 s) each, after a 0.5 s intro delay.  A step holding a frequency
 * becomes a note; a rest (`null`) becomes no note but still advances the
 * time cursor.  Frequencies are opaque payload here.
 */
module Melody {
  import opened Seqs
  import Stage

  datatype Note = Note(time: real, freq: real, dur: real)

  /** Note frequencies in Hz, as written in the source. */
  const C: real := 261.63
  const D: real := 293.66
  const E: real := 329.63
  const F: real := 349.23
  const G: real := 392.00
  const A: real := 440.00

  /** Seconds per step. */
  const Beat: real := 0.5
  /** Time of the first step. */
  const IntroDelay: real := 0.5
  /** Silence appended after the last step. */
  const Outro: real := 0.5

  /** The 48-step note table, six rows of seven notes and a rest; `None` is a rest. */
  const Steps: seq<Option<real>> :=
    Row(C, C, G, G, A, A, G) +
    Row(F, F, E, E, D, D, C) +
    Row(G, G, F, F, E, E, D) +
    Row(G, G, F, F, E, E, D) +
    Row(C, C, G, G, A, A, G) +
    Row(F, F, E, E, D, D, C)

  /** One row of the note table: seven notes and a closing rest. */
  function Row(a: real, b: real, c: real, d: real, e: real, f: real, g: real): seq<Option<real>> {
    [Some(a), Some(b), Some(c), Some(d), Some(e), Some(f), Some(g), None]
  }

  /** Time cursor when step `i` is reached. */
  function Onset(i: nat): real {
    IntroDelay + Beat * i as real
  }

  /**
   * Reference schedule of a step table: the notes of all steps but the last,
   * followed by the note of the last step when it is not a rest.
   */
  function Schedule(steps: seq<Option<real>>): seq<Note> {
    if steps == [] then []
    else
      var i := |steps| - 1;
      Schedule(steps[..i]) + (match steps[i] case Some(f) => [Note(Onset(i), f, Beat)] case None => [])
  }

  /** Number of non-rest steps, counted from the front. */
  function NoteCount(steps: seq<Option<real>>): nat {
    if steps == [] then 0
    else (if steps[0].Some? then 1 else 0) + NoteCount(steps[1..])
  }

  /**
   * The loop of `getMelodyNotes` over a step table: walks it with a time
   * cursor starting at the intro delay, pushing a note for every non-rest step.
   */
  method WalkSteps(steps: seq<Option<real>>) returns (notes: seq<Note>, t: real)
    ensures notes == Schedule(steps)
    ensures t == Onset(|steps|)
  {
    notes := [];
    t := IntroDelay;
    var i := 0;
    while i < |steps|
      invariant 0 <= i <= |steps|
      invariant t == Onset(i)
      invariant notes == Schedule(steps[..i])
      decreases |steps| - i
    {
      assert steps[..i + 1][..i] == steps[..i];
      if steps[i].Some? {
        notes := notes + [Note(t, steps[i].value, Beat)];
      }
      t := t + Beat;
      i := i + 1;
    }
    assert steps[..i] == steps;
  }

  /** `getMelodyNotes`: the schedule of the fixed table and the cursor plus the outro. */
  method GetMelodyNotes() returns (notes: seq<Note>, duration: real)
    ensures notes == Schedule(Steps)
    ensures duration == Onset(|Steps|) + Outro
    ensures duration == 25.0
  {
    var t;
    notes, t := WalkSteps(Steps);
    duration := t + Outro;
  }

  lemma {:induction false} NoteCountSnoc(steps: seq<Option<real>>, x: Option<real>)
    ensures NoteCount(steps + [x]) == NoteCount(steps) + (if x.Some? then 1 else 0)
  {
    if steps != [] {
      assert (steps + [x])[1..] == steps[1..] + [x];
      NoteCountSnoc(steps[1..], x);
    }
  }

  /** One note per non-rest step: the schedule is as long as the number of non-rest steps. */
  lemma {:induction false} ScheduleLength(steps: seq<Option<real>>)
    ensures |Schedule(steps)| == NoteCount(steps)
  {
    if steps != [] {
      var i := |steps| - 1;
      ScheduleLength(steps[..i]);
      assert steps == steps[..i] + [steps[i]];
      NoteCountSnoc(steps[..i], steps[i]);
    }
  }

  /** Every note of the schedule comes from a non-rest step, at that step's onset, lasting one beat. */
  lemma {:induction false} ScheduleNotesFromSteps(steps: seq<Option<real>>)
    ensures forall n | n in Schedule(steps) ::
      n.dur == Beat && exists i | 0 <= i < |steps| :: steps[i] == Some(n.freq) && n.time == Onset(i)
  {
    if steps != [] {
      var i := |steps| - 1;
      ScheduleNotesFromSteps(steps[..i]);
      forall n | n in Schedule(steps)
        ensures n.dur == Beat && exists j | 0 <= j < |steps| :: steps[j] == Some(n.freq) && n.time == Onset(j)
      {
        if n in Schedule(steps[..i]) {
          var j :| 0 <= j < i && steps[..i][j] == Some(n.freq) && n.time == Onset(j);
          assert steps[j] == Some(n.freq);
        } else {
          assert steps[i] == Some(n.freq) && n.time == Onset(i);
        }
      }
    }
  }

  /** The non-rest step `i` yields the note numbered by the non-rest steps before it. */
  lemma {:induction false} ScheduleNoteOfStep(steps: seq<Option<real>>, i: nat)
    requires i < |steps| && steps[i].Some?
    ensures NoteCount(steps[..i]) < |Schedule(steps)|
    ensures Schedule(steps)[NoteCount(steps[..i])] == Note(Onset(i), steps[i].value, Beat)
  {
    var last := |steps| - 1;
    ScheduleLength(steps[..last]);
    if i == last {
      assert steps[..i] == steps[..last];
    } else {
      assert steps[..last][..i] == steps[..i];
      ScheduleNoteOfStep(steps[..last], i);
    }
  }

  /** Every note starts before the cursor reaches the end of the table. */
  lemma {:induction false} ScheduleWithin(steps: seq<Option<real>>)
    ensures forall n | n in Schedule(steps) :: n.dur == Beat && IntroDelay <= n.time && n.time + Beat <= Onset(|steps|)
  {
    if steps != [] {
      ScheduleWithin(steps[..|steps| - 1]);
    }
  }

  /** Onsets strictly increase along the schedule. */
  lemma {:induction false} ScheduleIncreasing(steps: seq<Option<real>>)
    ensures forall j, k | 0 <= j < k < |Schedule(steps)| :: Schedule(steps)[j].time < Schedule(steps)[k].time
  {
    if steps != [] {
      var i := |steps| - 1;
      var prefix := Schedule(steps[..i]);
      ScheduleIncreasing(steps[..i]);
      ScheduleWithin(steps[..i]);
      forall j, k | 0 <= j < k < |Schedule(steps)|
        ensures Schedule(steps)[j].time < Schedule(steps)[k].time
      {
        assert Schedule(steps)[j] == prefix[j] by {
          assert Schedule(steps) == prefix + Schedule(steps)[|prefix|..];
        }
        if k >= |prefix| {
          assert prefix[j] in prefix;
          assert Schedule(steps)[k].time == Onset(i);
        } else {
          assert Schedule(steps)[k] == prefix[k];
        }
      }
    }
  }

  lemma {:induction false} NoteCountAppend(a: seq<Option<real>>, b: seq<Option<real>>)
    ensures NoteCount(a + b) == NoteCount(a) + NoteCount(b)
  {
    if a != [] {
      assert (a + b)[1..] == a[1..] + b;
      NoteCountAppend(a[1..], b);
    } else {
      assert a + b == b;
    }
  }

  lemma {:induction false} NoteCountNoRests(steps: seq<Option<real>>)
    requires forall i | 0 <= i < |steps| :: steps[i].Some?
    ensures NoteCount(steps) == |steps|
  {
    if steps != [] {
      NoteCountNoRests(steps[1..]);
    }
  }

  lemma RowNoteCount(a: real, b: real, c: real, d: real, e: real, f: real, g: real)
    ensures NoteCount(Row(a, b, c, d, e, f, g)) == 7
  {
    var r := Row(a, b, c, d, e, f, g);
    assert r == r[..7] + [None];
    NoteCountSnoc(r[..7], None);
    NoteCountNoRests(r[..7]);
  }

  /** The fixed table has 42 non-rest steps. */
  lemma SongNoteCount()
    ensures NoteCount(Steps) == 42
  {
    var r1, r2, r3 := Row(C, C, G, G, A, A, G), Row(F, F, E, E, D, D, C), Row(G, G, F, F, E, E, D);
    RowNoteCount(C, C, G, G, A, A, G);
    RowNoteCount(F, F, E, E, D, D, C);
    RowNoteCount(G, G, F, F, E, E, D);
    NoteCountAppend(r1 + r2 + r3 + r3 + r1, r2);
    NoteCountAppend(r1 + r2 + r3 + r3, r1);
    NoteCountAppend(r1 + r2 + r3, r3);
    NoteCountAppend(r1 + r2, r3);
    NoteCountAppend(r1, r2);
  }

  /**
   * The fixed song: 42 notes, the last one (step 46) starting at 23.5 s and
   * ending at 24.0 s, and a returned duration of 25.0 s that fits within
   * the session length.
   */
  lemma SongShape()
    ensures |Schedule(Steps)| == 42
    ensures Schedule(Steps)[41] == Note(23.5, C, Beat)
    ensures Schedule(Steps)[41].time + Schedule(Steps)[41].dur == 24.0
    ensures Onset(|Steps|) + Outro <= Stage.TotalDuration
  {
    SongNoteCount();
    ScheduleLength(Steps);
    var p47, p46 := Steps[..47], Steps[..46];
    assert p47[..46] == p46;
    assert Steps[..47] == p47;
    assert Schedule(Steps) == Schedule(p47);
    assert Schedule(p47) == Schedule(p46) + [Note(Onset(46), C, Beat)];
  }
}
