# Twinkle video maker — a Dafny model of its deterministic core

The page (`app/page.jsx`) plays a karaoke preview of "Twinkle, Twinkle, Little
Star" on a 1280×720 canvas and can record it to a WebM video.  Everything it
draws or plays is a function of the elapsed time `t` and a few constants, and
this project models those rules and proves what they promise:

- **Melody** (`melody.dfy`): the 48-step note table with rests, turned into
  timed notes half a second apart after a half-second intro, and the reported
  duration.
- **Lyrics** (`lyrics.dfy`, with `seqs.dfy` for the first-match search): which
  lyric line is active at `t` and which is upcoming, the karaoke progress
  through the active line, and the width of the highlight clip.
- **Word wrap** (`textwrap.dfy`): splitting on spaces, greedy line breaking
  against a caller-supplied text measure, vertical centring of the block and
  JavaScript `trim()`.
- **Star field** (`starfield.dfy`): the seeded Park–Miller (Lehmer) generator
  with multiplier 16807 and modulus 2^31 − 1, the 120 stars it produces from
  seed 42, and `ensureStars`, which builds them once.
- **Recording options** (`recording.dfy`): first-supported MIME negotiation,
  the recorder options and the blob type.
- **Scene** (`scene.dfy`): the moon's horizontal glide and the frame data
  (moon position and lyric panel) computed for a time.
- **Session** (`session.dfy`): the preview/recording/stop flags and the status
  line (`Status`, shown as its source text), the two frame loops, the recorder's data and stop handlers, the stop
  timer and `stopAll`, as a class whose methods update its fields.

Floating-point numbers are modelled as exact reals, and `Math.floor` as
`.Floor`.  The JavaScript `%` operator truncates toward zero, which
`StarField.JsRem` spells out.  React state updates are modelled as immediate
field assignments.  The clock reading (`performance.now()`), the browser's
`MediaRecorder.isTypeSupported` and the object URL of the finished video are
all parameters.

Two points where the code is more precise than a loose reading of its intent:
- Note onsets strictly increase (`Melody.ScheduleIncreasing`), because every
  step, rest or not, advances time by a beat.
- `stopAll` on an idle page changes nothing: an idle page always reads
  "Ready" (`Session.Session.Valid`).

Modelling `stopAll` also shows that it does not stop the recorder.  The old
recorder's stop timer therefore stays pending, and when it fires during a
later recording it ends that recording's flags while the later recorder is
still capturing (`Session.AbandonedRecorderEndsLaterRecording`).

## Model

| member | source | states |
|---|---|---|
| Melody.WalkSteps | app/page.jsx:279-284 | the loop over a step table pushes one note per non-rest step, returning exactly the schedule of the table, and leaves the time cursor one beat past the last step |
| Melody.GetMelodyNotes | app/page.jsx:268-286 | the notes are exactly the schedule of the 48-step table, and the duration is the time after the last step plus the half-second outro, i.e. 25 s |
| Melody.ScheduleLength | app/page.jsx:281-284 | the schedule has one note per non-rest step |
| Melody.ScheduleNotesFromSteps | app/page.jsx:281-282 | every scheduled note's frequency is the frequency of some step, at that step's onset |
| Melody.ScheduleNoteOfStep | app/page.jsx:280-284 | every non-rest step i yields a note at time 0.5 + 0.5·i with its frequency and a one-beat duration |
| Melody.ScheduleWithin | app/page.jsx:280-285 | every note lasts one beat, starts no earlier than the intro delay and ends by the time the loop finishes |
| Melody.ScheduleIncreasing | app/page.jsx:281-284 | note times are strictly increasing, so the notes come out in playing order |
| Melody.NoteCountAppend | app/page.jsx:271-278 | the note count of concatenated step tables is the sum of their counts |
| Melody.SongNoteCount | app/page.jsx:271-278 | the table is six rows of seven notes and a rest, so it holds 42 notes |
| Melody.SongShape | app/page.jsx:268-286 | the song has 42 notes, the last is C at 23.5 s ending at 24 s, and the returned duration fits within the 26.5 s total |
| Seqs.FindFirst | app/page.jsx:185-186 | `Array.find`: the index returned is the first element satisfying the predicate, and none means no element does |
| Lyrics.LinesContiguous | app/page.jsx:21-28 | each lyric line starts where the previous ends and every line has positive length |
| Lyrics.ContiguousSorted | app/page.jsx:21-28 | in contiguous lines, a later line starts no earlier than an earlier one ends |
| Lyrics.Active | app/page.jsx:185 | `LYRICS.find` for the line being sung: a returned index is a line active at t with no earlier line active, and none means no line is active; `ActiveIsUnique` pins it to the one line whose interval holds t |
| Lyrics.Next | app/page.jsx:186 | `LYRICS.find` for the next line: a returned index is the first line starting after t, and none means every line has started; `NextFollowsActive` and `NextExists` say which line that is on the fixed table |
| Lyrics.AtMostOneActive | app/page.jsx:185 | with half-open intervals, no two lines are active at the same time |
| Lyrics.SomeLineActive | app/page.jsx:185 | every time between the first start and the last end is covered by some line |
| Lyrics.ActiveIsUnique | app/page.jsx:185 | the active line is k exactly when t lies in line k's interval, and some line is active exactly when 0.5 ≤ t < 24.5 |
| Lyrics.ActiveAtBoundary | app/page.jsx:21-28 | at 4.5 s the second line, not the first, is active |
| Lyrics.NextOfContiguous | app/page.jsx:185-186 | in contiguous lines, while line k is active the first line still to come is line k + 1, or none when k is the last line |
| Lyrics.NextFollowsActive | app/page.jsx:185-186 | while line k is active, the upcoming line is line k + 1 whenever there is one |
| Lyrics.NextExists | app/page.jsx:186 | there is no upcoming line exactly from 20.5 s on |
| Lyrics.Progress | app/page.jsx:194 | the progress is 0 at the line's start, 1 at its end, and within [0, 1) while the line is active |
| Lyrics.ProgressMonotone | app/page.jsx:194 | progress never decreases as time advances |
| Lyrics.DrawLyrics | app/page.jsx:185-209 | the panel shows the active line with its progress exactly when a line is active and the title otherwise, with that progress in [0, 1); it shows an upcoming line exactly before 20.5 s, and that line is the text of the first line starting after t |
| Lyrics.PanelAtTwoAndAHalf | app/page.jsx:193-207 | at 2.5 s the first line is shown half sung and the second is upcoming |
| Lyrics.Clamp01 | app/page.jsx:234 | the clamped progress lies in [0, 1], equals the input inside it, and is 0 below and 1 above |
| Lyrics.HighlightClip | app/page.jsx:224-236 | the clip starts at minus half the capped text width, is never narrower than 20, never wider than the larger of 20 and the capped width, and is full width at progress ≥ 1 and 20 at progress ≤ 0 |
| Lyrics.HighlightWidth | app/page.jsx:233-234 | for progress within [0, 1] the clip width is the larger of 20 and the capped text width scaled by the progress |
| Lyrics.ClipWidthMonotone | app/page.jsx:233-234 | for a fixed text, a larger progress never gives a narrower clip |
| Lyrics.HighlightSweeps | app/page.jsx:194-234 | while a line is active the highlight clip never shrinks as time advances |
| TextWrap.Split | app/page.jsx:244 | `split(' ')` yields at least one part and no part contains the separator |
| TextWrap.JoinSplit | app/page.jsx:244 | joining the parts of a split with the separator gives back the text |
| TextWrap.SplitJoin | app/page.jsx:244 | splitting a join of separator-free parts gives back the parts |
| TextWrap.ExtendKeepsWords | app/page.jsx:248-254 | one packing step appends the word to the words of the lines, in order |
| TextWrap.ExtendLines | app/page.jsx:248-254 | one packing step keeps every line but the last; it either closes the last line and opens one holding only the word, exactly when the extended line is too wide and the word is not the first, or extends the last line's text by the word and a space |
| TextWrap.ExtendFits | app/page.jsx:248-254 | one packing step keeps every prefix longer than one word of every line within the width |
| TextWrap.GroupsKeepWords | app/page.jsx:245-257 | the lines of the greedy packing, read in order, are exactly the words |
| TextWrap.GroupsLinesNonEmpty | app/page.jsx:248-254 | when there are words, no line of the packing is empty |
| TextWrap.GroupsShape | app/page.jsx:247-257 | greedy breaking yields at least one line, the lines hold the words in order with nothing lost or added, and no line is empty when there are words |
| TextWrap.GroupsBreakOnlyWhenFull | app/page.jsx:248-252 | every line break happens only because the next word would have made the previous line wider than the maximum |
| TextWrap.GroupsFit | app/page.jsx:248-254 | every prefix of two or more words of a line fits within the maximum width, so only a line's first word can overflow |
| TextWrap.Trim | app/page.jsx:262 | `trim()` never lengthens the text and leaves a text with no whitespace at either end unchanged; `TrimShape` proves it cuts only edge whitespace |
| TextWrap.TrimEndShape | app/page.jsx:262 | trimming the end removes only trailing whitespace and leaves a prefix not ending in whitespace |
| TextWrap.TrimStartShape | app/page.jsx:262 | trimming the start removes only leading whitespace and leaves a suffix not starting in whitespace |
| TextWrap.TrimShape | app/page.jsx:262 | `trim()` yields a slice of the line with only whitespace cut from either end and no whitespace at either end |
| TextWrap.TrimLine | app/page.jsx:248-262 | a built line of clean words, trimmed, is the words joined by single spaces |
| TextWrap.LineY | app/page.jsx:258-263 | line j of a block of `count` lines is drawn (j − (count − 1)/2) line heights from y; `LineYStep` and `BlockCentred` give the step and the symmetry |
| TextWrap.BlockCentred | app/page.jsx:258-263 | the line block is centred on y and consecutive lines are one line height apart |
| TextWrap.LineTexts | app/page.jsx:248-257 | there is one built line string per group |
| TextWrap.PackedIsGroups | app/page.jsx:245-254 | the loop's closed lines and current line are the texts of the greedy packing's lines, all but the last and the last |
| TextWrap.BreakLines | app/page.jsx:244-257 | the breaking loop produces exactly the lines of the greedy grouping |
| TextWrap.TrimmedLines | app/page.jsx:248-262 | for lines of clean words, each trimmed line text is its words joined by single spaces |
| TextWrap.PlaceLines | app/page.jsx:258-264 | the drawing loop draws each line trimmed, at x and at its centred y |
| TextWrap.DrawWrappedText | app/page.jsx:243-265 | the drawn lines are the trimmed greedy lines of the split text, one per group, at their centred positions |
| TextWrap.DrawnLinesReadBack | app/page.jsx:243-264 | for text made of clean words, the drawn lines joined with spaces give back the text |
| StarField.JsRem | app/page.jsx:32 | the truncating remainder equals Dafny's for non-negative operands and is non-positive and above −m for negative ones |
| StarField.LehmerState | app/page.jsx:31-33 | the generator state after k draws lies strictly between −(2^31 − 1) and 2^31 − 1, and is non-negative for a non-negative seed; `StateInRange` narrows it to [1, 2^31 − 2] |
| StarField.MultiplierKeepsNonZero | app/page.jsx:33 | a non-zero state stays non-zero after one step of the generator |
| StarField.StateInRange | app/page.jsx:31-34 | every state of the generator from a positive seed not divisible by the modulus lies in [1, 2^31 − 2] |
| StarField.DrawInUnitInterval | app/page.jsx:33 | every draw lies strictly between 0 and 1 |
| StarField.FirstDrawFromSeed | app/page.jsx:31-38 | the first state from seed 42 is 705894 |
| StarField.SeededRandom.constructor | app/page.jsx:31-32 | a fresh generator has made no draws from its seed |
| StarField.SeededRandom.Next | app/page.jsx:33 | each call advances the state once and returns the next draw of the sequence |
| StarField.StarsFrom | app/page.jsx:39 | the field has one star per requested index |
| StarField.MakeStar | app/page.jsx:40-44 | a star's colour is one of the two palette colours, blue exactly when its fifth draw is below 0.2; `MakeStarBounds` bounds its position and radius |
| StarField.MakeStarBounds | app/page.jsx:40-44 | for draws in (0, 1) a star's x lies in [0, 1279], its y in [0, 539] and its radius in (0.7, 2.5) |
| StarField.StarsInSky | app/page.jsx:38-45 | every star built from seed 42 lies on the canvas, in the upper three quarters, with radius in (0.7, 2.5) |
| StarField.AnimState.constructor | app/page.jsx:15 | the animation state starts at time 0 with no stars |
| StarField.AnimState.EnsureStars | app/page.jsx:36-47 | stars already present are kept; otherwise the 120 stars of seed 42 are built; the start time never changes |
| Recording.ChosenMime | app/page.jsx:394-397 | the negotiated type is "" or a supported candidate; `ChosenMimeIsFirstSupported` shows it is the first supported one |
| Recording.ChooseMime | app/page.jsx:394-397 | the negotiation loop returns the first supported candidate, or "" when none is |
| Recording.ChosenMimeIsFirstSupported | app/page.jsx:389-397 | the chosen type is supported and no earlier candidate is, or it is "" and no candidate is supported |
| Recording.BlobType | app/page.jsx:404 | the blob type is never empty and is the negotiated type whenever there is one |
| Recording.BlobTypeIsCandidate | app/page.jsx:389-404 | the blob type is always one of the three candidate types |
| Recording.OptionsFor | app/page.jsx:399 | the options name a MIME type exactly when one was negotiated, and always ask for 4 Mbit/s |
| Scene.MoonX | app/page.jsx:84 | during the song the moon's x lies between 15% and 85% of the width; `MoonGlides` gives its end points and its monotone glide |
| Scene.MoonGlides | app/page.jsx:84 | the moon starts at 15% of the width, reaches 85% at the end of the song and never moves backwards |
| Scene.DrawScene | app/page.jsx:84-105 | during the song the moon stays between x = 192 and x = 1088 |
| Session.Recorder.constructor | app/page.jsx:399-401 | a new recorder is active, has no chunks and keeps its MIME type |
| Session.Recorder.OnDataAvailable | app/page.jsx:402 | a chunk is appended exactly when data is present and non-empty, so every kept chunk is non-empty |
| Session.Session.constructor | app/page.jsx:8-15 | the page starts idle, "Ready", with no link, no recorder and no stars |
| Session.Session.StartPreview | app/page.jsx:288-294 | starting is a no-op exactly while previewing or recording; otherwise the page previews, reads "Playing preview?" and restarts the clock |
| Session.Session.StartRecording | app/page.jsx:328-401 | starting is a no-op exactly while previewing or recording; otherwise the link is cleared, the page records, restarts the clock and holds a fresh empty recorder with the negotiated type |
| Session.Session.DrawFrame | app/page.jsx:315-317 | a frame is the scene for the elapsed seconds since the recorded start, drawn after `drawScene` has ensured the stars: existing stars are kept, an empty field becomes the 120 stars of seed 42, and the start time is kept |
| Session.Session.EndPreviewIfOver | app/page.jsx:318-323 | at time t the preview continues exactly before 26.5 s with the flags untouched, and otherwise stops and reads "Ready"; the recording flag, link and recorder are kept |
| Session.Session.PreviewFrame | app/page.jsx:315-324 | a preview frame is the scene for the elapsed seconds, with the star field kept or built as in `DrawFrame`; the preview asks for another frame exactly before 26.5 s and otherwise ends, reading "Ready" |
| Session.Session.RecordingFrame | app/page.jsx:414-420 | a recording frame is the scene for the elapsed seconds, with the star field kept or built as in `DrawFrame`, and the loop asks for another frame exactly before 26.5 s, leaving the flags alone |
| Session.StopTimerAfterSong | app/page.jsx:414-427 | the stop timer fires 26.9 s after the start, 400 ms after the 26.5 s song, so a recording frame drawn from then on asks for no other |
| Session.Session.OnRecorderStop | app/page.jsx:403-409 | the blob holds the recorder's chunks with the blob type; the link is published and the page leaves recording and reads "Ready" |
| Session.Session.StopTimerFires | app/page.jsx:424-427 | stopping an active recorder flushes its last data and runs its stop handler; stopping an inactive one changes nothing |
| Session.Session.StopAll | app/page.jsx:430-435 | the page always ends idle and "Ready", an idle page is unchanged, and the link and recorder are kept |
| Session.PreviewFramesShareStars | app/page.jsx:36-50 | two preview frames of a fresh page draw the same star field, the 120 stars of seed 42, built once by the first frame |
| Session.AbandonedRecorderEndsLaterRecording | app/page.jsx:403-435 | after a recording, a stop and a second recording, the first recorder's timer leaves the page idle with the first video's link although the second recorder is still active |

## Left out

- Canvas painting (gradients, mountains, twinkling, moon glow, diamond, smiley stars, the lyric box) and its sine-driven motion: they produce pixels only, so the model records only the moon's x and the lyric panel.
- The Web Audio graph (oscillators, gains, envelopes, scheduling on the audio clock): the model stops at the note schedule it is built from.
- `MediaRecorder`, `captureStream`, the mixed stream, `Blob` bytes and `URL.createObjectURL`: chunks carry only a size, and the object URL is a parameter.
- `requestAnimationFrame`, `cancelAnimationFrame` and `performance.now()`: each frame is a method call with the clock reading as a parameter, and cancelling the pending frame is not modelled. The page's mount effect and the first frame that each start draws synchronously are separate `DrawFrame`/`PreviewFrame`/`RecordingFrame` calls here, so the star-free state after `Session.Session.constructor`, and the stars first built by a frame in `Session.PreviewFramesShareStars`, describe the page before that mount draw.
- The stale stop timer also cancels whatever frame loop is running at that moment; only its effect on the flags, status and link is modelled.
- React hooks and asynchronous `setState` batching: state changes take effect immediately; the initial `useEffect` draw at t = 0 is the same `DrawScene(0)`.
- `app/layout.jsx` and the page markup: presentation only.
- Floating point: times, frequencies and widths are exact reals, so the rounding of sums such as 0.5 + 0.5·i is not modelled.
- StarField.MakeStar: the phase is kept as a fraction of a turn rather than multiplied by 2π, because π is not representable.
- TextWrap.DrawWrappedText: the unused `lineIndex` argument and the text alignment setting are not modelled.
- Melody.GetMelodyNotes: `if (f)` truthiness is modelled as present or absent (`Option`); the table holds no zero frequency, so the two agree.
- TextWrap.DrawnLinesReadBack: is proved only for text whose space-separated words are non-empty and carry no edge whitespace; `trim()` drops whitespace at the edges of a line, so other texts need not read back.
- Lyrics.HighlightClip: the text width comes from the caller's measure and the second wrapped drawing inside the clip is the same `DrawWrappedText` call.
