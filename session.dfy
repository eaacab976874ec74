/**
 * The start/stop lifecycle of the page: `startPreview`, `startRecording`,
 * the two per-frame callbacks, the recorder's `ondataavailable` and
 * `onstop` handlers, the stop timer and `stopAll`.  React state is held as
 * plain fields updated synchronously; times come in as parameters (the
 * `performance.now()` reading) and so does the object URL of the finished
 * video.
 */
module Session {
  import opened Seqs
  import Stage
  import Recording
  import StarField
  import Scene

  /** The three status lines the page shows. */
  datatype Status = Ready | PlayingPreview | RecordingVideo

  /** The text shown for each status. */
  function StatusText(s: Status): string {
    match s
    case Ready => "Ready"
    case PlayingPreview => "Playing preview?"
    case RecordingVideo => "Recording?"
  }

  /** Delay of the stop timer after a recording starts, in milliseconds. */
  const StopDelayMs: real := Stage.TotalDuration * 1000.0 + 400.0

  /** A captured chunk; only its size matters here. */
  datatype Chunk = Chunk(size: nat)

  /** The finished video: its chunks and its MIME type. */
  datatype Blob = Blob(parts: seq<Chunk>, mimeType: string)

  /** Elapsed seconds since the session's start, as the frame callbacks compute it. */
  function ElapsedSeconds(nowMs: real, startMs: real): real {
    (nowMs - startMs) / 1000.0
  }

  /**
   * The stop timer fires 400 ms after the song ends, so a recording frame
   * drawn when (or after) the timer fires asks for no further frame.
   */
  lemma StopTimerAfterSong(startMs: real, nowMs: real)
    ensures StopDelayMs - Stage.TotalDuration * 1000.0 == 400.0
    ensures nowMs >= startMs + StopDelayMs ==> ElapsedSeconds(nowMs, startMs) >= Stage.TotalDuration
  {
  }

  /** A `MediaRecorder` with the chunk list its handlers close over. */
  class Recorder {
    const mime: string
    var chunks: seq<Chunk>
    var active: bool

    ghost predicate Valid()
      reads this
    {
      forall i | 0 <= i < |chunks| :: chunks[i].size > 0
    }

    constructor (mime: string)
      ensures Valid() && this.mime == mime && chunks == [] && active
    {
      this.mime := mime;
      chunks := [];
      active := true;
    }

    /** `ondataavailable`: keeps only chunks that carry data. */
    method OnDataAvailable(data: Option<Chunk>)
      requires Valid()
      modifies this
      ensures Valid() && active == old(active)
      ensures chunks == old(chunks) + (if data.Some? && data.value.size > 0 then [data.value] else [])
    {
      if data.Some? && data.value.size > 0 {
        chunks := chunks + [data.value];
      }
    }
  }

  class Session {
    var isPlaying: bool
    var isRecording: bool
    var status: Status
    var blobUrl: string
    /** `recorderRef.current`. */
    var recorder: Recorder?
    /** `animStateRef.current`: the session start time and the star field. */
    const anim: StarField.AnimState

    /** Previewing and recording never happen together, and an idle page reads "Ready". */
    ghost predicate Valid()
      reads this
    {
      !(isPlaying && isRecording) &&
      (!isPlaying && !isRecording ==> status == Ready)
    }

    constructor ()
      ensures Valid() && fresh(anim)
      ensures !isPlaying && !isRecording && status == Ready && blobUrl == "" && recorder == null
      ensures anim.stars == []
    {
      isPlaying := false;
      isRecording := false;
      status := Ready;
      blobUrl := "";
      recorder := null;
      anim := new StarField.AnimState();
    }

    /** `startPreview`: a no-op while a session runs; otherwise enters previewing at `nowMs`. */
    method StartPreview(nowMs: real) returns (started: bool)
      requires Valid()
      modifies this, anim
      ensures Valid()
      ensures started <==> !old(isPlaying) && !old(isRecording)
      ensures !started ==> unchanged(this) && unchanged(anim)
      ensures started ==> isPlaying && !isRecording && status == PlayingPreview
      ensures started ==> anim.startMs == nowMs && anim.stars == old(anim.stars)
      ensures blobUrl == old(blobUrl) && recorder == old(recorder)
    {
      if isPlaying || isRecording {
        return false;
      }
      status := PlayingPreview;
      isPlaying := true;
      anim.startMs := nowMs;
      started := true;
    }

    /**
     * `startRecording`: a no-op while a session runs; otherwise clears the
     * download link, enters recording at `nowMs` and starts a fresh recorder
     * with the negotiated MIME type.
     */
    method StartRecording(nowMs: real, isTypeSupported: string -> bool) returns (started: bool)
      requires Valid()
      modifies this, anim
      ensures Valid()
      ensures started <==> !old(isPlaying) && !old(isRecording)
      ensures !started ==> unchanged(this) && unchanged(anim)
      ensures started ==> isRecording && !isPlaying && status == RecordingVideo && blobUrl == ""
      ensures started ==> anim.startMs == nowMs && anim.stars == old(anim.stars)
      ensures started ==> recorder != null && fresh(recorder) && recorder.Valid() && recorder.active &&
                          recorder.chunks == [] &&
                          recorder.mime == Recording.ChosenMime(Recording.MimeCandidates, isTypeSupported)
    {
      if isPlaying || isRecording {
        return false;
      }
      blobUrl := "";
      status := RecordingVideo;
      isRecording := true;
      anim.startMs := nowMs;
      var mime := Recording.ChooseMime(Recording.MimeCandidates, isTypeSupported);
      recorder := new Recorder(mime);
      started := true;
    }

    /** `drawScene` at `nowMs`: makes sure the stars exist and computes the frame for the elapsed time. */
    method DrawFrame(nowMs: real) returns (frame: Scene.Frame, t: real)
      modifies anim
      ensures t == ElapsedSeconds(nowMs, anim.startMs) && frame == Scene.DrawScene(t)
      ensures anim.startMs == old(anim.startMs) && anim.stars != []
      ensures old(anim.stars) != [] ==> anim.stars == old(anim.stars)
      ensures old(anim.stars) == [] ==> anim.stars == StarField.StarsFrom(StarField.StarSeed, StarField.StarCount)
    {
      t := (nowMs - anim.startMs) / 1000.0;
      anim.EnsureStars();
      frame := Scene.DrawScene(t);
    }

    /**
     * One frame of the preview loop at `nowMs`: draws the scene and asks for
     * another frame until the song is over, when the preview ends.
     */
    method PreviewFrame(nowMs: real) returns (frame: Scene.Frame, t: real, again: bool)
      requires Valid()
      modifies this, anim
      ensures Valid()
      ensures t == ElapsedSeconds(nowMs, anim.startMs) && frame == Scene.DrawScene(t)
      ensures again <==> t < Stage.TotalDuration
      ensures again ==> isPlaying == old(isPlaying) && status == old(status)
      ensures !again ==> !isPlaying && status == Ready
      ensures isRecording == old(isRecording) && blobUrl == old(blobUrl) && recorder == old(recorder)
      ensures anim.startMs == old(anim.startMs) && anim.stars != []
      ensures old(anim.stars) != [] ==> anim.stars == old(anim.stars)
      ensures old(anim.stars) == [] ==> anim.stars == StarField.StarsFrom(StarField.StarSeed, StarField.StarCount)
    {
      frame, t := DrawFrame(nowMs);
      again := EndPreviewIfOver(t);
    }

    /** The preview loop's test at time `t`: once the song is over the preview ends. */
    method EndPreviewIfOver(t: real) returns (again: bool)
      requires Valid()
      modifies this
      ensures Valid()
      ensures again <==> t < Stage.TotalDuration
      ensures again ==> isPlaying == old(isPlaying) && status == old(status)
      ensures !again ==> !isPlaying && status == Ready
      ensures isRecording == old(isRecording) && blobUrl == old(blobUrl) && recorder == old(recorder)
    {
      again := t < Stage.TotalDuration;
      if !again {
        isPlaying := false;
        status := Ready;
      }
    }

    /** One frame of the recording loop: draws the scene; the flags are left to the recorder. */
    method RecordingFrame(nowMs: real) returns (frame: Scene.Frame, t: real, again: bool)
      modifies anim
      ensures t == ElapsedSeconds(nowMs, anim.startMs) && frame == Scene.DrawScene(t)
      ensures again <==> t < Stage.TotalDuration
      ensures anim.startMs == old(anim.startMs) && anim.stars != []
      ensures old(anim.stars) != [] ==> anim.stars == old(anim.stars)
      ensures old(anim.stars) == [] ==> anim.stars == StarField.StarsFrom(StarField.StarSeed, StarField.StarCount)
    {
      frame, t := DrawFrame(nowMs);
      again := t < Stage.TotalDuration;
    }

    /** `rec.onstop`: packages the chunks, publishes the download link and ends the recording. */
    method OnRecorderStop(rec: Recorder, url: string) returns (blob: Blob)
      requires Valid()
      modifies this
      ensures Valid()
      ensures blob == Blob(rec.chunks, Recording.BlobType(rec.mime))
      ensures blobUrl == url && !isRecording && status == Ready
      ensures isPlaying == old(isPlaying) && recorder == old(recorder)
    {
      blob := Blob(rec.chunks, Recording.BlobType(rec.mime));
      blobUrl := url;
      isRecording := false;
      status := Ready;
    }

    /**
     * The stop timer of recorder `rec`: stopping an active recorder flushes
     * its last chunk and runs its `onstop`; stopping an inactive one fails
     * and the failure is swallowed.
     */
    method StopTimerFires(rec: Recorder, lastData: Option<Chunk>, url: string) returns (blob: Option<Blob>)
      requires Valid() && rec.Valid()
      modifies this, rec
      ensures Valid() && rec.Valid() && !rec.active
      ensures !old(rec.active) ==> blob == None && unchanged(this) && unchanged(rec)
      ensures old(rec.active) ==> blob.Some? && blob.value.mimeType == Recording.BlobType(rec.mime) &&
                                  blobUrl == url && !isRecording && status == Ready &&
                                  isPlaying == old(isPlaying)
      ensures old(rec.active) ==>
        rec.chunks == old(rec.chunks) + (if lastData.Some? && lastData.value.size > 0 then [lastData.value] else [])
      ensures blob.Some? ==> blob.value.parts == rec.chunks
      ensures recorder == old(recorder)
    {
      if !rec.active {
        return None;
      }
      rec.OnDataAvailable(lastData);
      rec.active := false;
      var b := OnRecorderStop(rec, url);
      blob := Some(b);
    }

    /** `stopAll`: always ends the session, and changes nothing on an idle page; the recorder and the link are left alone. */
    method StopAll()
      requires Valid()
      modifies this
      ensures Valid()
      ensures !old(isPlaying) && !old(isRecording) ==> unchanged(this)
      ensures !isPlaying && !isRecording && status == Ready
      ensures blobUrl == old(blobUrl) && recorder == old(recorder)
    {
      isPlaying := false;
      isRecording := false;
      status := Ready;
    }
  }

  /**
   * Stop does not stop the recorder, so its stop timer stays pending: when
   * that timer fires during a later recording, the old recorder's `onstop`
   * publishes its video, clears the recording flag and reports the page
   * ready although the later recorder is still capturing.
   */
  method AbandonedRecorderEndsLaterRecording(isTypeSupported: string -> bool) returns (page: Session, later: Recorder)
    ensures later.active && page.recorder == later
    ensures !page.isRecording && !page.isPlaying && page.status == Ready && page.blobUrl == "blob:first"
  {
    page := new Session();
    var started := page.StartRecording(0.0, isTypeSupported);
    var first := page.recorder;
    page.StopAll();
    started := page.StartRecording(5000.0, isTypeSupported);
    later := page.recorder;
    var blob := page.StopTimerFires(first, None, "blob:first");
  }

  /**
   * The star field is built on the first frame and then reused: two preview
   * frames of a fresh page draw the same 120 stars of seed 42.
   */
  method PreviewFramesShareStars(startMs: real, now1: real, now2: real) returns (page: Session)
    ensures page.anim.stars == StarField.StarsFrom(StarField.StarSeed, StarField.StarCount)
    ensures page.anim.startMs == startMs
  {
    page := new Session();
    var started := page.StartPreview(startMs);
    var frame1, t1, again1 := page.PreviewFrame(now1);
    var first := page.anim.stars;
    var frame2, t2, again2 := page.PreviewFrame(now2);
    assert page.anim.stars == first;
  }
}
