/**
 * Container negotiation of `startRecording`: the first MIME type from an
 * ordered preference list that the browser reports as supported, or `""`
 * when none is; the finished blob is tagged with that type, or with
 * `video/webm` when none was chosen.  `MediaRecorder.isTypeSupported` is the
 * parameter `isTypeSupported`.
 */
module Recording {
  import opened Seqs

  const MimeCandidates: seq<string> := [
    "video/webm;codecs=vp9,opus",
    "video/webm;codecs=vp8,opus",
    "video/webm"
  ]

  /** Blob type used when no candidate was chosen. */
  const FallbackBlobType: string := "video/webm"

  const VideoBitsPerSecond: nat := 4000000

  /** The candidate the selection loop settles on, or `""`. */
  function ChosenMime(candidates: seq<string>, isTypeSupported: string -> bool): (mime: string)
    ensures mime == "" || (mime in candidates && isTypeSupported(mime))
  {
    match FindFirst(candidates, isTypeSupported)
    case Some(i) => candidates[i]
    case None => ""
  }

  /** The selection loop: stops at the first supported candidate. */
  method ChooseMime(candidates: seq<string>, isTypeSupported: string -> bool) returns (mime: string)
    ensures mime == ChosenMime(candidates, isTypeSupported)
  {
    mime := "";
    var i := 0;
    while i < |candidates|
      invariant 0 <= i <= |candidates|
      invariant mime == ""
      invariant forall j | 0 <= j < i :: !isTypeSupported(candidates[j])
    {
      if isTypeSupported(candidates[i]) {
        mime := candidates[i];
        assert FindFirst(candidates, isTypeSupported) == Some(i);
        return;
      }
      i := i + 1;
    }
  }

  /**
   * The chosen type is either `""` with every candidate unsupported, or a
   * supported candidate with every earlier candidate unsupported.
   */
  lemma ChosenMimeIsFirstSupported(candidates: seq<string>, isTypeSupported: string -> bool)
    ensures var mime := ChosenMime(candidates, isTypeSupported);
      (mime == "" && forall j | 0 <= j < |candidates| :: !isTypeSupported(candidates[j])) ||
      (exists i | 0 <= i < |candidates| ::
         mime == candidates[i] && isTypeSupported(candidates[i]) &&
         forall j | 0 <= j < i :: !isTypeSupported(candidates[j]))
  {
  }

  /** `mime || 'video/webm'`: the type the finished blob is tagged with. */
  function BlobType(mime: string): (t: string)
    ensures t != ""
    ensures mime != "" ==> t == mime
  {
    if mime != "" then mime else FallbackBlobType
  }

  /** Whatever the browser supports, the page's blob type is one of its candidates. */
  lemma BlobTypeIsCandidate(isTypeSupported: string -> bool)
    ensures BlobType(ChosenMime(MimeCandidates, isTypeSupported)) in MimeCandidates
  {
  }

  /** Options handed to `new MediaRecorder`: a MIME type only when one was chosen. */
  datatype RecorderOptions = RecorderOptions(mimeType: Option<string>, videoBitsPerSecond: nat)

  function OptionsFor(mime: string): (o: RecorderOptions)
    ensures o.mimeType.Some? <==> mime != ""
    ensures o.mimeType.Some? ==> o.mimeType.value == mime
    ensures o.videoBitsPerSecond == VideoBitsPerSecond
  {
    if mime != "" then RecorderOptions(Some(mime), VideoBitsPerSecond)
    else RecorderOptions(None, VideoBitsPerSecond)
  }
}
