/** Speech detection over a whole session (processing/pipelines/speech_detect.py:72-78): the windows of
    the timeline, scored frame by frame by a backend that buffers partial frames (processing/vad.py:42-76),
    and the spans of those scores. */
module SpeechDetect {
  import opened Arithmetic
  import opened Sorting
  import opened Wrappers
  import opened WavFile
  import opened Intervals
  import opened Stitching
  import opened VadSpans

  const FRAME_MS := 32
  const FRAME_BYTES := 1024
  const WINDOW_MS := 30000
  const REQUIRED_RATE := 16000
  const REQUIRED_CHANNELS := 1

  /** The score of a frame, from everything the detector has been given since its reset, that frame
      last. */
  type Detector = seq<byte> -> real

  /** Everything up to frame k, frame k included. */
  function UpTo(pcm: seq<byte>, k: nat): seq<byte>
    requires k < |pcm| / FRAME_BYTES
  {
    pcm[..(k + 1) * FRAME_BYTES]
  }

  /** One score for each whole frame. */
  function FrameScores(detect: Detector, pcm: seq<byte>): (scores: seq<real>)
    ensures |scores| == |pcm| / FRAME_BYTES
  {
    seq(|pcm| / FRAME_BYTES, k requires 0 <= k < |pcm| / FRAME_BYTES => detect(UpTo(pcm, k)))
  }

  /** Frame k is the k-th 1024 bytes, scored after everything before it. */
  lemma ScoresMean(detect: Detector, pcm: seq<byte>, k: nat)
    requires k < |pcm| / 1024
    ensures |FrameScores(detect, pcm)| == |pcm| / 1024 && (k + 1) * 1024 <= |pcm|
    ensures FrameScores(detect, pcm)[k] == detect(pcm[..k * 1024] + pcm[k * 1024..(k + 1) * 1024])
  {
    assert pcm[..k * 1024] + pcm[k * 1024..(k + 1) * 1024] == UpTo(pcm, k);
  }

  /** Less than a frame at the end has no score. */
  lemma PartialFrame(detect: Detector, seen: seq<byte>, pending: seq<byte>)
    requires |seen| % FRAME_BYTES == 0 && |pending| < FRAME_BYTES
    ensures FrameScores(detect, seen + pending) == FrameScores(detect, seen)
  {
    forall k: nat | k < |seen| / FRAME_BYTES ensures UpTo(seen + pending, k) == UpTo(seen, k) {
    }
  }

  lemma FrameMore(detect: Detector, seen: seq<byte>, frame: seq<byte>)
    requires |seen| % FRAME_BYTES == 0 && |frame| == FRAME_BYTES
    ensures FrameScores(detect, seen + frame) == FrameScores(detect, seen) + [detect(seen + frame)]
  {
    var n := |seen| / FRAME_BYTES;
    assert UpTo(seen + frame, n) == seen + frame;
    forall k: nat | k < n ensures UpTo(seen + frame, k) == UpTo(seen, k) {
    }
  }

  class Backend {
    const detect: Detector
    var seen: seq<byte>     // what the detector has been given
    var pending: seq<byte>  // a frame's beginning

    predicate Valid()
      reads this
    {
      |seen| % FRAME_BYTES == 0 && |pending| < FRAME_BYTES
    }

    /** Everything since the last reset. */
    function Heard(): seq<byte>
      reads this
    {
      seen + pending
    }

    constructor (detect: Detector)
      ensures Valid() && Heard() == [] && this.detect == detect
    {
      this.detect, seen, pending := detect, [], [];
    }

    /** Chunks of any size stream through: the scores so far are those of the frames heard so far. */
    method Scores(pcm: seq<byte>) returns (out: seq<real>)
      requires Valid()
      modifies this
      ensures Valid() && Heard() == old(Heard()) + pcm
      ensures FrameScores(detect, old(Heard())) + out == FrameScores(detect, Heard())
    {
      PartialFrame(detect, seen, pending);
      ghost var before := FrameScores(detect, seen);
      pending, out := pending + pcm, [];
      while |pending| >= FRAME_BYTES
        invariant |seen| % FRAME_BYTES == 0 && seen + pending == old(Heard()) + pcm
        invariant before + out == FrameScores(detect, seen)
      {
        FrameMore(detect, seen, pending[..FRAME_BYTES]);
        ghost var all := seen + pending;
        seen, pending := seen + pending[..FRAME_BYTES], pending[FRAME_BYTES..];
        assert seen + pending == all;
        out := out + [detect(seen)];
      }
      PartialFrame(detect, seen, pending);
    }

    method Reset()
      modifies this
      ensures Valid() && Heard() == []
    {
      seen, pending := [], [];
    }
  }

  /** 16 kHz mono: what the detectors take. */
  predicate Detectable(t: Timeline) {
    t.rate == REQUIRED_RATE && t.channels == REQUIRED_CHANNELS
  }

  /** The frames scored never reach past the length the timeline gives. */
  lemma ScoresFit(t: Timeline, store: map<Key, seq<byte>>, audio: seq<byte>, detect: Detector)
    requires LaysOut(t.plan, store, audio) && Detectable(t)
    ensures |FrameScores(detect, audio)| * FRAME_MS <= t.TotalMs()
  {
    var frames := |audio| / FRAME_BYTES;
    assert t.TotalMs() == |audio| * 1000 / 32000;
    assert frames * FRAME_BYTES <= |audio|;
  }

  /** The settings of a detection, with the length of the session. */
  function Sized(v: VadSpans.Settings, totalMs: int): VadSpans.Settings {
    v.(totalMs := totalMs, frameMs := FRAME_MS)
  }

  lemma NothingScored(detect: Detector)
    ensures FrameScores(detect, []) == []
  {
  }

  /** The whole detection: None for audio the detectors do not take, else the spans of the scores of
      the session's whole frames, however the store delivered them. */
  method DetectSpeech(t: Timeline, v: VadSpans.Settings, backend: Backend, deliveries: seq<seq<seq<byte>>>,
                      ghost store: map<Key, seq<byte>>, ghost audio: seq<byte>)
    returns (spans: Option<seq<Span>>, ghost w: Stages)
    requires LaysOut(t.plan, store, audio) && Delivers(t.plan, store, deliveries)
    requires Detectable(t) ==> Sized(v, t.TotalMs()).Ends()
    modifies backend
    ensures spans.Some? <==> t.rate == 16000 && t.channels == 1
    ensures spans.Some? ==>
      Assembled(FrameScores(backend.detect, audio), v.(totalMs := t.TotalMs(), frameMs := 32), w, spans.value)
    ensures spans.Some? && Sized(v, t.TotalMs()).Progresses() ==> Bounded(spans.value, Sized(v, t.TotalMs()))
  {
    hide Assembled, Bounded, LaysOut, Delivers, FrameScores;
    w := Stages([], [], [], [], [], [], []);
    if t.rate != REQUIRED_RATE || t.channels != REQUIRED_CHANNELS { return None, w; }
    backend.Reset();
    var scores: seq<real> := [];
    var windows := IterWindows(t, WINDOW_MS, deliveries, store, audio);
    NothingScored(backend.detect);
    for k := 0 to |windows|
      invariant backend.Valid() && backend.Heard() == Flatten(PcmOf(windows)[..k])
      invariant scores == FrameScores(backend.detect, backend.Heard())
    {
      OneDelivered(PcmOf(windows), k);
      var more := backend.Scores(windows[k].pcm);
      scores := scores + more;
    }
    assert PcmOf(windows)[..|windows|] == PcmOf(windows);
    var settings := Sized(v, t.TotalMs());
    EndsFinishes(scores, settings);
    ScoresFit(t, store, audio, backend.detect);
    var found;
    found, w := SpansFromScores(scores, settings);
    spans := Some(found);
  }
}
