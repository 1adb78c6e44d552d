/** One logical WAV file out of stored segments (services/stitch.py) and time-addressed
    reads of it (services/timeline.py). The object store is a map of whole blobs. */
module Stitching {
  import opened Arithmetic
  import opened Sorting
  import opened WavFile

  type Key = nat

  datatype Segment = Segment(key: Key, byteSize: nat)

  /** One segment's data chunk, placed in the stitched file. */
  datatype Piece = Piece(key: Key, start: nat, length: nat)
  {
    function Last(): int { start + length - 1 }
  }

  datatype Plan = Plan(pieces: seq<Piece>, totalSize: nat)

  /** A range of the patched header, or of one blob. Both ends are inclusive. */
  datatype Slice = HeaderSlice(first: int, last: int) | BlobSlice(piece: Piece, first: int, last: int)

  // ----- the file the plan stands for

  ghost predicate Stored(store: map<Key, seq<byte>>, segments: seq<Segment>) {
    forall k :: 0 <= k < |segments| ==> segments[k].key in store && |store[segments[k].key]| == segments[k].byteSize
  }

  /** A blob's PCM: what follows its own header. */
  function DataOf(blob: seq<byte>): seq<byte> {
    if |blob| <= HEADER_BYTES then [] else blob[HEADER_BYTES..]
  }

  /** All data chunks, one after the other. */
  ghost function Audio(store: map<Key, seq<byte>>, segments: seq<Segment>): seq<byte>
    requires Stored(store, segments)
  {
    if segments == [] then []
    else Audio(store, segments[..|segments| - 1]) + DataOf(store[segments[|segments| - 1].key])
  }

  /** Pieces lie behind each other, from the header on, and hold the audio. */
  ghost predicate LaysOut(plan: Plan, store: map<Key, seq<byte>>, audio: seq<byte>) {
    && plan.totalSize == HEADER_BYTES + |audio|
    && (forall k :: 0 <= k < |plan.pieces| ==> PieceFits(plan.pieces[k], store, audio))
    && (plan.pieces != [] ==> plan.pieces[0].start == HEADER_BYTES)
    && (forall k :: 0 < k < |plan.pieces| ==>
          plan.pieces[k].start == plan.pieces[k - 1].start + plan.pieces[k - 1].length)
    && plan.totalSize == if plan.pieces == [] then HEADER_BYTES
                         else plan.pieces[|plan.pieces| - 1].start + plan.pieces[|plan.pieces| - 1].length
  }

  /** The piece's stretch of the file is its blob's data chunk. */
  ghost predicate PieceFits(p: Piece, store: map<Key, seq<byte>>, audio: seq<byte>) {
    && p.length > 0 && HEADER_BYTES <= p.start && p.start - HEADER_BYTES + p.length <= |audio|
    && p.key in store && |store[p.key]| == HEADER_BYTES + p.length
    && audio[p.start - HEADER_BYTES..p.start - HEADER_BYTES + p.length] == store[p.key][HEADER_BYTES..]
  }

  lemma PieceStillFits(p: Piece, store: map<Key, seq<byte>>, audio: seq<byte>, more: seq<byte>)
    requires PieceFits(p, store, audio)
    ensures PieceFits(p, store, audio + more)
  {
    var lo := p.start - HEADER_BYTES;
    assert (audio + more)[lo..lo + p.length] == audio[lo..lo + p.length];
  }

  /** `plan`: a segment shorter than its own header contributes nothing. */
  method MakePlan(segments: seq<Segment>, ghost store: map<Key, seq<byte>>) returns (plan: Plan)
    requires Stored(store, segments)
    ensures LaysOut(plan, store, Audio(store, segments))
  {
    hide LaysOut, Audio;
    var pieces: seq<Piece> := [];
    var at: nat := HEADER_BYTES;
    NothingLaidOut(store, segments);
    for k := 0 to |segments|
      invariant LaysOut(Plan(pieces, at), store, Audio(store, segments[..k]))
    {
      var segment := segments[k];
      ghost var audio, data := Audio(store, segments[..k]), DataOf(store[segment.key]);
      AudioNext(store, segments, k);
      PlanSize(Plan(pieces, at), store, audio);
      var length := if segment.byteSize > HEADER_BYTES then segment.byteSize - HEADER_BYTES else 0;
      if length > 0 {
        var piece := Piece(segment.key, at, length);
        PlanGrows(Plan(pieces, at), store, audio, piece);
        pieces := pieces + [piece];
        at := at + length;
      } else {
        assert audio + data == audio;
      }
    }
    assert segments[..|segments|] == segments;
    plan := Plan(pieces, at);
  }

  lemma NothingLaidOut(store: map<Key, seq<byte>>, segments: seq<Segment>)
    requires Stored(store, segments)
    ensures LaysOut(Plan([], HEADER_BYTES), store, Audio(store, segments[..0]))
  {
  }

  lemma AudioNext(store: map<Key, seq<byte>>, segments: seq<Segment>, k: nat)
    requires Stored(store, segments) && k < |segments|
    ensures Audio(store, segments[..k + 1]) == Audio(store, segments[..k]) + DataOf(store[segments[k].key])
  {
    assert segments[..k + 1][..k] == segments[..k];
  }

  lemma PlanSize(plan: Plan, store: map<Key, seq<byte>>, audio: seq<byte>)
    requires LaysOut(plan, store, audio)
    ensures plan.totalSize == HEADER_BYTES + |audio|
  {
  }

  lemma PlanGrows(plan: Plan, store: map<Key, seq<byte>>, audio: seq<byte>, p: Piece)
    requires LaysOut(plan, store, audio) && p.start == plan.totalSize && p.length > 0
    requires p.key in store && |store[p.key]| == HEADER_BYTES + p.length
    ensures LaysOut(Plan(plan.pieces + [p], plan.totalSize + p.length), store, audio + store[p.key][HEADER_BYTES..])
  {
    var data := store[p.key][HEADER_BYTES..];
    forall k | 0 <= k < |plan.pieces| ensures PieceFits(plan.pieces[k], store, audio + data) {
      PieceStillFits(plan.pieces[k], store, audio, data);
    }
    assert (audio + data)[|audio|..|audio| + p.length] == data;
    assert PieceFits(p, store, audio + data);
    hide PieceFits;
  }

  // ----- ranged reads

  /** What one slice reads. */
  ghost function Read(header: seq<byte>, store: map<Key, seq<byte>>, s: Slice): seq<byte> {
    var source := if s.HeaderSlice? then header else if s.piece.key in store then store[s.piece.key] else [];
    if 0 <= s.first <= s.last < |source| then source[s.first..s.last + 1] else []
  }

  ghost function ReadAll(header: seq<byte>, store: map<Key, seq<byte>>, slices: seq<Slice>): seq<byte> {
    if slices == [] then []
    else ReadAll(header, store, slices[..|slices| - 1]) + Read(header, store, slices[|slices| - 1])
  }

  /** The part of file[start..end+1] below `upTo`. */
  ghost function Below(file: seq<byte>, start: int, end: int, upTo: int): seq<byte>
    requires 0 <= start <= end < |file|
  {
    var hi := Min(end + 1, upTo);
    if start < hi then file[start..hi] else []
  }

  /** The part of the range between two offsets follows the part below the first. */
  lemma BelowStep(file: seq<byte>, start: int, end: int, x: int, y: int)
    requires 0 <= start <= end < |file| && 0 <= x <= y
    ensures var lo, hi := Max(start, x), Min(end + 1, y);
      Below(file, start, end, y) == Below(file, start, end, x) + if lo < hi then file[lo..hi] else []
  {
    var lo, hi := Max(start, x), Min(end + 1, y);
    if start < x && lo < hi { assert file[start..x] + file[x..hi] == file[start..hi]; }
  }

  lemma SliceOfSlice(s: seq<byte>, lo: int, hi: int, a: int, b: int)
    requires 0 <= lo <= hi <= |s| && 0 <= a <= b <= hi - lo
    ensures s[lo..hi][a..b] == s[lo + a..lo + b]
  {
    var x, y := s[lo..hi][a..b], s[lo + a..lo + b];
    forall k | 0 <= k < |x| ensures x[k] == y[k] {
      assert s[lo..hi][a + k] == s[lo + a + k];
    }
    assert |x| == |y|;
  }

  lemma BehindHeader(header: seq<byte>, audio: seq<byte>, lo: int, hi: int)
    requires |header| <= lo <= hi <= |header| + |audio|
    ensures (header + audio)[lo..hi] == audio[lo - |header|..hi - |header|]
  {
  }

  lemma BlobPart(header: seq<byte>, store: map<Key, seq<byte>>, audio: seq<byte>, p: Piece, lo: int, hi: int)
    requires |header| == HEADER_BYTES && PieceFits(p, store, audio) && p.start <= lo < hi <= p.start + p.length
    ensures (header + audio)[lo..hi] == store[p.key][HEADER_BYTES + lo - p.start..HEADER_BYTES + hi - p.start]
  {
    var blob, base := store[p.key], p.start - HEADER_BYTES;
    var a, b := lo - p.start, hi - p.start;
    BehindHeader(header, audio, lo, hi);
    SliceOfSlice(audio, base, base + p.length, a, b);
    SliceOfSlice(blob, HEADER_BYTES, |blob|, a, b);
    assert blob[HEADER_BYTES..] == blob[HEADER_BYTES..|blob|];
    assert (header + audio)[lo..hi] == audio[base + a..base + b];
    assert audio[base + a..base + b] == blob[HEADER_BYTES + a..HEADER_BYTES + b];
  }

  /** Where a range meets a piece: an inclusive range of its blob. */
  function SliceOf(p: Piece, start: int, end: int): Slice {
    BlobSlice(p, HEADER_BYTES + Max(start, p.start) - p.start, HEADER_BYTES + Min(end, p.Last()) - p.start)
  }

  /** A piece that meets the range reads exactly the range's bytes inside the piece. */
  lemma PieceReads(header: seq<byte>, store: map<Key, seq<byte>>, audio: seq<byte>, p: Piece, start: int, end: int)
    requires |header| == HEADER_BYTES && PieceFits(p, store, audio)
    requires 0 <= start <= end < |header + audio|
    ensures Below(header + audio, start, end, p.start + p.length) == Below(header + audio, start, end, p.start)
            + if p.Last() < start || p.start > end then [] else Read(header, store, SliceOf(p, start, end))
  {
    BelowStep(header + audio, start, end, p.start, p.start + p.length);
    var lo, hi := Max(start, p.start), Min(end + 1, p.start + p.length);
    if lo < hi { BlobPart(header, store, audio, p, lo, hi); }
    hide Below;
  }

  /** The header part of a range. */
  lemma HeaderReads(header: seq<byte>, store: map<Key, seq<byte>>, audio: seq<byte>, start: int, end: int)
    requires |header| == HEADER_BYTES && 0 <= start <= end < |header + audio|
    ensures Below(header + audio, start, end, HEADER_BYTES) ==
            if start < HEADER_BYTES then Read(header, store, HeaderSlice(start, Min(end, HEADER_BYTES - 1))) else []
  {
  }

  method Slices(plan: Plan, start: int, end: int, ghost header: seq<byte>, ghost store: map<Key, seq<byte>>,
                ghost audio: seq<byte>)
    returns (slices: seq<Slice>)
    requires |header| == HEADER_BYTES && LaysOut(plan, store, audio)
    requires 0 <= start <= end < plan.totalSize
    ensures ReadAll(header, store, slices) == (header + audio)[start..end + 1]
    ensures start >= HEADER_BYTES ==> forall k :: 0 <= k < |slices| ==> slices[k].BlobSlice?
  {
    hide Below, Read, PieceFits, ReadAll;
    slices := [];
    HeaderReads(header, store, audio, start, end);
    ReadNone(header, store);
    if start < HEADER_BYTES {
      slices := [HeaderSlice(start, Min(end, HEADER_BYTES - 1))];
      ReadOneMore(header, store, [], slices[0]);
      assert [] + [slices[0]] == slices;
    }
    for k := 0 to |plan.pieces|
      invariant ReadAll(header, store, slices) ==
        Below(header + audio, start, end,
              if k == 0 then HEADER_BYTES else plan.pieces[k - 1].start + plan.pieces[k - 1].length)
      invariant start >= HEADER_BYTES ==> forall j :: 0 <= j < |slices| ==> slices[j].BlobSlice?
    {
      var piece := plan.pieces[k];
      PieceReads(header, store, audio, piece, start, end);
      if !(piece.Last() < start || piece.start > end) {
        ReadOneMore(header, store, slices, SliceOf(piece, start, end));
        slices := slices + [SliceOf(piece, start, end)];
      }
    }
    WholeRange(header + audio, start, end);
  }

  lemma WholeRange(file: seq<byte>, start: int, end: int)
    requires 0 <= start <= end < |file|
    ensures Below(file, start, end, |file|) == file[start..end + 1]
  {
  }

  lemma ReadNone(header: seq<byte>, store: map<Key, seq<byte>>)
    ensures ReadAll(header, store, []) == []
  {
  }

  lemma ReadOneMore(header: seq<byte>, store: map<Key, seq<byte>>, slices: seq<Slice>, s: Slice)
    ensures ReadAll(header, store, slices + [s]) == ReadAll(header, store, slices) + Read(header, store, s)
  {
    assert (slices + [s])[..|slices|] == slices;
  }

  // ----- stored flushes play back

  /** What storing every flush of a stream leaves: blob k is flush k's PCM behind a header. */
  ghost predicate WrappedFlushes(store: map<Key, seq<byte>>, segments: seq<Segment>, pcm: seq<seq<byte>>, rate: nat,
                                 channels: nat) {
    && |segments| == |pcm| && Stored(store, segments)
    && forall k :: 0 <= k < |pcm| ==>
      Packable(|pcm[k]|, rate, channels) && store[segments[k].key] == Wrap(pcm[k], rate, channels)
  }

  lemma {:induction false} AudioOfFlushes(store: map<Key, seq<byte>>, segments: seq<Segment>, pcm: seq<seq<byte>>,
                                         rate: nat, channels: nat)
    requires WrappedFlushes(store, segments, pcm, rate, channels)
    ensures Audio(store, segments) == Flatten(pcm)
  {
    if segments != [] {
      var n := |segments| - 1;
      AudioOfFlushes(store, segments[..n], pcm[..n], rate, channels);
      assert DataOf(Wrap(pcm[n], rate, channels)) == pcm[n];
    }
  }

  /** Pooled, wrapped, stored and stitched: the file is one WAV around all the PCM. */
  lemma StitchedFileIsOneWav(store: map<Key, seq<byte>>, segments: seq<Segment>, pcm: seq<seq<byte>>, rate: nat,
                             channels: nat)
    requires WrappedFlushes(store, segments, pcm, rate, channels) && segments != []
    requires Packable(|Flatten(pcm)|, rate, channels)
    ensures Audio(store, segments) == Flatten(pcm)
    ensures var header := PatchHeader(store[segments[0].key], |Flatten(pcm)|);
      header.Ok? && header.value + Audio(store, segments) == Wrap(Flatten(pcm), rate, channels)
  {
    AudioOfFlushes(store, segments, pcm, rate, channels);
    PatchMeansResize(pcm[0], rate, channels, |Flatten(pcm)|);
  }

  // ----- the timeline

  datatype Timeline = Timeline(plan: Plan, rate: nat, channels: nat)
  {
    function FrameBytes(): nat { channels * 2 }

    function DataBytes(): int { plan.totalSize - HEADER_BYTES }

    /** The length of the audio, in whole milliseconds. */
    function TotalMs(): int
      requires rate > 0 && channels > 0
    {
      Multiply(1, rate, FrameBytes());
      DataBytes() * 1000 / (rate * FrameBytes())
    }

    /** Bytes of a window. */
    function WindowBytes(windowMs: int): int { windowMs * rate / 1000 * FrameBytes() }

    /** Stitched-file offset of the frame at `ms`. */
    function FrameOffset(ms: int): int { HEADER_BYTES + ms * rate / 1000 * FrameBytes() }

    /** Inclusive stitched-file range for [startMs, endMs), clamped; an error when empty. */
    function ByteRange(startMs: int, endMs: int): Result<(int, int)> {
      var start := FrameOffset(Max(0, startMs));
      var end := Min(FrameOffset(endMs), HEADER_BYTES + DataBytes());
      if end <= start then Error else Ok((start, end - 1))
    }
  }

  lemma FrameOffsetMonotone(t: Timeline, a: int, b: int)
    ensures a <= b ==> t.FrameOffset(a) <= t.FrameOffset(b)
    ensures t.FrameOffset(0) == HEADER_BYTES
    ensures a >= 0 ==> t.FrameOffset(a) >= HEADER_BYTES
    ensures a < 0 ==> t.FrameOffset(a) <= HEADER_BYTES
  {
    Multiply(a, b, t.rate);
    Multiply(a * t.rate / 1000, b * t.rate / 1000, t.FrameBytes());
    Multiply(0, a, t.rate);
    Multiply(a, 0, t.rate);
    Multiply(0, a * t.rate / 1000, t.FrameBytes());
    Multiply(a * t.rate / 1000, 0, t.FrameBytes());
    assert 0 * t.rate == 0 && 0 * t.FrameBytes() == 0;
  }

  /** The PCM that rendering [startMs, endMs) returns. */
  ghost function Rendered(t: Timeline, file: seq<byte>, startMs: int, endMs: int): seq<byte>
    requires |file| == t.plan.totalSize && t.plan.totalSize >= HEADER_BYTES
    requires t.ByteRange(startMs, endMs).Ok?
  {
    var (lo, hi) := t.ByteRange(startMs, endMs).value;
    FrameOffsetMonotone(t, Max(0, startMs), endMs);
    file[lo..hi + 1]
  }

  /** Frame offsets: 44 bytes of header, then two bytes a channel for each whole frame before `ms`. */
  lemma FrameOffsetMeans(t: Timeline, ms: int) returns (frames: int)
    ensures frames * 1000 <= ms * t.rate < frames * 1000 + 1000
    ensures t.FrameOffset(ms) == 44 + frames * (t.channels * 2)
  {
    frames := ms * t.rate / 1000;
  }

  /** A window is the whole frames of its duration, and the length of the audio its whole milliseconds. */
  lemma DurationsMean(t: Timeline, windowMs: int) returns (frames: int)
    requires t.rate > 0 && t.channels > 0
    ensures frames * 1000 <= windowMs * t.rate < frames * 1000 + 1000
    ensures t.WindowBytes(windowMs) == frames * (t.channels * 2)
    ensures var second, data := t.rate * (t.channels * 2), t.plan.totalSize - 44;
      t.TotalMs() * second <= data * 1000 < t.TotalMs() * second + second
  {
    frames := windowMs * t.rate / 1000;
    Multiply(1, t.rate, t.FrameBytes());
    WholeParts(t.DataBytes() * 1000, t.rate * t.FrameBytes());
  }

  lemma WholeParts(x: int, p: int)
    requires p > 0
    ensures x / p * p <= x < x / p * p + p
  {
  }

  /** A clip is the frames from `startMs` on, the start of the session at the earliest, to the frame of
      `endMs`, the end of the audio at the latest; none when there is no such frame. */
  lemma ClipMeans(t: Timeline, header: seq<byte>, audio: seq<byte>, startMs: int, endMs: int) returns (f: int, g: int)
    requires |header| == 44 && t.plan.totalSize == 44 + |audio|
    ensures f * 1000 <= (if startMs < 0 then 0 else startMs) * t.rate < f * 1000 + 1000
    ensures g * 1000 <= endMs * t.rate < g * 1000 + 1000
    ensures var frame := t.channels * 2;
      var hi := if g * frame < |audio| then g * frame else |audio|;
      && (t.ByteRange(startMs, endMs).Ok? <==> f * frame < hi)
      && (t.ByteRange(startMs, endMs).Ok? ==>
            0 <= f * frame && Rendered(t, header + audio, startMs, endMs) == audio[f * frame..hi])
  {
    f := FrameOffsetMeans(t, Max(0, startMs));
    g := FrameOffsetMeans(t, endMs);
    FrameOffsetMonotone(t, Max(0, startMs), endMs);
    if t.ByteRange(startMs, endMs).Ok? {
      var (lo, hi) := t.ByteRange(startMs, endMs).value;
      ByteRangeInAudio(t, startMs, endMs);
      BehindHeader(header, audio, lo, hi + 1);
    }
  }

  /** In stereo at 16 kHz a millisecond is 16 frames of four bytes. */
  lemma StereoFrames(plan: Plan)
    ensures var t := Timeline(plan, 16000, 2); t.FrameOffset(1) == 108 && t.WindowBytes(30) == 1920
  {
  }

  /** Ranges are inside the audio, never in the header. */
  lemma ByteRangeInAudio(t: Timeline, startMs: int, endMs: int)
    requires t.plan.totalSize >= HEADER_BYTES && t.ByteRange(startMs, endMs).Ok?
    ensures var (lo, hi) := t.ByteRange(startMs, endMs).value; HEADER_BYTES <= lo <= hi < t.plan.totalSize
  {
    FrameOffsetMonotone(t, Max(0, startMs), endMs);
  }

  /** Rendering [a,b) then [b,c), both non-empty, gives exactly [a,c). */
  lemma RenderedConcat(t: Timeline, file: seq<byte>, a: int, b: int, c: int)
    requires |file| == t.plan.totalSize && t.plan.totalSize >= HEADER_BYTES
    requires t.ByteRange(a, b).Ok? && t.ByteRange(b, c).Ok?
    ensures t.ByteRange(a, c).Ok? && Rendered(t, file, a, c) == Rendered(t, file, a, b) + Rendered(t, file, b, c)
  {
    RangesMeet(t, a, b, c);
    ByteRangeInAudio(t, a, b);
    ByteRangeInAudio(t, b, c);
    var first, second := t.ByteRange(a, b).value, t.ByteRange(b, c).value;
    JoinSlices(file, first.0, first.1 + 1, second.1 + 1);
  }

  lemma JoinSlices(file: seq<byte>, lo: int, mid: int, hi: int)
    requires 0 <= lo <= mid <= hi <= |file|
    ensures file[lo..mid] + file[mid..hi] == file[lo..hi]
  {
  }

  /** Two adjacent ranges are adjacent in the file, and their union is the joint range. */
  lemma RangesMeet(t: Timeline, a: int, b: int, c: int)
    requires t.plan.totalSize >= HEADER_BYTES && t.ByteRange(a, b).Ok? && t.ByteRange(b, c).Ok?
    ensures t.ByteRange(b, c).value.0 == t.ByteRange(a, b).value.1 + 1
    ensures t.ByteRange(a, c) == Ok((t.ByteRange(a, b).value.0, t.ByteRange(b, c).value.1))
  {
    FrameOffsetMonotone(t, Max(0, a), b);
    FrameOffsetMonotone(t, b, 0);
    FrameOffsetMonotone(t, Max(0, b), c);
  }

  /** Ranged blob reads, one after the other. */
  method ReadBlobs(slices: seq<Slice>, store: map<Key, seq<byte>>, ghost header: seq<byte>) returns (body: seq<byte>)
    requires forall k :: 0 <= k < |slices| ==> slices[k].BlobSlice?
    ensures body == ReadAll(header, store, slices)
  {
    body := [];
    for k := 0 to |slices|
      invariant body == ReadAll(header, store, slices[..k])
    {
      assert slices[..k + 1] == slices[..k] + [slices[k]];
      ReadOneMore(header, store, slices[..k], slices[k]);
      var s := slices[k];
      if s.piece.key in store && 0 <= s.first <= s.last < |store[s.piece.key]| {
        body := body + store[s.piece.key][s.first..s.last + 1];
      }
    }
    assert slices[..|slices|] == slices;
  }

  /** `render_range`: the range's PCM behind a header of its own; an error exactly when the range
      is empty or the clip does not fit a header. */
  method RenderRange(t: Timeline, startMs: int, endMs: int, store: map<Key, seq<byte>>, ghost header: seq<byte>,
                     ghost audio: seq<byte>)
    returns (r: Result<seq<byte>>)
    requires |header| == HEADER_BYTES && LaysOut(t.plan, store, audio)
    ensures r.Ok? <==>
      t.ByteRange(startMs, endMs).Ok? && Packable(|Rendered(t, header + audio, startMs, endMs)|, t.rate, t.channels)
    ensures r.Ok? ==>
      var pcm := Rendered(t, header + audio, startMs, endMs);
      r.value == Wrap(pcm, t.rate, t.channels)
  {
    hide ReadAll, Packable;
    if t.ByteRange(startMs, endMs).Error? { return Error; }
    ByteRangeInAudio(t, startMs, endMs);
    var range := t.ByteRange(startMs, endMs).value;
    var slices := Slices(t.plan, range.0, range.1, header, store, audio);
    var body := ReadBlobs(slices, store, header);
    if !Packable(|body|, t.rate, t.channels) { return Error; }
    r := Ok(Header(|body|, t.rate, t.channels) + body);
  }

  // ----- scanning windows

  /** Cut into windows of exactly `size` bytes, the rest last. */
  ghost predicate Windows(windows: seq<seq<byte>>, size: nat, pcm: seq<byte>) {
    && Flatten(windows) == pcm
    && (forall k :: 0 <= k < |windows| - 1 ==> |windows[k]| == size)
    && (windows != [] ==> 0 < |windows[|windows| - 1]| <= size)
  }

  datatype Window = Window(startMs: int, pcm: seq<byte>)

  function PcmOf(windows: seq<Window>): (pcm: seq<seq<byte>>)
    ensures |pcm| == |windows| && forall k :: 0 <= k < |windows| ==> pcm[k] == windows[k].pcm
  {
    seq(|windows|, k requires 0 <= k < |windows| => windows[k].pcm)
  }

  /** Full windows so far, numbered in order, with less than another one left over. */
  ghost predicate Cutting(windows: seq<Window>, buffer: seq<byte>, windowMs: int, size: nat, heard: seq<byte>) {
    && Flatten(PcmOf(windows)) + buffer == heard
    && (forall k :: 0 <= k < |windows| ==> |windows[k].pcm| == size && windows[k].startMs == k * windowMs)
  }

  lemma CutOne(windows: seq<Window>, buffer: seq<byte>, windowMs: int, size: nat, heard: seq<byte>)
    requires Cutting(windows, buffer, windowMs, size, heard) && size <= |buffer|
    ensures Cutting(windows + [Window(|windows| * windowMs, buffer[..size])], buffer[size..], windowMs, size, heard)
  {
    var more := windows + [Window(|windows| * windowMs, buffer[..size])];
    assert PcmOf(more)[..|windows|] == PcmOf(windows);
    assert Flatten(PcmOf(windows)) + buffer == Flatten(PcmOf(windows)) + buffer[..size] + buffer[size..];
  }

  lemma HearMore(windows: seq<Window>, buffer: seq<byte>, windowMs: int, size: nat, heard: seq<byte>, chunk: seq<byte>)
    requires Cutting(windows, buffer, windowMs, size, heard)
    ensures Cutting(windows, buffer + chunk, windowMs, size, heard + chunk)
  {
    assert Flatten(PcmOf(windows)) + (buffer + chunk) == (Flatten(PcmOf(windows)) + buffer) + chunk;
  }

  /** The PCM of a piece is the next stretch of the audio. */
  lemma PieceIsNext(plan: Plan, store: map<Key, seq<byte>>, audio: seq<byte>, k: nat)
    requires LaysOut(plan, store, audio) && k < |plan.pieces|
    ensures var p := plan.pieces[k]; var at := p.start - HEADER_BYTES;
      && p.key in store && HEADER_BYTES <= |store[p.key]| && 0 <= at && at + p.length <= |audio|
      && audio[..at] + store[p.key][HEADER_BYTES..] == audio[..at + p.length]
    ensures k + 1 < |plan.pieces| ==> plan.pieces[k + 1].start == plan.pieces[k].start + plan.pieces[k].length
    ensures k + 1 == |plan.pieces| ==> plan.pieces[k].start + plan.pieces[k].length == HEADER_BYTES + |audio|
  {
    var p := plan.pieces[k];
    assert PieceFits(p, store, audio);
  }

  /** Where piece k begins in the audio; past the last one, its end. */
  function Offset(plan: Plan, k: nat): int
    requires k <= |plan.pieces|
  {
    if k < |plan.pieces| then plan.pieces[k].start - HEADER_BYTES else plan.totalSize - HEADER_BYTES
  }

  lemma Offsets(plan: Plan, store: map<Key, seq<byte>>, audio: seq<byte>, k: nat)
    requires LaysOut(plan, store, audio) && k <= |plan.pieces|
    ensures 0 <= Offset(plan, k) <= |audio| && (k == 0 ==> Offset(plan, k) == 0)
    ensures k == |plan.pieces| ==> Offset(plan, k) == |audio|
    ensures k < |plan.pieces| ==> Offset(plan, k + 1) == Offset(plan, k) + plan.pieces[k].length
  {
    assert plan.pieces != [] ==> plan.pieces[0].start == HEADER_BYTES;
    if k < |plan.pieces| { PieceIsNext(plan, store, audio, k); }
  }

  /** The blob store delivers each piece's data in chunks of its own choosing. */
  ghost predicate Delivers(plan: Plan, store: map<Key, seq<byte>>, deliveries: seq<seq<seq<byte>>>) {
    && |deliveries| == |plan.pieces|
    && forall k :: 0 <= k < |plan.pieces| ==>
         && plan.pieces[k].key in store && HEADER_BYTES <= |store[plan.pieces[k].key]|
         && Flatten(deliveries[k]) == store[plan.pieces[k].key][HEADER_BYTES..]
  }

  /** `iter_windows`: the whole audio in windows, piece by piece, each with its place in time. A
      window of no bytes would never end. */
  method IterWindows(t: Timeline, windowMs: int, deliveries: seq<seq<seq<byte>>>, ghost store: map<Key, seq<byte>>,
                     ghost audio: seq<byte>)
    returns (windows: seq<Window>)
    requires LaysOut(t.plan, store, audio) && Delivers(t.plan, store, deliveries) && t.WindowBytes(windowMs) > 0
    ensures Windows(PcmOf(windows), t.WindowBytes(windowMs), audio)
    ensures forall k :: 0 <= k < |windows| ==> windows[k].startMs == k * windowMs
  {
    hide Cutting, Delivers, LaysOut, Flatten, Offset;
    var size := t.WindowBytes(windowMs);
    windows := [];
    var buffer: seq<byte> := [];
    ghost var heard: seq<byte> := [];
    NothingCut(windowMs, size);
    Offsets(t.plan, store, audio, 0);
    DeliversAll(t.plan, store, deliveries);
    for k := 0 to |deliveries|
      invariant Cutting(windows, buffer, windowMs, size, heard) && |buffer| < size
      invariant 0 <= Offset(t.plan, k) <= |audio| && heard == audio[..Offset(t.plan, k)]
    {
      ghost var before := heard;
      NoneDelivered(deliveries[k]);
      for c := 0 to |deliveries[k]|
        invariant Cutting(windows, buffer, windowMs, size, heard) && |buffer| < size
        invariant heard == before + Flatten(deliveries[k][..c])
      {
        var chunk := deliveries[k][c];
        OneDelivered(deliveries[k], c);
        HearMore(windows, buffer, windowMs, size, heard, chunk);
        heard, buffer := heard + chunk, buffer + chunk;
        while |buffer| >= size
          invariant Cutting(windows, buffer, windowMs, size, heard)
        {
          CutOne(windows, buffer, windowMs, size, heard);
          windows, buffer := windows + [Window(|windows| * windowMs, buffer[..size])], buffer[size..];
        }
      }
      assert deliveries[k][..|deliveries[k]|] == deliveries[k];
      DeliveredIsNext(t.plan, store, audio, deliveries, k);
    }
    Offsets(t.plan, store, audio, |deliveries|);
    assert audio[..|audio|] == audio;
    LastWindow(windows, buffer, windowMs, size, audio);
    if buffer != [] {
      windows := windows + [Window(|windows| * windowMs, buffer)];
    }
  }

  lemma NothingCut(windowMs: int, size: nat)
    ensures Cutting([], [], windowMs, size, [])
  {
  }

  lemma DeliversAll(plan: Plan, store: map<Key, seq<byte>>, deliveries: seq<seq<seq<byte>>>)
    requires Delivers(plan, store, deliveries)
    ensures |deliveries| == |plan.pieces|
  {
  }

  lemma NoneDelivered(chunks: seq<seq<byte>>)
    ensures Flatten(chunks[..0]) == []
  {
  }

  lemma OneDelivered(chunks: seq<seq<byte>>, c: nat)
    requires c < |chunks|
    ensures Flatten(chunks[..c + 1]) == Flatten(chunks[..c]) + chunks[c]
  {
    assert chunks[..c + 1][..c] == chunks[..c];
  }

  lemma DeliveredIsNext(plan: Plan, store: map<Key, seq<byte>>, audio: seq<byte>, deliveries: seq<seq<seq<byte>>>,
                        k: nat)
    requires LaysOut(plan, store, audio) && Delivers(plan, store, deliveries) && k < |plan.pieces|
    ensures 0 <= Offset(plan, k) <= Offset(plan, k + 1) <= |audio|
    ensures audio[..Offset(plan, k)] + Flatten(deliveries[k]) == audio[..Offset(plan, k + 1)]
  {
    hide Flatten, PieceFits;
    Offsets(plan, store, audio, k);
    Offsets(plan, store, audio, k + 1);
    PieceIsNext(plan, store, audio, k);
  }

  lemma LastWindow(windows: seq<Window>, buffer: seq<byte>, windowMs: int, size: nat, audio: seq<byte>)
    requires Cutting(windows, buffer, windowMs, size, audio) && |buffer| < size
    ensures var all := if buffer == [] then windows else windows + [Window(|windows| * windowMs, buffer)];
      Windows(PcmOf(all), size, audio) && forall k :: 0 <= k < |all| ==> all[k].startMs == k * windowMs
  {
    if buffer != [] {
      assert PcmOf(windows + [Window(|windows| * windowMs, buffer)])[..|windows|] == PcmOf(windows);
    }
  }

  /** Window k begins at the frame of its start time, for every k, exactly when a window is a whole
      number of frames; otherwise the times drift from the audio. */
  lemma WindowTimesExactlyWhen(t: Timeline, windowMs: int)
    requires t.channels > 0
    ensures (forall k: nat :: t.FrameOffset(k * windowMs) == HEADER_BYTES + k * t.WindowBytes(windowMs))
            <==> windowMs * t.rate % 1000 == 0
  {
    var x, f := windowMs * t.rate, t.FrameBytes();
    if x % 1000 == 0 {
      forall k: nat ensures t.FrameOffset(k * windowMs) == HEADER_BYTES + k * t.WindowBytes(windowMs) {
        WindowFrames(windowMs, t.rate, k);
        Regroup(k, x / 1000, f);
      }
    }
    if forall k: nat :: t.FrameOffset(k * windowMs) == HEADER_BYTES + k * t.WindowBytes(windowMs) {
      var k: nat := 1000;
      assert t.FrameOffset(k * windowMs) == HEADER_BYTES + k * t.WindowBytes(windowMs);
      assert k * windowMs * t.rate == x * 1000;
      Quotient(x * 1000, 1000, x);
      Regroup(1000, x / 1000, f);
      SameFactor(x, 1000 * (x / 1000), f);
    }
  }

  /** At 44.1 kHz a 1 ms window is 44 frames and 10 ms are 441: the tenth window is given 10 ms and
      begins one frame earlier. */
  lemma WindowTimesDrift(plan: Plan)
    ensures var t := Timeline(plan, 44100, 1);
      t.FrameOffset(10) == 926 && HEADER_BYTES + 10 * t.WindowBytes(1) == 924
  {
  }

  lemma WindowFrames(windowMs: int, rate: nat, k: nat)
    requires windowMs * rate % 1000 == 0
    ensures k * windowMs * rate / 1000 == k * (windowMs * rate / 1000)
  {
    var x := windowMs * rate;
    var m := x / 1000;
    assert x == m * 1000;
    assert k * windowMs * rate == k * x by { Regroup(k, windowMs, rate); }
    assert k * x == k * m * 1000 by { Regroup(k, m, 1000); }
    Quotient(k * x, 1000, k * m);
  }

  lemma Regroup(x: int, y: int, z: int)
    ensures x * y * z == x * (y * z)
  {
  }

  lemma SameFactor(x: int, y: int, f: int)
    requires f > 0 && x * f == y * f
    ensures x == y
  {
    if x < y { Multiply(x + 1, y, f); }
    if y < x { Multiply(y + 1, x, f); }
  }

  /** The windows do not depend on how the chunks fall. */
  lemma {:induction false} WindowsUnique(a: seq<seq<byte>>, b: seq<seq<byte>>, size: nat, pcm: seq<byte>)
    requires size > 0 && Windows(a, size, pcm) && Windows(b, size, pcm)
    ensures a == b
    decreases |pcm|
  {
    if a != [] && b != [] {
      FlattenHead(a);
      FlattenHead(b);
      WindowsTail(a, size, pcm);
      WindowsTail(b, size, pcm);
      var n := |a[0]|;
      assert a[0] == pcm[..|a[0]|] && b[0] == pcm[..|b[0]|];
      if |a[0]| == |b[0]| { WindowsUnique(a[1..], b[1..], size, pcm[n..]); }
    } else {
      if a != [] { FlattenHead(a); }
      if b != [] { FlattenHead(b); }
    }
  }

  lemma FlattenHead(a: seq<seq<byte>>)
    requires a != []
    ensures Flatten(a) == a[0] + Flatten(a[1..])
  {
    assert a == [a[0]] + a[1..];
    FlattenConcat([a[0]], a[1..]);
    assert [a[0]][..0] == [];
  }

  lemma WindowsTail(a: seq<seq<byte>>, size: nat, pcm: seq<byte>)
    requires size > 0 && Windows(a, size, pcm) && a != []
    ensures 0 < |a[0]| <= |pcm| && a[0] == pcm[..|a[0]|] && Windows(a[1..], size, pcm[|a[0]|..])
    ensures |a[0]| == if |pcm| < size then |pcm| else size
  {
    FlattenHead(a);
    if |a| == 1 {
    } else {
      assert a[1..] != [];
    }
  }
}
