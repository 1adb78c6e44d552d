/** `spans_from_scores` and `_quietest_cut` (processing/vad.py:97-175): frame scores to
    merged, padded, bounded speech spans. The mean confidence a span carries along is left out. */
module VadSpans {
  import opened Arithmetic
  import opened Sorting
  import opened Wrappers
  import opened Intervals

  datatype Settings = Settings(
    totalMs: int,
    threshold: real,
    minSpeechMs: int,
    mergeGapMs: int,
    padMs: nat,
    maxSpanMs: int,
    frameMs: int
  )
  {
    /** Three quarters of the cap are a frame or more. */
    predicate Progresses() {
      0 < frameMs <= maxSpanMs * 3 / 4
    }

    /** The cap reaches past a frame at the right place: the whole caps that fit below a frame and
        three quarters of one more. */
    predicate Ends() {
      && 0 < frameMs && 0 < maxSpanMs
      && (frameMs - 1) / maxSpanMs * maxSpanMs + maxSpanMs * 3 / 4 >= frameMs
    }

    /** The fewest frames a run of the least length has. */
    function FewestFrames(): int
      requires frameMs > 0
    {
      Max(1, (minSpeechMs + frameMs - 1) / frameMs)
    }

    /** No run of the least length that fits in n frames can start past the end of the audio,
        the padding included. */
    predicate HoldsFrames(n: nat)
      requires frameMs > 0
    {
      n < FewestFrames() || Max(0, (n - FewestFrames()) * frameMs - padMs) < totalMs
    }

    /** And no scores lie past the end of the audio. */
    predicate Fits(scores: seq<real>) {
      Progresses() && |scores| * frameMs <= totalMs
    }
  }

  // ----- runs of speech frames

  /** Maximal runs of frames at or above the threshold, in milliseconds. */
  ghost predicate SpeechRuns(scores: seq<real>, threshold: real, frame: int, bounds: seq<(nat, nat)>, raw: seq<Span>) {
    && |raw| == |bounds|
    && (forall k :: 0 <= k < |raw| ==>
          && bounds[k].0 < bounds[k].1 <= |scores|
          && raw[k] == Span(bounds[k].0 * frame, bounds[k].1 * frame)
          && (forall f :: bounds[k].0 <= f < bounds[k].1 ==> scores[f] >= threshold))
    && (forall j, k :: 0 <= j < k < |raw| ==> bounds[j].1 < bounds[k].0)
    && (forall f :: 0 <= f < |scores| && scores[f] >= threshold ==> InRun(bounds, f))
  }

  ghost predicate InRun(bounds: seq<(nat, nat)>, f: int) {
    exists k :: 0 <= k < |bounds| && bounds[k].0 <= f < bounds[k].1
  }

  lemma CloseSpeechRun(scores: seq<real>, threshold: real, frame: int, bounds: seq<(nat, nat)>, raw: seq<Span>,
                       first: nat, last: nat)
    requires first < last <= |scores| && SpeechRuns(scores[..first], threshold, frame, bounds, raw)
    requires forall k :: 0 <= k < |bounds| ==> bounds[k].1 < first
    requires forall f :: first <= f < last ==> scores[f] >= threshold
    ensures SpeechRuns(scores[..last], threshold, frame, bounds + [(first, last)],
                       raw + [Span(first * frame, last * frame)])
  {
    var more := bounds + [(first, last)];
    forall f | 0 <= f < last && scores[f] >= threshold ensures InRun(more, f) {
      if f < first {
        assert scores[..first][f] >= threshold;
        assert InRun(bounds, f);
        var k :| 0 <= k < |bounds| && bounds[k].0 <= f < bounds[k].1;
        assert more[k] == bounds[k];
      } else {
        assert more[|bounds|] == (first, last);
      }
    }
  }

  lemma SkipFrame(scores: seq<real>, threshold: real, frame: int, bounds: seq<(nat, nat)>, raw: seq<Span>, index: nat)
    requires index < |scores| && scores[index] < threshold && SpeechRuns(scores[..index], threshold, frame, bounds, raw)
    ensures SpeechRuns(scores[..index + 1], threshold, frame, bounds, raw)
  {
    forall f | 0 <= f < index + 1 && scores[..index + 1][f] >= threshold ensures InRun(bounds, f) {
      assert scores[..index][f] >= threshold;
    }
  }

  ghost predicate AreSpeechRuns(scores: seq<real>, threshold: real, frame: int, raw: seq<Span>) {
    exists bounds :: SpeechRuns(scores, threshold, frame, bounds, raw)
  }

  method FindRuns(scores: seq<real>, threshold: real, frame: int) returns (raw: seq<Span>)
    ensures AreSpeechRuns(scores, threshold, frame, raw)
  {
    hide SpeechRuns;
    raw := [];
    ghost var bounds: seq<(nat, nat)> := [];
    var current: Option<nat> := None;
    NoRuns(scores, threshold, frame);
    for index := 0 to |scores|
      invariant current.Some? ==> current.value < index
      invariant current.Some? ==> forall f :: current.value <= f < index ==> scores[f] >= threshold
      invariant SpeechRuns(scores[..if current.Some? then current.value else index], threshold, frame, bounds, raw)
      invariant forall k :: 0 <= k < |bounds| ==> bounds[k].1 < if current.Some? then current.value else index
    {
      if scores[index] >= threshold {
        if current.None? { current := Some(index); }
      } else {
        if current.Some? {
          CloseSpeechRun(scores, threshold, frame, bounds, raw, current.value, index);
          raw, bounds := raw + [Span(current.value * frame, index * frame)], bounds + [(current.value, index)];
          current := None;
        }
        SkipFrame(scores, threshold, frame, bounds, raw, index);
      }
    }
    if current.Some? {
      CloseSpeechRun(scores, threshold, frame, bounds, raw, current.value, |scores|);
      raw, bounds := raw + [Span(current.value * frame, |scores| * frame)], bounds + [(current.value, |scores|)];
    }
    assert scores[..|scores|] == scores;
  }

  lemma NoRuns(scores: seq<real>, threshold: real, frame: int)
    ensures SpeechRuns(scores[..0], threshold, frame, [], [])
  {
  }

  // ----- merging close runs

  /** Slices of the raw runs: gaps below `gap` inside, at or above it between. */
  ghost predicate MergedRuns(raw: seq<Span>, gap: int, cuts: seq<nat>, merged: seq<Span>) {
    && |cuts| == |merged| + 1 && cuts[0] == 0 && cuts[|merged|] == |raw|
    && (forall k :: 0 <= k < |merged| ==> IsMerged(raw, gap, cuts[k], cuts[k + 1], merged[k]))
    && (forall k :: 0 < k < |merged| ==> 0 < cuts[k] < |raw| && raw[cuts[k]].start - raw[cuts[k] - 1].end >= gap)
  }

  ghost predicate IsMerged(raw: seq<Span>, gap: int, lo: nat, hi: nat, s: Span) {
    && lo < hi <= |raw| && s == Span(raw[lo].start, raw[hi - 1].end)
    && forall j :: lo < j < hi ==> raw[j].start - raw[j - 1].end < gap
  }

  lemma ExtendMerged(raw: seq<Span>, gap: int, cuts: seq<nat>, merged: seq<Span>, k: nat)
    requires k < |raw| && MergedRuns(raw[..k], gap, cuts, merged) && merged != []
    requires raw[k].start - merged[|merged| - 1].end < gap
    ensures MergedRuns(raw[..k + 1], gap, cuts[|cuts| - 1 := k + 1],
                       merged[|merged| - 1 := Span(merged[|merged| - 1].start, raw[k].end)])
  {
    var last := |merged| - 1;
    assert IsMerged(raw[..k], gap, cuts[last], cuts[last + 1], merged[last]);
    assert IsMerged(raw[..k + 1], gap, cuts[last], k + 1, Span(merged[last].start, raw[k].end));
    KeepMerged(raw, gap, cuts, merged, k, last);
    hide IsMerged;
  }

  /** The last merged run ends where the last raw one does. */
  lemma LastEnds(raw: seq<Span>, gap: int, cuts: seq<nat>, merged: seq<Span>, k: nat)
    requires k < |raw| && MergedRuns(raw[..k], gap, cuts, merged)
    ensures merged != [] ==> k > 0 && merged[|merged| - 1].end == raw[k - 1].end
  {
    if merged != [] {
      var last := |merged| - 1;
      assert IsMerged(raw[..k], gap, cuts[last], cuts[last + 1], merged[last]);
    }
  }

  lemma NewMerged(raw: seq<Span>, gap: int, cuts: seq<nat>, merged: seq<Span>, k: nat)
    requires k < |raw| && MergedRuns(raw[..k], gap, cuts, merged)
    requires merged != [] ==> raw[k].start - merged[|merged| - 1].end >= gap
    ensures MergedRuns(raw[..k + 1], gap, cuts + [k + 1], merged + [raw[k]])
  {
    LastEnds(raw, gap, cuts, merged, k);
    KeepMerged(raw, gap, cuts, merged, k, |merged|);
    assert IsMerged(raw[..k + 1], gap, k, k + 1, raw[k]);
    hide IsMerged;
  }

  ghost predicate AreMergedRuns(raw: seq<Span>, gap: int, merged: seq<Span>) {
    exists cuts :: MergedRuns(raw, gap, cuts, merged)
  }

  method MergeRuns(raw: seq<Span>, gap: int) returns (merged: seq<Span>)
    ensures AreMergedRuns(raw, gap, merged)
  {
    merged := [];
    ghost var cuts: seq<nat> := [0];
    for k := 0 to |raw|
      invariant MergedRuns(raw[..k], gap, cuts, merged)
    {
      if merged != [] && raw[k].start - merged[|merged| - 1].end < gap {
        ExtendMerged(raw, gap, cuts, merged, k);
        merged := merged[|merged| - 1 := Span(merged[|merged| - 1].start, raw[k].end)];
        cuts := cuts[|cuts| - 1 := k + 1];
      } else {
        NewMerged(raw, gap, cuts, merged, k);
        merged, cuts := merged + [raw[k]], cuts + [k + 1];
      }
    }
    assert raw[..|raw|] == raw;
  }

  lemma KeepMerged(raw: seq<Span>, gap: int, cuts: seq<nat>, merged: seq<Span>, k: nat, n: nat)
    requires k < |raw| && MergedRuns(raw[..k], gap, cuts, merged) && n <= |merged|
    ensures forall j :: 0 <= j < n ==> IsMerged(raw[..k + 1], gap, cuts[j], cuts[j + 1], merged[j])
  {
    forall j | 0 <= j < n ensures IsMerged(raw[..k + 1], gap, cuts[j], cuts[j + 1], merged[j]) {
      assert IsMerged(raw[..k], gap, cuts[j], cuts[j + 1], merged[j]);
    }
  }

  // ----- filtering and padding

  /** Non-empty, in order, apart, inside [0, total]. */
  predicate Separate(spans: seq<Span>, total: int) {
    && (forall k :: 0 <= k < |spans| ==> 0 <= spans[k].start < spans[k].end <= total)
    && (forall j, k :: 0 <= j < k < |spans| ==> spans[j].end < spans[k].start)
  }

  method KeepLong(merged: seq<Span>, minSpeechMs: int, ghost total: int) returns (kept: seq<Span>)
    requires Separate(merged, total)
    ensures Separate(kept, total)
    ensures forall s :: s in kept <==> s in merged && s.end - s.start >= minSpeechMs
  {
    kept := [];
    for k := 0 to |merged|
      invariant Separate(kept, total)
      invariant forall s :: s in kept <==> s in merged[..k] && s.end - s.start >= minSpeechMs
      invariant forall j :: 0 <= j < |kept| && k < |merged| ==> kept[j].end < merged[k].start
    {
      assert merged[..k + 1] == merged[..k] + [merged[k]];
      if merged[k].end - merged[k].start >= minSpeechMs { kept := kept + [merged[k]]; }
    }
    assert merged[..|merged|] == merged;
  }

  /** Within the padding of a kept run and inside the audio. */
  ghost predicate NearKept(kept: seq<Span>, pad: nat, total: int, t: int) {
    0 <= t < total && exists k :: 0 <= k < |kept| && kept[k].start - pad <= t < kept[k].end + pad
  }

  ghost predicate Covers(spans: seq<Span>, t: int) {
    exists k :: 0 <= k < |spans| && spans[k].start <= t < spans[k].end
  }

  /** The padded regions: separate, and covering exactly what is near a kept run. */
  ghost predicate PaddedRegions(kept: seq<Span>, pad: nat, total: int, padded: seq<Span>) {
    && Separate(padded, total)
    && (forall t :: Covers(padded, t) <==> NearKept(kept, pad, total, t))
    && (kept == [] <==> padded == [])
    && (kept != [] ==>
          && padded[|padded| - 1].start <= Max(0, kept[|kept| - 1].start - pad)
          && padded[|padded| - 1].end == Min(total, kept[|kept| - 1].end + pad))
  }

  /** The regions once the next run's padding is added. */
  function PadOne(s: Span, pad: nat, total: int, padded: seq<Span>): seq<Span> {
    var start, end := Max(0, s.start - pad), Min(total, s.end + pad);
    if padded != [] && start <= padded[|padded| - 1].end
    then padded[|padded| - 1 := Span(padded[|padded| - 1].start, end)]
    else padded + [Span(start, end)]
  }

  lemma NearOneMore(kept: seq<Span>, s: Span, pad: nat, total: int, t: int)
    ensures NearKept(kept + [s], pad, total, t) <==>
            NearKept(kept, pad, total, t) || (0 <= t < total && s.start - pad <= t < s.end + pad)
  {
    var more := kept + [s];
    assert more[|kept|] == s;
    if NearKept(kept, pad, total, t) {
      var k :| 0 <= k < |kept| && kept[k].start - pad <= t < kept[k].end + pad;
      assert more[k] == kept[k];
    }
  }

  lemma CoversOneMore(padded: seq<Span>, start: int, end: int, t: int)
    requires padded != [] && padded[|padded| - 1].start <= start <= padded[|padded| - 1].end <= end
    ensures Covers(padded[|padded| - 1 := Span(padded[|padded| - 1].start, end)], t)
       <==> Covers(padded, t) || start <= t < end
  {
    var n := |padded|;
    var joined := padded[n - 1 := Span(padded[n - 1].start, end)];
    if Covers(padded, t) {
      var k :| 0 <= k < n && padded[k].start <= t < padded[k].end;
      assert joined[k].start <= t < joined[k].end;
    }
    if start <= t < end { assert joined[n - 1].start <= t < joined[n - 1].end; }
    if Covers(joined, t) {
      var k :| 0 <= k < n && joined[k].start <= t < joined[k].end;
      assert k < n - 1 ==> padded[k] == joined[k];
    }
  }

  lemma CoversAppended(padded: seq<Span>, s: Span, t: int)
    ensures Covers(padded + [s], t) <==> Covers(padded, t) || s.start <= t < s.end
  {
    var more := padded + [s];
    assert more[|padded|] == s;
    if Covers(padded, t) {
      var k :| 0 <= k < |padded| && padded[k].start <= t < padded[k].end;
      assert more[k] == padded[k];
    }
  }

  lemma PadOneSeparate(kept: seq<Span>, s: Span, pad: nat, total: int, padded: seq<Span>)
    requires Separate(kept + [s], total) && PaddedRegions(kept, pad, total, padded)
    ensures Separate(PadOne(s, pad, total, padded), total) && PadOne(s, pad, total, padded) != []
    ensures var last := PadOne(s, pad, total, padded)[|PadOne(s, pad, total, padded)| - 1];
      last.start <= Max(0, s.start - pad) && last.end == Min(total, s.end + pad)
    ensures padded != [] ==> padded[|padded| - 1].start <= Max(0, s.start - pad)
    ensures padded != [] ==> padded[|padded| - 1].end <= Min(total, s.end + pad)
  {
    hide Covers, NearKept;
    assert (kept + [s])[|kept|] == s;
    if kept != [] { assert (kept + [s])[|kept| - 1] == kept[|kept| - 1]; }
  }

  lemma PadNext(kept: seq<Span>, s: Span, pad: nat, total: int, padded: seq<Span>)
    requires Separate(kept + [s], total) && PaddedRegions(kept, pad, total, padded)
    ensures PaddedRegions(kept + [s], pad, total, PadOne(s, pad, total, padded))
  {
    var start, end := Max(0, s.start - pad), Min(total, s.end + pad);
    PadOneSeparate(kept, s, pad, total, padded);
    assert (kept + [s])[|kept|] == s;
    forall t ensures Covers(PadOne(s, pad, total, padded), t) <==> NearKept(kept + [s], pad, total, t) {
      NearOneMore(kept, s, pad, total, t);
      hide Covers, NearKept;
      CoversAppended(padded, Span(start, end), t);
      if padded != [] && start <= padded[|padded| - 1].end { CoversOneMore(padded, start, end, t); }
    }
    hide Covers, NearKept;
  }

  /** Run by run, from the first. */
  function PadAll(kept: seq<Span>, pad: nat, total: int): seq<Span> {
    if kept == [] then [] else PadOne(kept[|kept| - 1], pad, total, PadAll(kept[..|kept| - 1], pad, total))
  }

  lemma {:induction false} PaddingSeparates(kept: seq<Span>, pad: nat, total: int)
    requires Separate(kept, total)
    ensures PaddedRegions(kept, pad, total, PadAll(kept, pad, total))
  {
    hide PaddedRegions, PadOne;
    if kept == [] {
      NothingPadded(pad, total);
    } else {
      var before, last := kept[..|kept| - 1], kept[|kept| - 1];
      assert kept == before + [last];
      PaddingSeparates(before, pad, total);
      PadNext(before, last, pad, total, PadAll(before, pad, total));
    }
  }

  method Pad(kept: seq<Span>, pad: nat, total: int) returns (padded: seq<Span>)
    ensures padded == PadAll(kept, pad, total)
    ensures Separate(kept, total) ==> PaddedRegions(kept, pad, total, padded)
  {
    hide PaddedRegions, Separate;
    padded := [];
    for k := 0 to |kept|
      invariant padded == PadAll(kept[..k], pad, total)
    {
      assert kept[..k + 1][..k] == kept[..k];
      var start, end := Max(0, kept[k].start - pad), Min(total, kept[k].end + pad);
      if padded != [] && start <= padded[|padded| - 1].end {
        padded := padded[|padded| - 1 := Span(padded[|padded| - 1].start, end)];
      } else {
        padded := padded + [Span(start, end)];
      }
    }
    assert kept[..|kept|] == kept;
    if Separate(kept, total) { PaddingSeparates(kept, pad, total); }
  }

  lemma NothingPadded(pad: nat, total: int)
    ensures PaddedRegions([], pad, total, [])
  {
  }

  // ----- cutting

  function WindowStart(at: int, s: Settings): int requires s.frameMs > 0 { (at + s.maxSpanMs * 3 / 4) / s.frameMs }

  function WindowEnd(at: int, n: nat, s: Settings): int requires s.frameMs > 0 {
    Min((at + s.maxSpanMs) / s.frameMs, n)
  }

  /** The first frame with the least score in the last quarter of the window; the hard cap
      when the window lies past the scored audio. */
  ghost predicate IsCut(at: int, cut: int, scores: seq<real>, s: Settings)
    requires s.frameMs > 0
  {
    var lo, hi := WindowStart(at, s), WindowEnd(at, |scores|, s);
    if lo >= hi then cut == at + s.maxSpanMs
    else exists f :: LeastFrame(scores, lo, hi, f) && cut == f * s.frameMs
  }

  ghost predicate LeastFrame(scores: seq<real>, lo: int, hi: int, f: int) {
    && 0 <= lo <= f < hi <= |scores|
    && (forall g :: lo <= g < hi ==> scores[f] <= scores[g])
    && (forall g :: lo <= g < f ==> scores[f] < scores[g])
  }

  /** A window that holds a frame starts at one; with a negative cap there is none. */
  lemma WindowInRange(at: int, n: nat, s: Settings)
    requires s.frameMs > 0 && (0 <= at || s.maxSpanMs <= 0) && WindowStart(at, s) < WindowEnd(at, n, s)
    ensures 0 <= WindowStart(at, s) && WindowEnd(at, n, s) <= n && 0 < s.maxSpanMs
  {
    if s.maxSpanMs <= 0 {
      QuotientMonotone(at + s.maxSpanMs, at + s.maxSpanMs * 3 / 4, s.frameMs);
      assert false;
    } else {
      QuotientSign(at + s.maxSpanMs * 3 / 4, s.frameMs);
    }
  }

  lemma FirstIsLeast(scores: seq<real>, lo: int)
    requires 0 <= lo < |scores|
    ensures LeastFrame(scores, lo, lo + 1, lo)
  {
  }

  lemma LeastNext(scores: seq<real>, lo: int, f: int, quietest: int)
    requires LeastFrame(scores, lo, f, quietest) && f < |scores|
    ensures 0 <= quietest < |scores|
    ensures LeastFrame(scores, lo, f + 1, if scores[f] < scores[quietest] then f else quietest)
  {
  }

  /** A scored frame that ends past three quarters of the cap from `at` on, and not past the cap. */
  predicate InWindow(at: int, n: nat, s: Settings, f: int) {
    && 0 <= f < n
    && 4 * (f * s.frameMs + s.frameMs - at) > 3 * s.maxSpanMs && f * s.frameMs + s.frameMs - at <= s.maxSpanMs
  }

  lemma WindowMeans(at: int, n: nat, s: Settings, f: int)
    requires s.frameMs > 0 && (0 <= at || s.maxSpanMs <= 0)
    ensures InWindow(at, n, s, f) <==> WindowStart(at, s) <= f < WindowEnd(at, n, s)
  {
    MultiplesAround(at + s.maxSpanMs * 3 / 4, s.frameMs, f);
    MultiplesAround(at + s.maxSpanMs, s.frameMs, f);
    if WindowStart(at, s) < WindowEnd(at, n, s) { WindowInRange(at, n, s); }
  }

  /** The cut is at the start of the first of the least scored frames in the window; with no frame in the
      window it is the cap. */
  ghost predicate CutsAtQuietest(at: int, cut: int, scores: seq<real>, s: Settings) {
    if exists f :: InWindow(at, |scores|, s, f) then
      exists f :: InWindow(at, |scores|, s, f) && cut == f * s.frameMs && forall g :: InWindow(at, |scores|, s, g) ==>
        scores[f] < scores[g] || (scores[f] == scores[g] && f <= g)
    else cut == at + s.maxSpanMs
  }

  lemma CutMeans(at: int, cut: int, scores: seq<real>, s: Settings)
    requires s.frameMs > 0 && (0 <= at || s.maxSpanMs <= 0) && IsCut(at, cut, scores, s)
    ensures CutsAtQuietest(at, cut, scores, s)
  {
    var lo, hi := WindowStart(at, s), WindowEnd(at, |scores|, s);
    forall f ensures InWindow(at, |scores|, s, f) <==> lo <= f < hi { WindowMeans(at, |scores|, s, f); }
    hide InWindow, WindowStart, WindowEnd;
    if lo < hi {
      var f :| LeastFrame(scores, lo, hi, f) && cut == f * s.frameMs;
      assert InWindow(at, |scores|, s, f);
      forall g | InWindow(at, |scores|, s, g)
        ensures scores[f] < scores[g] || (scores[f] == scores[g] && f <= g)
      {
      }
    }
  }

  method QuietestCut(at: int, scores: seq<real>, s: Settings) returns (cut: int)
    requires s.frameMs > 0 && (0 <= at || s.maxSpanMs <= 0)
    ensures IsCut(at, cut, scores, s) && CutsAtQuietest(at, cut, scores, s)
  {
    cut := LeastInWindow(at, scores, s);
    CutMeans(at, cut, scores, s);
  }

  method LeastInWindow(at: int, scores: seq<real>, s: Settings) returns (cut: int)
    requires s.frameMs > 0 && (0 <= at || s.maxSpanMs <= 0)
    ensures IsCut(at, cut, scores, s)
  {
    hide LeastFrame, WindowStart, WindowEnd;
    var lo, hi := WindowStart(at, s), WindowEnd(at, |scores|, s);
    if lo >= hi { return at + s.maxSpanMs; }
    WindowInRange(at, |scores|, s);
    FirstIsLeast(scores, lo);
    var quietest := lo;
    for f := lo + 1 to hi
      invariant LeastFrame(scores, lo, f, quietest)
    {
      LeastNext(scores, lo, f, quietest);
      if scores[f] < scores[quietest] { quietest := f; }
    }
    cut := quietest * s.frameMs;
  }

  /** A cut makes progress and stays within the cap. */
  lemma CutAdvances(at: int, cut: int, scores: seq<real>, s: Settings)
    requires 0 <= at && s.Progresses() && IsCut(at, cut, scores, s)
    ensures at < cut <= at + s.maxSpanMs
  {
    var lo, hi := WindowStart(at, s), WindowEnd(at, |scores|, s);
    if lo < hi {
      var f :| LeastFrame(scores, lo, hi, f) && cut == f * s.frameMs;
      MultiplesAround(at + s.maxSpanMs * 3 / 4, s.frameMs, f);
      MultiplesAround(at + s.maxSpanMs, s.frameMs, f);
    }
  }

  /** The pieces of one region: they tile it, and every inner boundary is a cut. */
  ghost predicate CutUp(pieces: seq<Span>, region: Span, scores: seq<real>, s: Settings)
    requires s.frameMs > 0
  {
    && pieces != [] && pieces[0].start == region.start && pieces[|pieces| - 1].end == region.end
    && (forall k :: 0 <= k < |pieces| ==> pieces[k].start < pieces[k].end <= pieces[k].start + s.maxSpanMs)
    && (forall k :: 0 <= k < |pieces| - 1 ==>
          pieces[k].end == pieces[k + 1].start && IsCut(pieces[k].start, pieces[k].end, scores, s))
  }

  /** A region that ends before it starts, past the end of the audio, is passed on as it is. */
  ghost predicate CutOrWhole(pieces: seq<Span>, region: Span, scores: seq<real>, s: Settings)
    requires s.frameMs > 0
  {
    if region.start < region.end then CutUp(pieces, region, scores, s) else pieces == [region]
  }

  /** The splitting loop, from `at` on, stops within n cuts. */
  ghost predicate Halts(at: int, end: int, scores: seq<real>, s: Settings, n: nat)
    requires s.frameMs > 0
    decreases n
  {
    || end - at <= s.maxSpanMs
    || (n > 0 && forall cut :: IsCut(at, cut, scores, s) ==> Halts(cut, end, scores, s, n - 1))
  }

  ghost predicate Stops(at: int, end: int, scores: seq<real>, s: Settings)
    requires s.frameMs > 0
  {
    exists n: nat :: Halts(at, end, scores, s, n)
  }

  /** The course of the loop: each piece begins where the one before was cut, and it goes on exactly
      while more than the cap is left. */
  ghost predicate CutAlong(pieces: seq<Span>, region: Span, scores: seq<real>, s: Settings)
    requires s.frameMs > 0
  {
    && pieces != [] && pieces[0].start == region.start && pieces[|pieces| - 1].end == region.end
    && (forall k :: 0 <= k < |pieces| - 1 ==>
          && region.end - pieces[k].start > s.maxSpanMs
          && pieces[k].end == pieces[k + 1].start && IsCut(pieces[k].start, pieces[k].end, scores, s))
    && region.end - pieces[|pieces| - 1].start <= s.maxSpanMs
  }

  lemma CutStays(at: int, cut: int, scores: seq<real>, s: Settings)
    requires s.frameMs > 0 && (0 <= at || s.maxSpanMs <= 0) && IsCut(at, cut, scores, s)
    ensures 0 <= cut || s.maxSpanMs <= 0
  {
    var lo, hi := WindowStart(at, s), WindowEnd(at, |scores|, s);
    if lo < hi {
      var f :| LeastFrame(scores, lo, hi, f) && cut == f * s.frameMs;
      Multiply(0, f, s.frameMs);
    }
  }

  method CutRegion(region: Span, scores: seq<real>, s: Settings, ghost n: nat) returns (pieces: seq<Span>)
    requires s.frameMs > 0 && 0 <= region.start && Halts(region.start, region.end, scores, s, n)
    ensures CutAlong(pieces, region, scores, s)
  {
    hide IsCut;
    pieces := [];
    var at := region.start;
    ghost var left := n;
    while region.end - at > s.maxSpanMs
      invariant (0 <= at || s.maxSpanMs <= 0) && Halts(at, region.end, scores, s, left)
      invariant if pieces == [] then at == region.start
                else pieces[0].start == region.start && pieces[|pieces| - 1].end == at
      invariant forall k :: 0 <= k < |pieces| ==>
        region.end - pieces[k].start > s.maxSpanMs && IsCut(pieces[k].start, pieces[k].end, scores, s)
      invariant forall k :: 0 <= k < |pieces| - 1 ==> pieces[k].end == pieces[k + 1].start
      decreases left
    {
      var cut := QuietestCut(at, scores, s);
      CutStays(at, cut, scores, s);
      pieces := pieces + [Span(at, cut)];
      at, left := cut, left - 1;
    }
    pieces := pieces + [Span(at, region.end)];
  }

  /** Where every cut makes progress, the pieces tile the region within the cap. */
  lemma AlongIsCutUp(pieces: seq<Span>, region: Span, scores: seq<real>, s: Settings)
    requires s.Progresses() && 0 <= region.start && CutAlong(pieces, region, scores, s)
    ensures CutOrWhole(pieces, region, scores, s)
  {
    hide IsCut;
    forall k | 0 <= k < |pieces|
      ensures region.start <= pieces[k].start
      ensures k < |pieces| - 1 ==> pieces[k].start < pieces[k].end <= pieces[k].start + s.maxSpanMs
      ensures k > 0 ==> pieces[k].start < region.end
    {
      AlongAdvances(pieces, region, scores, s, k);
    }
  }

  lemma {:induction false} AlongAdvances(pieces: seq<Span>, region: Span, scores: seq<real>, s: Settings, k: nat)
    requires s.Progresses() && 0 <= region.start && CutAlong(pieces, region, scores, s) && k < |pieces|
    ensures region.start <= pieces[k].start && (k > 0 ==> pieces[k].start < region.end)
    ensures k < |pieces| - 1 ==> pieces[k].start < pieces[k].end <= pieces[k].start + s.maxSpanMs
  {
    hide IsCut;
    if k > 0 {
      AlongAdvances(pieces, region, scores, s, k - 1);
      assert pieces[k - 1].end == pieces[k - 1 + 1].start;
    }
    if k < |pieces| - 1 {
      assert pieces[k].end == pieces[k + 1].start;
      CutAdvances(pieces[k].start, pieces[k].end, scores, s);
    }
  }

  // ----- when the loop ends

  lemma {:induction false} LeastExists(scores: seq<real>, lo: int, hi: int) returns (f: int)
    requires 0 <= lo < hi <= |scores|
    ensures LeastFrame(scores, lo, hi, f)
    decreases hi - lo
  {
    if hi == lo + 1 {
      f := lo;
    } else {
      f := LeastExists(scores, lo, hi - 1);
      if scores[hi - 1] < scores[f] { f := hi - 1; }
    }
  }

  lemma LeastOnce(scores: seq<real>, lo: int, hi: int, f: int, g: int)
    requires LeastFrame(scores, lo, hi, f) && LeastFrame(scores, lo, hi, g)
    ensures f == g
  {
    assert scores[f] <= scores[g] && scores[g] <= scores[f];
  }

  lemma CutExists(at: int, scores: seq<real>, s: Settings) returns (cut: int)
    requires s.frameMs > 0 && (0 <= at || s.maxSpanMs <= 0)
    ensures IsCut(at, cut, scores, s) && forall other :: IsCut(at, other, scores, s) ==> other == cut
  {
    var lo, hi := WindowStart(at, s), WindowEnd(at, |scores|, s);
    hide WindowStart, WindowEnd, LeastFrame;
    if lo >= hi {
      cut := at + s.maxSpanMs;
    } else {
      WindowInRange(at, |scores|, s);
      var f := LeastExists(scores, lo, hi);
      cut := f * s.frameMs;
      forall other | IsCut(at, other, scores, s) ensures other == cut {
        var g :| LeastFrame(scores, lo, hi, g) && other == g * s.frameMs;
        LeastOnce(scores, lo, hi, f, g);
      }
    }
  }

  lemma OneCutMore(at: int, cut: int, end: int, scores: seq<real>, s: Settings, n: nat)
    requires s.frameMs > 0 && IsCut(at, cut, scores, s)
    requires forall other :: IsCut(at, other, scores, s) ==> other == cut
    requires Halts(cut, end, scores, s, n)
    ensures Halts(at, end, scores, s, n + 1)
  {
    hide IsCut;
  }

  /** From j caps past frame f the loop never comes back to a frame up to f. */
  lemma NeverBack(f: nat, j: nat, scores: seq<real>, s: Settings)
    requires s.Ends() && WindowStart(f * s.frameMs + j * s.maxSpanMs, s)
                         < WindowEnd(f * s.frameMs + j * s.maxSpanMs, |scores|, s)
    ensures WindowStart(f * s.frameMs + j * s.maxSpanMs, s) > f
  {
    var frame, cap := s.frameMs, s.maxSpanMs;
    var rest := j * cap;
    var lo, hi := (f * frame + rest + cap * 3 / 4) / frame, (f * frame + rest + cap) / frame;
    Multiply(0, j, cap);
    FloorPast(f, rest + cap * 3 / 4, frame);
    FloorPast(f, rest + cap, frame);
    if lo <= f {
      assert rest + cap * 3 / 4 < frame <= rest + cap;
      assert (j + 1) * cap == rest + cap;
      Quotient(frame - 1, cap, j);
    }
  }

  /** Whole frames on top of f. */
  lemma FloorPast(f: nat, x: int, frame: int)
    requires frame > 0 && x >= 0
    ensures (f * frame + x) / frame >= f
    ensures (f * frame + x) / frame > f <==> x >= frame
  {
    var q := (f * frame + x) / frame;
    assert q * frame <= f * frame + x < q * frame + frame;
    assert (q + 1) * frame == q * frame + frame && (f + 1) * frame == f * frame + frame;
    Cancel(f, q + 1, frame);
    if x >= frame { Cancel(f + 1, q + 1, frame); }
    if q > f { Multiply(f + 1, q, frame); }
  }

  lemma {:induction false} StopsPast(f: nat, j: nat, end: int, scores: seq<real>, s: Settings) returns (n: nat)
    requires s.Ends()
    ensures Halts(f * s.frameMs + j * s.maxSpanMs, end, scores, s, n)
    decreases end - f * s.frameMs, end - f * s.frameMs - j * s.maxSpanMs
  {
    var at := f * s.frameMs + j * s.maxSpanMs;
    Multiply(0, f, s.frameMs);
    Multiply(0, j, s.maxSpanMs);
    if end - at <= s.maxSpanMs {
      n := 0;
    } else {
      var cut := CutExists(at, scores, s);
      var more: nat;
      var lo, hi := WindowStart(at, s), WindowEnd(at, |scores|, s);
      if lo < hi {
        NeverBack(f, j, scores, s);
        var g :| LeastFrame(scores, lo, hi, g) && cut == g * s.frameMs;
        Multiply(f + 1, g, s.frameMs);
        assert (f + 1) * s.frameMs == f * s.frameMs + s.frameMs;
        more := StopsPast(g, 0, end, scores, s);
      } else {
        assert (j + 1) * s.maxSpanMs == j * s.maxSpanMs + s.maxSpanMs;
        more := StopsPast(f, j + 1, end, scores, s);
      }
      OneCutMore(at, cut, end, scores, s, more);
      n := more + 1;
    }
  }

  lemma {:induction false} StopsFrom(at: nat, end: int, scores: seq<real>, s: Settings) returns (n: nat)
    requires s.Ends()
    ensures Halts(at, end, scores, s, n)
    decreases end - at
  {
    if end - at <= s.maxSpanMs {
      n := 0;
    } else {
      var cut := CutExists(at, scores, s);
      var more: nat;
      var lo, hi := WindowStart(at, s), WindowEnd(at, |scores|, s);
      if lo < hi {
        var g :| LeastFrame(scores, lo, hi, g) && cut == g * s.frameMs;
        more := StopsPast(g, 0, end, scores, s);
      } else {
        more := StopsFrom(cut, end, scores, s);
      }
      OneCutMore(at, cut, end, scores, s, more);
      n := more + 1;
    }
  }

  /** Without a cap the loop stands still or runs backwards. */
  lemma {:induction false} RunsBack(at: int, s: Settings, n: nat)
    requires s.frameMs > 0 && s.maxSpanMs <= 0 && at <= 0
    ensures !Halts(at, 1, [], s, n)
    decreases n
  {
    if n > 0 {
      QuotientMonotone(at + s.maxSpanMs, at + s.maxSpanMs * 3 / 4, s.frameMs);
      assert IsCut(at, at + s.maxSpanMs, [], s);
      RunsBack(at + s.maxSpanMs, s, n - 1);
    }
  }

  /** A cap that reaches the first frame too early comes back to 0 for ever. */
  lemma {:induction false} RunsInCircles(j: nat, s: Settings, n: nat)
    requires s.frameMs > 0 && s.maxSpanMs > 0 && !s.Ends() && j <= (s.frameMs - 1) / s.maxSpanMs
    ensures !Halts(j * s.maxSpanMs, s.frameMs + 2 * s.maxSpanMs, [0.0], s, n)
    decreases n
  {
    var frame, cap, at := s.frameMs, s.maxSpanMs, j * s.maxSpanMs;
    var last := (frame - 1) / cap;
    Multiply(j, last, cap);
    Multiply(0, j, cap);
    if n > 0 {
      if j < last {
        Multiply(j + 1, last, cap);
        assert (j + 1) * cap == at + cap;
        Quotient(at + cap * 3 / 4, frame, 0);
        Quotient(at + cap, frame, 0);
        assert IsCut(at, (j + 1) * cap, [0.0], s);
        RunsInCircles(j + 1, s, n - 1);
      } else {
        Quotient(at + cap * 3 / 4, frame, 0);
        QuotientMonotone(frame, at + cap, frame);
        Quotient(frame, frame, 1);
        assert LeastFrame([0.0], 0, 1, 0) && 0 * frame == 0;
        assert IsCut(at, 0, [0.0], s);
        assert 0 * cap == 0;
        QuotientSign(frame - 1, cap);
        RunsInCircles(0, s, n - 1);
      }
    }
  }

  /** From every start to every end, whatever the scores. */
  ghost predicate AlwaysStops(s: Settings)
    requires s.frameMs > 0
  {
    forall at: nat, end: int, scores: seq<real> :: Stops(at, end, scores, s)
  }

  /** The splitting loop ends on every region and all scores exactly when the whole caps that fit
      below a frame and three quarters of one more are at least a frame. */
  lemma EndsExactlyWhen(s: Settings)
    requires s.frameMs > 0
    ensures AlwaysStops(s) <==> s.Ends()
  {
    hide Halts;
    if s.Ends() {
      forall at: nat, end: int, scores: seq<real> ensures Stops(at, end, scores, s) {
        var n := StopsFrom(at, end, scores, s);
      }
    } else if s.maxSpanMs <= 0 {
      forall n: nat ensures !Halts(0, 1, [], s, n) { RunsBack(0, s, n); }
      assert !Stops(0, 1, [], s);
    } else {
      QuotientSign(s.frameMs - 1, s.maxSpanMs);
      assert 0 * s.maxSpanMs == 0;
      var end := s.frameMs + 2 * s.maxSpanMs;
      forall n: nat ensures !Halts(0, end, [0.0], s, n) { RunsInCircles(0, s, n); }
      assert !Stops(0, end, [0.0], s);
    }
  }

  /** Progress at every cut is more than an end: 32 ms frames and a 20 ms cap go backwards from
      13 ms and end all the same. */
  lemma ProgressEnds(s: Settings)
    ensures s.Progresses() ==> s.Ends()
    ensures var t := Settings(100, 0.5, 0, 0, 0, 20, 32); t.Ends() && !t.Progresses()
  {
    if s.Progresses() {
      Quotient(s.frameMs - 1, s.maxSpanMs, 0);
      assert 0 * s.maxSpanMs == 0;
    }
    Quotient(31, 20, 1);
  }

  /** Every cut, from every start and for all scores, lies past where it started. */
  ghost predicate AlwaysAdvances(s: Settings)
    requires s.frameMs > 0
  {
    forall at: nat, cut: int, scores: seq<real> :: IsCut(at, cut, scores, s) ==> cut > at
  }

  /** A start from which the splitting loop does not advance: the last millisecond whose window
      still begins with frame 0. */
  function StuckStart(s: Settings): nat
    requires s.frameMs > 0 && !s.Progresses() && s.maxSpanMs >= 0
  {
    s.frameMs - s.maxSpanMs * 3 / 4 - 1
  }

  lemma StuckCut(s: Settings)
    requires s.frameMs > 0 && !s.Progresses() && s.maxSpanMs > 0
    ensures IsCut(StuckStart(s), 0, [0.0], s)
  {
    var at := StuckStart(s);
    Quotient(at + s.maxSpanMs * 3 / 4, s.frameMs, 0);
    QuotientMonotone(s.frameMs, at + s.maxSpanMs, s.frameMs);
    Quotient(s.frameMs, s.frameMs, 1);
    assert LeastFrame([0.0], 0, 1, 0);
    assert 0 * s.frameMs == 0;
  }

  /** The splitting loop makes progress from wherever it stands, whatever the scores, exactly
      when three quarters of the cap are at least one frame. */
  lemma ProgressExactlyWhen(s: Settings)
    requires s.frameMs > 0
    ensures AlwaysAdvances(s) <==> s.Progresses()
  {
    hide IsCut;
    if s.Progresses() {
      forall at: nat, cut: int, scores: seq<real> | IsCut(at, cut, scores, s) ensures cut > at {
        CutAdvances(at, cut, scores, s);
      }
    } else if s.maxSpanMs > 0 {
      StuckCut(s);
    } else {
      NoCap(s);
    }
  }

  lemma NoCap(s: Settings)
    requires s.frameMs > 0 && s.maxSpanMs <= 0
    ensures IsCut(0, s.maxSpanMs, [], s)
  {
    QuotientMonotone(s.maxSpanMs, s.maxSpanMs * 3 / 4, s.frameMs);
  }

  /** With 32 ms frames and a 20 ms cap every scored frame advances, but a padded start at 13 ms
      is cut at 0: the loop goes backwards and emits a span that ends before it starts. */
  lemma ShortCapGoesBack()
    ensures var s := Settings(100, 0.5, 0, 0, 0, 20, 32); IsCut(13, 0, [0.0], s) && !AlwaysAdvances(s)
  {
    var s := Settings(100, 0.5, 0, 0, 0, 20, 32);
    assert StuckStart(s) == 16;
    assert WindowStart(13, s) == 0 && WindowEnd(13, 1, s) == 1;
    assert LeastFrame([0.0], 0, 1, 0);
    assert IsCut(13, 0, [0.0], s);
  }

  // ----- the whole assembly

  /** Runs, merged runs, long enough runs and padded regions, stage by stage. */
  ghost predicate Staged(scores: seq<real>, s: Settings, w: Stages)
    requires s.frameMs > 0
  {
    && SpeechRuns(scores, s.threshold, s.frameMs, w.bounds, w.raw)
    && MergedRuns(w.raw, s.mergeGapMs, w.cuts, w.merged)
    && Separate(w.kept, |scores| * s.frameMs)
    && (forall x :: x in w.kept <==> x in w.merged && x.end - x.start >= s.minSpeechMs)
    && w.padded == PadAll(w.kept, s.padMs, s.totalMs)
  }

  /** And the pieces of the regions, all of them in order. */
  ghost predicate Assembled(scores: seq<real>, s: Settings, w: Stages, spans: seq<Span>)
    requires s.frameMs > 0
  {
    && Staged(scores, s, w)
    && |w.pieces| == |w.padded| && (forall k :: 0 <= k < |w.padded| ==> CutAlong(w.pieces[k], w.padded[k], scores, s))
    && spans == Flatten(w.pieces)
  }

  /** The splitting loop ends on each of the regions of these scores. */
  ghost predicate Finishes(scores: seq<real>, s: Settings)
    requires s.frameMs > 0
  {
    forall w, k :: Staged(scores, s, w) && 0 <= k < |w.padded| ==> Stops(w.padded[k].start, w.padded[k].end, scores, s)
  }

  /** The intermediate lists. */
  datatype Stages = Stages(
    bounds: seq<(nat, nat)>,
    raw: seq<Span>,
    cuts: seq<nat>,
    merged: seq<Span>,
    kept: seq<Span>,
    padded: seq<Span>,
    pieces: seq<seq<Span>>
  )

  lemma RunsAreSeparate(scores: seq<real>, s: Settings, bounds: seq<(nat, nat)>, raw: seq<Span>)
    requires s.frameMs > 0 && SpeechRuns(scores, s.threshold, s.frameMs, bounds, raw)
    ensures Separate(raw, |scores| * s.frameMs)
  {
    forall k | 0 <= k < |raw| ensures 0 <= raw[k].start < raw[k].end <= |scores| * s.frameMs {
      Multiply(bounds[k].0 + 1, bounds[k].1, s.frameMs);
      Multiply(bounds[k].1, |scores|, s.frameMs);
      Multiply(0, bounds[k].0, s.frameMs);
      assert (bounds[k].0 + 1) * s.frameMs == bounds[k].0 * s.frameMs + s.frameMs;
    }
    forall j, k | 0 <= j < k < |raw| ensures raw[j].end < raw[k].start {
      Multiply(bounds[j].1 + 1, bounds[k].0, s.frameMs);
      assert (bounds[j].1 + 1) * s.frameMs == bounds[j].1 * s.frameMs + s.frameMs;
    }
  }

  lemma {:induction false} CutsIncrease(raw: seq<Span>, gap: int, cuts: seq<nat>, merged: seq<Span>, j: nat, k: nat)
    requires MergedRuns(raw, gap, cuts, merged) && j <= k <= |merged|
    ensures cuts[j] <= cuts[k] <= |raw| && (j < k ==> cuts[j] < cuts[k])
  {
    if j < k {
      CutsIncrease(raw, gap, cuts, merged, j, k - 1);
      assert IsMerged(raw, gap, cuts[k - 1], cuts[k - 1 + 1], merged[k - 1]);
    }
  }

  lemma MergedAreSeparate(raw: seq<Span>, gap: int, cuts: seq<nat>, merged: seq<Span>, total: int)
    requires MergedRuns(raw, gap, cuts, merged) && Separate(raw, total)
    ensures Separate(merged, total)
  {
    forall k | 0 <= k < |merged| ensures 0 <= merged[k].start < merged[k].end <= total {
      assert IsMerged(raw, gap, cuts[k], cuts[k + 1], merged[k]);
      assert raw[cuts[k]].start < raw[cuts[k]].end <= raw[cuts[k + 1] - 1].end;
    }
    forall j, k | 0 <= j < k < |merged| ensures merged[j].end < merged[k].start {
      assert IsMerged(raw, gap, cuts[j], cuts[j + 1], merged[j]) && IsMerged(raw, gap, cuts[k], cuts[k + 1], merged[k]);
      CutsIncrease(raw, gap, cuts, merged, j + 1, k);
    }
  }

  lemma EndsFinishes(scores: seq<real>, s: Settings)
    requires s.Ends()
    ensures Finishes(scores, s)
  {
    hide Halts;
    forall w, k | Staged(scores, s, w) && 0 <= k < |w.padded|
      ensures Stops(w.padded[k].start, w.padded[k].end, scores, s)
    {
      hide Staged;
      RegionsStart(scores, s, w);
      var n := StopsFrom(w.padded[k].start, w.padded[k].end, scores, s);
    }
  }

  lemma RegionsStart(scores: seq<real>, s: Settings, w: Stages)
    requires s.frameMs > 0 && Staged(scores, s, w)
    ensures forall k :: 0 <= k < |w.padded| ==> 0 <= w.padded[k].start
    ensures InOrder(w.padded, s.totalMs)
  {
    hide SpeechRuns, MergedRuns, PadAll;
    PaddedShape(w.kept, s.padMs, s.totalMs, |scores| * s.frameMs);
  }

  /** `spans_from_scores`, wherever its splitting loop ends. */
  method SpansFromScores(scores: seq<real>, s: Settings) returns (spans: seq<Span>, ghost w: Stages)
    requires s.frameMs > 0 && Finishes(scores, s)
    ensures Assembled(scores, s, w, spans)
    ensures s.Fits(scores) ==> Bounded(spans, s)
  {
    hide SpeechRuns, MergedRuns, PaddedRegions, CutAlong, Bounded, Covers, PadAll, Finishes, Halts;
    var raw, merged, kept, padded;
    ghost var scored := |scores| * s.frameMs;
    raw := FindRuns(scores, s.threshold, s.frameMs);
    ghost var bounds :| SpeechRuns(scores, s.threshold, s.frameMs, bounds, raw);
    RunsAreSeparate(scores, s, bounds, raw);
    merged := MergeRuns(raw, s.mergeGapMs);
    ghost var cuts :| MergedRuns(raw, s.mergeGapMs, cuts, merged);
    MergedAreSeparate(raw, s.mergeGapMs, cuts, merged, scored);
    kept := KeepLong(merged, s.minSpeechMs, scored);
    padded := Pad(kept, s.padMs, s.totalMs);
    w := Stages(bounds, raw, cuts, merged, kept, padded, []);
    RegionsStart(scores, s, w);
    spans := [];
    ghost var pieces: seq<seq<Span>> := [];
    for k := 0 to |padded|
      invariant |pieces| == k && spans == Flatten(pieces)
      invariant forall j :: 0 <= j < k ==> CutAlong(pieces[j], padded[j], scores, s)
    {
      ghost var n := CutsNeeded(scores, s, w, k);
      var part := CutRegion(padded[k], scores, s, n);
      pieces := pieces + [part];
      assert pieces[..|pieces| - 1] == pieces[..k];
      spans := spans + part;
    }
    w := w.(pieces := pieces);
    if s.Fits(scores) { FittingIsBounded(scores, s, w, spans); }
  }

  lemma CutsNeeded(scores: seq<real>, s: Settings, w: Stages, k: nat) returns (n: nat)
    requires s.frameMs > 0 && Finishes(scores, s) && Staged(scores, s, w) && k < |w.padded|
    ensures Halts(w.padded[k].start, w.padded[k].end, scores, s, n)
  {
    hide Staged, Halts;
    assert Stops(w.padded[k].start, w.padded[k].end, scores, s);
    n :| Halts(w.padded[k].start, w.padded[k].end, scores, s, n);
  }

  /** However far the runs reach: regions start at or after 0, end by the total, in order, each
      one past the end of those before it. */
  ghost predicate InOrder(padded: seq<Span>, total: int) {
    && (forall k :: 0 <= k < |padded| ==> 0 <= padded[k].start && padded[k].end <= total)
    && (forall j, k :: 0 <= j < k < |padded| ==> padded[j].end <= padded[k].end && padded[j].end < padded[k].start)
  }

  lemma PadOneInOrder(x: Span, pad: nat, total: int, padded: seq<Span>)
    requires InOrder(padded, total)
    requires padded != [] ==> padded[|padded| - 1].end <= Min(total, x.end + pad)
    ensures InOrder(PadOne(x, pad, total, padded), total) && PadOne(x, pad, total, padded) != []
    ensures PadOne(x, pad, total, padded)[|PadOne(x, pad, total, padded)| - 1].end == Min(total, x.end + pad)
  {
  }

  /** Regions of runs in order. */
  lemma {:induction false} PaddedShape(kept: seq<Span>, pad: nat, total: int, scored: int)
    requires Separate(kept, scored)
    ensures InOrder(PadAll(kept, pad, total), total)
    ensures kept == [] <==> PadAll(kept, pad, total) == []
    ensures kept != [] ==>
      PadAll(kept, pad, total)[|PadAll(kept, pad, total)| - 1].end == Min(total, kept[|kept| - 1].end + pad)
  {
    hide PadOne, InOrder;
    if kept == [] {
      NothingInOrder(total);
    } else {
      var before := kept[..|kept| - 1];
      PaddedShape(before, pad, total, scored);
      PadOneInOrder(kept[|kept| - 1], pad, total, PadAll(before, pad, total));
    }
  }

  lemma NothingInOrder(total: int)
    ensures InOrder([], total)
  {
  }

  /** Scores inside the audio give regions that are not empty. */
  lemma FittingRegions(kept: seq<Span>, pad: nat, total: int, scored: int)
    requires Separate(kept, scored) && scored <= total
    ensures PaddedRegions(kept, pad, total, PadAll(kept, pad, total))
    ensures Separate(PadAll(kept, pad, total), total)
  {
    assert Separate(kept, total);
    PaddingSeparates(kept, pad, total);
  }

  lemma FittingIsBounded(scores: seq<real>, s: Settings, w: Stages, spans: seq<Span>)
    requires s.Fits(scores) && Assembled(scores, s, w, spans)
    ensures Bounded(spans, s)
  {
    hide SpeechRuns, MergedRuns, PaddedRegions, CutUp, CutOrWhole, Bounded, Covers, PadAll, Flatten;
    FittingRegions(w.kept, s.padMs, s.totalMs, |scores| * s.frameMs);
    ProperAreCut(scores, s, w, spans);
    FlattenBounded(scores, s, w.padded, w.pieces);
  }

  lemma ProperAreCut(scores: seq<real>, s: Settings, w: Stages, spans: seq<Span>)
    requires s.Progresses() && Assembled(scores, s, w, spans)
    requires forall k :: 0 <= k < |w.padded| ==> w.padded[k].start < w.padded[k].end
    ensures |w.pieces| == |w.padded| && forall k :: 0 <= k < |w.padded| ==> CutUp(w.pieces[k], w.padded[k], scores, s)
  {
    hide SpeechRuns, MergedRuns, CutUp, PadAll, Flatten, CutAlong;
    RegionsStart(scores, s, w);
    forall k | 0 <= k < |w.padded| ensures CutUp(w.pieces[k], w.padded[k], scores, s) {
      AlongIsCutUp(w.pieces[k], w.padded[k], scores, s);
    }
  }

  /** The spans are well formed exactly when no padded region is empty. */
  lemma BoundedByRegions(scores: seq<real>, s: Settings, w: Stages, spans: seq<Span>)
    requires s.Progresses() && Assembled(scores, s, w, spans)
    ensures Bounded(spans, s) <==> forall k :: 0 <= k < |w.padded| ==> w.padded[k].start < w.padded[k].end
  {
    hide SpeechRuns, MergedRuns, CutUp, CutAlong, Covers, PadAll, Flatten, Bounded, Staged;
    RegionsStart(scores, s, w);
    if forall k :: 0 <= k < |w.padded| ==> w.padded[k].start < w.padded[k].end {
      ProperAreCut(scores, s, w, spans);
      FlattenBounded(scores, s, w.padded, w.pieces);
    } else {
      var k: nat :| k < |w.padded| && w.padded[k].start >= w.padded[k].end;
      AlongIsCutUp(w.pieces[k], w.padded[k], scores, s);
      EmptyRegionShows(s, w.padded, w.pieces, k);
    }
  }

  lemma EmptyRegionShows(s: Settings, padded: seq<Span>, pieces: seq<seq<Span>>, k: nat)
    requires k < |padded| == |pieces| && padded[k].start >= padded[k].end && pieces[k] == [padded[k]]
    ensures !Bounded(Flatten(pieces), s)
  {
    FlattenMembers(pieces);
    assert pieces[k][0] == padded[k] && padded[k] in pieces[k];
    assert padded[k] in Flatten(pieces);
    var i :| 0 <= i < |Flatten(pieces)| && Flatten(pieces)[i] == padded[k];
  }

  // ----- scores past the end of the audio

  /** A merged run is a stretch of frames. */
  lemma MergedIsFrames(scores: seq<real>, s: Settings, w: Stages, k: nat) returns (a: nat, b: nat)
    requires SpeechRuns(scores, s.threshold, s.frameMs, w.bounds, w.raw)
    requires MergedRuns(w.raw, s.mergeGapMs, w.cuts, w.merged) && k < |w.merged|
    requires w.merged[k].start < w.merged[k].end && s.frameMs > 0
    ensures a < b <= |scores| && w.merged[k] == Span(a * s.frameMs, b * s.frameMs)
  {
    assert IsMerged(w.raw, s.mergeGapMs, w.cuts[k], w.cuts[k + 1], w.merged[k]);
    a, b := w.bounds[w.cuts[k]].0, w.bounds[w.cuts[k + 1] - 1].1;
    hide SpeechRuns, MergedRuns, IsMerged;
    Cancel(a, b, s.frameMs);
  }

  /** Frames that last long enough are at least the fewest. */
  lemma FewestFits(a: nat, b: nat, s: Settings)
    requires a < b && s.frameMs > 0 && b * s.frameMs - a * s.frameMs >= s.minSpeechMs
    ensures b - a >= s.FewestFrames()
  {
    var frame, m := s.frameMs, b - a;
    var q := (s.minSpeechMs + frame - 1) / frame;
    assert m * frame == b * frame - a * frame;
    assert q * frame <= s.minSpeechMs + frame - 1;
    assert (m + 1) * frame == m * frame + frame;
    Cancel(q, m + 1, frame);
  }

  /** A kept run is a stretch of frames, of at least the fewest. */
  lemma KeptIsFrames(scores: seq<real>, s: Settings, w: Stages, x: Span) returns (a: nat, b: nat)
    requires s.frameMs > 0 && Staged(scores, s, w) && x in w.kept
    ensures a < b <= |scores| && x == Span(a * s.frameMs, b * s.frameMs) && b - a >= s.FewestFrames()
  {
    assert x.start < x.end by { assert Separate(w.kept, |scores| * s.frameMs); }
    hide PadAll, Separate, SpeechRuns, MergedRuns;
    var k :| 0 <= k < |w.merged| && w.merged[k] == x;
    a, b := MergedIsFrames(scores, s, w, k);
    FewestFits(a, b, s);
  }

  /** Runs that start inside the audio, the padding included, give regions that are not empty. */
  lemma {:induction false} RegionsNotEmpty(kept: seq<Span>, pad: nat, total: int, scored: int)
    requires Separate(kept, scored)
    requires forall k :: 0 <= k < |kept| ==> Max(0, kept[k].start - pad) < total
    ensures var padded := PadAll(kept, pad, total);
      forall k :: 0 <= k < |padded| ==> padded[k].start < padded[k].end
  {
    if kept != [] {
      var before := kept[..|kept| - 1];
      RegionsNotEmpty(before, pad, total, scored);
      PaddedShape(before, pad, total, scored);
      PaddedShape(kept, pad, total, scored);
      if before != [] { assert before[|before| - 1] == kept[|before| - 1]; }
    }
  }

  /** Silence, then speech to the end: one run of the last f frames. */
  function LateSpeech(n: nat, f: nat, s: Settings): (scores: seq<real>)
    requires f <= n
    ensures |scores| == n
  {
    seq(n, i => if i < n - f then s.threshold - 1.0 else s.threshold)
  }

  lemma LateRuns(n: nat, f: nat, s: Settings)
    requires 0 < f <= n && s.frameMs > 0
    ensures SpeechRuns(LateSpeech(n, f, s), s.threshold, s.frameMs, [(n - f, n)],
                       [Span((n - f) * s.frameMs, n * s.frameMs)])
  {
    var bounds: seq<(nat, nat)> := [(n - f, n)];
    forall i | 0 <= i < n && LateSpeech(n, f, s)[i] >= s.threshold ensures InRun(bounds, i) {
      assert bounds[0].0 <= i < bounds[0].1;
    }
  }

  lemma OneRun(x: Span, gap: int)
    ensures MergedRuns([x], gap, [0, 1], [x])
  {
    assert IsMerged([x], gap, 0, 1, x);
  }

  lemma OnePadded(x: Span, pad: nat, total: int)
    ensures PadAll([x], pad, total) == [Span(Max(0, x.start - pad), Min(total, x.end + pad))]
  {
    assert [x][..0] == [] && PadAll([], pad, total) == [];
  }

  lemma LateStages(n: nat, s: Settings) returns (w: Stages)
    requires s.frameMs > 0 && s.maxSpanMs >= 0 && s.FewestFrames() <= n && !s.HoldsFrames(n)
    ensures var start := (n - s.FewestFrames()) * s.frameMs;
      var region := Span(Max(0, start - s.padMs), Min(s.totalMs, n * s.frameMs + s.padMs));
      region.start >= region.end && Assembled(LateSpeech(n, s.FewestFrames(), s), s, w, [region])
  {
    hide SpeechRuns, MergedRuns, PadAll, LateSpeech, CutAlong;
    var f, frame := s.FewestFrames(), s.frameMs;
    var x := Span((n - f) * frame, n * frame);
    var region := Span(Max(0, x.start - s.padMs), Min(s.totalMs, x.end + s.padMs));
    Multiply(0, n - f, frame);
    Multiply(1, f, frame);
    assert n * frame == (n - f) * frame + f * frame;
    LongEnough(s);
    LateRuns(n, f, s);
    OneRun(x, s.mergeGapMs);
    OnePadded(x, s.padMs, s.totalMs);
    w := Stages([(n - f, n)], [x], [0, 1], [x], [x], [region], [[region]]);
    assert [[region]][..0] == [] && Flatten([[region]]) == [] + [region];
    WholeRegion(region, LateSpeech(n, f, s), s);
  }

  lemma WholeRegion(region: Span, scores: seq<real>, s: Settings)
    requires s.frameMs > 0 && region.end - region.start <= s.maxSpanMs
    ensures CutAlong([region], region, scores, s)
  {
    hide IsCut;
  }

  lemma LongEnough(s: Settings)
    requires s.frameMs > 0
    ensures s.FewestFrames() * s.frameMs >= s.minSpeechMs
  {
    var q := (s.minSpeechMs + s.frameMs - 1) / s.frameMs;
    assert s.minSpeechMs + s.frameMs - 1 < q * s.frameMs + s.frameMs;
    Multiply(q, s.FewestFrames(), s.frameMs);
  }

  ghost predicate AlwaysBounded(n: nat, s: Settings)
    requires s.frameMs > 0
  {
    forall scores, w, spans :: |scores| == n && Assembled(scores, s, w, spans) ==> Bounded(spans, s)
  }

  /** For n scores, whatever they are, the spans are non-empty, ordered, inside the audio and within
      the cap exactly when no run of the least length that fits in n frames can start past the end
      of the audio, the padding included. */
  lemma BoundedExactlyWhen(n: nat, s: Settings)
    requires s.Progresses()
    ensures AlwaysBounded(n, s) <==> s.HoldsFrames(n)
  {
    hide Staged, CutAlong, Bounded, PadAll, Flatten;
    if s.HoldsFrames(n) {
      forall scores, w, spans | |scores| == n && Assembled(scores, s, w, spans) ensures Bounded(spans, s) {
        HeldIsBounded(scores, s, w, spans);
      }
    } else {
      var w := LateStages(n, s);
      var start := (n - s.FewestFrames()) * s.frameMs;
      var region := Span(Max(0, start - s.padMs), Min(s.totalMs, n * s.frameMs + s.padMs));
      assert Assembled(LateSpeech(n, s.FewestFrames(), s), s, w, [region]);
      BackwardsIsNot(region, s);
    }
  }

  lemma BackwardsIsNot(region: Span, s: Settings)
    requires region.start >= region.end
    ensures !Bounded([region], s)
  {
    assert [region][0] == region;
  }

  lemma HeldIsBounded(scores: seq<real>, s: Settings, w: Stages, spans: seq<Span>)
    requires s.Progresses() && s.HoldsFrames(|scores|) && Assembled(scores, s, w, spans)
    ensures Bounded(spans, s)
  {
    hide CutAlong, Bounded, PadAll, Flatten, SpeechRuns, MergedRuns;
    forall k | 0 <= k < |w.kept| ensures Max(0, w.kept[k].start - s.padMs) < s.totalMs {
      var a, b := KeptIsFrames(scores, s, w, w.kept[k]);
      Multiply(a, |scores| - s.FewestFrames(), s.frameMs);
    }
    RegionsNotEmpty(w.kept, s.padMs, s.totalMs, |scores| * s.frameMs);
    assert w.padded == PadAll(w.kept, s.padMs, s.totalMs);
    assert forall k :: 0 <= k < |w.padded| ==> w.padded[k].start < w.padded[k].end;
    BoundedByRegions(scores, s, w, spans);
  }

  /** Two frames scored of 10 ms of audio, the second one speech: the one span runs from 32 to 10. */
  lemma ScoresPastTheEnd() returns (w: Stages)
    ensures var s := Settings(10, 0.5, 0, 0, 0, 100, 32);
      s.Progresses() && Assembled([-0.5, 0.5], s, w, [Span(32, 10)]) && !Bounded([Span(32, 10)], s)
  {
    var s := Settings(10, 0.5, 0, 0, 0, 100, 32);
    assert s.FewestFrames() == 1;
    w := LateStages(2, s);
    assert LateSpeech(2, 1, s) == [-0.5, 0.5];
    assert Span(Max(0, (2 - 1) * 32 - 0), Min(10, 2 * 32 + 0)) == Span(32, 10);
    hide Staged, CutAlong, Flatten;
    BackwardsIsNot(Span(32, 10), s);
  }

  // ----- what that means for the caller

  /** Pieces of one region lie inside it and cover it. */
  lemma {:induction false} PiecesInside(pieces: seq<Span>, region: Span, scores: seq<real>, s: Settings, k: nat)
    requires s.frameMs > 0 && CutUp(pieces, region, scores, s) && k < |pieces|
    ensures region.start <= pieces[k].start && (k + 1 < |pieces| ==> pieces[k].end < region.end)
    ensures forall j :: 0 <= j < k ==> pieces[j].end <= pieces[k].start
    ensures forall t :: region.start <= t < pieces[k].end ==> Covers(pieces, t)
  {
    PiecesBefore(pieces, region, scores, s, k);
    if k > 0 {
      PiecesInside(pieces, region, scores, s, k - 1);
      assert pieces[k - 1].end == pieces[k - 1 + 1].start;
    }
  }

  lemma {:induction false} PiecesBefore(pieces: seq<Span>, region: Span, scores: seq<real>, s: Settings, k: nat)
    requires s.frameMs > 0 && CutUp(pieces, region, scores, s) && k < |pieces|
    ensures pieces[k].end <= region.end && (k + 1 < |pieces| ==> pieces[k].end < region.end)
    decreases |pieces| - k
  {
    if k + 1 < |pieces| {
      PiecesBefore(pieces, region, scores, s, k + 1);
    }
  }

  /** Strictly ordered, non-empty, inside [0, total], at most the cap. */
  predicate Bounded(spans: seq<Span>, s: Settings) {
    && (forall k :: 0 <= k < |spans| ==> 0 <= spans[k].start < spans[k].end <= s.totalMs)
    && (forall k :: 0 <= k < |spans| ==> spans[k].end - spans[k].start <= s.maxSpanMs)
    && (forall j, k :: 0 <= j < k < |spans| ==> spans[j].end <= spans[k].start)
  }

  /** The pieces of a region, as a list: ordered, inside it, covering it. */
  lemma PartIsRegion(part: seq<Span>, region: Span, scores: seq<real>, s: Settings)
    requires s.frameMs > 0 && CutUp(part, region, scores, s) && 0 <= region.start && region.end <= s.totalMs
    ensures Bounded(part, s)
    ensures forall x :: x in part ==> region.start <= x.start && x.end <= region.end
    ensures forall t :: Covers(part, t) <==> region.start <= t < region.end
  {
    hide IsCut;
    forall k | 0 <= k < |part|
      ensures region.start <= part[k].start && part[k].end <= region.end
      ensures forall j :: 0 <= j < k ==> part[j].end <= part[k].start
    {
      PiecesInside(part, region, scores, s, k);
      PiecesBefore(part, region, scores, s, k);
    }
    PiecesInside(part, region, scores, s, |part| - 1);
  }

  lemma BoundedConcat(before: seq<Span>, part: seq<Span>, s: Settings, at: int)
    requires Bounded(before, s) && Bounded(part, s)
    requires forall x :: x in before ==> x.end <= at
    requires forall x :: x in part ==> at <= x.start
    ensures Bounded(before + part, s)
  {
    forall j | 0 <= j < |before| ensures before[j] in before {}
    forall k | 0 <= k < |part| ensures part[k] in part {}
  }

  lemma {:induction false} FlattenBounded(scores: seq<real>, s: Settings, padded: seq<Span>, pieces: seq<seq<Span>>)
    requires s.frameMs > 0 && Separate(padded, s.totalMs) && |pieces| == |padded|
    requires forall k :: 0 <= k < |padded| ==> CutUp(pieces[k], padded[k], scores, s)
    ensures Bounded(Flatten(pieces), s)
    ensures padded != [] ==> forall x :: x in Flatten(pieces) ==> x.end <= padded[|padded| - 1].end
    ensures forall t :: Covers(Flatten(pieces), t) <==> Covers(padded, t)
  {
    hide CutUp, Covers, Bounded;
    if pieces == [] {
      NothingCovered(s);
    } else {
      var n := |pieces| - 1;
      FlattenBounded(scores, s, padded[..n], pieces[..n]);
      var before, part, region := Flatten(pieces[..n]), pieces[n], padded[n];
      PartIsRegion(part, region, scores, s);
      if n > 0 { assert padded[..n][n - 1] == padded[n - 1]; }
      assert n == 0 ==> before == [];
      BoundedConcat(before, part, s, region.start);
      assert padded == padded[..n] + [region];
      forall t ensures Covers(Flatten(pieces), t) <==> Covers(padded, t) {
        RegionsCover(before, part, padded[..n], region, t);
      }
    }
  }

  lemma NothingCovered(s: Settings)
    ensures Bounded([], s) && forall t :: !Covers([], t)
  {
  }

  lemma RegionsCover(before: seq<Span>, part: seq<Span>, regions: seq<Span>, region: Span, t: int)
    requires Covers(before, t) <==> Covers(regions, t)
    requires Covers(part, t) <==> region.start <= t < region.end
    ensures Covers(before + part, t) <==> Covers(regions + [region], t)
  {
    CoversAppended(regions, region, t);
    CoversConcat(before, part, t);
  }

  lemma CoversConcat(a: seq<Span>, b: seq<Span>, t: int)
    ensures Covers(a + b, t) <==> Covers(a, t) || Covers(b, t)
  {
    var c := a + b;
    if Covers(a, t) {
      var k :| 0 <= k < |a| && a[k].start <= t < a[k].end;
      assert c[k] == a[k];
    }
    if Covers(b, t) {
      var k :| 0 <= k < |b| && b[k].start <= t < b[k].end;
      assert c[|a| + k] == b[k];
    }
  }

  /** The spans are non-empty, ordered, disjoint, inside the audio and within the cap, and
      they cover exactly the milliseconds within the padding of a kept run. */
  lemma SpansMeetContract(scores: seq<real>, s: Settings, w: Stages, spans: seq<Span>)
    requires s.Fits(scores) && Assembled(scores, s, w, spans)
    ensures Bounded(spans, s)
    ensures forall t :: Covers(spans, t) <==> NearKept(w.kept, s.padMs, s.totalMs, t)
    ensures forall t :: Covers(w.kept, t) ==> Covers(spans, t)
  {
    hide SpeechRuns, MergedRuns, CutUp, CutOrWhole, Bounded, PadAll, Flatten;
    FittingRegions(w.kept, s.padMs, s.totalMs, |scores| * s.frameMs);
    ProperAreCut(scores, s, w, spans);
    FlattenBounded(scores, s, w.padded, w.pieces);
    forall t | Covers(w.kept, t) ensures NearKept(w.kept, s.padMs, s.totalMs, t) {}
  }
}
