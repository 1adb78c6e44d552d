/** Pooling of audio frames into stored segments (api/stream_pool.py, and the sequence rule
    of `_ingest_v2_frame`, api/routes/stream.py:674-684). One connection's pump, the latency
    timer and the store tasks interleave at the awaits; each step below runs between two. */
module PcmPooling {
  import opened Arithmetic
  import opened WavFile

  datatype Frame = Frame(sequence: int, pcm: seq<byte>)

  /** One pool snapshot on its way to storage. */
  datatype Flush = Flush(pcm: seq<byte>, frames: seq<(int, nat)>)

  type Positive = n: nat | n > 0 witness 1

  /** Flush target and memory cap of the pool; bytes of one sample of all channels, and the
      largest frame a client may send. */
  datatype Settings = Settings(targetBytes: nat, capBytes: nat, sampleWidth: Positive, maxFrameBytes: nat)

  /** Whole samples, at least one. */
  predicate WholeSamples(f: Frame, s: Settings) {
    f.pcm != [] && |f.pcm| % s.sampleWidth == 0
  }

  predicate Acceptable(f: Frame, s: Settings) {
    WholeSamples(f, s) && |f.pcm| <= s.maxFrameBytes
  }

  /** What the connection has done so far: frames accepted, flushes submitted in order and
      the ones whose store finished. */
  datatype Pool = Pool(
    buffer: seq<byte>,
    frames: seq<(int, nat)>,
    pending: nat,
    timer: bool,
    highest: int,
    adding: bool,
    flushes: seq<Flush>,
    finished: set<nat>,
    accepted: seq<Frame>
  )

  // ----- the steps

  /** Snapshot, clear, count as pending; the await on a store slot follows. */
  function Submit(p: Pool): Pool {
    p.(buffer := [], frames := [], timer := false, pending := p.pending + |p.buffer|,
       flushes := p.flushes + [Flush(p.buffer, p.frames)])
  }

  /** `add` up to its first await. */
  function Add(p: Pool, f: Frame, s: Settings): Pool {
    var q := p.(highest := f.sequence, frames := p.frames + [(f.sequence, |f.pcm|)], buffer := p.buffer + f.pcm,
                accepted := p.accepted + [f], adding := true);
    if |q.buffer| >= s.targetBytes then Submit(q) else q.(timer := true)
  }

  /** What adding does to the pool: the frame joins the buffer, and once that has the target's size all
      of it becomes a flush, counted as pending, and the timer is off; before that the timer is armed. */
  predicate Added(f: Frame, p: Pool, q: Pool, s: Settings) {
    var buffer, frames := p.buffer + f.pcm, p.frames + [(f.sequence, |f.pcm|)];
    && q.finished == p.finished
    && if |buffer| >= s.targetBytes then
         && q.buffer == [] && q.frames == [] && !q.timer && q.pending == p.pending + |buffer|
         && q.flushes == p.flushes + [Flush(buffer, frames)]
       else q.buffer == buffer && q.frames == frames && q.timer && q.pending == p.pending && q.flushes == p.flushes
  }

  /** `add` returns once buffered and pending bytes fit the cap. */
  function Return(p: Pool, s: Settings): Pool {
    if |p.buffer| + p.pending <= s.capBytes then p.(adding := false) else p
  }

  /** The latency timer fires. */
  function Fire(p: Pool): Pool {
    var q := p.(timer := false);
    if p.frames != [] then Submit(q) else q
  }

  /** The pump's own flush, on idle, finish or disconnect. */
  function FlushNow(p: Pool): Pool {
    if p.frames != [] then Submit(p) else p
  }

  /** The store of flush k ends, whatever its outcome. */
  function Finish(p: Pool, k: nat): Pool
    requires k < |p.flushes| && k !in p.finished && |p.flushes[k].pcm| <= p.pending
  {
    p.(finished := p.finished + {k}, pending := p.pending - |p.flushes[k].pcm|)
  }

  datatype Event = Offered(frame: Frame) | Resumed | Fired | Flushed | Finished(k: nat)

  /** Which events can happen: the pump handles one frame at a time, so frames and flushes
      wait for `add` to return; the timer fires when armed; only unfinished stores finish. */
  ghost predicate Enabled(p: Pool, e: Event, s: Settings) {
    match e
    case Offered(f) => !p.adding && f.sequence > p.highest && Acceptable(f, s)
    case Resumed => p.adding && |p.buffer| + p.pending <= s.capBytes
    case Fired => p.timer
    case Flushed => !p.adding
    case Finished(k) => k < |p.flushes| && k !in p.finished && |p.flushes[k].pcm| <= p.pending
  }

  ghost function Step(p: Pool, e: Event, s: Settings): Pool
    requires Enabled(p, e, s)
  {
    match e
    case Offered(f) => Add(p, f, s)
    case Resumed => Return(p, s)
    case Fired => Fire(p)
    case Flushed => FlushNow(p)
    case Finished(k) => Finish(p, k)
  }

  // ----- what every step keeps

  function FlushPcm(fs: seq<Flush>): seq<byte> {
    if fs == [] then [] else FlushPcm(fs[..|fs| - 1]) + fs[|fs| - 1].pcm
  }

  function FlushFrames(fs: seq<Flush>): seq<(int, nat)> {
    if fs == [] then [] else FlushFrames(fs[..|fs| - 1]) + fs[|fs| - 1].frames
  }

  function AcceptedPcm(fs: seq<Frame>): seq<byte> {
    if fs == [] then [] else AcceptedPcm(fs[..|fs| - 1]) + fs[|fs| - 1].pcm
  }

  function AcceptedSizes(fs: seq<Frame>): seq<(int, nat)> {
    if fs == [] then [] else AcceptedSizes(fs[..|fs| - 1]) + [(fs[|fs| - 1].sequence, |fs[|fs| - 1].pcm|)]
  }

  /** Bytes of the flushes whose store has not finished. */
  function Unfinished(fs: seq<Flush>, finished: set<nat>): nat {
    if fs == [] then 0
    else
      var n := |fs| - 1;
      Unfinished(fs[..n], finished) + if n in finished then 0 else |fs[n].pcm|
  }

  /** No byte is lost, repeated or reordered. */
  ghost predicate Conserves(p: Pool, base: int) {
    && FlushPcm(p.flushes) + p.buffer == AcceptedPcm(p.accepted)
    && FlushFrames(p.flushes) + p.frames == AcceptedSizes(p.accepted)
    && (forall i :: 0 <= i < |p.accepted| ==> base < p.accepted[i].sequence)
    && (forall i, j :: 0 <= i < j < |p.accepted| ==> p.accepted[i].sequence < p.accepted[j].sequence)
    && p.highest == if p.accepted == [] then base else p.accepted[|p.accepted| - 1].sequence
  }

  /** Pending bytes are those of the unfinished stores; every flush carries frames. */
  ghost predicate CountsPending(p: Pool) {
    && p.pending == Unfinished(p.flushes, p.finished)
    && (forall k :: k in p.finished ==> k < |p.flushes|)
    && (forall k :: 0 <= k < |p.flushes| ==> p.flushes[k].frames != [] && p.flushes[k].pcm != [])
  }

  /** The cap is exceeded only while an `add` is under way, and then by its frame at most;
      pooled frames always have a timer and stay below the target. */
  ghost predicate BoundsMemory(p: Pool, s: Settings) {
    && (!p.adding ==> |p.buffer| + p.pending <= s.capBytes)
    && (p.adding ==> p.accepted != [])
    && (p.adding ==> |p.buffer| + p.pending <= s.capBytes + |p.accepted[|p.accepted| - 1].pcm|)
    && (p.frames == [] <==> p.buffer == [])
    && (p.frames != [] ==> p.timer && |p.buffer| < s.targetBytes)
  }

  ghost predicate Invariant(p: Pool, s: Settings, base: int) {
    Conserves(p, base) && CountsPending(p) && BoundsMemory(p, s)
  }

  function Initial(base: int): Pool {
    Pool([], [], 0, false, base, false, [], {}, [])
  }

  lemma InitialHolds(s: Settings, base: int)
    ensures Invariant(Initial(base), s, base)
  {
  }

  lemma {:induction false} UnfinishedIgnores(fs: seq<Flush>, finished: set<nat>, k: nat)
    requires k >= |fs|
    ensures Unfinished(fs, finished + {k}) == Unfinished(fs, finished)
  {
    if fs != [] {
      UnfinishedIgnores(fs[..|fs| - 1], finished, k);
    }
  }

  lemma {:induction false} FinishOne(fs: seq<Flush>, finished: set<nat>, k: nat)
    requires k < |fs| && k !in finished
    ensures Unfinished(fs, finished) == Unfinished(fs, finished + {k}) + |fs[k].pcm|
  {
    var n := |fs| - 1;
    if k == n {
      UnfinishedIgnores(fs[..n], finished, k);
    } else {
      FinishOne(fs[..n], finished, k);
    }
  }

  lemma SubmitKeeps(p: Pool, s: Settings, base: int)
    requires Conserves(p, base) && CountsPending(p) && p.frames != [] && p.buffer != []
    ensures Conserves(Submit(p), base) && CountsPending(Submit(p))
    ensures |Submit(p).buffer| + Submit(p).pending == |p.buffer| + p.pending
  {
    var f := Flush(p.buffer, p.frames);
    assert (p.flushes + [f])[..|p.flushes|] == p.flushes;
    assert |p.flushes| !in p.finished;
  }

  /** The frame is in the pool, before any flush. */
  function Appended(p: Pool, f: Frame): Pool {
    p.(highest := f.sequence, frames := p.frames + [(f.sequence, |f.pcm|)], buffer := p.buffer + f.pcm,
       accepted := p.accepted + [f], adding := true)
  }

  lemma AppendFrame(p: Pool, f: Frame, base: int)
    requires Conserves(p, base) && CountsPending(p) && f.sequence > p.highest
    ensures Conserves(Appended(p, f), base) && CountsPending(Appended(p, f))
  {
    var q := Appended(p, f);
    assert q.accepted[..|p.accepted|] == p.accepted;
    assert FlushPcm(p.flushes) + (p.buffer + f.pcm) == (FlushPcm(p.flushes) + p.buffer) + f.pcm;
    assert FlushFrames(p.flushes) + (p.frames + [(f.sequence, |f.pcm|)]) ==
           (FlushFrames(p.flushes) + p.frames) + [(f.sequence, |f.pcm|)];
  }

  lemma AddKeeps(p: Pool, f: Frame, s: Settings, base: int)
    requires Invariant(p, s, base) && Enabled(p, Offered(f), s)
    ensures Invariant(Add(p, f, s), s, base)
  {
    AppendFrame(p, f, base);
    if |Appended(p, f).buffer| >= s.targetBytes { SubmitKeeps(Appended(p, f), s, base); }
    hide Conserves, CountsPending;
  }

  lemma FireKeeps(p: Pool, s: Settings, base: int)
    requires Invariant(p, s, base)
    ensures Invariant(Fire(p), s, base) && Invariant(FlushNow(p), s, base)
  {
    if p.frames != [] {
      SubmitKeeps(p.(timer := false), s, base);
      SubmitKeeps(p, s, base);
    }
    hide FlushPcm, FlushFrames, Unfinished;
  }

  lemma FinishKeeps(p: Pool, k: nat, s: Settings, base: int)
    requires Invariant(p, s, base) && Enabled(p, Finished(k), s)
    ensures Invariant(Finish(p, k), s, base)
  {
    FinishOne(p.flushes, p.finished, k);
    hide FlushPcm, FlushFrames, Unfinished;
  }

  /** Every step keeps the invariant. */
  lemma StepKeepsInvariant(p: Pool, e: Event, s: Settings, base: int)
    requires Invariant(p, s, base) && Enabled(p, e, s)
    ensures Invariant(Step(p, e, s), s, base)
  {
    match e
    case Offered(f) => AddKeeps(p, f, s, base);
    case Resumed => hide FlushPcm, FlushFrames, Unfinished;
    case Fired => FireKeeps(p, s, base);
    case Flushed => FireKeeps(p, s, base);
    case Finished(k) => FinishKeeps(p, k, s, base);
  }

  /** p is reached from a fresh connection by some interleaving of events. */
  ghost predicate Reaches(events: seq<Event>, s: Settings, base: int, p: Pool)
    decreases |events|
  {
    if events == [] then p == Initial(base)
    else
      var n := |events| - 1;
      exists q :: Reaches(events[..n], s, base, q) && Enabled(q, events[n], s) && p == Step(q, events[n], s)
  }

  /** Under every interleaving of adds, timer flushes and store completions in any order. */
  lemma {:induction false} RunsConserveAudio(events: seq<Event>, s: Settings, base: int, p: Pool)
    requires Reaches(events, s, base, p)
    ensures Invariant(p, s, base)
  {
    if events == [] {
      InitialHolds(s, base);
    } else {
      var n := |events| - 1;
      var q :| Reaches(events[..n], s, base, q) && Enabled(q, events[n], s) && p == Step(q, events[n], s);
      RunsConserveAudio(events[..n], s, base, q);
      StepKeepsInvariant(q, events[n], s, base);
    }
  }

  lemma {:induction false} SomeUnfinished(fs: seq<Flush>, finished: set<nat>) returns (k: nat)
    requires Unfinished(fs, finished) > 0
    ensures k < |fs| && k !in finished
  {
    var n := |fs| - 1;
    if n !in finished {
      k := n;
    } else {
      k := SomeUnfinished(fs[..n], finished);
    }
  }

  lemma {:induction false} OneOfUnfinished(fs: seq<Flush>, finished: set<nat>, k: nat)
    requires k < |fs| && k !in finished
    ensures |fs[k].pcm| <= Unfinished(fs, finished)
  {
    if k < |fs| - 1 {
      OneOfUnfinished(fs[..|fs| - 1], finished, k);
    }
  }

  /** An `add` under way that may not return yet. */
  predicate Blocked(p: Pool, s: Settings) {
    p.adding && |p.buffer| + p.pending > s.capBytes
  }

  /** Backpressure never deadlocks, whatever the settings: a blocked `add` has an unfinished store
      that can finish, or an armed timer whose flush makes it one. */
  lemma BlockedCanMove(events: seq<Event>, s: Settings, base: int, p: Pool) returns (e: Event)
    requires Reaches(events, s, base, p) && Blocked(p, s)
    ensures Enabled(p, e, s) && (if p.pending > 0 then e.Finished? else e == Fired && Step(p, e, s).pending > 0)
  {
    hide Reaches, Conserves;
    RunsConserveAudio(events, s, base, p);
    if p.pending > 0 {
      var k := SomeUnfinished(p.flushes, p.finished);
      OneOfUnfinished(p.flushes, p.finished, k);
      e := Finished(k);
    } else {
      e := Fired;
    }
  }

  // ----- when a blocked `add` waits for a store

  /** Everything accepted is acceptable, so the buffer holds whole samples. */
  ghost predicate Whole(p: Pool, s: Settings) {
    && (forall i :: 0 <= i < |p.accepted| ==> Acceptable(p.accepted[i], s))
    && |p.buffer| % s.sampleWidth == 0
  }

  lemma WholeStep(p: Pool, e: Event, s: Settings)
    requires Whole(p, s) && Enabled(p, e, s)
    ensures Whole(Step(p, e, s), s)
  {
    if e.Offered? {
      MultiplesAdd(|p.buffer|, |e.frame.pcm|, s.sampleWidth);
    }
    MultiplesAdd(0, 0, s.sampleWidth);
  }

  lemma {:induction false} RunsStayWhole(events: seq<Event>, s: Settings, base: int, p: Pool)
    requires Reaches(events, s, base, p)
    ensures Whole(p, s)
  {
    hide Whole, Enabled;
    if events == [] {
      FreshIsWhole(s, base);
    } else {
      var n := |events| - 1;
      var q :| Reaches(events[..n], s, base, q) && Enabled(q, events[n], s) && p == Step(q, events[n], s);
      RunsStayWhole(events[..n], s, base, q);
      WholeStep(q, events[n], s);
    }
  }

  lemma FreshIsWhole(s: Settings, base: int)
    ensures Whole(Initial(base), s)
  {
    MultiplesAdd(0, 0, s.sampleWidth);
  }

  /** Whole samples just past the cap. */
  function PastCap(s: Settings): nat {
    NextMultiple(s.capBytes, s.sampleWidth)
  }

  /** In every reachable state a blocked `add` has bytes pending. */
  ghost predicate BlockedWaitsForStore(s: Settings, base: int) {
    forall events, p :: Reaches(events, s, base, p) && Blocked(p, s) ==> p.pending > 0
  }

  /** The pool cannot be filled past the cap without being flushed. */
  predicate FlushesFirst(s: Settings) {
    s.maxFrameBytes < s.sampleWidth || s.targetBytes <= PastCap(s)
  }

  lemma PendingWhenBlocked(events: seq<Event>, s: Settings, base: int, p: Pool)
    requires FlushesFirst(s) && Reaches(events, s, base, p) && Blocked(p, s)
    ensures p.pending > 0
  {
    hide Reaches, Conserves, CountsPending, NextMultiple;
    RunsConserveAudio(events, s, base, p);
    RunsStayWhole(events, s, base, p);
    MultipleAtLeast(|p.accepted[0].pcm|, s.sampleWidth);
    if p.pending == 0 {
      assert |p.buffer| < s.targetBytes;
      MultiplePast(s.capBytes, |p.buffer|, s.sampleWidth);
    }
  }

  /** j frames of one sample each, taken in and returned from. */
  function Filled(s: Settings, base: int, j: nat): Pool {
    if j == 0 then Initial(base) else Return(Add(Filled(s, base, j - 1), OneSample(s, base + j), s), s)
  }

  function OneSample(s: Settings, sequence: int): (f: Frame)
    ensures |f.pcm| == s.sampleWidth
  {
    Frame(sequence, seq(s.sampleWidth, _ => 0))
  }

  lemma OneSampleIsAcceptable(s: Settings, sequence: int)
    requires s.sampleWidth <= s.maxFrameBytes
    ensures Acceptable(OneSample(s, sequence), s)
  {
    MultiplesAdd(0, s.sampleWidth, s.sampleWidth);
  }

  lemma Extend(events: seq<Event>, s: Settings, base: int, p: Pool, e: Event)
    requires Reaches(events, s, base, p) && Enabled(p, e, s)
    ensures Reaches(events + [e], s, base, Step(p, e, s))
  {
    assert (events + [e])[..|events|] == events;
  }

  lemma {:induction false} FillUp(s: Settings, base: int, j: nat) returns (events: seq<Event>)
    requires s.sampleWidth <= s.maxFrameBytes && j * s.sampleWidth <= s.capBytes && j * s.sampleWidth < s.targetBytes
    ensures Reaches(events, s, base, Filled(s, base, j))
    ensures var p := Filled(s, base, j);
      !p.adding && p.pending == 0 && p.highest == base + j && |p.buffer| == j * s.sampleWidth
  {
    hide Reaches, Acceptable;
    if j == 0 {
      events := [];
      EmptyRun(s, base);
    } else {
      assert j * s.sampleWidth == (j - 1) * s.sampleWidth + s.sampleWidth;
      var before := FillUp(s, base, j - 1);
      var p, f := Filled(s, base, j - 1), OneSample(s, base + j);
      OneSampleIsAcceptable(s, base + j);
      Extend(before, s, base, p, Offered(f));
      Extend(before + [Offered(f)], s, base, Add(p, f, s), Resumed);
      events := before + [Offered(f)] + [Resumed];
    }
  }

  lemma EmptyRun(s: Settings, base: int)
    ensures Reaches([], s, base, Initial(base))
  {
  }

  /** Filled one sample at a time to just past the cap, with a target beyond that: blocked, and
      nothing stored or being stored. */
  lemma BlockedWithoutStore(s: Settings, base: int) returns (events: seq<Event>, p: Pool)
    requires !FlushesFirst(s)
    ensures Reaches(events, s, base, p) && Blocked(p, s) && p.pending == 0
  {
    hide Reaches, Acceptable;
    var j := s.capBytes / s.sampleWidth;
    NextMultipleIs(s.capBytes, s.sampleWidth);
    var before := FillUp(s, base, j);
    var q, f := Filled(s, base, j), OneSample(s, base + j + 1);
    OneSampleIsAcceptable(s, base + j + 1);
    Extend(before, s, base, q, Offered(f));
    events, p := before + [Offered(f)], Add(q, f, s);
  }

  /** A blocked `add` always has a store to wait for exactly when the target is at most the first
      whole number of samples past the cap (or no frame fits at all); with a larger one it may
      only have the timer. */
  lemma BlockedExactlyWhen(s: Settings, base: int)
    ensures BlockedWaitsForStore(s, base) <==> FlushesFirst(s)
  {
    hide Reaches, Blocked, FlushesFirst;
    if FlushesFirst(s) {
      forall events, p | Reaches(events, s, base, p) && Blocked(p, s) ensures p.pending > 0 {
        PendingWhenBlocked(events, s, base, p);
      }
    } else {
      var events, p := BlockedWithoutStore(s, base);
    }
  }

  /** Once everything is flushed the last row's sequence is the highest accepted one, so
      with every store successful MAX(sequence) + 1 is the resume point. */
  lemma LastRowIsResumePoint(p: Pool, s: Settings, base: int)
    requires Invariant(p, s, base) && p.frames == [] && p.flushes != []
    ensures var last := p.flushes[|p.flushes| - 1].frames; last[|last| - 1].0 == p.highest
  {
    var fs, n := p.flushes, |p.flushes| - 1;
    var last := fs[n].frames;
    var all := FlushFrames(fs[..n]) + last;
    assert all == AcceptedSizes(p.accepted) by { assert FlushFrames(fs) + [] == FlushFrames(fs); }
    assert all[|all| - 1] == last[|last| - 1];
  }

  lemma NoFramesNoBytes(p: Pool, s: Settings, base: int)
    requires Invariant(p, s, base)
    ensures p.frames == [] ==> p.buffer == []
  {
  }

  // ----- the pooler itself

  datatype Outcome = Accepted | Duplicate | BadSequence | BadFrame | FrameTooLarge

  class PcmPooler {
    const settings: Settings
    var buffer: seq<byte>
    var frames: seq<(int, nat)>
    var pending: nat
    var timer: bool
    var room: bool  // the event a blocked `add` waits for
    var highest: int

    ghost const base: int
    ghost var adding: bool
    ghost var flushes: seq<Flush>
    ghost var finished: set<nat>
    ghost var accepted: seq<Frame>

    ghost function View(): Pool
      reads this
    {
      Pool(buffer, frames, pending, timer, highest, adding, flushes, finished, accepted)
    }

    /** The invariant of the interleaving, and no lost wake-up: whoever waits for room is an
        `add` that still has to. */
    ghost predicate Valid()
      reads this
    {
      Invariant(View(), settings, base) && (!room ==> adding && |buffer| + pending > settings.capBytes)
    }

    constructor (settings: Settings, base: int)
      ensures Valid() && View() == Initial(base) && this.settings == settings && this.base == base
    {
      this.settings, this.base := settings, base;
      buffer, frames, pending, timer, room, highest := [], [], 0, false, true, base;
      adding, flushes, finished, accepted := false, [], {}, [];
    }

    /** The checks of a frame, in order: whole samples, not too large, and a sequence above
        everything accepted; one the tracker already acked is a duplicate, anything between is
        refused. */
    method IngestFrame(f: Frame, through: int) returns (outcome: Outcome)
      requires Valid() && !adding
      modifies this
      ensures Valid()
      ensures outcome == if f.pcm == [] || |f.pcm| % settings.sampleWidth != 0 then BadFrame
                         else if |f.pcm| > settings.maxFrameBytes then FrameTooLarge
                         else if f.sequence > old(highest) then Accepted
                         else if f.sequence <= through then Duplicate else BadSequence
      ensures View() == if outcome == Accepted then Step(old(View()), Offered(f), settings) else old(View())
      ensures outcome == Accepted ==>
        highest == f.sequence && accepted == old(accepted) + [f] && adding && Added(f, old(View()), View(), settings)
    {
      if f.pcm == [] || |f.pcm| % settings.sampleWidth != 0 {
        return BadFrame;
      }
      if |f.pcm| > settings.maxFrameBytes {
        return FrameTooLarge;
      }
      if f.sequence <= highest {
        return if f.sequence <= through then Duplicate else BadSequence;
      }
      AddKeeps(View(), f, settings, base);
      AddFrame(f);
      outcome := Accepted;
    }

    /** `add`, up to its first await. */
    method AddFrame(f: Frame)
      requires !adding && room
      modifies this
      ensures View() == Add(old(View()), f, settings) && room && adding
      ensures highest == f.sequence && accepted == old(accepted) + [f]
      ensures Added(f, old(View()), View(), settings)
    {
      highest := f.sequence;
      frames := frames + [(f.sequence, |f.pcm|)];
      buffer := buffer + f.pcm;
      accepted, adding := accepted + [f], true;
      if |buffer| >= settings.targetBytes {
        SubmitPool();
      } else if !timer {
        timer := true;
      }
    }

    /** The loop at the end of `add`: return, or clear the event and wait. */
    method Resume() returns (returned: bool)
      requires Valid() && adding && room
      modifies this`adding, this`room
      ensures Valid() && returned == !adding && (returned <==> Enabled(old(View()), Resumed, settings))
      ensures View() == Return(old(View()), settings)
      ensures returned <==> |buffer| + pending <= settings.capBytes
    {
      if |buffer| + pending > settings.capBytes {
        room := false;
        return false;
      }
      adding := false;
      returned := true;
    }

    /** `_submit` */
    method SubmitPool()
      modifies this`buffer, this`frames, this`timer, this`pending, this`flushes
      ensures View() == Submit(old(View()))
      ensures buffer == [] && frames == [] && !timer && pending == old(pending) + |old(buffer)|
      ensures flushes == old(flushes) + [Flush(old(buffer), old(frames))]
    {
      timer := false;
      flushes := flushes + [Flush(buffer, frames)];
      pending := pending + |buffer|;
      buffer, frames := [], [];
    }

    /** `_flush_later`, after its sleep. */
    method TimerFires()
      requires Valid() && timer
      modifies this`buffer, this`frames, this`timer, this`pending, this`flushes
      ensures Valid() && View() == Fire(old(View())) && buffer == [] && frames == [] && !timer
      ensures pending == old(pending) + |old(buffer)|
      ensures flushes == old(flushes) + if old(frames) == [] then [] else [Flush(old(buffer), old(frames))]
    {
      FireKeeps(View(), settings, base);
      NoFramesNoBytes(View(), settings, base);
      hide Invariant;
      timer := false;
      if frames != [] { SubmitPool(); }
    }

    method FlushPool()
      requires Valid() && !adding
      modifies this`buffer, this`frames, this`timer, this`pending, this`flushes
      ensures Valid() && View() == FlushNow(old(View())) && buffer == [] && frames == []
      ensures pending == old(pending) + |old(buffer)|
      ensures flushes == old(flushes) + if old(frames) == [] then [] else [Flush(old(buffer), old(frames))]
    {
      FireKeeps(View(), settings, base);
      NoFramesNoBytes(View(), settings, base);
      hide Invariant;
      if frames != [] { SubmitPool(); }
    }

    /** The end of `_store`: its bytes are no longer pending, and a waiting `add` wakes up. */
    method StoreEnds(ghost k: nat, flush: Flush)
      requires Valid() && k < |flushes| && k !in finished && flush == flushes[k]
      modifies this`pending, this`room, this`finished
      ensures Valid() && room && |flush.pcm| <= old(pending) && View() == Finish(old(View()), k)
      ensures pending == old(pending) - |flush.pcm| && finished == old(finished) + {k}
    {
      OneOfUnfinished(flushes, finished, k);
      FinishKeeps(View(), k, settings, base);
      pending := pending - |flush.pcm|;
      finished := finished + {k};
      room := true;
    }

  }
}
