/** A stream's audio from the frames accepted to the file played back: pooled, wrapped, stored and
    stitched (api/stream_pool.py, services/wav.py, services/stitch.py). */
module Playback {
  import opened Sorting
  import opened WavFile
  import PcmPooling
  import Stitching

  /** What each flush stores, in submission order. */
  function Stores(flushes: seq<PcmPooling.Flush>): (pcm: seq<seq<byte>>)
    ensures |pcm| == |flushes| && forall k :: 0 <= k < |flushes| ==> pcm[k] == flushes[k].pcm
  {
    seq(|flushes|, k requires 0 <= k < |flushes| => flushes[k].pcm)
  }

  lemma {:induction false} StoresFlatten(flushes: seq<PcmPooling.Flush>)
    ensures Flatten(Stores(flushes)) == PcmPooling.FlushPcm(flushes)
  {
    if flushes != [] {
      StoresFlatten(flushes[..|flushes| - 1]);
      assert Stores(flushes)[..|flushes| - 1] == Stores(flushes[..|flushes| - 1]);
    }
  }

  /** The sequence a flush is stored under: its last frame's. */
  function RowSequence(f: PcmPooling.Flush): int
    requires f.frames != []
  {
    f.frames[|f.frames| - 1].0
  }

  lemma {:induction false} LastFrameAt(fs: seq<PcmPooling.Flush>, k: nat)
    requires k < |fs| && fs[k].frames != []
    ensures var n := |PcmPooling.FlushFrames(fs[..k + 1])|;
      0 < n <= |PcmPooling.FlushFrames(fs)| && PcmPooling.FlushFrames(fs)[n - 1].0 == RowSequence(fs[k])
  {
    if k == |fs| - 1 {
      assert fs[..k + 1] == fs;
    } else {
      LastFrameAt(fs[..|fs| - 1], k);
      assert fs[..|fs| - 1][..k + 1] == fs[..k + 1];
    }
  }

  lemma {:induction false} FramesGrow(fs: seq<PcmPooling.Flush>, j: nat, k: nat)
    requires j < k <= |fs| && forall i :: 0 <= i < |fs| ==> fs[i].frames != []
    ensures |PcmPooling.FlushFrames(fs[..j])| < |PcmPooling.FlushFrames(fs[..k])|
  {
    assert fs[..k][..k - 1] == fs[..k - 1];
    if j < k - 1 { FramesGrow(fs, j, k - 1); }
  }

  lemma {:induction false} SizesAt(frames: seq<PcmPooling.Frame>, i: nat)
    requires i < |frames|
    ensures |PcmPooling.AcceptedSizes(frames)| == |frames|
    ensures PcmPooling.AcceptedSizes(frames)[i].0 == frames[i].sequence
  {
    var n := |frames| - 1;
    if n > 0 { SizesAt(frames[..n], if i < n then i else 0); }
  }

  /** Frames flushed are the first ones accepted. */
  lemma FlushedAreAccepted(p: PcmPooling.Pool, base: int, x: nat)
    requires PcmPooling.Conserves(p, base) && x < |PcmPooling.FlushFrames(p.flushes)|
    ensures x < |p.accepted| && PcmPooling.FlushFrames(p.flushes)[x].0 == p.accepted[x].sequence
  {
    hide PcmPooling.FlushPcm, PcmPooling.AcceptedPcm;
    var all := PcmPooling.FlushFrames(p.flushes);
    assert (all + p.frames)[x] == all[x];
    if p.accepted != [] { SizesAt(p.accepted, 0); }
    SizesAt(p.accepted, x);
  }

  lemma Ascend(p: PcmPooling.Pool, base: int, x: nat, y: nat)
    requires PcmPooling.Conserves(p, base) && x < y < |p.accepted|
    ensures p.accepted[x].sequence < p.accepted[y].sequence
  {
  }

  /** Rows are listed by sequence; that is the order in which the flushes were submitted, whatever
      order their stores finished in. */
  lemma RowsInFlushOrder(events: seq<PcmPooling.Event>, s: PcmPooling.Settings, base: int, p: PcmPooling.Pool,
                         j: nat, k: nat)
    requires PcmPooling.Reaches(events, s, base, p) && j < k < |p.flushes|
    ensures p.flushes[j].frames != [] && p.flushes[k].frames != []
    ensures RowSequence(p.flushes[j]) < RowSequence(p.flushes[k])
  {
    hide PcmPooling.Reaches, PcmPooling.Conserves, PcmPooling.FlushFrames, PcmPooling.Unfinished;
    PcmPooling.RunsConserveAudio(events, s, base, p);
    var fs := p.flushes;
    LastFrameAt(fs, j);
    LastFrameAt(fs, k);
    FramesGrow(fs, j + 1, k + 1);
    var x, y := |PcmPooling.FlushFrames(fs[..j + 1])| - 1, |PcmPooling.FlushFrames(fs[..k + 1])| - 1;
    FlushedAreAccepted(p, base, x);
    FlushedAreAccepted(p, base, y);
    Ascend(p, base, x, y);
  }

  // ----- the rows, as they are listed

  /** A segment's row: its sequence number and its blob. */
  datatype Row = Row(sequence: int, segment: Stitching.Segment)

  predicate Ascending(s: seq<int>) {
    forall i, j :: 0 <= i < j < |s| ==> s[i] < s[j]
  }

  function Sequences(rows: seq<Row>): (s: seq<int>)
    ensures |s| == |rows| && forall k :: 0 <= k < |rows| ==> s[k] == rows[k].sequence
  {
    seq(|rows|, k requires 0 <= k < |rows| => rows[k].sequence)
  }

  function SegmentsOf(rows: seq<Row>): (s: seq<Stitching.Segment>)
    ensures |s| == |rows| && forall k :: 0 <= k < |rows| ==> s[k] == rows[k].segment
  {
    seq(|rows|, k requires 0 <= k < |rows| => rows[k].segment)
  }

  /** A flush stored: its row, and its PCM wrapped in the row's blob. */
  ghost predicate StoredIn(store: map<Stitching.Key, seq<byte>>, row: Row, f: PcmPooling.Flush, rate: nat,
                           channels: nat) {
    && f.frames != [] && row.sequence == RowSequence(f)
    && row.segment.key in store && |store[row.segment.key]| == row.segment.byteSize
    && Packable(|f.pcm|, rate, channels) && store[row.segment.key] == Wrap(f.pcm, rate, channels)
  }

  /** The rows by sequence number, each once: one for every flush, and no others. */
  ghost predicate AreRows(store: map<Stitching.Key, seq<byte>>, rows: seq<Row>, flushes: seq<PcmPooling.Flush>,
                          rate: nat, channels: nat) {
    && Ascending(Sequences(rows))
    && (forall i :: 0 <= i < |rows| ==> RowOfSome(store, rows[i], flushes, rate, channels))
    && (forall k :: 0 <= k < |flushes| ==> FlushInSome(store, rows, flushes[k], rate, channels))
  }

  ghost predicate RowOfSome(store: map<Stitching.Key, seq<byte>>, row: Row, flushes: seq<PcmPooling.Flush>,
                            rate: nat, channels: nat) {
    exists k :: 0 <= k < |flushes| && StoredIn(store, row, flushes[k], rate, channels)
  }

  ghost predicate FlushInSome(store: map<Stitching.Key, seq<byte>>, rows: seq<Row>, f: PcmPooling.Flush, rate: nat,
                              channels: nat) {
    exists i :: 0 <= i < |rows| && StoredIn(store, rows[i], f, rate, channels)
  }

  lemma {:induction false} AscendingOnce(a: seq<int>, b: seq<int>)
    requires Ascending(a) && Ascending(b) && forall x :: x in a <==> x in b
    ensures a == b
  {
    if a == [] || b == [] {
      if a != [] { SomeElement(a); }
      if b != [] { SomeElement(b); }
    } else {
      var n, m := |a| - 1, |b| - 1;
      assert a[n] in b && b[m] in a;
      assert a[n] == b[m];
      forall x ensures x in a[..n] <==> x in b[..m] {
        assert x in a[..n] <==> x in a && x != a[n];
        assert x in b[..m] <==> x in b && x != b[m];
      }
      AscendingOnce(a[..n], b[..m]);
      assert a == a[..n] + [a[n]] && b == b[..m] + [b[m]];
    }
  }

  lemma SomeElement(a: seq<int>)
    requires a != []
    ensures exists x :: x in a
  {
    var x := a[0];
    assert x in a;
  }

  ghost function FlushSequences(flushes: seq<PcmPooling.Flush>): (s: seq<int>)
    requires forall k :: 0 <= k < |flushes| ==> flushes[k].frames != []
    ensures |s| == |flushes| && forall k :: 0 <= k < |flushes| ==> s[k] == RowSequence(flushes[k])
  {
    seq(|flushes|, k requires 0 <= k < |flushes| => RowSequence(flushes[k]))
  }

  lemma SameSequences(store: map<Stitching.Key, seq<byte>>, rows: seq<Row>, flushes: seq<PcmPooling.Flush>,
                      rate: nat, channels: nat)
    requires AreRows(store, rows, flushes, rate, channels)
    requires forall k :: 0 <= k < |flushes| ==> flushes[k].frames != []
    ensures forall x :: x in Sequences(rows) <==> x in FlushSequences(flushes)
  {
    hide Wrap, Packable, RowSequence;
    var a, b := Sequences(rows), FlushSequences(flushes);
    forall x | x in a ensures x in b {
      var i :| 0 <= i < |a| && a[i] == x;
      assert RowOfSome(store, rows[i], flushes, rate, channels);
      var k :| 0 <= k < |flushes| && StoredIn(store, rows[i], flushes[k], rate, channels);
      assert b[k] == x;
    }
    forall x | x in b ensures x in a {
      var k :| 0 <= k < |b| && b[k] == x;
      assert FlushInSome(store, rows, flushes[k], rate, channels);
      var i :| 0 <= i < |rows| && StoredIn(store, rows[i], flushes[k], rate, channels);
      assert a[i] == x;
    }
  }

  /** Listed by sequence, row k is that of flush k. */
  lemma RowsMatchFlushes(store: map<Stitching.Key, seq<byte>>, rows: seq<Row>, flushes: seq<PcmPooling.Flush>,
                         rate: nat, channels: nat)
    requires AreRows(store, rows, flushes, rate, channels)
    requires forall k :: 0 <= k < |flushes| ==> flushes[k].frames != []
    requires Ascending(FlushSequences(flushes))
    ensures |rows| == |flushes|
    ensures forall k :: 0 <= k < |flushes| ==> StoredIn(store, rows[k], flushes[k], rate, channels)
  {
    hide StoredIn, RowOfSome, FlushInSome, RowSequence;
    SameSequences(store, rows, flushes, rate, channels);
    AscendingOnce(Sequences(rows), FlushSequences(flushes));
    hide Ascending, Sequences;
    forall k: nat | k < |flushes| ensures StoredIn(store, rows[k], flushes[k], rate, channels) {
      RowAt(store, rows, flushes[k], rate, channels, k);
    }
  }

  lemma RowAt(store: map<Stitching.Key, seq<byte>>, rows: seq<Row>, f: PcmPooling.Flush, rate: nat, channels: nat,
              k: nat)
    requires Ascending(Sequences(rows)) && FlushInSome(store, rows, f, rate, channels)
    requires k < |rows| && f.frames != [] && Sequences(rows)[k] == RowSequence(f)
    ensures StoredIn(store, rows[k], f, rate, channels)
  {
    hide Wrap, Packable, RowSequence;
    var i :| 0 <= i < |rows| && StoredIn(store, rows[i], f, rate, channels);
    assert Sequences(rows)[i] == Sequences(rows)[k];
  }

  lemma RowsAreWrapped(store: map<Stitching.Key, seq<byte>>, rows: seq<Row>, flushes: seq<PcmPooling.Flush>,
                       rate: nat, channels: nat)
    requires |rows| == |flushes|
    requires forall k :: 0 <= k < |flushes| ==> StoredIn(store, rows[k], flushes[k], rate, channels)
    ensures Stitching.WrappedFlushes(store, SegmentsOf(rows), Stores(flushes), rate, channels)
  {
    hide Packable, Wrap;
    forall k | 0 <= k < |flushes| ensures StoredIn(store, rows[k], flushes[k], rate, channels) {}
  }

  /** Once everything is flushed and stored, the file stitched from the rows in order of their
      sequence numbers, whatever order their stores finished in, is one WAV file around exactly the
      accepted frames in sequence order. */
  lemma StreamPlaysBack(events: seq<PcmPooling.Event>, s: PcmPooling.Settings, base: int, p: PcmPooling.Pool,
                        store: map<Stitching.Key, seq<byte>>, rows: seq<Row>, rate: nat, channels: nat)
    requires PcmPooling.Reaches(events, s, base, p) && p.frames == [] && rows != []
    requires AreRows(store, rows, p.flushes, rate, channels)
    requires Packable(|PcmPooling.AcceptedPcm(p.accepted)|, rate, channels)
    ensures Stitching.Stored(store, SegmentsOf(rows))
    ensures var pcm := PcmPooling.AcceptedPcm(p.accepted);
      var header := PatchHeader(store[rows[0].segment.key], |pcm|);
      header.Ok? && header.value + Stitching.Audio(store, SegmentsOf(rows)) == Wrap(pcm, rate, channels)
  {
    hide PcmPooling.Reaches, PcmPooling.Conserves, Packable, AreRows, StoredIn, RowSequence;
    PcmPooling.RunsConserveAudio(events, s, base, p);
    FlushesAscend(events, s, base, p);
    RowsMatchFlushes(store, rows, p.flushes, rate, channels);
    RowsAreWrapped(store, rows, p.flushes, rate, channels);
    FileIsAccepted(events, s, base, p, store, SegmentsOf(rows), rate, channels);
  }

  lemma FlushesAscend(events: seq<PcmPooling.Event>, s: PcmPooling.Settings, base: int, p: PcmPooling.Pool)
    requires PcmPooling.Reaches(events, s, base, p)
    ensures forall k :: 0 <= k < |p.flushes| ==> p.flushes[k].frames != []
    ensures Ascending(FlushSequences(p.flushes))
  {
    hide PcmPooling.Reaches, RowSequence;
    FlushesNotEmpty(events, s, base, p);
    forall j, k | 0 <= j < k < |p.flushes| ensures RowSequence(p.flushes[j]) < RowSequence(p.flushes[k]) {
      RowsInFlushOrder(events, s, base, p, j, k);
    }
  }

  lemma FlushesNotEmpty(events: seq<PcmPooling.Event>, s: PcmPooling.Settings, base: int, p: PcmPooling.Pool)
    requires PcmPooling.Reaches(events, s, base, p)
    ensures forall k :: 0 <= k < |p.flushes| ==> p.flushes[k].frames != []
  {
    hide PcmPooling.Reaches;
    PcmPooling.RunsConserveAudio(events, s, base, p);
  }

  /** Segments in flush order stitch to the accepted frames. */
  lemma FileIsAccepted(events: seq<PcmPooling.Event>, s: PcmPooling.Settings, base: int, p: PcmPooling.Pool,
                       store: map<Stitching.Key, seq<byte>>, segments: seq<Stitching.Segment>, rate: nat,
                       channels: nat)
    requires PcmPooling.Reaches(events, s, base, p) && p.frames == [] && segments != []
    requires Stitching.WrappedFlushes(store, segments, Stores(p.flushes), rate, channels)
    requires Packable(|PcmPooling.AcceptedPcm(p.accepted)|, rate, channels)
    ensures var pcm := PcmPooling.AcceptedPcm(p.accepted);
      var header := PatchHeader(store[segments[0].key], |pcm|);
      header.Ok? && header.value + Stitching.Audio(store, segments) == Wrap(pcm, rate, channels)
  {
    hide PcmPooling.Reaches, Packable;
    PcmPooling.RunsConserveAudio(events, s, base, p);
    StoresFlatten(p.flushes);
    assert PcmPooling.FlushPcm(p.flushes) + [] == PcmPooling.FlushPcm(p.flushes);
    Stitching.StitchedFileIsOneWav(store, segments, Stores(p.flushes), rate, channels);
  }
}
