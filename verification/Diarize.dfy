/** Utterances and their interjections together (processing/pipelines/diarize.py:132-235): which
    utterances of one speaker overlap or lie inside one another, and what that means for the hosts. */
module Diarize {
  import opened Arithmetic
  import opened Sorting
  import opened Wrappers
  import opened Intervals
  import opened Utterances
  import opened Interjections

  // ----- the runs of one speaker

  /** No merge is refused for being too close. */
  predicate NonNegative(p: Limits) {
    p.mergeGapMs >= 0 && (p.crosstalkMaxMs.Some? ==> p.crosstalkMaxMs.value >= 0)
  }

  /** The run from lo to k, with turn k, is longer than the cap. */
  predicate TooLong(ts: seq<Span>, p: Limits, lo: nat, k: nat)
    requires lo < k < |ts|
  {
    Max(ts[k].end, MaxEnd(ts, lo, k)) - ts[lo].start > p.capMs
  }

  /** A turn that starts before the run ends, or just then, is only kept out by the cap. */
  lemma OnlyTheCap(ts: seq<Span>, others: seq<Span>, p: Limits, lo: nat, k: nat)
    requires NonNegative(p) && lo < k < |ts| && ts[k].start <= MaxEnd(ts, lo, k)
    ensures Joins(ts, others, p, lo, k) <==> !TooLong(ts, p, lo, k)
  {
    assert Range(MaxEnd(ts, lo, k), ts[k].start) == {};
    hide Points;
  }

  /** Turn k overlaps the run before it, which the cap keeps it out of. */
  predicate KeptOut(ts: seq<Span>, p: Limits, cuts: seq<nat>, runs: seq<Run>, k: int)
    requires |cuts| == |runs| + 1
  {
    && 0 < k < |runs| && cuts[k - 1] < cuts[k] < |ts|
    && ts[cuts[k]].start < runs[k - 1].end && TooLong(ts, p, cuts[k - 1], cuts[k])
  }

  lemma RunAt(ts: seq<Span>, others: seq<Span>, p: Limits, cuts: seq<nat>, runs: seq<Run>, k: nat)
    requires AreRuns(ts, others, p, cuts, runs) && k < |runs|
    ensures cuts[k] < cuts[k + 1] <= |ts|
    ensures runs[k] == Run(ts[cuts[k]].start, MaxEnd(ts, cuts[k], cuts[k + 1]), cuts[k + 1] - cuts[k])
    ensures forall i :: cuts[k] <= i < cuts[k + 1] ==> ts[i].end <= runs[k].end
    ensures forall i :: cuts[k] < i < cuts[k + 1] ==> Joins(ts, others, p, cuts[k], i)
    ensures cuts[k + 1] < |ts| ==> !Joins(ts, others, p, cuts[k], cuts[k + 1])
  {
    assert IsRun(ts, others, p, cuts[k], cuts[k + 1]);
  }

  /** Where neighbours do not overlap, nothing does. */
  lemma {:induction false} EndsApart(ts: seq<Span>, others: seq<Span>, p: Limits, cuts: seq<nat>, runs: seq<Run>,
                                     j: nat, k: nat)
    requires AreRuns(ts, others, p, cuts, runs) && j < k < |runs| && forall s :: s in ts ==> s.start < s.end
    requires forall i :: 0 < i < |runs| ==> runs[i].start >= runs[i - 1].end
    ensures runs[k].start >= runs[j].end
  {
    if j < k - 1 {
      hide AreRuns;
      EndsApart(ts, others, p, cuts, runs, j, k - 1);
      MergedIsNotEmpty(ts, others, p, cuts, runs, k - 1);
    }
  }

  lemma NeighboursOverlap(ts: seq<Span>, others: seq<Span>, p: Limits, cuts: seq<nat>, runs: seq<Run>, i: nat)
    requires NonNegative(p) && AreRuns(ts, others, p, cuts, runs)
    requires 0 < i < |runs| && runs[i].start < runs[i - 1].end
    ensures KeptOut(ts, p, cuts, runs, i)
  {
    RunAt(ts, others, p, cuts, runs, i);
    RunAt(ts, others, p, cuts, runs, i - 1);
    hide AreRuns, Joins, MaxEnd;
    OnlyTheCap(ts, others, p, cuts[i - 1], cuts[i]);
  }

  lemma KeptOutOverlaps(ts: seq<Span>, others: seq<Span>, p: Limits, cuts: seq<nat>, runs: seq<Run>, k: int)
    requires AreRuns(ts, others, p, cuts, runs) && KeptOut(ts, p, cuts, runs, k)
    ensures 0 < k < |runs| && runs[k].start < runs[k - 1].end
  {
    hide Joins, MaxEnd, TooLong;
    RunAt(ts, others, p, cuts, runs, k);
  }

  /** Two runs of a speaker overlap exactly when the cap keeps some turn out of a run it overlaps. */
  lemma RunsOverlapExactlyWhen(ts: seq<Span>, others: seq<Span>, p: Limits, cuts: seq<nat>, runs: seq<Run>)
    requires NonNegative(p) && AreRuns(ts, others, p, cuts, runs) && forall s :: s in ts ==> s.start < s.end
    ensures (exists j, k :: 0 <= j < k < |runs| && runs[k].start < runs[j].end)
            <==> exists k :: KeptOut(ts, p, cuts, runs, k)
  {
    assert |cuts| == |runs| + 1;
    hide AreRuns, KeptOut;
    if exists j, k :: 0 <= j < k < |runs| && runs[k].start < runs[j].end {
      var j, k :| 0 <= j < k < |runs| && runs[k].start < runs[j].end;
      if forall i :: 0 < i < |runs| ==> runs[i].start >= runs[i - 1].end {
        EndsApart(ts, others, p, cuts, runs, j, k);
      } else {
        var i :| 0 < i < |runs| && runs[i].start < runs[i - 1].end;
        NeighboursOverlap(ts, others, p, cuts, runs, i);
      }
    }
    if k :| KeptOut(ts, p, cuts, runs, k) {
      KeptOutOverlaps(ts, others, p, cuts, runs, k);
      assert 0 <= k - 1 < k < |runs|;
    }
  }

  predicate Fits(ts: seq<Span>, p: Limits) {
    forall s :: s in ts ==> s.start < s.end <= s.start + p.capMs
  }

  /** Without a turn over the cap no run is. */
  lemma RunFits(ts: seq<Span>, others: seq<Span>, p: Limits, cuts: seq<nat>, runs: seq<Run>, k: nat)
    requires AreRuns(ts, others, p, cuts, runs) && Fits(ts, p) && k < |runs|
    ensures runs[k].end - runs[k].start <= p.capMs
  {
    RunAt(ts, others, p, cuts, runs, k);
    var lo, hi := cuts[k], cuts[k + 1];
    assert ts[lo] in ts;
    if hi > lo + 1 { assert Joins(ts, others, p, lo, hi - 1); }
  }

  /** And then every run starts and ends after the one before it. */
  lemma RunsGrow(ts: seq<Span>, others: seq<Span>, p: Limits, cuts: seq<nat>, runs: seq<Run>, k: nat)
    requires NonNegative(p) && AreRuns(ts, others, p, cuts, runs) && Fits(ts, p) && k + 1 < |runs|
    ensures runs[k].start < runs[k + 1].start && runs[k].end < runs[k + 1].end
  {
    assert |cuts| == |runs| + 1;
    hide AreRuns, Joins;
    RunAt(ts, others, p, cuts, runs, k);
    RunAt(ts, others, p, cuts, runs, k + 1);
    RunFits(ts, others, p, cuts, runs, k);
    var lo, h := cuts[k], cuts[k + 1];
    assert ts[lo] in ts && ts[h] in ts;
    if ts[h].start <= MaxEnd(ts, lo, h) { OnlyTheCap(ts, others, p, lo, h); }
  }

  lemma {:induction false} RunsGrowAll(ts: seq<Span>, others: seq<Span>, p: Limits, cuts: seq<nat>, runs: seq<Run>,
                                       j: nat, k: nat)
    requires NonNegative(p) && AreRuns(ts, others, p, cuts, runs) && Fits(ts, p) && j < k < |runs|
    ensures runs[j].start < runs[k].start && runs[j].end < runs[k].end
  {
    hide AreRuns, Fits;
    RunsGrow(ts, others, p, cuts, runs, k - 1);
    if j < k - 1 { RunsGrowAll(ts, others, p, cuts, runs, j, k - 1); }
  }

  // ----- all utterances

  /** No turn is longer than the cap. */
  predicate NoTurnOverCap(turns: seq<Turn>, p: Limits) {
    forall t :: t in turns ==> t.span.end - t.span.start <= p.capMs
  }

  /** The utterances of one list, in order of start, none inside another. */
  predicate Growing(us: seq<Utterance>) {
    forall i, j :: 0 <= i < j < |us| ==> us[i].start < us[j].start && us[i].end < us[j].end
  }

  lemma {:induction false} FlattenSingles(pieces: seq<seq<Utterance>>)
    requires forall k :: 0 <= k < |pieces| ==> |pieces[k]| == 1
    ensures |Flatten(pieces)| == |pieces| && forall k :: 0 <= k < |pieces| ==> Flatten(pieces)[k] == pieces[k][0]
  {
    if pieces != [] { FlattenSingles(pieces[..|pieces| - 1]); }
  }

  lemma SortedFits(turns: seq<Turn>, p: Limits, speaker: string)
    requires NoTurnOverCap(turns, p)
    ensures Fits(Sorted(turns, speaker), p)
  {
    SortedFacts(turns, speaker);
    hide Sorted;
    forall s | s in Sorted(turns, speaker) ensures s.start < s.end <= s.start + p.capMs {
      assert Turn(s, speaker) in turns;
    }
  }

  /** Each run is one piece. */
  lemma WholeRuns(turns: seq<Turn>, raw: seq<Turn>, p: Limits, speaker: string, cuts: seq<nat>, runs: seq<Run>,
                  pieces: seq<seq<Utterance>>)
    requires NoTurnOverCap(turns, p) && SpeakerPart(turns, raw, p, speaker, cuts, runs, pieces)
    ensures |Flatten(pieces)| == |runs|
    ensures forall k :: 0 <= k < |runs| ==>
      Flatten(pieces)[k].start == runs[k].start && Flatten(pieces)[k].end == runs[k].end
  {
    SortedFits(turns, p, speaker);
    hide AreRuns, Sorted, Gating, Fits, Tiles, Fewest;
    forall k: nat | k < |runs|
      ensures pieces[k] == [Utterance(runs[k].start, runs[k].end, speaker, runs[k].count)]
    {
      RunFits(Sorted(turns, speaker), Gating(raw, speaker, p), p, cuts, runs, k);
    }
    FlattenSingles(pieces);
  }

  /** A speaker without a turn over the cap: whole runs, one after the other. */
  lemma PartGrows(turns: seq<Turn>, raw: seq<Turn>, p: Limits, speaker: string, part: seq<Utterance>)
    requires NonNegative(p) && NoTurnOverCap(turns, p) && IsPart(turns, raw, p, speaker, part)
    ensures Growing(part)
  {
    hide AreRuns, Sorted, Gating, Fits, Tiles, Fewest, Flatten, NoTurnOverCap, NonNegative;
    var cuts, runs: seq<Run>, pieces: seq<seq<Utterance>> :|
      SpeakerPart(turns, raw, p, speaker, cuts, runs, pieces) && part == Flatten(pieces);
    SortedFits(turns, p, speaker);
    WholeRuns(turns, raw, p, speaker, cuts, runs, pieces);
    forall i: nat, j: nat | i < j < |part| ensures part[i].start < part[j].start && part[i].end < part[j].end {
      RunsGrowAll(Sorted(turns, speaker), Gating(raw, speaker, p), p, cuts, runs, i, j);
    }
  }

  lemma {:induction false} FlattenDistinct(parts: seq<seq<Utterance>>)
    requires forall k :: 0 <= k < |parts| ==> Distinct(parts[k])
    requires forall k, l, u :: 0 <= k < l < |parts| && u in parts[k] ==> u !in parts[l]
    ensures Distinct(Flatten(parts))
  {
    if parts != [] {
      var n := |parts| - 1;
      var before, last := Flatten(parts[..n]), parts[n];
      FlattenDistinct(parts[..n]);
      FlattenMembers(parts[..n]);
      forall i, j | 0 <= i < j < |before + last| ensures (before + last)[i] != (before + last)[j] {
        if i < |before| && j >= |before| {
          assert before[i] in before && last[j - |before|] in last;
        }
      }
    }
  }

  /** The published list has each utterance once, and those of one speaker grow. */
  lemma NoneInside(turns: seq<Turn>, raw: seq<Turn>, p: Limits, speakers: seq<string>, parts: seq<seq<Utterance>>,
                   out: seq<Utterance>, i: nat, j: nat)
    requires p.capMs > 0 && NonNegative(p) && NoTurnOverCap(turns, p)
    requires AreUtterances(turns, raw, p, speakers, parts, out)
    requires i < |out| && j < |out| && i != j && out[i].speaker == out[j].speaker
    ensures !(out[i].start <= out[j].start && out[j].end <= out[i].end)
  {
    hide IsPart, NoTurnOverCap, UtteranceLe;
    forall k | 0 <= k < |parts|
      ensures Growing(parts[k]) && Distinct(parts[k])
      ensures forall u :: u in parts[k] ==> u.speaker == speakers[k]
    {
      PartGrows(turns, raw, p, speakers[k], parts[k]);
      forall u | u in parts[k] ensures u.speaker == speakers[k] { PartFacts(turns, raw, p, speakers[k], parts[k], u); }
    }
    FlattenDistinct(parts);
    DistinctByCounts(Flatten(parts));
    DistinctByCounts(out);
    var k := PartOf(parts, out, i);
    var l := PartOf(parts, out, j);
    assert k == l;
    var a :| 0 <= a < |parts[k]| && parts[k][a] == out[i];
    var b :| 0 <= b < |parts[k]| && parts[k][b] == out[j];
    if a < b { assert parts[k][a].start < parts[k][b].start && parts[k][a].end < parts[k][b].end; }
  }

  lemma PartOf(parts: seq<seq<Utterance>>, out: seq<Utterance>, i: nat) returns (k: nat)
    requires multiset(out) == multiset(Flatten(parts)) && i < |out|
    ensures k < |parts| && out[i] in parts[k]
  {
    FlattenMembers(parts);
    assert out[i] in multiset(out);
    assert out[i] in multiset(Flatten(parts));
    assert out[i] in Flatten(parts);
    k :| 0 <= k < |parts| && out[i] in parts[k];
  }

  // ----- the hosts of the published utterances

  /** What `interjection_hosts` is given. */
  function SpansOf(us: seq<Utterance>): (spans: seq<Spoken>)
    ensures |spans| == |us|
    ensures forall k :: 0 <= k < |us| ==> spans[k] == Spoken(us[k].start, us[k].end, us[k].speaker)
  {
    seq(|us|, k requires 0 <= k < |us| => Spoken(us[k].start, us[k].end, us[k].speaker))
  }

  /** End to end: with a gap and a budget that are not negative and no turn over the cap, no
      utterance lies inside another one of its speaker, and the hosts are those the docstring
      promises. */
  lemma UtterancesMeetDocstring(turns: seq<Turn>, raw: seq<Turn>, p: Limits, speakers: seq<string>,
                                parts: seq<seq<Utterance>>, out: seq<Utterance>, hosts: map<nat, nat>)
    requires p.capMs > 0 && NonNegative(p) && NoTurnOverCap(turns, p)
    requires AreUtterances(turns, raw, p, speakers, parts, out)
    requires SweepMeaning(SpansOf(out), Indices(|out|), hosts)
    ensures NoSameSpeakerNesting(SpansOf(out)) && Documented(SpansOf(out), hosts)
  {
    hide AreUtterances, SweepMeaning, Documented;
    UtterancesMeetContract(turns, raw, p, speakers, parts, out);
    forall i: nat, j: nat | i < |out| && j < |out| && i != j && out[i].speaker == out[j].speaker
      ensures !(out[i].start <= out[j].start && out[j].end <= out[i].end)
    {
      NoneInside(turns, raw, p, speakers, parts, out, i, j);
    }
    forall i | 0 <= i < |out| ensures NonEmpty(SpansOf(out)[i]) { assert out[i] in out; }
    NoNestingMeetsDocstring(SpansOf(out), hosts);
  }

  // ----- inputs that overlap and nest

  lemma SortedPair(a: Span, b: Span)
    requires SpanLe(a, b)
    ensures SortSpans([a, b]) == [a, b]
  {
    assert [a, b][1..] == [b] && [b][1..] == [];
  }

  lemma TwoTurns(a: Span, b: Span, c: string, d: string)
    requires a.start < a.end && b.start < b.end
    ensures TurnsOf([Turn(a, c), Turn(b, c)], d) == if c == d then [a, b] else []
  {
    var turns := [Turn(a, c), Turn(b, c)];
    assert turns[..1] == [Turn(a, c)] && turns[..1][..0] == [];
    assert TurnsOf(turns[..1], d) == if c == d then [a] else [];
  }

  /** Two runs of one turn each. */
  lemma TwoRuns(a: Span, b: Span, others: seq<Span>, p: Limits)
    requires NonNegative(p) && b.start <= a.end && Max(a.end, b.end) - a.start > p.capMs
    ensures AreRuns([a, b], others, p, [0, 1, 2], [Run(a.start, a.end, 1), Run(b.start, b.end, 1)])
  {
    var ts := [a, b];
    assert MaxEnd(ts, 0, 1) == a.end && MaxEnd(ts, 1, 2) == b.end;
    OnlyTheCap(ts, others, p, 0, 1);
    hide Joins;
    assert IsRun(ts, others, p, 0, 1) && IsRun(ts, others, p, 1, 2);
  }

  /** A run within the cap, whole. */
  lemma OnePiece(r: Run, c: string, cap: int)
    requires r.start < r.end <= r.start + cap
    ensures Tiles([Utterance(r.start, r.end, c, r.count)], r, c, cap)
    ensures Fewest([Utterance(r.start, r.end, c, r.count)], r, cap)
  {
  }

  /** A run of twice the cap, in halves. */
  lemma TwoPieces(start: int, c: string, cap: int)
    requires cap > 0
    ensures var us := [Utterance(start, start + cap, c, 1), Utterance(start + cap, start + cap + cap, c, 1)];
      var r := Run(start, start + cap + cap, 1);
      Tiles(us, r, c, cap) && Fewest(us, r, cap)
  {
  }

  lemma FlattenTwo(a: seq<Utterance>, b: seq<Utterance>)
    ensures Flatten([a, b]) == a + b && Flatten([a]) == a
  {
    assert [a, b][..1] == [a] && [a][..0] == [];
    assert Flatten([a]) == [] + a;
  }

  /** What is published of one speaker with two turns that do not merge. */
  lemma OneSpeaker(a: Span, b: Span, c: string, raw: seq<Turn>, p: Limits, first: seq<Utterance>,
                   second: seq<Utterance>, out: seq<Utterance>)
    requires p.capMs > 0 && NonNegative(p) && SpanLe(a, b) && a.start < a.end && b.start < b.end <= b.start + p.capMs
    requires b.start <= a.end && Max(a.end, b.end) - a.start > p.capMs
    requires Tiles(first, Run(a.start, a.end, 1), c, p.capMs) && Fewest(first, Run(a.start, a.end, 1), p.capMs)
    requires a.end - a.start <= p.capMs ==> first == [Utterance(a.start, a.end, c, 1)]
    requires second == [Utterance(b.start, b.end, c, 1)]
    requires multiset(out) == multiset(first + second)
    requires forall i, j :: 0 <= i < j < |out| ==> UtteranceLe(out[i], out[j])
    ensures AreUtterances([Turn(a, c), Turn(b, c)], raw, p, [c], [first + second], out)
  {
    hide Tiles, Fewest, UtteranceLe, IsPart, AreUtterances, TurnsOf;
    PartOfTwo(a, b, c, raw, p, first, second);
    OnlySpeaker(a, b, c);
    OneSpeakerList([Turn(a, c), Turn(b, c)], c, raw, p, first + second, out);
  }

  lemma OnlySpeaker(a: Span, b: Span, c: string)
    requires a.start < a.end && b.start < b.end
    ensures forall d :: d == c <==> TurnsOf([Turn(a, c), Turn(b, c)], d) != []
  {
    forall d ensures d == c <==> TurnsOf([Turn(a, c), Turn(b, c)], d) != [] {
      TwoTurns(a, b, c, d);
    }
  }

  lemma OneSpeakerList(turns: seq<Turn>, c: string, raw: seq<Turn>, p: Limits, part: seq<Utterance>,
                       out: seq<Utterance>)
    requires IsPart(turns, raw, p, c, part) && forall d :: d == c <==> TurnsOf(turns, d) != []
    requires multiset(out) == multiset(part)
    requires forall i, j :: 0 <= i < j < |out| ==> UtteranceLe(out[i], out[j])
    ensures AreUtterances(turns, raw, p, [c], [part], out)
  {
    hide IsPart, UtteranceLe, TurnsOf;
    FlattenTwo(part, []);
    hide Flatten;
  }

  lemma PartOfTwo(a: Span, b: Span, c: string, raw: seq<Turn>, p: Limits, first: seq<Utterance>,
                  second: seq<Utterance>)
    requires p.capMs > 0 && NonNegative(p) && SpanLe(a, b) && a.start < a.end && b.start < b.end <= b.start + p.capMs
    requires b.start <= a.end && Max(a.end, b.end) - a.start > p.capMs
    requires Tiles(first, Run(a.start, a.end, 1), c, p.capMs) && Fewest(first, Run(a.start, a.end, 1), p.capMs)
    requires a.end - a.start <= p.capMs ==> first == [Utterance(a.start, a.end, c, 1)]
    requires second == [Utterance(b.start, b.end, c, 1)]
    ensures IsPart([Turn(a, c), Turn(b, c)], raw, p, c, first + second)
  {
    hide Tiles, Fewest, AreRuns, Gating, Flatten, Sorted;
    var turns := [Turn(a, c), Turn(b, c)];
    SortedTurns(a, b, c);
    TwoRuns(a, b, Gating(raw, c, p), p);
    OnePiece(Run(b.start, b.end, 1), c, p.capMs);
    FlattenTwo(first, second);
    TwoParts(turns, raw, p, c, Run(a.start, a.end, 1), Run(b.start, b.end, 1), first, second);
  }

  lemma SortedTurns(a: Span, b: Span, c: string)
    requires SpanLe(a, b) && a.start < a.end && b.start < b.end
    ensures Sorted([Turn(a, c), Turn(b, c)], c) == [a, b]
  {
    hide TurnsOf, SortSpans;
    TwoTurns(a, b, c, c);
    SortedPair(a, b);
  }

  lemma TwoParts(turns: seq<Turn>, raw: seq<Turn>, p: Limits, c: string, r: Run, q: Run, first: seq<Utterance>,
                 second: seq<Utterance>)
    requires AreRuns(Sorted(turns, c), Gating(raw, c, p), p, [0, 1, 2], [r, q])
    requires Tiles(first, r, c, p.capMs) && Fewest(first, r, p.capMs)
    requires Tiles(second, q, c, p.capMs) && Fewest(second, q, p.capMs)
    requires r.end - r.start <= p.capMs ==> first == [Utterance(r.start, r.end, c, r.count)]
    requires second == [Utterance(q.start, q.end, c, q.count)] && Flatten([first, second]) == first + second
    ensures IsPart(turns, raw, p, c, first + second)
  {
    hide Tiles, Fewest, AreRuns, Gating, Sorted, Flatten;
    assert SpeakerPart(turns, raw, p, c, [0, 1, 2], [r, q], [first, second]);
  }

  /** Utterances of one speaker can overlap: under a 15 ms cap [0,10) and [5,20) stay apart. */
  lemma CapLeavesOverlap(c: string, raw: seq<Turn>)
    ensures var us := [Utterance(0, 10, c, 1), Utterance(5, 20, c, 1)];
      AreUtterances([Turn(Span(0, 10), c), Turn(Span(5, 20), c)], raw, Limits(500, 15, None), [c], [us], us)
  {
    var p := Limits(500, 15, None);
    var first, second := [Utterance(0, 10, c, 1)], [Utterance(5, 20, c, 1)];
    OnePiece(Run(0, 10, 1), c, 15);
    assert first + second == [Utterance(0, 10, c, 1), Utterance(5, 20, c, 1)];
    OneSpeaker(Span(0, 10), Span(5, 20), c, raw, p, first, second, first + second);
  }

  /** And lie inside one another: under a 10 ms cap [0,20) is split, and [2,5) lies in its first half. */
  lemma SplitLeavesNesting(c: string, raw: seq<Turn>)
    ensures exists parts :: AreUtterances([Turn(Span(0, 20), c), Turn(Span(2, 5), c)], raw, Limits(0, 10, None), [c],
                                          parts, NestedUtterances(c))
    ensures !NoSameSpeakerNesting(SpansOf(NestedUtterances(c)))
  {
    var first, second := [Utterance(0, 10, c, 1), Utterance(10, 20, c, 1)], [Utterance(2, 5, c, 1)];
    FirstInSecond(NestedUtterances(c));
    TwoPieces(0, c, 10);
    NestedAreSorted(c);
    hide Tiles, Fewest, NoSameSpeakerNesting, AreUtterances, UtteranceLe, NestedUtterances;
    OneSpeaker(Span(0, 20), Span(2, 5), c, raw, Limits(0, 10, None), first, second, NestedUtterances(c));
  }

  lemma NestedAreSorted(c: string)
    ensures var us := NestedUtterances(c);
      && multiset(us) == multiset([Utterance(0, 10, c, 1), Utterance(10, 20, c, 1)] + [Utterance(2, 5, c, 1)])
      && forall i, j :: 0 <= i < j < |us| ==> UtteranceLe(us[i], us[j])
  {
  }

  function NestedUtterances(c: string): (us: seq<Utterance>)
    ensures |us| == 3
  {
    [Utterance(0, 10, c, 1), Utterance(2, 5, c, 1), Utterance(10, 20, c, 1)]
  }

  lemma FirstInSecond(us: seq<Utterance>)
    requires |us| == 3 && us[0].speaker == us[1].speaker
    requires us[0].start <= us[1].start && us[1].end <= us[0].end
    ensures !NoSameSpeakerNesting(SpansOf(us))
  {
    var spans := SpansOf(us);
    assert spans[0].start <= spans[1].start && spans[1].end <= spans[0].end;
  }
}
