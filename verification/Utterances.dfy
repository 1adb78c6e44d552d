/** `utterances_from_turns` (processing/pipelines/diarize.py:132-210): same-speaker turns
    merged into bounded utterances, over-long single turns cut into near-equal pieces. */
module Utterances {
  import opened Arithmetic
  import opened Sorting
  import opened Wrappers
  import opened Intervals

  datatype Turn = Turn(span: Span, speaker: string)
  datatype Run = Run(start: int, end: int, count: nat)
  datatype Utterance = Utterance(start: int, end: int, speaker: string, turns: nat)
  datatype Limits = Limits(mergeGapMs: int, capMs: int, crosstalkMaxMs: Option<int>)

  // ----- greedy merging, stated on slices of the sorted turns

  /** The latest end among ts[lo..hi]. */
  function MaxEnd(ts: seq<Span>, lo: nat, hi: nat): (m: int)
    requires lo < hi <= |ts|
    ensures forall k :: lo <= k < hi ==> ts[k].end <= m
    ensures exists k :: lo <= k < hi && ts[k].end == m
  {
    if hi == lo + 1 then ts[lo].end else Max(MaxEnd(ts, lo, hi - 1), ts[hi - 1].end)
  }

  /** Foreign speech in the gap between the run ts[lo..k] and turn k. */
  function GapSpeech(ts: seq<Span>, others: seq<Span>, lo: nat, k: nat): nat
    requires lo < k < |ts|
  {
    |Points(others) * Range(MaxEnd(ts, lo, k), ts[k].start)|
  }

  /** Turn k may join the run that starts at lo. */
  predicate Joins(ts: seq<Span>, others: seq<Span>, p: Limits, lo: nat, k: nat)
    requires lo < k < |ts|
  {
    && ts[k].start - MaxEnd(ts, lo, k) <= p.mergeGapMs
    && Max(ts[k].end, MaxEnd(ts, lo, k)) - ts[lo].start <= p.capMs
    && (p.crosstalkMaxMs.Some? ==> GapSpeech(ts, others, lo, k) <= p.crosstalkMaxMs.value)
  }

  /** ts[lo..hi] is one run: every turn joined it, and the next one did not. */
  ghost predicate IsRun(ts: seq<Span>, others: seq<Span>, p: Limits, lo: nat, hi: nat) {
    && lo < hi <= |ts|
    && (forall k :: lo < k < hi ==> Joins(ts, others, p, lo, k))
    && (hi < |ts| ==> !Joins(ts, others, p, lo, hi))
  }

  function RunOf(ts: seq<Span>, lo: nat, hi: nat): Run
    requires lo < hi <= |ts|
  {
    Run(ts[lo].start, MaxEnd(ts, lo, hi), hi - lo)
  }

  /** `runs` cut ts at 0 = cuts[0] < cuts[1] < ... = |ts|, each slice a run. */
  ghost predicate AreRuns(ts: seq<Span>, others: seq<Span>, p: Limits, cuts: seq<nat>, runs: seq<Run>) {
    && |cuts| == |runs| + 1 && cuts[0] == 0 && cuts[|runs|] == |ts|
    && forall k :: 0 <= k < |runs| ==>
         IsRun(ts, others, p, cuts[k], cuts[k + 1]) && runs[k] == RunOf(ts, cuts[k], cuts[k + 1])
  }

  /** The runs closed so far, and the open one from lo to k. */
  ghost predicate Merging(ts: seq<Span>, others: seq<Span>, p: Limits, cuts: seq<nat>, done: seq<Run>, k: nat) {
    && |cuts| == |done| + 1 && cuts[0] == 0 && cuts[|done|] < k <= |ts|
    && (forall j :: 0 <= j < |done| ==>
          IsRun(ts, others, p, cuts[j], cuts[j + 1]) && done[j] == RunOf(ts, cuts[j], cuts[j + 1]))
    && (forall j :: cuts[|done|] < j < k ==> Joins(ts, others, p, cuts[|done|], j))
  }

  lemma CloseRun(ts: seq<Span>, others: seq<Span>, p: Limits, cuts: seq<nat>, done: seq<Run>, k: nat)
    requires Merging(ts, others, p, cuts, done, k)
    requires k < |ts| ==> !Joins(ts, others, p, cuts[|done|], k)
    ensures k < |ts| ==> Merging(ts, others, p, cuts + [k], done + [RunOf(ts, cuts[|done|], k)], k + 1)
    ensures k == |ts| ==> AreRuns(ts, others, p, cuts + [k], done + [RunOf(ts, cuts[|done|], k)])
  {
    hide Joins, RunOf;
    assert IsRun(ts, others, p, cuts[|done|], k);
  }

  /** The greedy loop. */
  method MergeTurns(ts: seq<Span>, others: seq<Span>, p: Limits) returns (merged: seq<Run>)
    requires StartSorted(others)
    ensures exists cuts :: AreRuns(ts, others, p, cuts, merged)
  {
    merged := [];
    ghost var cuts: seq<nat> := [0];
    if ts == [] {
      assert AreRuns(ts, others, p, cuts, merged);
      return;
    }
    merged := [Run(ts[0].start, ts[0].end, 1)];
    ghost var done: seq<Run> := [];
    for k := 1 to |ts|
      invariant Merging(ts, others, p, cuts, done, k) && merged == done + [RunOf(ts, cuts[|done|], k)]
    {
      var join := JoinsLast(ts, others, p, merged[|merged| - 1], cuts[|done|], k);
      if join {
        var last := merged[|merged| - 1];
        merged := merged[|merged| - 1 := Run(last.start, Max(last.end, ts[k].end), last.count + 1)];
      } else {
        CloseRun(ts, others, p, cuts, done, k);
        merged := merged + [Run(ts[k].start, ts[k].end, 1)];
        done, cuts := done + [RunOf(ts, cuts[|done|], k)], cuts + [k];
      }
    }
    CloseRun(ts, others, p, cuts, done, |ts|);
    cuts := cuts + [|ts|];
  }

  /** The merge test against the last run. */
  method JoinsLast(ts: seq<Span>, others: seq<Span>, p: Limits, last: Run, ghost lo: nat, k: nat) returns (join: bool)
    requires StartSorted(others) && lo < k < |ts| && last == RunOf(ts, lo, k)
    ensures join == Joins(ts, others, p, lo, k)
  {
    join := ts[k].start - last.end <= p.mergeGapMs && Max(ts[k].end, last.end) - last.start <= p.capMs;
    if join && p.crosstalkMaxMs.Some? {
      var foreign := GapCrosstalk(others, last.end, ts[k].start);
      join := foreign <= p.crosstalkMaxMs.value;
    }
  }

  // ----- splitting an over-long turn

  /** `math.ceil(duration / max_utterance_ms)` */
  function PieceCount(duration: int, cap: int): int
    requires cap > 0
  {
    (duration + cap - 1) / cap
  }

  /** Consecutive bounds lie d/p or one more apart; exactly d/p when p divides d. */
  lemma BoundStep(d: int, p: int, i: int)
    requires p > 0
    ensures d / p <= d * (i + 1) / p - d * i / p <= d / p + 1
    ensures d == d / p * p ==> d * (i + 1) / p - d * i / p == d / p
  {
    var q, a := d / p, d * i / p;
    var r, s := d - q * p, d * i - a * p;
    assert 0 <= r < p && 0 <= s < p;
    assert d * (i + 1) == (a + q) * p + (r + s);
    if r + s < p {
      Quotient(d * (i + 1), p, a + q);
    } else {
      Quotient(d * (i + 1), p, a + q + 1);
    }
  }

  /** There are at most as many pieces as milliseconds, and enough for the cap. */
  lemma PieceCountFits(d: int, cap: int)
    requires cap > 0 && d > cap
    ensures 2 <= PieceCount(d, cap) <= d <= PieceCount(d, cap) * cap
    ensures (PieceCount(d, cap) - 1) * cap < d
  {
    var p := PieceCount(d, cap);
    assert p * cap <= d + cap - 1 < (p + 1) * cap;
    Cancel(2, p + 1, cap);
    Multiply(1, cap, d);
    assert (d + 1) * cap == cap * d + cap;
    Cancel(p, d + 1, cap);
  }

  /** Pieces are not empty, respect the cap and differ by at most 1 ms. */
  lemma PieceLength(d: int, cap: int, p: int, i: int)
    requires 0 < p <= d <= p * cap
    ensures 1 <= d * (i + 1) / p - d * i / p <= cap
    ensures d / p <= d * (i + 1) / p - d * i / p <= d / p + 1
  {
    BoundStep(d, p, i);
    var q := d / p;
    assert q * p <= d < (q + 1) * p;
    Cancel(1, q + 1, p);
    assert (cap + 1) * p == p * cap + p;
    Cancel(q, cap + 1, p);
  }

  lemma BoundEnds(start: int, d: int, p: int)
    requires p > 0
    ensures start + d * 0 / p == start && start + d * p / p == start + d
  {
    Quotient(d * p, p, d);
  }

  /** The utterances of one run, tiling it. */
  ghost predicate Tiles(us: seq<Utterance>, r: Run, speaker: string, cap: int) {
    && us != [] && us[0].start == r.start && us[|us| - 1].end == r.end
    && (forall k :: 0 <= k < |us| - 1 ==> us[k].end == us[k + 1].start)
    && (forall k :: 0 <= k < |us| ==> us[k].speaker == speaker && us[k].turns == r.count)
    && (forall k :: 0 <= k < |us| ==> us[k].start < us[k].end <= us[k].start + cap)
    && (forall j, k :: 0 <= j < |us| && 0 <= k < |us| ==>
          us[j].end - us[j].start <= us[k].end - us[k].start + 1)
  }

  /** One piece fewer could not hold the run within the cap. */
  predicate Fewest(us: seq<Utterance>, r: Run, cap: int) {
    r.end - r.start > (|us| - 1) * cap
  }

  /** Piece k of a run cut into `pieces`. */
  function Piece(r: Run, speaker: string, pieces: int, k: int): Utterance
    requires pieces > 0
  {
    var d := r.end - r.start;
    Utterance(r.start + d * k / pieces, r.start + d * (k + 1) / pieces, speaker, r.count)
  }

  lemma PiecesTile(us: seq<Utterance>, r: Run, speaker: string, cap: int, pieces: int)
    requires cap > 0 && r.start < r.end
    requires |us| == pieces && 0 < pieces <= r.end - r.start <= pieces * cap
    requires forall k :: 0 <= k < pieces ==> us[k] == Piece(r, speaker, pieces, k)
    ensures Tiles(us, r, speaker, cap)
  {
    var d := r.end - r.start;
    BoundEnds(r.start, d, pieces);
    forall k | 0 <= k < pieces
      ensures us[k].start < us[k].end <= us[k].start + cap
      ensures d / pieces <= us[k].end - us[k].start <= d / pieces + 1
    {
      PieceLength(d, cap, pieces, k);
    }
  }

  method SplitRun(r: Run, speaker: string, cap: int) returns (us: seq<Utterance>)
    requires cap > 0 && r.start < r.end
    ensures Tiles(us, r, speaker, cap) && Fewest(us, r, cap)
    ensures r.end - r.start <= cap ==> us == [Utterance(r.start, r.end, speaker, r.count)]
  {
    var duration := r.end - r.start;
    if duration <= cap {
      return [Utterance(r.start, r.end, speaker, r.count)];
    }
    var pieces := PieceCount(duration, cap);
    PieceCountFits(duration, cap);
    hide PieceCount, Piece, Tiles;
    us := [];
    for index := 0 to pieces
      invariant |us| == index && forall k :: 0 <= k < index ==> us[k] == Piece(r, speaker, pieces, k)
    {
      us := us + [Piece(r, speaker, pieces, index)];
    }
    PiecesTile(us, r, speaker, cap, pieces);
  }

  // ----- speaker by speaker

  /** The non-empty turns of one speaker, in list order. */
  function TurnsOf(turns: seq<Turn>, speaker: string): seq<Span> {
    if turns == [] then []
    else
      var last := turns[|turns| - 1];
      var before := TurnsOf(turns[..|turns| - 1], speaker);
      if last.speaker == speaker && last.span.start < last.span.end then before + [last.span] else before
  }

  /** The non-empty turns of everybody else. */
  function TurnsBut(turns: seq<Turn>, speaker: string): seq<Span> {
    if turns == [] then []
    else
      var last := turns[|turns| - 1];
      var before := TurnsBut(turns[..|turns| - 1], speaker);
      if last.speaker != speaker && last.span.start < last.span.end then before + [last.span] else before
  }

  /** A speaker's turns as the merge sees them. */
  function Sorted(turns: seq<Turn>, speaker: string): seq<Span> {
    SortSpans(TurnsOf(turns, speaker))
  }

  /** The foreign speech that gates a speaker's merges: only consulted with a budget. */
  function Gating(raw: seq<Turn>, speaker: string, p: Limits): seq<Span> {
    if p.crosstalkMaxMs.None? then [] else SortSpans(TurnsBut(raw, speaker))
  }

  lemma {:induction false} TurnsOfMembers(turns: seq<Turn>, speaker: string)
    ensures forall s :: s in TurnsOf(turns, speaker) <==> Turn(s, speaker) in turns && s.start < s.end
  {
    if turns != [] {
      var before, last := turns[..|turns| - 1], turns[|turns| - 1];
      TurnsOfMembers(before, speaker);
      assert turns == before + [last];
    }
  }

  /** A speaker's turns, each as often as it is listed. */
  lemma {:induction false} TurnsOfCounts(turns: seq<Turn>, speaker: string)
    ensures forall s: Span ::
      multiset(TurnsOf(turns, speaker))[s] == if s.start < s.end then multiset(turns)[Turn(s, speaker)] else 0
  {
    if turns != [] {
      var before, last := turns[..|turns| - 1], turns[|turns| - 1];
      TurnsOfCounts(before, speaker);
      assert turns == before + [last];
      assert multiset(turns) == multiset(before) + multiset{last};
    }
  }

  /** Everybody else's non-empty turns. */
  lemma {:induction false} TurnsButMembers(turns: seq<Turn>, speaker: string, s: Span)
    ensures s in TurnsBut(turns, speaker)
      <==> s.start < s.end && exists i :: 0 <= i < |turns| && turns[i].speaker != speaker && turns[i].span == s
  {
    if turns != [] {
      var before, last := turns[..|turns| - 1], turns[|turns| - 1];
      TurnsButMembers(before, speaker, s);
      if i :| 0 <= i < |before| && before[i].speaker != speaker && before[i].span == s {
        assert turns[i] == before[i];
      }
      if i :| 0 <= i < |turns| && turns[i].speaker != speaker && turns[i].span == s {
        assert i < |before| ==> before[i] == turns[i];
      }
    }
  }

  lemma SortedFacts(turns: seq<Turn>, speaker: string)
    ensures StartSorted(Sorted(turns, speaker))
    ensures forall s :: s in Sorted(turns, speaker) <==> Turn(s, speaker) in turns && s.start < s.end
  {
    SortSpansSorts(TurnsOf(turns, speaker));
    TurnsOfMembers(turns, speaker);
  }

  /** The turns a speaker's merge runs over: the speaker's non-empty turns, each as often as it is
      listed, in order of start and then end. */
  lemma SortedMeans(turns: seq<Turn>, speaker: string)
    ensures forall s: Span ::
      multiset(Sorted(turns, speaker))[s] == if s.start < s.end then multiset(turns)[Turn(s, speaker)] else 0
    ensures var ts := Sorted(turns, speaker); forall i, j :: 0 <= i < j < |ts| ==>
      ts[i].start < ts[j].start || (ts[i].start == ts[j].start && ts[i].end <= ts[j].end)
  {
    TurnsOfCounts(turns, speaker);
    SortSpansOrders(TurnsOf(turns, speaker));
  }

  /** Foreign speech: the milliseconds of the gap at which the raw list has somebody else speak. */
  lemma GapSpeechMeans(turns: seq<Turn>, raw: seq<Turn>, p: Limits, speaker: string, lo: nat, k: nat)
    requires p.crosstalkMaxMs.Some? && lo < k < |Sorted(turns, speaker)|
    ensures var ts := Sorted(turns, speaker);
      var foreign := set t | t in Range(MaxEnd(ts, lo, k), ts[k].start)
        && exists i :: 0 <= i < |raw| && raw[i].speaker != speaker && raw[i].span.start <= t < raw[i].span.end;
      GapSpeech(ts, Gating(raw, speaker, p), lo, k) == |foreign|
  {
    hide Points, Range, SortSpans, TurnsBut, TurnsOf, MaxEnd;
    var ts, others := Sorted(turns, speaker), Gating(raw, speaker, p);
    SortSpansSorts(TurnsBut(raw, speaker));
    PointsAreCovered(others);
    forall t
      ensures t in Points(others)
        <==> exists i :: 0 <= i < |raw| && raw[i].speaker != speaker && raw[i].span.start <= t < raw[i].span.end
    {
      if i :| 0 <= i < |raw| && raw[i].speaker != speaker && raw[i].span.start <= t < raw[i].span.end {
        TurnsButMembers(raw, speaker, raw[i].span);
        assert raw[i].span in others;
        var j :| 0 <= j < |others| && others[j] == raw[i].span;
      }
      if CoveredBy(others, t) {
        var j :| 0 <= j < |others| && others[j].start <= t < others[j].end;
        assert others[j] in others;
        TurnsButMembers(raw, speaker, others[j]);
      }
    }
    assert Points(others) * Range(MaxEnd(ts, lo, k), ts[k].start)
      == set t | t in Range(MaxEnd(ts, lo, k), ts[k].start)
                 && exists i :: 0 <= i < |raw| && raw[i].speaker != speaker && raw[i].span.start <= t < raw[i].span.end;
  }

  /** One speaker's utterances: the greedy runs, each tiled by its pieces. */
  ghost predicate SpeakerPart(turns: seq<Turn>, raw: seq<Turn>, p: Limits, speaker: string, cuts: seq<nat>,
                              runs: seq<Run>, pieces: seq<seq<Utterance>>) {
    && AreRuns(Sorted(turns, speaker), Gating(raw, speaker, p), p, cuts, runs)
    && |pieces| == |runs|
    && forall k :: 0 <= k < |runs| ==>
         && Tiles(pieces[k], runs[k], speaker, p.capMs) && Fewest(pieces[k], runs[k], p.capMs)
         && (runs[k].end - runs[k].start <= p.capMs ==>
               pieces[k] == [Utterance(runs[k].start, runs[k].end, speaker, runs[k].count)])
  }

  ghost predicate IsPart(turns: seq<Turn>, raw: seq<Turn>, p: Limits, speaker: string, part: seq<Utterance>) {
    exists cuts, runs, pieces :: SpeakerPart(turns, raw, p, speaker, cuts, runs, pieces) && part == Flatten(pieces)
  }

  lemma RunIsNotEmpty(ts: seq<Span>, lo: nat, hi: nat)
    requires lo < hi <= |ts| && forall s :: s in ts ==> s.start < s.end
    ensures RunOf(ts, lo, hi).start < RunOf(ts, lo, hi).end
  {
    assert ts[lo] in ts;
  }

  method UtterancesOfSpeaker(turns: seq<Turn>, raw: seq<Turn>, p: Limits, speaker: string, spans: seq<Span>)
    returns (part: seq<Utterance>)
    requires p.capMs > 0 && spans == TurnsOf(turns, speaker)
    ensures IsPart(turns, raw, p, speaker, part)
  {
    hide AreRuns, Tiles, Fewest, IsRun, SortSpans, TurnsOf, TurnsBut;
    var others: seq<Span> := [];
    if p.crosstalkMaxMs.Some? {
      others := SortSpans(TurnsBut(raw, speaker));
      SortSpansSorts(TurnsBut(raw, speaker));
    }
    SortedFacts(turns, speaker);
    var merged := MergeTurns(SortSpans(spans), others, p);
    ghost var cuts :| AreRuns(SortSpans(spans), others, p, cuts, merged);
    part := [];
    ghost var pieces: seq<seq<Utterance>> := [];
    for k := 0 to |merged|
      invariant |pieces| == k && part == Flatten(pieces)
      invariant forall j :: 0 <= j < k ==>
        && Tiles(pieces[j], merged[j], speaker, p.capMs) && Fewest(pieces[j], merged[j], p.capMs)
        && (merged[j].end - merged[j].start <= p.capMs ==>
              pieces[j] == [Utterance(merged[j].start, merged[j].end, speaker, merged[j].count)])
    {
      MergedIsNotEmpty(SortSpans(spans), others, p, cuts, merged, k);
      var us := SplitRun(merged[k], speaker, p.capMs);
      pieces := pieces + [us];
      assert pieces[..|pieces| - 1] == pieces[..k];
      part := part + us;
    }
    assert SpeakerPart(turns, raw, p, speaker, cuts, merged, pieces);
  }

  lemma MergedIsNotEmpty(ts: seq<Span>, others: seq<Span>, p: Limits, cuts: seq<nat>, runs: seq<Run>, k: nat)
    requires AreRuns(ts, others, p, cuts, runs) && k < |runs| && forall s :: s in ts ==> s.start < s.end
    ensures runs[k].start < runs[k].end
  {
    RunIsNotEmpty(ts, cuts[k], cuts[k + 1]);
  }

  /** The speakers with a non-empty turn, in order of first appearance, and their turns. */
  method BySpeaker(turns: seq<Turn>) returns (speakers: seq<string>, spans: map<string, seq<Span>>)
    ensures Distinct(speakers) && forall c :: c in speakers <==> c in spans
    ensures forall c :: c in spans <==> TurnsOf(turns, c) != []
    ensures forall c :: c in spans ==> spans[c] == TurnsOf(turns, c)
  {
    speakers, spans := [], map[];
    for k := 0 to |turns|
      invariant Distinct(speakers) && forall c :: c in speakers <==> c in spans
      invariant forall c :: c in spans <==> TurnsOf(turns[..k], c) != []
      invariant forall c :: c in spans ==> spans[c] == TurnsOf(turns[..k], c)
    {
      var t := turns[k];
      assert turns[..k + 1][..k] == turns[..k] && turns[..k + 1][k] == t;
      if t.span.end > t.span.start {
        if t.speaker !in spans {
          speakers, spans := speakers + [t.speaker], spans[t.speaker := []];
        }
        spans := spans[t.speaker := spans[t.speaker] + [t.span]];
      }
    }
    assert turns[..|turns|] == turns;
  }

  predicate UtteranceLe(a: Utterance, b: Utterance) {
    if a.start != b.start then a.start < b.start
    else if a.end != b.end then a.end < b.end
    else StringLe(a.speaker, b.speaker)
  }

  lemma UtteranceLeIsTotal(le: (Utterance, Utterance) -> bool)
    requires forall a, b :: le(a, b) == UtteranceLe(a, b)
    ensures TotalPreorder(le)
  {
    forall a, b ensures le(a, b) || le(b, a) { StringLeTotal(a.speaker, b.speaker); }
    forall a, b, c | le(a, b) && le(b, c) ensures le(a, c) {
      if StringLe(a.speaker, b.speaker) && StringLe(b.speaker, c.speaker) {
        StringLeTransitive(a.speaker, b.speaker, c.speaker);
      }
    }
  }

  /** The utterances: each speaker's part, all in one sorted list. */
  ghost predicate AreUtterances(turns: seq<Turn>, raw: seq<Turn>, p: Limits, speakers: seq<string>,
                                parts: seq<seq<Utterance>>, out: seq<Utterance>) {
    && Distinct(speakers) && (forall c :: c in speakers <==> TurnsOf(turns, c) != [])
    && |parts| == |speakers| && (forall k :: 0 <= k < |speakers| ==> IsPart(turns, raw, p, speakers[k], parts[k]))
    && multiset(out) == multiset(Flatten(parts))
    && (forall i, j :: 0 <= i < j < |out| ==> UtteranceLe(out[i], out[j]))
  }

  /** `out.sort(...)` */
  method SortUtterances(all: seq<Utterance>) returns (out: seq<Utterance>)
    ensures multiset(out) == multiset(all)
    ensures forall i, j :: 0 <= i < j < |out| ==> UtteranceLe(out[i], out[j])
  {
    var le := (a: Utterance, b: Utterance) => UtteranceLe(a, b);
    UtteranceLeIsTotal(le);
    SortSorts(all, le);
    out := Sort(all, le);
    forall i, j | 0 <= i < j < |out| ensures UtteranceLe(out[i], out[j]) { assert le(out[i], out[j]); }
  }

  method UtterancesFromTurns(turns: seq<Turn>, raw: seq<Turn>, p: Limits)
    returns (out: seq<Utterance>, ghost speakers: seq<string>, ghost parts: seq<seq<Utterance>>)
    requires p.capMs > 0
    ensures AreUtterances(turns, raw, p, speakers, parts, out)
    ensures forall u :: u in out ==> u.start < u.end <= u.start + p.capMs
    ensures AllSpoken(turns, out)
    ensures forall i, j :: 0 <= i < j < |out| ==>
      || out[i].start < out[j].start
      || (out[i].start == out[j].start && out[i].end < out[j].end)
      || (out[i].start == out[j].start && out[i].end == out[j].end && StringLe(out[i].speaker, out[j].speaker))
  {
    hide IsPart, TurnsOf, Speaks, AllSpoken;
    var names, spans := BySpeaker(turns);
    speakers, parts := names, [];
    var all: seq<Utterance> := [];
    for k := 0 to |names|
      invariant |parts| == k && all == Flatten(parts)
      invariant forall j :: 0 <= j < k ==> IsPart(turns, raw, p, names[j], parts[j])
    {
      var part := UtterancesOfSpeaker(turns, raw, p, names[k], spans[names[k]]);
      parts := parts + [part];
      assert parts[..|parts| - 1] == parts[..k];
      all := all + part;
    }
    hide Flatten;
    out := SortUtterances(all);
    UtterancesMeetContract(turns, raw, p, speakers, parts, out);
  }

  // ----- what that means for the caller

  /** Where an utterance comes from: a run of its speaker's turns, whole, or one piece of a
      single turn that is longer than the cap. */
  ghost predicate FromRun(turns: seq<Turn>, raw: seq<Turn>, p: Limits, u: Utterance, lo: nat, hi: nat) {
    var ts := Sorted(turns, u.speaker);
    && IsRun(ts, Gating(raw, u.speaker, p), p, lo, hi) && u.turns == hi - lo
    && (if ts[lo].start == u.start && MaxEnd(ts, lo, hi) == u.end then true
        else hi == lo + 1 && ts[lo].end - ts[lo].start > p.capMs && ts[lo].start <= u.start && u.end <= ts[lo].end)
  }

  /** Merges respect the cap, so only a single turn can be longer. */
  lemma OverCapIsSingle(ts: seq<Span>, others: seq<Span>, p: Limits, lo: nat, hi: nat)
    requires IsRun(ts, others, p, lo, hi) && MaxEnd(ts, lo, hi) - ts[lo].start > p.capMs
    ensures hi == lo + 1
  {
    assert hi > lo + 1 ==> Joins(ts, others, p, lo, hi - 1);
  }

  lemma {:induction false} TilesCover(us: seq<Utterance>, r: Run, speaker: string, cap: int, t: int, n: nat)
    returns (u: Utterance)
    requires Tiles(us, r, speaker, cap) && 0 < n <= |us| && r.start <= t < us[n - 1].end
    ensures u in us && u.start <= t < u.end
  {
    if us[n - 1].start <= t {
      u := us[n - 1];
    } else {
      u := TilesCover(us, r, speaker, cap, t, n - 1);
    }
  }

  lemma {:induction false} TilesInside(us: seq<Utterance>, r: Run, speaker: string, cap: int, k: nat)
    requires Tiles(us, r, speaker, cap) && k < |us|
    ensures r.start <= us[k].start && us[k].end <= r.end
  {
    TilesAfter(us, r, speaker, cap, k);
    TilesBefore(us, r, speaker, cap, k);
  }

  lemma {:induction false} TilesAfter(us: seq<Utterance>, r: Run, speaker: string, cap: int, k: nat)
    requires Tiles(us, r, speaker, cap) && k < |us|
    ensures r.start <= us[k].start
  {
    if k > 0 {
      TilesAfter(us, r, speaker, cap, k - 1);
      assert us[k - 1].end == us[k - 1 + 1].start;
    }
  }

  lemma {:induction false} TilesBefore(us: seq<Utterance>, r: Run, speaker: string, cap: int, k: nat)
    requires Tiles(us, r, speaker, cap) && k < |us|
    ensures us[k].end <= r.end
    decreases |us| - k
  {
    if k + 1 < |us| {
      TilesBefore(us, r, speaker, cap, k + 1);
    }
  }

  lemma PartFacts(turns: seq<Turn>, raw: seq<Turn>, p: Limits, speaker: string, part: seq<Utterance>, u: Utterance)
    requires IsPart(turns, raw, p, speaker, part) && u in part && p.capMs > 0
    ensures u.speaker == speaker && u.start < u.end <= u.start + p.capMs
    ensures exists lo, hi :: FromRun(turns, raw, p, u, lo, hi)
  {
    var cuts, runs: seq<Run>, pieces :|
      SpeakerPart(turns, raw, p, speaker, cuts, runs, pieces) && part == Flatten(pieces);
    FlattenMembers(pieces);
    var k :| 0 <= k < |pieces| && u in pieces[k];
    var j :| 0 <= j < |pieces[k]| && pieces[k][j] == u;
    var ts, others := Sorted(turns, speaker), Gating(raw, speaker, p);
    TilesInside(pieces[k], runs[k], speaker, p.capMs, j);
    if runs[k].end - runs[k].start > p.capMs {
      OverCapIsSingle(ts, others, p, cuts[k], cuts[k + 1]);
    }
    assert FromRun(turns, raw, p, u, cuts[k], cuts[k + 1]);
  }

  /** The slice that holds turn i. */
  lemma {:induction false} SliceOf(ts: seq<Span>, others: seq<Span>, p: Limits, cuts: seq<nat>, runs: seq<Run>,
                                   i: nat, n: nat)
    returns (k: nat)
    requires AreRuns(ts, others, p, cuts, runs) && n <= |runs| && i < cuts[n]
    ensures k < |runs| && cuts[k] <= i < cuts[k + 1]
  {
    if cuts[n - 1] <= i {
      k := n - 1;
    } else {
      k := SliceOf(ts, others, p, cuts, runs, i, n - 1);
    }
  }

  /** A slice's run spans each of its turns. */
  lemma RunSpansTurn(ts: seq<Span>, lo: nat, hi: nat, i: nat)
    requires lo <= i < hi <= |ts| && StartSorted(ts)
    ensures RunOf(ts, lo, hi).start <= ts[i].start && ts[i].end <= RunOf(ts, lo, hi).end
  {
  }

  /** The k-th run and its pieces. */
  lemma PartAt(turns: seq<Turn>, raw: seq<Turn>, p: Limits, speaker: string, cuts: seq<nat>, runs: seq<Run>,
               pieces: seq<seq<Utterance>>, k: nat)
    requires SpeakerPart(turns, raw, p, speaker, cuts, runs, pieces) && k < |runs|
    ensures |cuts| == |runs| + 1 && cuts[k] < cuts[k + 1] <= |Sorted(turns, speaker)| && k < |pieces|
    ensures runs[k] == RunOf(Sorted(turns, speaker), cuts[k], cuts[k + 1])
    ensures Tiles(pieces[k], runs[k], speaker, p.capMs)
  {
    hide Joins, RunOf, Tiles, Sorted, Gating;
  }

  lemma PartCovers(turns: seq<Turn>, raw: seq<Turn>, p: Limits, speaker: string, part: seq<Utterance>, s: Span, t: int)
    returns (u: Utterance)
    requires IsPart(turns, raw, p, speaker, part) && Turn(s, speaker) in turns && s.start <= t < s.end
    ensures u in part && u.start <= t < u.end
  {
    hide Joins, IsRun, RunOf, Sorted, Gating, StartSorted;
    var cuts, runs: seq<Run>, pieces :|
      SpeakerPart(turns, raw, p, speaker, cuts, runs, pieces) && part == Flatten(pieces);
    var ts := Sorted(turns, speaker);
    SortedFacts(turns, speaker);
    var i :| 0 <= i < |ts| && ts[i] == s;
    var k := SliceOf(ts, Gating(raw, speaker, p), p, cuts, runs, i, |runs|);
    hide SpeakerPart, AreRuns;
    PartAt(turns, raw, p, speaker, cuts, runs, pieces, k);
    RunSpansTurn(ts, cuts[k], cuts[k + 1], i);
    u := TilesCover(pieces[k], runs[k], speaker, p.capMs, t, |pieces[k]|);
    FlattenMembers(pieces);
  }

  /** Every millisecond of every turn is covered by an utterance of its speaker. */
  ghost predicate AllSpoken(turns: seq<Turn>, out: seq<Utterance>) {
    forall s, c, t {:trigger Turn(s, c) in turns, Speaks(out, c, t)} ::
      Turn(s, c) in turns && s.start <= t < s.end ==> Speaks(out, c, t)
  }

  /** No utterance is empty or over the cap; each one is a run of its speaker's turns, or a
      piece of a single over-long turn; and every turn is covered by its speaker's. */
  lemma UtterancesMeetContract(turns: seq<Turn>, raw: seq<Turn>, p: Limits, speakers: seq<string>,
                               parts: seq<seq<Utterance>>, out: seq<Utterance>)
    requires p.capMs > 0 && AreUtterances(turns, raw, p, speakers, parts, out)
    ensures forall u :: u in out ==> u.start < u.end <= u.start + p.capMs
    ensures forall u :: u in out ==> exists lo, hi :: FromRun(turns, raw, p, u, lo, hi)
    ensures AllSpoken(turns, out)
  {
    FlattenMembers(parts);
    forall u ensures u in out <==> u in Flatten(parts) {
      assert u in out <==> u in multiset(out);
      assert u in Flatten(parts) <==> u in multiset(Flatten(parts));
    }
    forall u | u in out
      ensures u.start < u.end <= u.start + p.capMs && exists lo, hi :: FromRun(turns, raw, p, u, lo, hi)
    {
      var k :| 0 <= k < |parts| && u in parts[k];
      PartFacts(turns, raw, p, speakers[k], parts[k], u);
    }
    forall s, c, t | Turn(s, c) in turns && s.start <= t < s.end
      ensures Speaks(out, c, t)
    {
      TurnsOfMembers(turns, c);
      assert s in TurnsOf(turns, c);
      var k :| 0 <= k < |speakers| && speakers[k] == c;
      var u := PartCovers(turns, raw, p, c, parts[k], s, t);
      PartFacts(turns, raw, p, c, parts[k], u);
    }
  }

  /** Some utterance of the speaker covers the millisecond. */
  ghost predicate Speaks(out: seq<Utterance>, speaker: string, t: int) {
    exists u :: u in out && u.speaker == speaker && u.start <= t < u.end
  }

  /** Inside a merged utterance every gap is short, and at most the budget of its milliseconds lie
      in a raw turn of somebody else; and the utterance never grew past the cap. */
  lemma MergedGapsAreQuiet(turns: seq<Turn>, raw: seq<Turn>, p: Limits, u: Utterance, lo: nat, hi: nat, k: nat)
    requires FromRun(turns, raw, p, u, lo, hi) && lo < k < hi
    ensures var ts := Sorted(turns, u.speaker);
      var foreign := set t | t in Range(MaxEnd(ts, lo, k), ts[k].start)
        && exists i :: 0 <= i < |raw| && raw[i].speaker != u.speaker && raw[i].span.start <= t < raw[i].span.end;
      && ts[k].start - MaxEnd(ts, lo, k) <= p.mergeGapMs
      && ts[k].end - ts[lo].start <= p.capMs && MaxEnd(ts, lo, k) - ts[lo].start <= p.capMs
      && (p.crosstalkMaxMs.Some? ==> |foreign| <= p.crosstalkMaxMs.value)
  {
    if p.crosstalkMaxMs.Some? { GapSpeechMeans(turns, raw, p, u.speaker, lo, k); }
    hide GapSpeech, Gating, Sorted, MaxEnd;
    assert Joins(Sorted(turns, u.speaker), Gating(raw, u.speaker, p), p, lo, k);
  }

  /** A run ends before the speaker's next turn for a reason: the gap is too long, the two together
      are over the cap, or more than the budget of the gap lies in a raw turn of somebody else. */
  lemma RefusedForAReason(turns: seq<Turn>, raw: seq<Turn>, p: Limits, speaker: string, lo: nat, hi: nat)
    requires IsRun(Sorted(turns, speaker), Gating(raw, speaker, p), p, lo, hi) && hi < |Sorted(turns, speaker)|
    ensures var ts := Sorted(turns, speaker);
      var foreign := set t | t in Range(MaxEnd(ts, lo, hi), ts[hi].start)
        && exists i :: 0 <= i < |raw| && raw[i].speaker != speaker && raw[i].span.start <= t < raw[i].span.end;
      || ts[hi].start - MaxEnd(ts, lo, hi) > p.mergeGapMs
      || ts[hi].end - ts[lo].start > p.capMs || MaxEnd(ts, lo, hi) - ts[lo].start > p.capMs
      || (p.crosstalkMaxMs.Some? && |foreign| > p.crosstalkMaxMs.value)
  {
    if p.crosstalkMaxMs.Some? { GapSpeechMeans(turns, raw, p, speaker, lo, hi); }
    hide GapSpeech, Gating, Sorted, MaxEnd;
  }
}
