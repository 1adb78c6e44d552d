/** Grouping utterances into conversations (processing/pipelines/conversation.py:132-178,
    215-299). The user's labels per block are a parameter; speaker sets and alternation
    counts of the statistics are left out. */
module Conversations {
  import opened Arithmetic
  import opened Sorting
  import opened Wrappers

  datatype Boundary = Gap | BlockSeam | SpeakerChange | SessionStart | SessionEnd

  datatype Turn = Turn(id: nat, start: int, end: int, speaker: Option<string>, block: Option<int>)

  datatype Stats = Stats(start: int, end: int, turns: nat)

  datatype Conversation = Conversation(
    members: seq<Turn>,
    stats: Stats,
    opening: Boundary,
    closure: Boundary,
    gapBefore: Option<int>,
    gapAfter: Option<int>
  )

  /** The latest end of a non-empty list of turns. */
  function LastEnd(ts: seq<Turn>): int
    requires ts != []
  {
    var last := ts[|ts| - 1].end;
    if |ts| == 1 then last else Max(LastEnd(ts[..|ts| - 1]), last)
  }

  lemma {:induction false} LastEndIsLatest(ts: seq<Turn>)
    requires ts != []
    ensures forall k :: 0 <= k < |ts| ==> ts[k].end <= LastEnd(ts)
    ensures exists k :: 0 <= k < |ts| && ts[k].end == LastEnd(ts)
  {
    assert ts[|ts| - 1].end <= LastEnd(ts);
    if |ts| > 1 {
      var before := ts[..|ts| - 1];
      LastEndIsLatest(before);
      var k :| 0 <= k < |before| && before[k].end == LastEnd(before);
      assert ts[k].end == LastEnd(before);
    }
  }

  /** The latest end heard before turn i, from zero. */
  function HeardUntil(ts: seq<Turn>, i: nat): int
    requires i <= |ts|
  {
    if i == 0 then 0 else Max(HeardUntil(ts, i - 1), ts[i - 1].end)
  }

  predicate TurnLe(a: Turn, b: Turn) {
    if a.start != b.start then a.start < b.start
    else if a.end != b.end then a.end < b.end
    else a.id <= b.id
  }

  function SortTurns(turns: seq<Turn>): seq<Turn> {
    Sort(turns, (a: Turn, b: Turn) => TurnLe(a, b))
  }

  /** The turns, in order of start, then end, then id: the same turns, each as often. */
  ghost predicate InOrderOf(ordered: seq<Turn>, turns: seq<Turn>) {
    && multiset(ordered) == multiset(turns)
    && forall i, j :: 0 <= i < j < |ordered| ==> TurnLe(ordered[i], ordered[j])
  }

  lemma SortTurnsOrders(turns: seq<Turn>)
    ensures InOrderOf(SortTurns(turns), turns)
    ensures var ts := SortTurns(turns); forall i, j :: 0 <= i < j < |ts| ==>
      || ts[i].start < ts[j].start
      || (ts[i].start == ts[j].start && ts[i].end < ts[j].end)
      || (ts[i].start == ts[j].start && ts[i].end == ts[j].end && ts[i].id <= ts[j].id)
  {
    var le := (a: Turn, b: Turn) => TurnLe(a, b);
    SortSorts(turns, le);
    forall i, j | 0 <= i < j < |turns| ensures TurnLe(SortTurns(turns)[i], SortTurns(turns)[j]) {
      assert le(SortTurns(turns)[i], SortTurns(turns)[j]);
    }
  }

  // ----- grouping by gap and block

  /** Why a run closes before turn i, if it does: silence past the gap, else a block seam. */
  function SeamAt(ts: seq<Turn>, gapMs: int, i: nat): Option<Boundary>
    requires 0 < i < |ts|
  {
    if ts[i].start - HeardUntil(ts, i) > gapMs then Some(Gap)
    else if ts[i].block != ts[i - 1].block then Some(BlockSeam)
    else None
  }

  lemma {:induction false} HeardBefore(ts: seq<Turn>, i: nat, t: int)
    requires i <= |ts|
    ensures HeardUntil(ts, i) < t <==> 0 < t && forall j :: 0 <= j < i ==> ts[j].end < t
  {
    if i > 0 { HeardBefore(ts, i - 1, t); }
  }

  /** A gap: the turn starts more than the gap after the start of the session and after every turn
      before it has ended. A block seam: no gap, but another block than the turn just before. */
  lemma SeamMeans(ts: seq<Turn>, gapMs: int, i: nat)
    requires 0 < i < |ts|
    ensures SeamAt(ts, gapMs, i) == Some(Gap)
      <==> ts[i].start > gapMs && forall j :: 0 <= j < i ==> ts[i].start - ts[j].end > gapMs
    ensures SeamAt(ts, gapMs, i) == Some(BlockSeam)
      <==> ts[i].block != ts[i - 1].block
           && (ts[i].start <= gapMs || exists j :: 0 <= j < i && ts[i].start - ts[j].end <= gapMs)
    ensures SeamAt(ts, gapMs, i).Some? ==> SeamAt(ts, gapMs, i).value == Gap || SeamAt(ts, gapMs, i).value == BlockSeam
  {
    HeardBefore(ts, i, ts[i].start - gapMs);
  }

  /** Positions where a list is cut: 0 = cuts[0] < ... < cuts[n] = length. */
  predicate AreCuts(cuts: seq<nat>, length: nat) {
    && |cuts| > 0 && cuts[0] == 0 && cuts[|cuts| - 1] == length
    && forall j, k :: 0 <= j < k < |cuts| ==> cuts[j] < cuts[k]
  }

  /** The slices of ts between consecutive cuts, up to the last cut. */
  function Slices(ts: seq<Turn>, cuts: seq<nat>): (runs: seq<seq<Turn>>)
    requires |cuts| > 0 && AreCuts(cuts, cuts[|cuts| - 1]) && cuts[|cuts| - 1] <= |ts|
    ensures |runs| == |cuts| - 1
  {
    seq(|cuts| - 1, k requires 0 <= k < |cuts| - 1 => CutsInRange(cuts, k); ts[cuts[k]..cuts[k + 1]])
  }

  lemma CutsInRange(cuts: seq<nat>, k: nat)
    requires |cuts| > 0 && AreCuts(cuts, cuts[|cuts| - 1]) && k + 1 < |cuts|
    ensures cuts[k] < cuts[k + 1] <= cuts[|cuts| - 1]
  {
  }

  /** Moving the end one turn further lengthens the last slice. */
  lemma LastSliceGrows(ts: seq<Turn>, starts: seq<nat>, i: nat)
    requires i < |ts| && AreCuts(starts + [i], i) && starts != []
    ensures AreCuts(starts + [i + 1], i + 1)
    ensures var last := |starts| - 1;
      && starts[last] < i && Slices(ts, starts + [i])[last] == ts[starts[last]..i]
      && Slices(ts, starts + [i + 1]) == Slices(ts, starts + [i])[last := ts[starts[last]..i] + [ts[i]]]
  {
    var before, after, last := starts + [i], starts + [i + 1], |starts| - 1;
    forall j, k | 0 <= j < k < |after| ensures after[j] < after[k] { assert before[j] < before[k]; }
    CutsInRange(before, last);
    forall k | 0 <= k < |starts|
      ensures Slices(ts, after)[k] == if k == last then ts[starts[last]..i] + [ts[i]] else Slices(ts, before)[k]
    {
      CutsInRange(before, k);
      CutsInRange(after, k);
    }
  }

  /** A new start opens a slice of one turn. */
  lemma NewSliceOpens(ts: seq<Turn>, starts: seq<nat>, i: nat)
    requires i < |ts| && AreCuts(starts + [i], i) && starts != []
    ensures AreCuts(starts + [i] + [i + 1], i + 1)
    ensures Slices(ts, starts + [i] + [i + 1]) == Slices(ts, starts + [i]) + [[ts[i]]]
  {
    var before, after := starts + [i], starts + [i] + [i + 1];
    forall j, k | 0 <= j < k < |after| ensures after[j] < after[k] {
      if k < |before| { assert before[j] < before[k]; }
    }
    forall k | 0 <= k < |before| ensures Slices(ts, after)[k] == (Slices(ts, before) + [[ts[i]]])[k] {
      CutsInRange(after, k);
      if k < |starts| { CutsInRange(before, k); }
    }
  }

  /** The runs are cut exactly at the seams below n, and each records its seam. */
  ghost predicate CutAtSeams(ts: seq<Turn>, gapMs: int, cuts: seq<nat>, closures: seq<Boundary>, n: nat)
    requires n <= |ts|
  {
    && |cuts| == |closures| + 1
    && (forall k :: 0 < k < |cuts| ==> 0 < cuts[k] < n && SeamAt(ts, gapMs, cuts[k]) == Some(closures[k - 1]))
    && (forall i :: 0 < i < n && SeamAt(ts, gapMs, i).Some? ==> i in cuts)
  }

  /** The result of grouping: runs between consecutive starts, and why each run closed. */
  ghost predicate Grouped(ts: seq<Turn>, gapMs: int, starts: seq<nat>, runs: seq<seq<Turn>>, closures: seq<Boundary>) {
    if ts == [] then runs == []
    else
      && AreCuts(starts + [|ts|], |ts|) && starts != [] && runs == Slices(ts, starts + [|ts|])
      && |closures| > 0 && closures[|closures| - 1] == SessionEnd
      && CutAtSeams(ts, gapMs, starts, closures[..|closures| - 1], |ts|)
  }

  /** The grouping loop's state: the runs up to turn i, and the seams so far. */
  ghost predicate Grouping(ts: seq<Turn>, gapMs: int, starts: seq<nat>, runs: seq<seq<Turn>>, closures: seq<Boundary>,
                           i: nat) {
    && i <= |ts| && starts != [] && AreCuts(starts + [i], i) && runs == Slices(ts, starts + [i])
    && CutAtSeams(ts, gapMs, starts, closures, i)
  }

  lemma GroupStep(ts: seq<Turn>, gapMs: int, starts: seq<nat>, runs: seq<seq<Turn>>, closures: seq<Boundary>, i: nat)
    requires Grouping(ts, gapMs, starts, runs, closures, i) && 0 < i < |ts|
    ensures runs != [] && runs[|runs| - 1] != [] && runs[|runs| - 1][|runs[|runs| - 1]| - 1] == ts[i - 1]
    ensures SeamAt(ts, gapMs, i).None? ==>
      Grouping(ts, gapMs, starts, runs[|runs| - 1 := runs[|runs| - 1] + [ts[i]]], closures, i + 1)
    ensures SeamAt(ts, gapMs, i).Some? ==>
      Grouping(ts, gapMs, starts + [i], runs + [[ts[i]]], closures + [SeamAt(ts, gapMs, i).value], i + 1)
  {
    LastSliceGrows(ts, starts, i);
    NewSliceOpens(ts, starts, i);
    hide AreCuts, Slices, HeardUntil;
  }

  /** The grouping loop over the sorted turns. */
  method GroupRuns(ts: seq<Turn>, gapMs: int)
    returns (runs: seq<seq<Turn>>, closures: seq<Boundary>, ghost starts: seq<nat>)
    ensures |closures| == if ts == [] then 1 else |runs|
    ensures Grouped(ts, gapMs, starts, runs, closures)
  {
    runs, closures, starts := [], [], [0];
    if ts == [] { return runs, [SessionEnd], starts; }
    var end := Max(0, ts[0].end);
    runs := [[ts[0]]];
    assert Slices(ts, starts + [1]) == [ts[0..1]] && ts[0..1] == [ts[0]];
    assert Grouping(ts, gapMs, starts, runs, closures, 1);
    for i := 1 to |ts|
      invariant end == HeardUntil(ts, i) && Grouping(ts, gapMs, starts, runs, closures, i)
    {
      hide Grouping;
      GroupStep(ts, gapMs, starts, runs, closures, i);
      var turn, last := ts[i], runs[|runs| - 1];
      if turn.start - end > gapMs {
        closures, runs, starts := closures + [Gap], runs + [[turn]], starts + [i];
      } else if turn.block != last[|last| - 1].block {
        closures, runs, starts := closures + [BlockSeam], runs + [[turn]], starts + [i];
      } else {
        runs := runs[|runs| - 1 := last + [turn]];
      }
      end := Max(end, turn.end);
    }
    closures := closures + [SessionEnd];
    assert closures[..|closures| - 1] == closures[..|starts| - 1];
  }

  // ----- conversations from adjacent runs

  function Summary(run: seq<Turn>): Stats
    requires run != []
  {
    Stats(run[0].start, LastEnd(run), |run|)
  }

  predicate AllRuns(runs: seq<seq<Turn>>) {
    forall k :: 0 <= k < |runs| ==> runs[k] != []
  }

  /** The conversation of run k among its neighbours. */
  function Assembled(runs: seq<seq<Turn>>, closures: seq<Boundary>, k: nat): Conversation
    requires k < |runs| <= |closures| && AllRuns(runs)
  {
    Conversation(
      runs[k],
      Summary(runs[k]),
      if k == 0 then SessionStart else closures[k - 1],
      closures[k],
      if k == 0 then None else Some(runs[k][0].start - LastEnd(runs[k - 1])),
      if k + 1 == |runs| then None else Some(runs[k + 1][0].start - LastEnd(runs[k])))
  }

  /** Neighbours agree on why they meet and on the silence between them. */
  predicate Agree(a: Conversation, b: Conversation) {
    a.closure == b.opening && a.gapAfter == b.gapBefore && a.gapAfter.Some?
  }

  /** The silence between neighbours runs from one's last end to the other's first start. */
  ghost predicate Measured(cs: seq<Conversation>) {
    forall k :: 0 < k < |cs| ==> cs[k].gapBefore == Some(cs[k].stats.start - cs[k - 1].stats.end)
  }

  ghost predicate Adjacent(cs: seq<Conversation>) {
    forall k :: 0 < k < |cs| ==> Agree(cs[k - 1], cs[k])
  }

  /** Statistics are those of the members. */
  predicate Describes(c: Conversation) {
    c.members != [] && c.stats == Summary(c.members)
  }

  /** Statistics: the first start, the latest end, the number of members. */
  lemma DescribesMeans(c: Conversation)
    requires Describes(c)
    ensures c.members != [] && c.stats.turns == |c.members| && c.stats.start == c.members[0].start
    ensures forall k :: 0 <= k < |c.members| ==> c.members[k].end <= c.stats.end
    ensures exists k :: 0 <= k < |c.members| && c.members[k].end == c.stats.end
  {
    LastEndIsLatest(c.members);
  }

  lemma AssembledAgree(runs: seq<seq<Turn>>, closures: seq<Boundary>, out: seq<Conversation>)
    requires |runs| <= |closures| && AllRuns(runs) && |out| == |runs|
    requires forall k :: 0 <= k < |runs| ==> out[k] == Assembled(runs, closures, k)
    ensures Adjacent(out) && Measured(out) && forall k :: 0 <= k < |out| ==> Describes(out[k])
  {
    hide LastEnd;
  }

  /** The conversations of the runs: members and statistics of each run, the closures as reasons,
      agreement and measured silence between neighbours, nothing beyond the ends. */
  method Assemble(runs: seq<seq<Turn>>, closures: seq<Boundary>) returns (out: seq<Conversation>)
    requires |runs| <= |closures| && AllRuns(runs)
    ensures |out| == |runs|
    ensures forall k :: 0 <= k < |runs| ==> out[k].members == runs[k] && out[k].closure == closures[k]
    ensures Adjacent(out) && Measured(out) && forall k :: 0 <= k < |out| ==> Describes(out[k])
    ensures out != [] ==> out[0].opening == SessionStart && out[0].gapBefore == None && out[|out| - 1].gapAfter == None
    ensures forall k :: 0 <= k < |runs| ==> out[k] == Assembled(runs, closures, k)
  {
    hide LastEnd;
    out := [];
    for k := 0 to |runs|
      invariant |out| == k && forall j :: 0 <= j < k ==> out[j] == Assembled(runs, closures, j)
    {
      var stats := Summary(runs[k]);
      var opening, before := SessionStart, None;
      if k > 0 {
        opening, before := closures[k - 1], Some(stats.start - LastEnd(runs[k - 1]));
      }
      var after := None;
      if k + 1 < |runs| {
        after := Some(runs[k + 1][0].start - stats.end);
      }
      out := out + [Conversation(runs[k], stats, opening, closures[k], before, after)];
    }
    AssembledAgree(runs, closures, out);
  }

  // ----- splitting where the participants change

  /** The labelled turns that are not the user's. */
  function Others(ts: seq<Turn>, user: set<string>): seq<string> {
    if ts == [] then []
    else
      var last := ts[|ts| - 1];
      Others(ts[..|ts| - 1], user)
      + if last.speaker.Some? && last.speaker.value !in user then [last.speaker.value] else []
  }

  /** The speakers of the windows before and after i are disjoint, with enough turns each. */
  predicate Shift(ms: seq<Turn>, user: set<string>, window: nat, minTurns: int, i: nat)
    requires window <= i && i + window <= |ms|
  {
    var before, after := Others(ms[i - window..i], user), Others(ms[i..i + window], user);
    && |before| >= minTurns && |after| >= minTurns
    && forall x :: x in before ==> x !in after
  }

  lemma OthersGrow(ms: seq<Turn>, user: set<string>, lo: nat, hi: nat)
    requires lo < hi <= |ms|
    ensures var last := ms[hi - 1].speaker;
      Others(ms[lo..hi], user)
      == Others(ms[lo..hi - 1], user) + if last.Some? && last.value !in user then [last.value] else []
  {
    assert ms[lo..hi][..hi - lo - 1] == ms[lo..hi - 1];
  }

  /** The turns of somebody other than the user between two positions: how many, and whose. */
  lemma {:induction false} OthersCount(ms: seq<Turn>, user: set<string>, lo: nat, hi: nat)
    requires lo <= hi <= |ms|
    ensures |Others(ms[lo..hi], user)|
      == |set k | lo <= k < hi && ms[k].speaker.Some? && ms[k].speaker.value !in user :: k|
    decreases hi
  {
    var ks := set k | lo <= k < hi && ms[k].speaker.Some? && ms[k].speaker.value !in user :: k;
    if lo < hi {
      OthersGrow(ms, user, lo, hi);
      OthersCount(ms, user, lo, hi - 1);
      hide Others;
      var fewer := set k | lo <= k < hi - 1 && ms[k].speaker.Some? && ms[k].speaker.value !in user :: k;
      var last := ms[hi - 1].speaker;
      if last.Some? && last.value !in user {
        assert ks == fewer + {hi - 1};
      } else {
        assert ks == fewer;
      }
    } else {
      assert ks == {};
    }
  }

  lemma {:induction false} OthersMembers(ms: seq<Turn>, user: set<string>, lo: nat, hi: nat, x: string)
    requires lo <= hi <= |ms|
    ensures x in Others(ms[lo..hi], user) <==> x !in user && exists k :: lo <= k < hi && ms[k].speaker == Some(x)
    decreases hi
  {
    if lo < hi {
      OthersGrow(ms, user, lo, hi);
      OthersMembers(ms, user, lo, hi - 1, x);
      hide Others;
    }
  }

  /** No speaker but the user's is heard on both sides of i. */
  ghost predicate NoneOnBothSides(ms: seq<Turn>, user: set<string>, window: nat, i: nat)
    requires window <= i && i + window <= |ms|
  {
    forall j, k :: i - window <= j < i <= k < i + window && ms[j].speaker.Some? && ms[j].speaker == ms[k].speaker
      ==> ms[j].speaker.value in user
  }

  /** A shift at i: in the window before i and in the window from i on enough turns have a speaker who
      is not the user, and no such speaker is heard in both. */
  lemma ShiftMeans(ms: seq<Turn>, user: set<string>, window: nat, minTurns: int, i: nat)
    requires window <= i && i + window <= |ms|
    ensures Shift(ms, user, window, minTurns, i) <==>
      && |set k | i - window <= k < i && ms[k].speaker.Some? && ms[k].speaker.value !in user :: k| >= minTurns
      && |set k | i <= k < i + window && ms[k].speaker.Some? && ms[k].speaker.value !in user :: k| >= minTurns
      && NoneOnBothSides(ms, user, window, i)
  {
    OthersCount(ms, user, i - window, i);
    OthersCount(ms, user, i, i + window);
    NoneShared(ms, user, window, i);
    hide Others, NoneOnBothSides;
  }

  lemma NoneShared(ms: seq<Turn>, user: set<string>, window: nat, i: nat)
    requires window <= i && i + window <= |ms|
    ensures var before, after := Others(ms[i - window..i], user), Others(ms[i..i + window], user);
      NoneOnBothSides(ms, user, window, i) <==> forall x :: x in before ==> x !in after
  {
    hide Others;
    var before, after := Others(ms[i - window..i], user), Others(ms[i..i + window], user);
    if j, k :| i - window <= j < i <= k < i + window && ms[j].speaker.Some? && ms[j].speaker == ms[k].speaker
               && ms[j].speaker.value !in user {
      OthersMembers(ms, user, i - window, i, ms[j].speaker.value);
      OthersMembers(ms, user, i, i + window, ms[j].speaker.value);
    }
    if x :| x in before && x in after {
      OthersMembers(ms, user, i - window, i, x);
      OthersMembers(ms, user, i, i + window, x);
      var j :| i - window <= j < i && ms[j].speaker == Some(x);
      var k :| i <= k < i + window && ms[k].speaker == Some(x);
      assert ms[j].speaker == ms[k].speaker;
    }
  }

  /** Greedy cuts below i: each one a shift at least a window past the one before, and no
      other shift is skipped than those inside a window after a cut. */
  ghost predicate ChurnCuts(ms: seq<Turn>, user: set<string>, window: nat, minTurns: int, cuts: seq<nat>, i: nat) {
    && (forall k :: 0 <= k < |cuts| ==> window <= cuts[k] && cuts[k] + window <= |ms| && cuts[k] + window <= i)
    && (forall k :: 0 <= k < |cuts| && window <= cuts[k] && cuts[k] + window <= |ms| ==>
          Shift(ms, user, window, minTurns, cuts[k]))
    && (forall j, k :: 0 <= j < k < |cuts| ==> cuts[j] + window <= cuts[k])
    && (forall j :: window <= j < i && j + window <= |ms| && Shift(ms, user, window, minTurns, j) ==>
          AfterCut(cuts, window, j))
  }

  ghost predicate AfterCut(cuts: seq<nat>, window: nat, j: int) {
    exists k :: 0 <= k < |cuts| && cuts[k] <= j < cuts[k] + window
  }

  lemma AddShift(ms: seq<Turn>, user: set<string>, window: nat, minTurns: int, cuts: seq<nat>, i: nat)
    requires window <= i && i + window <= |ms| && Shift(ms, user, window, minTurns, i)
    requires ChurnCuts(ms, user, window, minTurns, cuts, i)
    ensures ChurnCuts(ms, user, window, minTurns, cuts + [i], i + window)
  {
    hide Shift;
    var more := cuts + [i];
    forall j | window <= j < i + window && (j >= i || AfterCut(cuts, window, j))
      ensures AfterCut(more, window, j)
    {
      if j < i {
        var k :| 0 <= k < |cuts| && cuts[k] <= j < cuts[k] + window;
        assert more[k] == cuts[k];
      } else {
        assert more[|cuts|] == i;
      }
    }
  }

  method FindShifts(ms: seq<Turn>, user: set<string>, window: nat, minTurns: int) returns (cuts: seq<nat>)
    requires window >= 1 && |ms| >= 2 * window
    ensures ChurnCuts(ms, user, window, minTurns, cuts, |ms| + 1)
  {
    hide Shift;
    cuts := [];
    var i := window;
    while i <= |ms| - window
      invariant window <= i <= |ms| + 1
      invariant ChurnCuts(ms, user, window, minTurns, cuts, i)
      decreases |ms| - i
    {
      if Shift(ms, user, window, minTurns, i) {
        AddShift(ms, user, window, minTurns, cuts, i);
        cuts := cuts + [i];
        i := i + window;
      } else {
        i := i + 1;
      }
    }
  }

  /** The first and last piece keep the conversation's own outer boundaries. */
  function Outer(pieces: seq<Conversation>, c: Conversation): seq<Conversation>
    requires |pieces| >= 2
  {
    var n := |pieces| - 1;
    pieces[0 := pieces[0].(opening := c.opening, gapBefore := c.gapBefore)]
          [n := pieces[n].(closure := c.closure, gapAfter := c.gapAfter)]
  }

  /** What splitting keeps: the members in order, agreement inside, and the outer boundaries. */
  ghost predicate SplitOf(c: Conversation, window: nat, pieces: seq<Conversation>) {
    && pieces != [] && Flatten(MembersOf(pieces)) == c.members && Adjacent(pieces)
    && (forall k :: 0 <= k < |pieces| ==> Describes(pieces[k]))
    && pieces[0].opening == c.opening && pieces[0].gapBefore == c.gapBefore
    && pieces[0].stats.start == c.stats.start
    && pieces[|pieces| - 1].closure == c.closure && pieces[|pieces| - 1].gapAfter == c.gapAfter
    && (|pieces| == 1 ==> pieces[0] == c)
    && (|pieces| > 1 ==> forall k :: 0 <= k < |pieces| ==> |pieces[k].members| >= window)
  }

  /** Where splitting cuts: at the greedy shifts, nowhere when the conversation is too short
      for two windows; inner boundaries are speaker changes and their silence is measured. */
  ghost predicate ChurnSplit(c: Conversation, user: set<string>, window: int, minTurns: int,
                             pieces: seq<Conversation>, cuts: seq<nat>) {
    && (if window < 1 || |c.members| < 2 * window then cuts == []
        else ChurnCuts(c.members, user, window, minTurns, cuts, |c.members| + 1))
    && |pieces| == |cuts| + 1
    && (cuts == [] ==> pieces == [c])
    && (forall k :: 0 <= k < |pieces| ==> IsSlice(c.members, [0] + cuts + [|c.members|], k, pieces[k].members))
    && (forall k :: 0 < k < |pieces| ==> pieces[k].opening == SpeakerChange)
    && Measured(pieces)
  }

  function MembersOf(cs: seq<Conversation>): (ms: seq<seq<Turn>>)
    ensures |ms| == |cs| && forall k :: 0 <= k < |cs| ==> ms[k] == cs[k].members
  {
    seq(|cs|, k requires 0 <= k < |cs| => cs[k].members)
  }

  /** Slicing and concatenating again gives the list back. */
  lemma {:induction false} SlicesFlatten(ts: seq<Turn>, cuts: seq<nat>)
    requires |cuts| > 0 && AreCuts(cuts, cuts[|cuts| - 1]) && cuts[|cuts| - 1] <= |ts|
    ensures Flatten(Slices(ts, cuts)) == ts[..cuts[|cuts| - 1]]
    decreases |cuts|
  {
    if |cuts| > 1 {
      var n := |cuts| - 1;
      var shorter := cuts[..n];
      CutsInRange(cuts, n - 1);
      SlicesFlatten(ts, shorter);
      var runs := Slices(ts, cuts);
      forall k | 0 <= k < n - 1 ensures runs[..n - 1][k] == Slices(ts, shorter)[k] {
        CutsInRange(cuts, k);
        CutsInRange(shorter, k);
      }
      assert runs[..n - 1] == Slices(ts, shorter);
      assert ts[..cuts[n - 1]] + ts[cuts[n - 1]..cuts[n]] == ts[..cuts[n]];
    }
  }

  predicate Spaced(cuts: seq<nat>, window: nat) {
    forall j, k :: 0 <= j < k < |cuts| ==> cuts[j] + window <= cuts[k]
  }

  lemma ShiftsAreSpaced(ms: seq<Turn>, user: set<string>, window: nat, minTurns: int, cuts: seq<nat>)
    requires window >= 1 && cuts != [] && ChurnCuts(ms, user, window, minTurns, cuts, |ms| + 1)
    ensures var all := [0] + cuts + [|ms|]; Spaced(all, window) && AreCuts(all, |ms|)
  {
    hide Shift, AfterCut;
    var all := [0] + cuts + [|ms|];
    assert window <= cuts[0] && cuts[0] + window <= |ms|;
    forall j, k | 0 <= j < k < |all| ensures all[j] + window <= all[k] {
      assert j > 0 ==> all[j] == cuts[j - 1];
      assert k < |all| - 1 ==> all[k] == cuts[k - 1];
    }
  }

  lemma SliceIs(ts: seq<Turn>, cuts: seq<nat>, k: nat)
    requires |cuts| > 0 && AreCuts(cuts, cuts[|cuts| - 1]) && cuts[|cuts| - 1] <= |ts| && k + 1 < |cuts|
    ensures cuts[k] < cuts[k + 1] <= |ts| && Slices(ts, cuts)[k] == ts[cuts[k]..cuts[k + 1]]
  {
    CutsInRange(cuts, k);
  }

  /** The list cut at the shifts: every piece has at least a window of turns. */
  lemma ShiftsCut(ms: seq<Turn>, user: set<string>, window: nat, minTurns: int, cuts: seq<nat>)
    requires window >= 1 && cuts != [] && ChurnCuts(ms, user, window, minTurns, cuts, |ms| + 1)
    ensures AreCuts([0] + cuts + [|ms|], |ms|)
    ensures var runs := Slices(ms, [0] + cuts + [|ms|]);
      && |runs| == |cuts| + 1 && AllRuns(runs) && Flatten(runs) == ms && runs[0][0] == ms[0]
      && forall k :: 0 <= k < |runs| ==> |runs[k]| >= window
  {
    hide ChurnCuts, Flatten, Slices;
    ShiftsAreSpaced(ms, user, window, minTurns, cuts);
    var all := [0] + cuts + [|ms|];
    SlicesFlatten(ms, all);
    assert ms[..|ms|] == ms;
    var runs := Slices(ms, all);
    forall k | 0 <= k < |runs| ensures |runs[k]| >= window {
      SliceIs(ms, all, k);
    }
    SliceIs(ms, all, 0);
    assert all[0] == 0;
  }

  lemma OuterKeeps(c: Conversation, window: nat, runs: seq<seq<Turn>>, closures: seq<Boundary>, out: seq<Conversation>)
    requires Describes(c) && |closures| == |runs| == |out| >= 2 && AllRuns(runs)
    requires Flatten(runs) == c.members && runs[0][0] == c.members[0]
    requires forall k :: 0 <= k < |runs| ==> |runs[k]| >= window && out[k] == Assembled(runs, closures, k)
    ensures SplitOf(c, window, Outer(out, c))
  {
    hide LastEnd, Flatten;
    AssembledAgree(runs, closures, out);
    var pieces := Outer(out, c);
    forall k | 0 <= k < |runs|
      ensures pieces[k].members == runs[k] && Describes(pieces[k])
    {
      assert Describes(out[k]) && out[k].members == runs[k];
    }
    assert MembersOf(pieces) == runs;
    OuterAgree(c, out);
    hide Assembled, Summary, Agree;
  }

  lemma OuterCuts(c: Conversation, cuts: seq<nat>, runs: seq<seq<Turn>>, closures: seq<Boundary>,
                  out: seq<Conversation>)
    requires cuts != [] && |closures| == |runs| == |out| == |cuts| + 1 && AllRuns(runs)
    requires AreCuts([0] + cuts + [|c.members|], |c.members|) && runs == Slices(c.members, [0] + cuts + [|c.members|])
    requires closures == seq(|cuts|, _ => SpeakerChange) + [c.closure]
    requires forall k :: 0 <= k < |runs| ==> out[k] == Assembled(runs, closures, k)
    ensures var pieces := Outer(out, c);
      && (forall k :: 0 <= k < |pieces| ==> IsSlice(c.members, [0] + cuts + [|c.members|], k, pieces[k].members))
      && (forall k :: 0 < k < |pieces| ==> pieces[k].opening == SpeakerChange)
      && Measured(pieces)
  {
    hide LastEnd, AreCuts, Slices;
    AssembledAgree(runs, closures, out);
    var pieces, all := Outer(out, c), [0] + cuts + [|c.members|];
    forall k | 0 <= k < |pieces| ensures IsSlice(c.members, all, k, pieces[k].members) {
      assert all[|all| - 1] == |c.members|;
      SliceIs(c.members, all, k);
      assert out[k].members == runs[k];
    }
    forall k | 0 < k < |pieces| ensures pieces[k].opening == SpeakerChange {
      assert out[k].opening == closures[k - 1];
    }
    forall k | 0 < k < |pieces| ensures pieces[k].gapBefore == Some(pieces[k].stats.start - pieces[k - 1].stats.end) {
      assert out[k].gapBefore == Some(out[k].stats.start - out[k - 1].stats.end);
    }
  }

  lemma OuterAgree(c: Conversation, out: seq<Conversation>)
    requires |out| >= 2 && Adjacent(out)
    ensures Adjacent(Outer(out, c))
  {
    forall k | 0 < k < |out| ensures Agree(Outer(out, c)[k - 1], Outer(out, c)[k]) {
      assert Agree(out[k - 1], out[k]);
    }
  }

  method SplitOnChurn(c: Conversation, user: set<string>, window: int, minTurns: int)
    returns (pieces: seq<Conversation>, ghost at: seq<nat>)
    requires Describes(c)
    ensures SplitOf(c, Max(0, window), pieces)
    ensures ChurnSplit(c, user, window, minTurns, pieces, at)
  {
    hide ChurnCuts, AreCuts, Slices, SplitOf, ChurnSplit, Flatten, Describes, Assembled, AllRuns, Outer;
    at := [];
    if window < 1 || |c.members| < 2 * window {
      WholeIsSplit(c, user, window, minTurns);
      return [c], [];
    }
    var cuts := FindShifts(c.members, user, window, minTurns);
    if cuts == [] {
      WholeIsSplit(c, user, window, minTurns);
      return [c], [];
    }
    at := cuts;
    ShiftsCut(c.members, user, window, minTurns, cuts);
    var runs := Slices(c.members, [0] + cuts + [|c.members|]);
    var closures := seq(|cuts|, _ => SpeakerChange) + [c.closure];
    var out := Assemble(runs, closures);
    PiecesAreSplit(c, user, window, minTurns, cuts, runs, closures, out);
    pieces := Outer(out, c);
  }

  lemma PiecesAreSplit(c: Conversation, user: set<string>, window: nat, minTurns: int, cuts: seq<nat>,
                       runs: seq<seq<Turn>>, closures: seq<Boundary>, out: seq<Conversation>)
    requires Describes(c) && window >= 1 && |c.members| >= 2 * window && cuts != []
    requires ChurnCuts(c.members, user, window, minTurns, cuts, |c.members| + 1)
    requires |closures| == |runs| == |out| == |cuts| + 1 && AllRuns(runs)
    requires AreCuts([0] + cuts + [|c.members|], |c.members|) && runs == Slices(c.members, [0] + cuts + [|c.members|])
    requires Flatten(runs) == c.members && runs[0][0] == c.members[0]
    requires closures == seq(|cuts|, _ => SpeakerChange) + [c.closure]
    requires forall k :: 0 <= k < |runs| ==> |runs[k]| >= window && out[k] == Assembled(runs, closures, k)
    ensures SplitOf(c, window, Outer(out, c)) && ChurnSplit(c, user, window, minTurns, Outer(out, c), cuts)
  {
    hide ChurnCuts, AreCuts, Slices, SplitOf, Flatten, Describes, Assembled, AllRuns, Measured, IsSlice;
    OuterKeeps(c, window, runs, closures, out);
    OuterCuts(c, cuts, runs, closures, out);
  }

  /** No shift, or too short for one. */
  lemma WholeIsSplit(c: Conversation, user: set<string>, window: int, minTurns: int)
    requires Describes(c)
    requires if window < 1 || |c.members| < 2 * window then true
             else ChurnCuts(c.members, user, window, minTurns, [], |c.members| + 1)
    ensures SplitOf(c, Max(0, window), [c])
    ensures ChurnSplit(c, user, window, minTurns, [c], [])
  {
    hide ChurnCuts, SplitOf;
    Unsplit(c);
  }

  lemma Unsplit(c: Conversation)
    requires Describes(c)
    ensures forall window: nat :: SplitOf(c, window, [c])
    ensures IsSlice(c.members, [0] + [] + [|c.members|], 0, c.members) && Measured([c])
  {
    assert c.members[0..|c.members|] == c.members;
    assert MembersOf([c]) == [c.members] && Flatten([c.members]) == c.members by {
      assert [c.members][..0] == [];
    }
  }

  // ----- the whole chain

  /** Grouping: a partition of the sorted turns into adjacent conversations. */
  method GroupConversations(turns: seq<Turn>, gapMs: int) returns (out: seq<Conversation>, ghost starts: seq<nat>)
    ensures InOrderOf(SortTurns(turns), turns)
    ensures Flatten(MembersOf(out)) == SortTurns(turns) && Adjacent(out) && Measured(out)
    ensures forall k :: 0 <= k < |out| ==> Describes(out[k])
    ensures IsGrouping(SortTurns(turns), gapMs, starts, out)
  {
    hide Slices, SortTurns;
    SortTurnsOrders(turns);
    var ordered := SortTurns(turns);
    var runs, closures;
    runs, closures, starts := GroupRuns(ordered, gapMs);
    GroupedFacts(ordered, gapMs, starts, runs, closures);
    out := Assemble(runs, closures);
    AssembledAgree(runs, closures, out);
    AssembledIsGrouping(ordered, gapMs, starts, runs, closures, out);
  }

  lemma AssembledIsGrouping(ts: seq<Turn>, gapMs: int, starts: seq<nat>, runs: seq<seq<Turn>>, closures: seq<Boundary>,
                            out: seq<Conversation>)
    requires |closures| == (if ts == [] then 1 else |runs|) && Grouped(ts, gapMs, starts, runs, closures)
    requires AllRuns(runs) && |out| == |runs| <= |closures|
    requires forall k :: 0 <= k < |runs| ==> out[k] == Assembled(runs, closures, k)
    ensures MembersOf(out) == runs && IsGrouping(ts, gapMs, starts, out)
  {
    hide LastEnd, Slices, IsSlice, SeamAt, Assembled, AllRuns, CutAtSeams, AreCuts, Flatten;
    GroupedFacts(ts, gapMs, starts, runs, closures);
    AssembledFields(runs, closures, out);
    assert MembersOf(out) == runs;
    if ts != [] {
      SeamsAreOpenings(ts, gapMs, starts, closures, out);
    }
  }

  lemma SeamsAreOpenings(ts: seq<Turn>, gapMs: int, starts: seq<nat>, closures: seq<Boundary>, out: seq<Conversation>)
    requires |closures| == |out| == |starts| > 0 && CutAtSeams(ts, gapMs, starts, closures[..|closures| - 1], |ts|)
    requires forall k :: 0 <= k < |out| ==> out[k].opening == if k == 0 then SessionStart else closures[k - 1]
    ensures forall k :: 0 < k < |out| ==> 0 < starts[k] < |ts| && SeamAt(ts, gapMs, starts[k]) == Some(out[k].opening)
    ensures forall i :: 0 < i < |ts| && SeamAt(ts, gapMs, i).Some? ==> i in starts
  {
    hide SeamAt;
  }

  lemma AssembledFields(runs: seq<seq<Turn>>, closures: seq<Boundary>, out: seq<Conversation>)
    requires AllRuns(runs) && |out| == |runs| <= |closures|
    requires forall k :: 0 <= k < |runs| ==> out[k] == Assembled(runs, closures, k)
    ensures forall k :: 0 <= k < |runs| ==> out[k].members == runs[k] && out[k].closure == closures[k]
    ensures forall k :: 0 <= k < |runs| ==> out[k].opening == if k == 0 then SessionStart else closures[k - 1]
  {
    hide LastEnd;
  }

  /** Conversation k is the turns from starts[k] to the next start; it closes at the first
      seam after that start. */
  ghost predicate IsGrouping(ts: seq<Turn>, gapMs: int, starts: seq<nat>, out: seq<Conversation>) {
    if ts == [] then out == []
    else
      && |starts| == |out| && AreCuts(starts + [|ts|], |ts|)
      && (forall k :: 0 <= k < |out| ==> IsSlice(ts, starts + [|ts|], k, out[k].members))
      && out[0].opening == SessionStart && out[|out| - 1].closure == SessionEnd
      && (forall k :: 0 < k < |out| ==>
            0 < starts[k] < |ts| && SeamAt(ts, gapMs, starts[k]) == Some(out[k].opening))
      && (forall i :: 0 < i < |ts| && SeamAt(ts, gapMs, i).Some? ==> i in starts)
  }

  ghost predicate IsSlice(ts: seq<Turn>, cuts: seq<nat>, k: nat, ms: seq<Turn>) {
    k + 1 < |cuts| && cuts[k] < cuts[k + 1] <= |ts| && ms == ts[cuts[k]..cuts[k + 1]]
  }

  lemma GroupedFacts(ts: seq<Turn>, gapMs: int, starts: seq<nat>, runs: seq<seq<Turn>>, closures: seq<Boundary>)
    requires |closures| == (if ts == [] then 1 else |runs|) && Grouped(ts, gapMs, starts, runs, closures)
    ensures AllRuns(runs) && Flatten(runs) == ts
    ensures ts != [] ==> |runs| == |starts| > 0
    ensures ts != [] ==> forall k :: 0 <= k < |runs| ==> IsSlice(ts, starts + [|ts|], k, runs[k])
  {
    hide CutAtSeams, AreCuts, Slices;
    if ts != [] {
      var cuts := starts + [|ts|];
      SlicesFlatten(ts, cuts);
      assert ts[..|ts|] == ts;
      forall k | 0 <= k < |runs| ensures IsSlice(ts, cuts, k, runs[k]) {
        SliceIs(ts, cuts, k);
      }
    }
  }

  /** Concatenating splits keeps everything. */
  lemma JoinSplits(before: seq<Conversation>, pieces: seq<Conversation>, c: Conversation, window: nat)
    requires Adjacent(before) && SplitOf(c, window, pieces)
    requires before != [] ==> Agree(before[|before| - 1], c)
    ensures Adjacent(before + pieces)
    ensures Flatten(MembersOf(before + pieces)) == Flatten(MembersOf(before)) + c.members
    ensures var last := pieces[|pieces| - 1]; last.closure == c.closure && last.gapAfter == c.gapAfter
  {
    assert MembersOf(before + pieces) == MembersOf(before) + MembersOf(pieces);
    FlattenConcat(MembersOf(before), MembersOf(pieces));
    hide Flatten, MembersOf;
    var all := before + pieces;
    forall k | 0 < k < |all| ensures Agree(all[k - 1], all[k]) {
      if k > |before| { assert Agree(pieces[k - |before| - 1], pieces[k - |before|]); }
    }
  }

  /** Every conversation's pieces. */
  ghost predicate Built(groups: seq<Conversation>, window: nat, splits: seq<seq<Conversation>>) {
    |splits| == |groups| && forall k :: 0 <= k < |groups| ==> SplitOf(groups[k], window, splits[k])
  }

  /** Each of the first |churn| conversations is split at its shifts, seen with the user labels
      of its block. */
  ghost predicate SplitAtShifts(groups: seq<Conversation>, userOf: Option<int> -> set<string>, window: int,
                                minTurns: int, splits: seq<seq<Conversation>>, churn: seq<seq<nat>>) {
    && |churn| == |splits| <= |groups|
    && forall k :: 0 <= k < |churn| ==>
         && groups[k].members != []
         && ChurnSplit(groups[k], userOf(groups[k].members[0].block), window, minTurns, splits[k], churn[k])
  }

  lemma NextSplit(groups: seq<Conversation>, userOf: Option<int> -> set<string>, window: int, minTurns: int,
                  splits: seq<seq<Conversation>>, churn: seq<seq<nat>>, pieces: seq<Conversation>, cuts: seq<nat>)
    requires SplitAtShifts(groups, userOf, window, minTurns, splits, churn) && |churn| < |groups|
    requires groups[|churn|].members != []
    requires ChurnSplit(groups[|churn|], userOf(groups[|churn|].members[0].block), window, minTurns, pieces, cuts)
    ensures SplitAtShifts(groups, userOf, window, minTurns, splits + [pieces], churn + [cuts])
  {
    hide ChurnSplit;
  }

  /** The building loop's state after k conversations. */
  ghost predicate Building(gs: seq<Conversation>, window: nat, splits: seq<seq<Conversation>>, out: seq<Conversation>,
                           k: nat) {
    && |splits| == k <= |gs| && out == Flatten(splits) && Adjacent(out)
    && (forall j :: 0 <= j < k ==> SplitOf(gs[j], window, splits[j]))
    && Flatten(MembersOf(out)) == Flatten(MembersOf(gs[..k]))
    && (k > 0 ==>
          out != [] && out[|out| - 1].closure == gs[k - 1].closure && out[|out| - 1].gapAfter == gs[k - 1].gapAfter)
    && (k == 0 ==> out == [])
  }

  lemma BuildStep(gs: seq<Conversation>, window: nat, splits: seq<seq<Conversation>>, out: seq<Conversation>, k: nat,
                  pieces: seq<Conversation>)
    requires Building(gs, window, splits, out, k) && k < |gs| && Adjacent(gs) && SplitOf(gs[k], window, pieces)
    ensures Building(gs, window, splits + [pieces], out + pieces, k + 1)
  {
    hide SplitOf, Flatten, MembersOf;
    PiecesExist(gs[k], window, pieces);
    if k > 0 { assert Agree(gs[k - 1], gs[k]); }
    JoinSplits(out, pieces, gs[k], window);
    MembersStep(gs, k);
    FlattenConcat(splits, [pieces]);
    FlattenOne(pieces);
    hide Adjacent, Agree;
  }

  lemma MembersStep(gs: seq<Conversation>, k: nat)
    requires k < |gs|
    ensures Flatten(MembersOf(gs[..k + 1])) == Flatten(MembersOf(gs[..k])) + gs[k].members
  {
    assert MembersOf(gs[..k + 1])[..k] == MembersOf(gs[..k]);
  }

  lemma FlattenOne<T>(part: seq<T>)
    ensures Flatten([part]) == part
  {
    assert [part][..0] == [];
  }

  /** All pieces of all conversations, before the floor: a grouping of the sorted turns whose
      conversations are split at their shifts, nothing lost, neighbours in agreement. */
  ghost predicate IsBuild(turns: seq<Turn>, gapMs: int, window: int, churnMinTurns: int,
                          userOf: Option<int> -> set<string>, b: Build) {
    && IsGrouping(SortTurns(turns), gapMs, b.starts, b.groups) && Built(b.groups, Max(0, window), b.splits)
    && SplitAtShifts(b.groups, userOf, window, churnMinTurns, b.splits, b.churn)
    && b.all == Flatten(b.splits) && Adjacent(b.all)
    && InOrderOf(SortTurns(turns), turns) && Flatten(MembersOf(b.all)) == SortTurns(turns)
  }

  /** The intermediate lists. */
  datatype Build = Build(
    starts: seq<nat>,
    groups: seq<Conversation>,
    churn: seq<seq<nat>>,
    splits: seq<seq<Conversation>>,
    all: seq<Conversation>
  )

  /** `build_conversations`: group, split, then drop what is under the floor. */
  method BuildConversations(turns: seq<Turn>, gapMs: int, minTurns: int, window: int, churnMinTurns: int,
                            userOf: Option<int> -> set<string>)
    returns (result: seq<Conversation>, ghost b: Build, ghost kept: seq<nat>)
    ensures IsBuild(turns, gapMs, window, churnMinTurns, userOf, b)
    ensures |kept| == |result| && forall p, q :: 0 <= p < q < |kept| ==> kept[p] < kept[q]
    ensures forall p :: 0 <= p < |kept| ==> kept[p] < |b.all| && result[p] == b.all[kept[p]]
    ensures forall k: nat :: k in kept <==> k < |b.all| && |b.all[k].members| >= minTurns
  {
    hide ChurnSplit, SplitAtShifts, SplitOf, IsGrouping, SortTurns, InOrderOf, Describes, Measured, Adjacent, Flatten;
    hide MembersOf, AtLeast;
    var gs;
    ghost var starts, splits, churn: seq<seq<nat>>;
    gs, starts := GroupConversations(turns, gapMs);
    var out: seq<Conversation> := [];
    splits, churn := [], [];
    NothingBuilt(gs, Max(0, window));
    assert SplitAtShifts(gs, userOf, window, churnMinTurns, splits, churn) by {
      NothingSplit(gs, userOf, window, churnMinTurns);
    }
    for k := 0 to |gs|
      invariant Building(gs, Max(0, window), splits, out, k)
      invariant |churn| == k && SplitAtShifts(gs, userOf, window, churnMinTurns, splits, churn)
    {
      hide Building;
      FirstMember(gs, k);
      var pieces;
      ghost var cuts;
      pieces, cuts := SplitOnChurn(gs[k], userOf(gs[k].members[0].block), window, churnMinTurns);
      BuildStep(gs, Max(0, window), splits, out, k, pieces);
      NextSplit(gs, userOf, window, churnMinTurns, splits, churn, pieces, cuts);
      splits, churn := splits + [pieces], churn + [cuts];
      out := out + pieces;
    }
    assert gs[..|gs|] == gs;
    b := Build(starts, gs, churn, splits, out);
    result := AtLeast(out, minTurns);
    kept := AtLeastMeans(out, minTurns);
    forall k: nat | k < |out| ensures out[k].stats.turns == |out[k].members| {
      PiecesDescribe(gs, Max(0, window), splits, k);
    }
  }

  /** What is kept, and where it was: all that meets the floor, in order. */
  ghost predicate KeptAt(cs: seq<Conversation>, minTurns: int, r: seq<Conversation>, kept: seq<nat>) {
    && |kept| == |r| && (forall p :: 0 <= p < |kept| ==> kept[p] < |cs| && r[p] == cs[kept[p]])
    && (forall p, q :: 0 <= p < q < |kept| ==> kept[p] < kept[q])
    && forall k: nat :: k in kept <==> k < |cs| && cs[k].stats.turns >= minTurns
  }

  lemma KeepNext(cs: seq<Conversation>, minTurns: int, r: seq<Conversation>, kept: seq<nat>, c: Conversation)
    requires KeptAt(cs, minTurns, r, kept)
    ensures c.stats.turns >= minTurns ==> KeptAt(cs + [c], minTurns, r + [c], kept + [|cs|])
    ensures c.stats.turns < minTurns ==> KeptAt(cs + [c], minTurns, r, kept)
  {
    var n := |cs|;
    forall k: nat ensures k in kept + [n] <==> k in kept || k == n {
    }
  }

  lemma {:induction false} AtLeastMeans(cs: seq<Conversation>, minTurns: int) returns (kept: seq<nat>)
    ensures KeptAt(cs, minTurns, AtLeast(cs, minTurns), kept)
  {
    kept := [];
    if cs != [] {
      var n := |cs| - 1;
      kept := AtLeastMeans(cs[..n], minTurns);
      hide KeptAt;
      KeepNext(cs[..n], minTurns, AtLeast(cs[..n], minTurns), kept, cs[n]);
      assert cs[..n] + [cs[n]] == cs;
      if cs[n].stats.turns >= minTurns { kept := kept + [n]; }
    }
  }

  lemma PiecesDescribe(groups: seq<Conversation>, window: nat, splits: seq<seq<Conversation>>, k: nat)
    requires Built(groups, window, splits) && k < |Flatten(splits)|
    ensures var c := Flatten(splits)[k]; c.members != [] && c.stats.turns == |c.members|
  {
    var c := Flatten(splits)[k];
    FlattenMembers(splits);
    assert c in Flatten(splits);
    var g :| 0 <= g < |splits| && c in splits[g];
    hide Flatten, MembersOf, Adjacent;
    assert SplitOf(groups[g], window, splits[g]);
    DescribesMeans(c);
  }

  lemma FirstMember(gs: seq<Conversation>, k: nat)
    requires k < |gs| && forall j :: 0 <= j < |gs| ==> Describes(gs[j])
    ensures gs[k].members != [] && Describes(gs[k])
  {
  }

  lemma NothingSplit(gs: seq<Conversation>, userOf: Option<int> -> set<string>, window: int, minTurns: int)
    ensures SplitAtShifts(gs, userOf, window, minTurns, [], [])
  {
  }

  lemma NothingBuilt(gs: seq<Conversation>, window: nat)
    ensures Building(gs, window, [], [], 0)
  {
    assert gs[..0] == [];
  }

  lemma PiecesExist(c: Conversation, window: nat, pieces: seq<Conversation>)
    requires SplitOf(c, window, pieces)
    ensures pieces != []
  {
  }

  /** The min-turns floor, applied last. */
  function AtLeast(cs: seq<Conversation>, minTurns: int): seq<Conversation> {
    if cs == [] then []
    else
      var before := AtLeast(cs[..|cs| - 1], minTurns);
      if cs[|cs| - 1].stats.turns >= minTurns then before + [cs[|cs| - 1]] else before
  }

  /** What a caller may rely on inside one grouped conversation: between neighbours the
      session is never silent for longer than the gap, and the block never changes. */
  lemma GroupsAreQuiet(ts: seq<Turn>, gapMs: int, starts: seq<nat>, out: seq<Conversation>, k: nat, i: nat)
    requires ts != [] && IsGrouping(ts, gapMs, starts, out) && k < |out|
    requires starts[k] < i < (starts + [|ts|])[k + 1] <= |ts|
    ensures ts[i].start - HeardUntil(ts, i) <= gapMs && ts[i].block == ts[i - 1].block
    ensures ts[i].block == ts[starts[k]].block
  {
    forall j | starts[k] < j <= i ensures SeamAt(ts, gapMs, j).None? {
      if SeamAt(ts, gapMs, j).Some? { NoStartBetween(ts, starts, k, j); }
    }
    assert SeamAt(ts, gapMs, i).None?;
    BlockConstant(ts, gapMs, starts[k], i);
  }

  lemma NoStartBetween(ts: seq<Turn>, starts: seq<nat>, k: nat, j: nat)
    requires AreCuts(starts + [|ts|], |ts|) && k < |starts| && starts[k] < j < (starts + [|ts|])[k + 1]
    ensures j !in starts
  {
    var cuts := starts + [|ts|];
    forall l | 0 <= l < |starts| ensures starts[l] != j {
      if l <= k { assert cuts[l] <= cuts[k]; } else { assert cuts[k + 1] <= cuts[l]; }
    }
  }

  lemma {:induction false} BlockConstant(ts: seq<Turn>, gapMs: int, lo: nat, i: nat)
    requires lo <= i < |ts| && forall j :: lo < j <= i ==> SeamAt(ts, gapMs, j).None?
    ensures ts[i].block == ts[lo].block
  {
    if lo < i {
      BlockConstant(ts, gapMs, lo, i - 1);
      assert SeamAt(ts, gapMs, i).None?;
    }
  }

  // ----- silence among the members themselves

  /** The latest end since the block last changed, before turn i. */
  function StretchEnd(ts: seq<Turn>, i: nat): int
    requires 0 < i <= |ts|
  {
    if i == 1 || ts[i - 1].block != ts[i - 2].block then ts[i - 1].end
    else Max(StretchEnd(ts, i - 1), ts[i - 1].end)
  }

  lemma {:induction false} StretchIsHeard(ts: seq<Turn>, i: nat)
    requires 0 < i <= |ts|
    ensures StretchEnd(ts, i) <= HeardUntil(ts, i)
  {
    if i > 1 {
      StretchIsHeard(ts, i - 1);
    }
  }

  /** A run has heard exactly what its block's stretch has. */
  lemma {:induction false} RunEndIsStretchEnd(ts: seq<Turn>, gapMs: nat, lo: nat, i: nat)
    requires lo < i <= |ts| && forall j :: 0 <= j < |ts| ==> ts[j].start < ts[j].end
    requires lo == 0 || SeamAt(ts, gapMs, lo).Some?
    requires forall j :: lo < j < i ==> SeamAt(ts, gapMs, j).None?
    ensures LastEnd(ts[lo..i]) == StretchEnd(ts, i)
  {
    if i == lo + 1 {
      if lo > 0 { StretchIsHeard(ts, lo); }
    } else {
      RunEndIsStretchEnd(ts, gapMs, lo, i - 1);
      assert ts[lo..i][..i - 1 - lo] == ts[lo..i - 1];
      assert SeamAt(ts, gapMs, i - 1).None?;
    }
  }

  /** No member of conversation k starts later than the gap after the members before it. */
  ghost predicate OwnSilenceBounded(ts: seq<Turn>, gapMs: int, starts: seq<nat>, k: nat)
    requires k < |starts|
  {
    forall i: nat :: starts[k] < i < (starts + [|ts|])[k + 1] && i < |ts| ==>
      ts[i].start - LastEnd(ts[starts[k]..i]) <= gapMs
  }

  /** The loop measures silence against everything heard so far, other blocks included. So
      the gap bounds the silence among a conversation's own members exactly when, at every
      turn the loop joins, it also bounds the silence since the block's own stretch. */
  lemma OwnSilenceExactlyWhen(ts: seq<Turn>, gapMs: nat, starts: seq<nat>, out: seq<Conversation>)
    requires ts != [] && IsGrouping(ts, gapMs, starts, out)
    requires forall j :: 0 <= j < |ts| ==> ts[j].start < ts[j].end
    ensures (forall k :: 0 <= k < |starts| ==> OwnSilenceBounded(ts, gapMs, starts, k)) <==>
            (forall i :: 0 < i < |ts| && SeamAt(ts, gapMs, i).None? ==> ts[i].start - StretchEnd(ts, i) <= gapMs)
  {
    hide SeamAt, LastEnd, StretchEnd, AreCuts, IsGrouping;
    StartsMatch(ts, gapMs, starts, out);
    if forall k :: 0 <= k < |starts| ==> OwnSilenceBounded(ts, gapMs, starts, k) {
      forall i: nat | 0 < i < |ts| && SeamAt(ts, gapMs, i).None?
        ensures ts[i].start - StretchEnd(ts, i) <= gapMs
      {
        var k := RunOfInner(ts, gapMs, starts, out, i);
        InnerTurn(ts, gapMs, starts, out, k, i);
        assert OwnSilenceBounded(ts, gapMs, starts, k);
      }
    }
    if forall i :: 0 < i < |ts| && SeamAt(ts, gapMs, i).None? ==> ts[i].start - StretchEnd(ts, i) <= gapMs {
      forall k: nat | k < |starts| ensures OwnSilenceBounded(ts, gapMs, starts, k) {
        forall i: nat | starts[k] < i < (starts + [|ts|])[k + 1] && i < |ts|
          ensures ts[i].start - LastEnd(ts[starts[k]..i]) <= gapMs
        {
          InnerTurn(ts, gapMs, starts, out, k, i);
        }
      }
    }
  }

  lemma StartsMatch(ts: seq<Turn>, gapMs: int, starts: seq<nat>, out: seq<Conversation>)
    requires ts != [] && IsGrouping(ts, gapMs, starts, out)
    ensures |starts| == |out|
  {
  }

  lemma InnerTurn(ts: seq<Turn>, gapMs: nat, starts: seq<nat>, out: seq<Conversation>, k: nat, i: nat)
    requires ts != [] && IsGrouping(ts, gapMs, starts, out)
    requires forall j :: 0 <= j < |ts| ==> ts[j].start < ts[j].end
    requires k < |starts| && starts[k] < i < (starts + [|ts|])[k + 1] && i < |ts|
    ensures SeamAt(ts, gapMs, i).None? && LastEnd(ts[starts[k]..i]) == StretchEnd(ts, i)
  {
    forall j: nat | starts[k] < j <= i ensures SeamAt(ts, gapMs, j).None? {
      NoStartBetween(ts, starts, k, j);
    }
    if k > 0 { assert SeamAt(ts, gapMs, starts[k]).Some?; }
    RunEndIsStretchEnd(ts, gapMs, starts[k], i);
  }

  lemma RunOfInner(ts: seq<Turn>, gapMs: nat, starts: seq<nat>, out: seq<Conversation>, i: nat) returns (k: nat)
    requires ts != [] && IsGrouping(ts, gapMs, starts, out)
    requires 0 < i < |ts| && SeamAt(ts, gapMs, i).None?
    ensures k < |starts| && starts[k] < i < (starts + [|ts|])[k + 1]
  {
    hide SeamAt;
    k := RunOfTurn(ts, starts, i, |starts|);
    assert k > 0 ==> SeamAt(ts, gapMs, starts[k]).Some?;
    assert starts[0] == (starts + [|ts|])[0] == 0;
  }

  lemma {:induction false} RunOfTurn(ts: seq<Turn>, starts: seq<nat>, i: nat, n: nat) returns (k: nat)
    requires 0 < n <= |starts| && AreCuts(starts + [|ts|], |ts|) && i < (starts + [|ts|])[n]
    ensures k < |starts| && starts[k] <= i < (starts + [|ts|])[k + 1]
  {
    if starts[n - 1] <= i {
      k := n - 1;
    } else {
      k := RunOfTurn(ts, starts, i, n - 1);
    }
  }

  /** It can fail: a long turn of another block hides 48 ms of silence past a 20 ms gap. */
  lemma HiddenSilence()
    ensures
      var ts := [Turn(0, 0, 100, None, Some(0)), Turn(1, 10, 12, None, Some(10)), Turn(2, 60, 61, None, Some(10))];
      InOrderOf(ts, ts) && SeamAt(ts, 20, 2).None? && ts[2].start - StretchEnd(ts, 2) == 48
  {
    var ts := [Turn(0, 0, 100, None, Some(0)), Turn(1, 10, 12, None, Some(10)), Turn(2, 60, 61, None, Some(10))];
    assert HeardUntil(ts, 1) == 100 && HeardUntil(ts, 2) == 100;
  }
}
