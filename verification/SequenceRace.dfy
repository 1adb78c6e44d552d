/** Concurrent auto-numbered ingests into one session (services/segments.py:46-103;
    database/repos/segments.py:32-52, 91-105): a snapshot read of the next number, a unique
    constraint that arbitrates, and a bounded retry. */
module SequenceRace {
  import opened Wrappers

  type Id = nat

  const RETRIES: nat := 5

  /** A caller in flight: attempts failed, commits to the session before it began, and the
      number read by the attempt under way. */
  datatype Caller = Caller(failures: nat, since: nat, read: Option<int>)

  datatype State = State(
    sequences: set<int>,      // the session's rows
    commits: nat,             // rows ever committed to it
    begun: nat,               // auto-numbered callers so far
    callers: map<Id, Caller>,
    exhausted: set<Id>,       // callers that gave up
    foreign: bool             // some other writer committed
  )

  datatype Step =
    | Begin(caller: Id)
    | ReadNext(caller: Id, next: int)
    | Commit(caller: Id)
    | Duplicate(caller: Id)
    | OtherWrite(sequence: int)
    | DeleteRow(sequence: int)

  /** `COALESCE(MAX(sequence) + 1, 0)` */
  ghost predicate IsNext(sequences: set<int>, next: int) {
    if sequences == {} then next == 0
    else next - 1 in sequences && forall x :: x in sequences ==> x < next
  }

  ghost predicate Enabled(s: State, e: Step) {
    match e
    case Begin(c) => c !in s.callers && c !in s.exhausted
    case ReadNext(c, next) => c in s.callers && s.callers[c].read.None? && IsNext(s.sequences, next)
    case Commit(c) => c in s.callers && s.callers[c].read.Some? && s.callers[c].read.value !in s.sequences
    case Duplicate(c) => c in s.callers && s.callers[c].read.Some? && s.callers[c].read.value in s.sequences
    case OtherWrite(x) => x !in s.sequences
    case DeleteRow(x) => x in s.sequences
  }

  function Apply(s: State, e: Step): State
    requires e.ReadNext? || e.Commit? || e.Duplicate? ==> e.caller in s.callers
    requires e.Commit? ==> s.callers[e.caller].read.Some?
  {
    match e
    case Begin(c) => s.(callers := s.callers[c := Caller(0, s.commits, None)], begun := s.begun + 1)
    case ReadNext(c, next) => s.(callers := s.callers[c := s.callers[c].(read := Some(next))])
    case Commit(c) =>
      s.(sequences := s.sequences + {s.callers[c].read.value}, commits := s.commits + 1, callers := s.callers - {c})
    case Duplicate(c) =>
      var failed := s.callers[c].failures + 1;
      if failed == RETRIES then s.(callers := s.callers - {c}, exhausted := s.exhausted + {c})
      else s.(callers := s.callers[c := s.callers[c].(failures := failed, read := None)])
    case OtherWrite(x) => s.(sequences := s.sequences + {x}, commits := s.commits + 1, foreign := true)
    case DeleteRow(x) => s.(sequences := s.sequences - {x})
  }

  /** The numbers taken after a step: those committed, by a caller or by anyone else, and not deleted. */
  lemma SequencesAfter(s: State, e: Step, x: int)
    requires Enabled(s, e)
    ensures x in Apply(s, e).sequences <==>
      || (e.Commit? && s.callers[e.caller].read == Some(x))
      || (e.OtherWrite? && e.sequence == x)
      || (x in s.sequences && !(e.DeleteRow? && e.sequence == x))
  {
  }

  /** The callers in flight after a step, and what each of them has read and failed: one begins with
      neither, reads a number, commits it and is done, or fails, reads again, and gives up at the fifth. */
  lemma CallersAfter(s: State, e: Step, c: Id)
    requires Enabled(s, e)
    ensures var t := Apply(s, e); var last := e.Duplicate? && e.caller == c && s.callers[c].failures + 1 == 5;
      && (c in t.callers <==>
            (e.Begin? && e.caller == c) || (c in s.callers && !(e.Commit? && e.caller == c) && !last))
      && (c in t.exhausted <==> c in s.exhausted || last)
    ensures var t := Apply(s, e); c in t.callers ==>
      t.callers[c] ==
        if e.Begin? && e.caller == c then Caller(0, s.commits, None)
        else if e.ReadNext? && e.caller == c then Caller(s.callers[c].failures, s.callers[c].since, Some(e.next))
        else if e.Duplicate? && e.caller == c then Caller(s.callers[c].failures + 1, s.callers[c].since, None)
        else s.callers[c]
  {
  }

  /** The attempt under way has already lost: its number was committed by someone else. */
  predicate Lost(s: State, c: Caller) {
    c.read.Some? && c.read.value in s.sequences
  }

  /** Every failed attempt, and one already lost, is paid for by a commit since the caller began. */
  predicate FailuresPaid(s: State) {
    forall c :: c in s.callers ==>
      s.callers[c].failures + (if Lost(s, s.callers[c]) then 1 else 0) <= s.commits - s.callers[c].since
  }

  /** With no other writer every commit used up one caller. */
  predicate CommitsCounted(s: State) {
    !s.foreign ==> s.commits + |s.callers| + |s.exhausted| <= s.begun
  }

  predicate Invariant(s: State) {
    && FailuresPaid(s) && CommitsCounted(s)
    && (forall c :: c in s.callers ==> s.callers[c].failures < RETRIES && s.callers[c].since <= s.commits)
    && (!s.foreign && s.begun <= RETRIES ==> s.exhausted == {})
  }

  function Initial(): State {
    State({}, 0, 0, map[], {}, false)
  }

  lemma PaidStep(s: State, e: Step)
    requires Invariant(s) && Enabled(s, e)
    ensures FailuresPaid(Apply(s, e))
    ensures forall c :: c in Apply(s, e).callers ==>
      Apply(s, e).callers[c].failures < RETRIES && Apply(s, e).callers[c].since <= Apply(s, e).commits
  {
  }

  /** Adding or removing one key changes a map's size by one. */
  lemma SizeWith<V>(m: map<Id, V>, c: Id, v: V)
    ensures |m[c := v]| == if c in m then |m| else |m| + 1
    ensures |m - {c}| == if c in m then |m| - 1 else |m|
  {
    assert m[c := v].Keys == m.Keys + {c};
    assert (m - {c}).Keys == m.Keys - {c};
    assert |m[c := v]| == |m[c := v].Keys| && |m - {c}| == |(m - {c}).Keys| && |m| == |m.Keys|;
  }

  lemma CountedStep(s: State, e: Step)
    requires Invariant(s) && Enabled(s, e)
    ensures CommitsCounted(Apply(s, e))
  {
    hide FailuresPaid, Lost, IsNext;
    if e.Begin? || e.ReadNext? || e.Commit? || e.Duplicate? {
      SizeWith(s.callers, e.caller, Caller(0, s.commits, None));
    }
    match e
    case ReadNext(c, next) => SizeWith(s.callers, c, s.callers[c].(read := Some(next)));
    case Duplicate(c) => SizeWith(s.callers, c, s.callers[c].(failures := s.callers[c].failures + 1, read := None));
    case _ =>
  }

  lemma StepKeepsInvariant(s: State, e: Step)
    requires Invariant(s) && Enabled(s, e)
    ensures Invariant(Apply(s, e))
  {
    PaidStep(s, e);
    CountedStep(s, e);
    if e.Duplicate? && !s.foreign && s.begun <= RETRIES {
      assert |s.callers| >= 1 by { assert e.caller in s.callers.Keys; }
    }
  }

  ghost predicate Reaches(steps: seq<Step>, s: State)
    decreases |steps|
  {
    if steps == [] then s == Initial()
    else
      var n := |steps| - 1;
      exists before :: Reaches(steps[..n], before) && Enabled(before, steps[n]) && s == Apply(before, steps[n])
  }

  lemma {:induction false} RunsKeepInvariant(steps: seq<Step>, s: State)
    requires Reaches(steps, s)
    ensures Invariant(s)
  {
    if steps != [] {
      var n := |steps| - 1;
      var before :| Reaches(steps[..n], before) && Enabled(before, steps[n]) && s == Apply(before, steps[n]);
      RunsKeepInvariant(steps[..n], before);
      StepKeepsInvariant(before, steps[n]);
    }
  }

  /** A k-th failure needs k other commits to the session since the caller began. */
  lemma FailureNeedsCommits(steps: seq<Step>, s: State, c: Id)
    requires Reaches(steps, s) && Enabled(s, Duplicate(c))
    ensures s.callers[c].failures + 1 <= s.commits - s.callers[c].since
  {
    RunsKeepInvariant(steps, s);
    assert Lost(s, s.callers[c]);
  }

  /** At most five callers and no other writer: nobody runs out of tries. */
  lemma FiveCallersNeverExhaust(steps: seq<Step>, s: State)
    requires Reaches(steps, s) && !s.foreign && s.begun <= RETRIES
    ensures s.exhausted == {}
  {
    RunsKeepInvariant(steps, s);
  }

  // ----- callers that follow one another

  /** A run with never more than n callers in flight. */
  ghost predicate ReachesWithin(steps: seq<Step>, s: State, n: nat)
    decreases |steps|
  {
    && |s.callers| <= n
    && if steps == [] then s == Initial()
       else
         var m := |steps| - 1;
         exists before ::
           ReachesWithin(steps[..m], before, n) && Enabled(before, steps[m]) && s == Apply(before, steps[m])
  }

  lemma Extend(steps: seq<Step>, s: State, e: Step, n: nat)
    requires ReachesWithin(steps, s, n) && Enabled(s, e) && |Apply(s, e).callers| <= n
    ensures ReachesWithin(steps + [e], Apply(s, e), n)
  {
    assert (steps + [e])[..|steps|] == steps;
  }

  function Below(k: nat): (r: set<int>)
    ensures forall x :: x in r <==> 0 <= x < k
  {
    if k == 0 then {} else Below(k - 1) + {k - 1}
  }

  /** Caller 0 has failed k times; callers 1 to k have come, committed and gone. */
  function Starving(k: nat): State {
    State(Below(k), k, k + 1, map[0 := Caller(k, 0, None)], {}, false)
  }

  /** Caller 0 and the k+1st one have read the same number. */
  function Racing(k: nat): State {
    State(Below(k), k, k + 2, map[0 := Caller(k, 0, Some(k)), k + 1 := Caller(0, k, Some(k))], {}, false)
  }

  /** The k+1st caller has committed it. */
  function Beaten(k: nat): State {
    State(Below(k + 1), k + 1, k + 2, map[0 := Caller(k, 0, Some(k))], {}, false)
  }

  lemma BothRead(steps: seq<Step>, k: nat) returns (more: seq<Step>)
    requires ReachesWithin(steps, Starving(k), 2)
    ensures ReachesWithin(more, Racing(k), 2)
  {
    hide ReachesWithin, Below;
    assert IsNext(Below(k), k) by { assert k > 0 ==> k - 1 in Below(k); }
    var s0 := Starving(k);
    var s1 := s0.(callers := map[0 := Caller(k, 0, Some(k))]);
    assert Apply(s0, ReadNext(0, k)) == s1;
    Extend(steps, s0, ReadNext(0, k), 2);
    var s2 := s1.(callers := map[0 := Caller(k, 0, Some(k)), k + 1 := Caller(0, k, None)], begun := k + 2);
    assert Apply(s1, Begin(k + 1)) == s2;
    more := steps + [ReadNext(0, k)];
    Extend(more, s1, Begin(k + 1), 2);
    assert Apply(s2, ReadNext(k + 1, k)) == Racing(k);
    Extend(more + [Begin(k + 1)], s2, ReadNext(k + 1, k), 2);
    more := more + [Begin(k + 1)] + [ReadNext(k + 1, k)];
  }

  /** One round: caller 0 reads, another caller comes, reads the same number and commits it. */
  lemma Overtaken(steps: seq<Step>, k: nat) returns (more: seq<Step>)
    requires ReachesWithin(steps, Starving(k), 2)
    ensures ReachesWithin(more, Beaten(k), 2) && Enabled(Beaten(k), Duplicate(0))
  {
    hide ReachesWithin;
    more := BothRead(steps, k);
    assert Below(k) + {k as int} == Below(k + 1);
    assert Apply(Racing(k), Commit(k + 1)) == Beaten(k);
    Extend(more, Racing(k), Commit(k + 1), 2);
    more := more + [Commit(k + 1)];
  }

  lemma LosesAgain(k: nat)
    requires k + 1 < RETRIES
    ensures Apply(Beaten(k), Duplicate(0)) == Starving(k + 1)
  {
  }

  lemma FirstComes()
    ensures ReachesWithin([Begin(0)], Starving(0), 2)
  {
    assert Apply(Initial(), Begin(0)) == Starving(0);
    Extend([], Initial(), Begin(0), 2);
    assert [] + [Begin(0)] == [Begin(0)];
  }

  lemma {:induction false} FailsOnAndOn(k: nat) returns (steps: seq<Step>)
    requires k < RETRIES
    ensures ReachesWithin(steps, Starving(k), 2)
  {
    hide ReachesWithin, Below, Apply, Enabled;
    if k == 0 {
      FirstComes();
      steps := [Begin(0)];
    } else {
      var before := FailsOnAndOn(k - 1);
      var more := Overtaken(before, k - 1);
      LosesAgain(k - 1);
      Extend(more, Beaten(k - 1), Duplicate(0), 2);
      steps := more + [Duplicate(0)];
    }
  }

  /** The bound is on callers, not on callers at one time: with never more than two in flight and
      no other writer, a caller overtaken by five successive ones runs out of tries. */
  lemma TwoAtATimeCanExhaust() returns (steps: seq<Step>, s: State)
    ensures ReachesWithin(steps, s, 2) && !s.foreign && s.begun == RETRIES + 1 && s.exhausted == {0}
  {
    hide ReachesWithin, Below;
    var before := FailsOnAndOn(RETRIES - 1);
    var more := Overtaken(before, RETRIES - 1);
    s := Apply(Beaten(RETRIES - 1), Duplicate(0));
    assert s.callers == map[];
    Extend(more, Beaten(RETRIES - 1), Duplicate(0), 2);
    steps := more + [Duplicate(0)];
  }

  lemma {:induction false} WithinReaches(steps: seq<Step>, s: State, n: nat)
    requires ReachesWithin(steps, s, n)
    ensures Reaches(steps, s)
  {
    if steps != [] {
      var m := |steps| - 1;
      var before :| ReachesWithin(steps[..m], before, n) && Enabled(before, steps[m]) && s == Apply(before, steps[m]);
      WithinReaches(steps[..m], before, n);
    }
  }

  /** Nobody ever runs out of tries while at most n callers have begun and nobody else writes. */
  ghost predicate Enough(n: nat) {
    forall steps, s :: Reaches(steps, s) && !s.foreign && s.begun <= n ==> s.exhausted == {}
  }

  /** Five tries are enough for n callers exactly when n is at most five. */
  lemma EnoughExactlyWhen(n: nat)
    ensures Enough(n) <==> n <= RETRIES
  {
    hide Reaches;
    if n <= RETRIES {
      forall steps, s | Reaches(steps, s) && !s.foreign && s.begun <= n ensures s.exhausted == {} {
        FiveCallersNeverExhaust(steps, s);
      }
    } else {
      var steps, s := TwoAtATimeCanExhaust();
      WithinReaches(steps, s, 2);
    }
  }
}
