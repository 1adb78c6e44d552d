/** `interjection_hosts` (processing/pipelines/diarize.py:213-235): which utterances are
    spoken entirely inside another speaker's, and inside whose. */
module Interjections {
  import opened Sorting

  datatype Spoken = Spoken(start: int, end: int, speaker: string)

  /** a contains b, they differ in speaker and they are not the same span. */
  predicate Hosts(a: Spoken, b: Spoken) {
    && a.start <= b.start && b.end <= a.end
    && a.speaker != b.speaker && (a.start, a.end) != (b.start, b.end)
  }

  /** Starts earlier, or at the same time and runs at least as long. */
  predicate Outer(a: Spoken, b: Spoken) {
    a.start < b.start || (a.start == b.start && a.end >= b.end)
  }

  /** The sweep's order: outer first, list order among equal spans. */
  predicate InOrder(spans: seq<Spoken>, i: nat, j: nat) {
    i < |spans| && j < |spans| &&
    (Outer(spans[i], spans[j]) && (Outer(spans[j], spans[i]) ==> i <= j))
  }

  ghost predicate IsRoot(spans: seq<Spoken>, hosts: map<nat, nat>, i: nat) {
    i < |spans| && i !in hosts
  }

  predicate NonEmpty(u: Spoken) { u.start < u.end }

  /** Every mapped span among `seen` has a seen root for host. */
  ghost predicate HostsAreRoots(spans: seq<Spoken>, seen: seq<nat>, hosts: map<nat, nat>) {
    forall i :: i in hosts ==>
      i in seen && i < |spans| && hosts[i] in seen && IsRoot(spans, hosts, hosts[i]) && Hosts(spans[hosts[i]], spans[i])
  }

  /** No seen root hosts another one that is not empty. */
  ghost predicate RootsAreFree(spans: seq<Spoken>, seen: seq<nat>, hosts: map<nat, nat>) {
    forall i, j :: i in seen && j in seen && IsRoot(spans, hosts, i) && IsRoot(spans, hosts, j) ==>
      NonEmpty(spans[i]) ==> !Hosts(spans[j], spans[i])
  }

  /** The host is the first in order among the seen roots that could be. */
  ghost predicate FirstRootWins(spans: seq<Spoken>, seen: seq<nat>, hosts: map<nat, nat>) {
    forall i, j :: (i in hosts && i < |spans| && NonEmpty(spans[i]) && j in seen && IsRoot(spans, hosts, j)
        && Hosts(spans[j], spans[i])) ==> InOrder(spans, hosts[i], j)
  }

  /** What the sweep computes, over the spans seen so far. */
  ghost predicate SweepMeaning(spans: seq<Spoken>, seen: seq<nat>, hosts: map<nat, nat>) {
    HostsAreRoots(spans, seen, hosts) && RootsAreFree(spans, seen, hosts) && FirstRootWins(spans, seen, hosts)
  }

  /** `seen` in the sweep's order, each index once. */
  ghost predicate Ordered(spans: seq<Spoken>, seen: seq<nat>) {
    && (forall p :: 0 <= p < |seen| ==> seen[p] < |spans|)
    && (forall p, q :: 0 <= p < q < |seen| ==> InOrder(spans, seen[p], seen[q]) && seen[p] != seen[q])
  }

  /** The list of roots: seen roots in order; the ones it dropped end before `start`. */
  ghost predicate OpenRoots(spans: seq<Spoken>, seen: seq<nat>, hosts: map<nat, nat>, roots: seq<nat>, start: int) {
    && Ordered(spans, roots)
    && (forall r :: r in roots ==> r in seen && IsRoot(spans, hosts, r))
    && (forall r :: r in seen && IsRoot(spans, hosts, r) && r !in roots ==> spans[r].end <= start)
  }

  // ----- the sweep

  predicate SweepLe(spans: seq<Spoken>, i: nat, j: nat) {
    if i < |spans| && j < |spans| then InOrder(spans, i, j) else j >= |spans|
  }

  lemma SweepLeIsTotal(spans: seq<Spoken>, le: (nat, nat) -> bool)
    requires forall i: nat, j: nat :: le(i, j) == SweepLe(spans, i, j)
    ensures TotalPreorder(le)
  {
  }

  method SweepOrder(spans: seq<Spoken>) returns (order: seq<nat>)
    ensures Ordered(spans, order) && forall i: nat :: i in order <==> i < |spans|
  {
    var indices: seq<nat> := seq(|spans|, i => i);
    var le := (i: nat, j: nat) => SweepLe(spans, i, j);
    order := Sort(indices, le);
    SweepLeIsTotal(spans, le);
    SortSorts(indices, le);
    SortKeepsMembers(indices, le);
    SortKeepsDistinct(indices, le);
    forall i: nat ensures i in order <==> i < |spans| {
      assert i < |spans| ==> indices[i] == i;
    }
    forall p | 0 <= p < |order| ensures order[p] < |spans| { assert order[p] in order; }
    forall p, q | 0 <= p < q < |order| ensures InOrder(spans, order[p], order[q]) {
      assert le(order[p], order[q]);
    }
  }

  /** `[r for r in roots if spans[r].end > start]` */
  function StillOpen(spans: seq<Spoken>, roots: seq<nat>, start: int): (open: seq<nat>)
    requires forall p :: 0 <= p < |roots| ==> roots[p] < |spans|
  {
    if roots == [] then []
    else if spans[roots[0]].end > start then [roots[0]] + StillOpen(spans, roots[1..], start)
    else StillOpen(spans, roots[1..], start)
  }

  lemma {:induction false} StillOpenMembers(spans: seq<Spoken>, roots: seq<nat>, start: int)
    requires forall p :: 0 <= p < |roots| ==> roots[p] < |spans|
    ensures forall r :: r in StillOpen(spans, roots, start) <==> r in roots && spans[r].end > start
  {
    if roots != [] {
      assert roots == [roots[0]] + roots[1..];
      StillOpenMembers(spans, roots[1..], start);
    }
  }

  lemma {:induction false} StillOpenKeepsOrder(spans: seq<Spoken>, roots: seq<nat>, start: int)
    requires Ordered(spans, roots)
    ensures Ordered(spans, StillOpen(spans, roots, start))
  {
    hide InOrder;
    if roots != [] {
      var rest := StillOpen(spans, roots[1..], start);
      StillOpenKeepsOrder(spans, roots[1..], start);
      StillOpenMembers(spans, roots[1..], start);
      forall q | 0 <= q < |rest| ensures InOrder(spans, roots[0], rest[q]) && roots[0] != rest[q] {
        assert rest[q] in roots[1..];
      }
    }
  }

  lemma HostsComeFirst(spans: seq<Spoken>, i: nat, j: nat)
    requires InOrder(spans, i, j)
    ensures !Hosts(spans[j], spans[i])
  {
  }

  lemma DropClosed(spans: seq<Spoken>, seen: seq<nat>, hosts: map<nat, nat>, roots: seq<nat>, start: int, next: int)
    requires OpenRoots(spans, seen, hosts, roots, start) && start <= next
    ensures OpenRoots(spans, seen, hosts, StillOpen(spans, roots, next), next)
  {
    StillOpenKeepsOrder(spans, roots, next);
    StillOpenMembers(spans, roots, next);
  }

  /** The next span has a host: the first open root that hosts it. */
  lemma MapNext(spans: seq<Spoken>, seen: seq<nat>, hosts: map<nat, nat>, roots: seq<nat>, i: nat, p: nat)
    requires Ordered(spans, seen + [i]) && SweepMeaning(spans, seen, hosts) && i < |spans|
    requires OpenRoots(spans, seen, hosts, roots, spans[i].start)
    requires p < |roots| && roots[p] < |spans| && Hosts(spans[roots[p]], spans[i])
    requires forall q :: 0 <= q < p && roots[q] < |spans| ==> !Hosts(spans[roots[q]], spans[i])
    ensures SweepMeaning(spans, seen + [i], hosts[i := roots[p]])
    ensures OpenRoots(spans, seen + [i], hosts[i := roots[p]], roots, spans[i].start)
  {
    var hosts' := hosts[i := roots[p]];
    assert i !in seen by { Fresh(spans, seen, i); }
    assert roots[p] in roots;
    forall j | j in seen && IsRoot(spans, hosts', j) && Hosts(spans[j], spans[i]) && NonEmpty(spans[i])
      ensures InOrder(spans, roots[p], j)
    {
      assert j in roots;
      var q :| 0 <= q < |roots| && roots[q] == j;
    }
  }

  lemma Fresh(spans: seq<Spoken>, seen: seq<nat>, i: nat)
    requires Ordered(spans, seen + [i])
    ensures i !in seen && i < |spans|
    ensures forall j :: j in seen ==> InOrder(spans, j, i)
  {
    var more := seen + [i];
    assert more[|seen|] == i;
    forall j | j in seen ensures j != i && InOrder(spans, j, i) {
      var q :| 0 <= q < |seen| && seen[q] == j;
      assert more[q] == j;
    }
  }

  /** No open root hosts the next span: it becomes a root. */
  lemma RootNext(spans: seq<Spoken>, seen: seq<nat>, hosts: map<nat, nat>, roots: seq<nat>, i: nat)
    requires Ordered(spans, seen + [i]) && SweepMeaning(spans, seen, hosts) && i < |spans|
    requires OpenRoots(spans, seen, hosts, roots, spans[i].start)
    requires forall q :: 0 <= q < |roots| && roots[q] < |spans| ==> !Hosts(spans[roots[q]], spans[i])
    ensures SweepMeaning(spans, seen + [i], hosts)
    ensures OpenRoots(spans, seen + [i], hosts, roots + [i], spans[i].start)
  {
    Fresh(spans, seen, i);
    forall j | j in seen
      ensures !Hosts(spans[i], spans[j])
      ensures IsRoot(spans, hosts, j) && NonEmpty(spans[i]) ==> !Hosts(spans[j], spans[i])
    {
      HostsComeFirst(spans, j, i);
      if j in roots {
        var q :| 0 <= q < |roots| && roots[q] == j;
      }
    }
    forall p | 0 <= p < |roots| ensures InOrder(spans, roots[p], i) && roots[p] != i {
      assert roots[p] in roots;
    }
  }

  function Indices(n: nat): (s: seq<nat>)
    ensures forall i: nat :: i in s <==> i < n
  {
    if n == 0 then [] else Indices(n - 1) + [n - 1]
  }

  lemma MeaningOfMembers(spans: seq<Spoken>, a: seq<nat>, b: seq<nat>, hosts: map<nat, nat>)
    requires SweepMeaning(spans, a, hosts) && forall i: nat :: i in a <==> i in b
    ensures SweepMeaning(spans, b, hosts)
  {
  }

  lemma SweepStart(spans: seq<Spoken>, start: int)
    ensures SweepMeaning(spans, [], map[]) && OpenRoots(spans, [], map[], [], start)
  {
  }

  lemma OrderPrefix(spans: seq<Spoken>, order: seq<nat>, k: nat)
    requires Ordered(spans, order) && k < |order|
    ensures order[..k + 1] == order[..k] + [order[k]] && Ordered(spans, order[..k + 1])
    ensures order[k] < |spans|
    ensures k > 0 ==> order[k - 1] < |spans| && spans[order[k - 1]].start <= spans[order[k]].start
  {
  }

  /** The host of span i is no interjection, contains the span, is not the same span and has another
      speaker. */
  ghost predicate HostedBy(spans: seq<Spoken>, hosts: map<nat, nat>, i: nat)
    requires i in hosts
  {
    && i < |spans| && hosts[i] < |spans| && hosts[i] !in hosts
    && spans[hosts[i]].start <= spans[i].start && spans[i].end <= spans[hosts[i]].end
    && (spans[hosts[i]].start < spans[i].start || spans[i].end < spans[hosts[i]].end)
    && spans[hosts[i]].speaker != spans[i].speaker
  }

  /** When span j, no interjection, contains span i, is not the same span and has another speaker, i has
      a host, which starts no later than j, then runs no shorter, then comes no later in the list. */
  ghost predicate HostedFirst(spans: seq<Spoken>, hosts: map<nat, nat>, i: nat, j: nat)
    requires i < |spans| && j < |spans| && j !in hosts
  {
    && spans[j].start <= spans[i].start && spans[i].end <= spans[j].end && spans[j].speaker != spans[i].speaker
    && (spans[j].start < spans[i].start || spans[i].end < spans[j].end)
    ==>
    && i in hosts && hosts[i] < |spans| && spans[hosts[i]].start <= spans[j].start
    && (spans[hosts[i]].start == spans[j].start ==> spans[hosts[i]].end >= spans[j].end)
    && (spans[hosts[i]].start == spans[j].start && spans[hosts[i]].end == spans[j].end ==> hosts[i] <= j)
  }

  lemma HostsMean(spans: seq<Spoken>, hosts: map<nat, nat>)
    requires SweepMeaning(spans, Indices(|spans|), hosts)
    ensures forall i :: i in hosts ==> HostedBy(spans, hosts, i)
    ensures forall i: nat, j: nat :: i < |spans| && j < |spans| && j !in hosts && spans[i].start < spans[i].end ==>
      HostedFirst(spans, hosts, i, j)
  {
    forall i | i in hosts ensures HostedBy(spans, hosts, i) {
      assert IsRoot(spans, hosts, hosts[i]);
    }
    hide HostsAreRoots, HostedBy;
    forall i: nat, j: nat | i < |spans| && j < |spans| && j !in hosts && spans[i].start < spans[i].end
      ensures HostedFirst(spans, hosts, i, j)
    {
      FirstHost(spans, hosts, i, j);
    }
  }

  lemma FirstHost(spans: seq<Spoken>, hosts: map<nat, nat>, i: nat, j: nat)
    requires RootsAreFree(spans, Indices(|spans|), hosts) && FirstRootWins(spans, Indices(|spans|), hosts)
    requires i < |spans| && j < |spans| && j !in hosts && spans[i].start < spans[i].end
    ensures HostedFirst(spans, hosts, i, j)
  {
    if Hosts(spans[j], spans[i]) {
      RootThatHosts(spans, hosts, i, j);
    }
    hide RootsAreFree, FirstRootWins, Indices;
  }

  lemma RootThatHosts(spans: seq<Spoken>, hosts: map<nat, nat>, i: nat, j: nat)
    requires RootsAreFree(spans, Indices(|spans|), hosts) && FirstRootWins(spans, Indices(|spans|), hosts)
    requires i < |spans| && j < |spans| && j !in hosts && NonEmpty(spans[i]) && Hosts(spans[j], spans[i])
    ensures i in hosts && InOrder(spans, hosts[i], j)
  {
    hide Hosts, InOrder, NonEmpty;
    assert IsRoot(spans, hosts, j);
    assert i !in hosts ==> IsRoot(spans, hosts, i);
  }

  method InterjectionHosts(spans: seq<Spoken>) returns (hosts: map<nat, nat>)
    ensures SweepMeaning(spans, Indices(|spans|), hosts)
    ensures forall i :: i in hosts ==> HostedBy(spans, hosts, i)
    ensures forall i: nat, j: nat :: i < |spans| && j < |spans| && j !in hosts && spans[i].start < spans[i].end ==>
      HostedFirst(spans, hosts, i, j)
  {
    hide SweepMeaning, Ordered, InOrder, Hosts, OpenRoots, StillOpen, HostedBy, HostedFirst, Indices;
    var order := SweepOrder(spans);
    var roots: seq<nat> := [];
    hosts := map[];
    ghost var last := if order == [] then 0 else FirstStart(spans, order);
    SweepStart(spans, last);
    for k := 0 to |order|
      invariant SweepMeaning(spans, order[..k], hosts) && OpenRoots(spans, order[..k], hosts, roots, last)
      invariant k < |order| ==> order[k] < |spans| && last <= spans[order[k]].start
    {
      OrderPrefix(spans, order, k);
      var index := order[k];
      DropClosed(spans, order[..k], hosts, roots, last, spans[index].start);
      RootsInRange(spans, order[..k], hosts, roots, last);
      roots := StillOpen(spans, roots, spans[index].start);
      RootsInRange(spans, order[..k], hosts, roots, spans[index].start);
      var p := 0;
      while p < |roots| && !Hosts(spans[roots[p]], spans[index])
        invariant p <= |roots|
        invariant forall q :: 0 <= q < p ==> !Hosts(spans[roots[q]], spans[index])
      {
        p := p + 1;
      }
      if p < |roots| {
        MapNext(spans, order[..k], hosts, roots, index, p);
        hosts := hosts[index := roots[p]];
      } else {
        RootNext(spans, order[..k], hosts, roots, index);
        roots := roots + [index];
      }
      last := spans[index].start;
      if k + 1 < |order| { OrderPrefix(spans, order, k + 1); }
    }
    assert order[..|order|] == order;
    MeaningOfMembers(spans, order, Indices(|spans|), hosts);
    HostsMean(spans, hosts);
  }

  function FirstStart(spans: seq<Spoken>, order: seq<nat>): int
    requires Ordered(spans, order) && order != []
  {
    spans[order[0]].start
  }

  lemma RootsInRange(spans: seq<Spoken>, seen: seq<nat>, hosts: map<nat, nat>, roots: seq<nat>, start: int)
    requires OpenRoots(spans, seen, hosts, roots, start)
    ensures forall p :: 0 <= p < |roots| ==> roots[p] < |spans|
  {
  }

  // ----- the documented meaning

  /** What the docstring promises: a span is an interjection exactly when some other
      speaker's span contains it, and it is mapped to the earliest-starting, then longest. */
  ghost predicate Documented(spans: seq<Spoken>, hosts: map<nat, nat>) {
    && (forall i :: i in hosts ==> i < |spans|)
    && forall i: nat :: i < |spans| ==>
         && (i in hosts <==> Contained(spans, i))
         && (i in hosts ==> Outermost(spans, hosts[i], i))
  }

  ghost predicate Contained(spans: seq<Spoken>, i: nat)
    requires i < |spans|
  {
    exists j: nat :: j < |spans| && Hosts(spans[j], spans[i])
  }

  /** j contains i, and starts no later and runs no shorter than anything else that does. */
  ghost predicate Outermost(spans: seq<Spoken>, j: nat, i: nat)
    requires i < |spans|
  {
    j < |spans| && Hosts(spans[j], spans[i])
    && forall k: nat :: k < |spans| && Hosts(spans[k], spans[i]) ==> Outer(spans[j], spans[k])
  }

  /** Every contained span has an outermost container that is not itself contained. */
  ghost predicate OutermostAreFree(spans: seq<Spoken>) {
    forall i: nat :: i < |spans| && Contained(spans, i) ==>
      exists j: nat :: j < |spans| && Outermost(spans, j, i) && !Contained(spans, j)
  }

  lemma MappedIsContained(spans: seq<Spoken>, hosts: map<nat, nat>, i: nat)
    requires HostsAreRoots(spans, Indices(|spans|), hosts) && i in hosts
    ensures i < |spans| && hosts[i] < |spans| && Hosts(spans[hosts[i]], spans[i]) && Contained(spans, i)
  {
    hide Hosts;
  }

  /** A free container is a root, so what it contains is mapped, to a root no later than it. */
  lemma FreeContainerWins(spans: seq<Spoken>, hosts: map<nat, nat>, i: nat, j: nat)
    requires SweepMeaning(spans, Indices(|spans|), hosts) && i < |spans| && NonEmpty(spans[i])
    requires j < |spans| && Hosts(spans[j], spans[i]) && !Contained(spans, j)
    ensures i in hosts && InOrder(spans, hosts[i], j)
  {
    hide Hosts, InOrder, NonEmpty;
    if j in hosts { MappedIsContained(spans, hosts, j); }
    assert IsRoot(spans, hosts, j);
    assert i !in hosts ==> IsRoot(spans, hosts, i);
  }

  lemma EarlierIsOutermost(spans: seq<Spoken>, h: nat, j: nat, i: nat)
    requires i < |spans| && Outermost(spans, j, i) && InOrder(spans, h, j) && Hosts(spans[h], spans[i])
    ensures Outermost(spans, h, i)
  {
    hide Hosts;
    forall k: nat | k < |spans| && Hosts(spans[k], spans[i]) ensures Outer(spans[h], spans[k]) {
      assert Outer(spans[j], spans[k]);
    }
  }

  lemma FreeMeetsDocstring(spans: seq<Spoken>, hosts: map<nat, nat>, i: nat)
    requires SweepMeaning(spans, Indices(|spans|), hosts) && OutermostAreFree(spans)
    requires i < |spans| && NonEmpty(spans[i])
    ensures i in hosts <==> Contained(spans, i)
    ensures i in hosts ==> Outermost(spans, hosts[i], i)
  {
    hide Hosts, NonEmpty, InOrder, Outer, FirstRootWins, RootsAreFree;
    if i in hosts { MappedIsContained(spans, hosts, i); }
    if Contained(spans, i) {
      var j: nat :| j < |spans| && Outermost(spans, j, i) && !Contained(spans, j);
      FreeContainerWins(spans, hosts, i, j);
      MappedIsContained(spans, hosts, i);
      EarlierIsOutermost(spans, hosts[i], j, i);
    }
  }

  lemma DocumentedAt(spans: seq<Spoken>, hosts: map<nat, nat>, i: nat)
    requires Documented(spans, hosts) && i < |spans|
    ensures (i in hosts <==> Contained(spans, i)) && (i in hosts ==> Outermost(spans, hosts[i], i))
  {
    hide Contained, Outermost;
  }

  lemma HostIsRoot(spans: seq<Spoken>, hosts: map<nat, nat>, i: nat)
    requires HostsAreRoots(spans, Indices(|spans|), hosts) && i in hosts
    ensures hosts[i] < |spans| && hosts[i] !in hosts
  {
    hide Hosts;
  }

  lemma DocstringIsFree(spans: seq<Spoken>, hosts: map<nat, nat>)
    requires SweepMeaning(spans, Indices(|spans|), hosts) && Documented(spans, hosts)
    ensures OutermostAreFree(spans)
  {
    hide HostsAreRoots, FirstRootWins, RootsAreFree, Contained, Outermost, Documented, Indices;
    forall i: nat | i < |spans| && Contained(spans, i)
      ensures exists j: nat :: j < |spans| && Outermost(spans, j, i) && !Contained(spans, j)
    {
      DocumentedAt(spans, hosts, i);
      HostIsRoot(spans, hosts, i);
      DocumentedAt(spans, hosts, hosts[i]);
    }
  }

  /** The docstring holds of the sweep's result exactly when the outermost containers are
      free; otherwise it does not. */
  lemma DocumentedExactlyWhen(spans: seq<Spoken>, hosts: map<nat, nat>)
    requires SweepMeaning(spans, Indices(|spans|), hosts)
    requires forall i :: 0 <= i < |spans| ==> NonEmpty(spans[i])
    ensures Documented(spans, hosts) <==> OutermostAreFree(spans)
  {
    hide Hosts, NonEmpty, FirstRootWins, RootsAreFree, Contained, Outermost, OutermostAreFree;
    if Documented(spans, hosts) {
      DocstringIsFree(spans, hosts);
    }
    if OutermostAreFree(spans) {
      forall i | i in hosts ensures i < |spans| { MappedIsContained(spans, hosts, i); }
      forall i: nat | i < |spans|
        ensures i in hosts <==> Contained(spans, i)
        ensures i in hosts ==> Outermost(spans, hosts[i], i)
      {
        FreeMeetsDocstring(spans, hosts, i);
      }
    }
  }

  /** No span lies inside another one of the same speaker. */
  ghost predicate NoSameSpeakerNesting(spans: seq<Spoken>) {
    forall i, j :: 0 <= i < |spans| && 0 <= j < |spans| && i != j && spans[i].speaker == spans[j].speaker ==>
      !(spans[i].start <= spans[j].start && spans[j].end <= spans[i].end)
  }

  lemma {:induction false} OutermostExists(spans: seq<Spoken>, i: nat, n: nat) returns (j: nat)
    requires i < |spans| && n <= |spans| && exists k: nat :: k < n && Hosts(spans[k], spans[i])
    ensures j < n && Hosts(spans[j], spans[i])
    ensures forall k: nat :: k < n && Hosts(spans[k], spans[i]) ==> Outer(spans[j], spans[k])
  {
    if exists k: nat :: k < n - 1 && Hosts(spans[k], spans[i]) {
      j := OutermostExists(spans, i, n - 1);
      if Hosts(spans[n - 1], spans[i]) && !Outer(spans[j], spans[n - 1]) { j := n - 1; }
    } else {
      j := n - 1;
    }
  }

  lemma OutermostIsFree(spans: seq<Spoken>, i: nat) returns (j: nat)
    requires NoSameSpeakerNesting(spans) && i < |spans| && Contained(spans, i)
    requires forall i :: 0 <= i < |spans| ==> NonEmpty(spans[i])
    ensures Outermost(spans, j, i) && !Contained(spans, j)
  {
    j := OutermostExists(spans, i, |spans|);
    forall k: nat | k < |spans| ensures !Hosts(spans[k], spans[j]) {
      if spans[k].speaker != spans[i].speaker {
        assert Hosts(spans[k], spans[i]) ==> Outer(spans[j], spans[k]);
      }
    }
  }

  /** Without same-speaker nesting the docstring holds. */
  lemma NoNestingMeetsDocstring(spans: seq<Spoken>, hosts: map<nat, nat>)
    requires SweepMeaning(spans, Indices(|spans|), hosts) && NoSameSpeakerNesting(spans)
    requires forall i :: 0 <= i < |spans| ==> NonEmpty(spans[i])
    ensures Documented(spans, hosts)
  {
    forall i: nat | i < |spans| && Contained(spans, i)
      ensures exists j: nat :: j < |spans| && Outermost(spans, j, i) && !Contained(spans, j)
    {
      var j := OutermostIsFree(spans, i);
    }
    assert OutermostAreFree(spans);
    DocumentedExactlyWhen(spans, hosts);
  }

  /** With it the docstring can fail: 2..5 of y lies inside 1..9 of x, but 1..9 is itself
      inside 0..10 of y and so no root, and 0..10 shares the speaker. */
  lemma NestedSpeakerIsMissed(hosts: map<nat, nat>)
    requires SweepMeaning(NestedExample(), Indices(3), hosts)
    ensures Contained(NestedExample(), 2) && 2 !in hosts && !Documented(NestedExample(), hosts)
  {
    var spans := NestedExample();
    assert Hosts(spans[1], spans[2]) && Hosts(spans[0], spans[1]);
    assert IsRoot(spans, hosts, 0);
    assert !IsRoot(spans, hosts, 1);
  }

  function NestedExample(): (spans: seq<Spoken>)
    ensures |spans| == 3
  {
    [Spoken(0, 10, "y"), Spoken(1, 9, "x"), Spoken(2, 5, "y")]
  }

  /** Publication creates the unmapped utterances first and then looks every host's id up
      among them: the lookup is always defined, and no host is an interjection. */
  lemma HostIdsAreDefined(spans: seq<Spoken>, hosts: map<nat, nat>, plain: seq<nat>)
    requires SweepMeaning(spans, Indices(|spans|), hosts)
    requires forall i: nat :: i in plain <==> i < |spans| && i !in hosts
    ensures forall i :: i in hosts ==> hosts[i] in plain && hosts[i] !in hosts
    ensures forall i: nat :: i < |spans| ==> (i in plain) != (i in hosts)
  {
  }
}
