/** What the agglomeration loop as a whole computes (processing/clustering.py:69-135): its turns
    are determined by the corpus, and its merges, taken in order of height, always join a closest
    linkable pair of the clusters there are. */
module AverageLinkage {
  import opened Linkage
  import opened DisjointSets
  import opened NnChain

  // ----- the clusters before any merge

  /** A state with one more block. */
  function Placed(c: Corpus, s: State, i: nat): State
    requires c.Valid()
  {
    var X := Block(c, i);
    State(s.members + [X], s.tree + [Leaf(X)], s.reps + [i],
          if Size(c, X) > 0.0 then s.alive + {|s.members|} else s.alive, s.chain)
  }

  /** Index i is the first of its block. */
  ghost predicate Opens(c: Corpus, i: nat) {
    forall j :: j in Block(c, i) ==> i <= j
  }

  /** One slot for each block of the first n indices, at the block's first index. */
  ghost function Base(c: Corpus, n: nat): State
    requires c.Valid() && n <= |c.unit|
  {
    if n == 0 then State([], [], [], {}, [])
    else if Opens(c, n - 1) then Placed(c, Base(c, n - 1), n - 1)
    else Base(c, n - 1)
  }

  // ----- one turn of the loop

  datatype Run = Run(s: State, merges: seq<Merge>)

  function Last(s: State): nat
    requires s.chain != []
  {
    s.chain[|s.chain| - 1]
  }

  /** The previous link, when it is as near to the tip as b is. */
  ghost predicate TiesWithPrevious(c: Corpus, s: State, b: nat)
    requires c.Valid() && Shape(c, s) && s.chain != [] && Nearest(c, s, Last(s), b)
  {
    |s.chain| >= 2 && Nearest(c, s, Last(s), s.chain[|s.chain| - 2])
  }

  /** Where the loop goes from the tip: to the previous link if that is a nearest neighbour, else
      to the one in the lowest slot. */
  ghost predicate Looks(c: Corpus, s: State, b: nat)
    requires c.Valid() && Shape(c, s) && s.chain != []
  {
    && Nearest(c, s, Last(s), b)
    && if TiesWithPrevious(c, s, b) then b == s.chain[|s.chain| - 2]
       else forall x :: Nearest(c, s, Last(s), x) ==> b <= x
  }

  ghost predicate Starts(s: State, first: nat) {
    s.chain == [] && first in s.alive && forall a :: a in s.alive ==> first <= a
  }

  /** The merge of the tip with b. */
  ghost predicate Merges(c: Corpus, p: Run, q: Run, b: nat)
    requires c.Valid() && Shape(c, p.s) && p.s.chain != []
  {
    var s, a := p.s, Last(p.s);
    && |s.chain| >= 2 && b == s.chain[|s.chain| - 2]
    && a < |s.members| == |s.tree| == |s.reps| && b < |s.members|
    && q == Run(Merged(c, s, a, b), p.merges + [Merge(Gap(c, s, a, b), s.reps[a], s.reps[b])])
  }

  /** What one turn does: start a chain at the first cluster alive, merge the tip with the previous
      link, or go on to the next link. */
  ghost predicate Turn(c: Corpus, p: Run, q: Run)
    requires c.Valid() && Shape(c, p.s)
  {
    && |p.s.alive| > 1
    && if p.s.chain == [] then exists first :: Starts(p.s, first) && q == Run(Extended(p.s, first), p.merges)
       else exists b :: Looks(c, p.s, b) && TurnTo(c, p, q, b)
  }

  ghost predicate TurnTo(c: Corpus, p: Run, q: Run, b: nat)
    requires c.Valid() && Shape(c, p.s) && p.s.chain != []
  {
    if |p.s.chain| >= 2 && b == p.s.chain[|p.s.chain| - 2] then Merges(c, p, q, b)
    else q == Run(Extended(p.s, b), p.merges)
  }

  /** Nothing left to do: one cluster, or nothing the tip may be linked to. */
  ghost predicate Done(c: Corpus, s: State)
    requires c.Valid() && Shape(c, s)
  {
    || |s.alive| <= 1
    || (s.chain != [] && forall b :: !Nearest(c, s, Last(s), b))
  }

  /** Where the loop is after n turns. */
  ghost predicate Reached(c: Corpus, p: Run, n: nat)
    requires c.Valid()
    decreases n
  {
    if n == 0 then p == Run(Base(c, |c.unit|), [])
    else exists o: Run :: Shape(c, o.s) && Reached(c, o, n - 1) && Turn(c, o, p)
  }

  /** The merge list the loop ends with. */
  ghost predicate Ends(c: Corpus, merges: seq<Merge>)
    requires c.Valid()
  {
    exists p: Run, n: nat :: EndsAt(c, p, n) && p.merges == merges
  }

  ghost predicate EndsAt(c: Corpus, p: Run, n: nat)
    requires c.Valid()
  {
    Reached(c, p, n) && Shape(c, p.s) && Done(c, p.s)
  }

  lemma OneTurnMore(c: Corpus, p: Run, q: Run, n: nat)
    requires c.Valid() && Reached(c, p, n) && Shape(c, p.s) && Turn(c, p, q)
    ensures Reached(c, q, n + 1)
  {
    hide Turn, Shape;
    assert Shape(c, p.s) && Reached(c, p, n + 1 - 1) && Turn(c, p, q);
  }

  lemma StartIsTurn(c: Corpus, s: State, merges: seq<Merge>, n: nat, first: nat)
    requires c.Valid() && Shape(c, s) && Reached(c, Run(s, merges), n) && |s.alive| > 1 && Starts(s, first)
    ensures Reached(c, Run(Extended(s, first), merges), n + 1)
  {
    hide Shape, Reached;
    OneTurnMore(c, Run(s, merges), Run(Extended(s, first), merges), n);
  }

  lemma ExtendIsTurn(c: Corpus, s: State, merges: seq<Merge>, n: nat, b: nat)
    requires c.Valid() && Shape(c, s) && Reached(c, Run(s, merges), n) && |s.alive| > 1 && s.chain != []
    requires Looks(c, s, b) && !(|s.chain| >= 2 && b == s.chain[|s.chain| - 2])
    ensures Reached(c, Run(Extended(s, b), merges), n + 1)
  {
    hide Shape, Reached, Looks;
    assert TurnTo(c, Run(s, merges), Run(Extended(s, b), merges), b);
    OneTurnMore(c, Run(s, merges), Run(Extended(s, b), merges), n);
  }

  lemma MergeIsTurn(c: Corpus, s: State, merges: seq<Merge>, n: nat, a: nat, b: nat)
    requires c.Valid() && Shape(c, s) && Reached(c, Run(s, merges), n) && |s.alive| > 1 && |s.chain| >= 2
    requires Looks(c, s, b) && a == Last(s) && b == s.chain[|s.chain| - 2]
    requires a < |s.members| == |s.tree| == |s.reps| && b < |s.members|
    ensures Reached(c, Run(Merged(c, s, a, b), merges + [Merge(Gap(c, s, a, b), s.reps[a], s.reps[b])]), n + 1)
  {
    hide Shape, Reached, Looks, Merged, Gap;
    var q := Run(Merged(c, s, a, b), merges + [Merge(Gap(c, s, a, b), s.reps[a], s.reps[b])]);
    assert TurnTo(c, Run(s, merges), q, b);
    OneTurnMore(c, Run(s, merges), q, n);
  }

  lemma LooksOneWay(c: Corpus, s: State, a: nat, b: nat)
    requires c.Valid() && Shape(c, s) && s.chain != [] && Looks(c, s, a) && Looks(c, s, b)
    ensures a == b
  {
  }

  /** A turn has one outcome, and there is none from where the loop ends. */
  lemma TurnIsDetermined(c: Corpus, p: Run, q: Run, r: Run)
    requires c.Valid() && Shape(c, p.s) && Turn(c, p, q)
    ensures !Done(c, p.s)
    ensures Turn(c, p, r) ==> q == r
  {
    hide Nearest, Shape;
    if p.s.chain == [] {
    } else {
      var b :| Looks(c, p.s, b) && TurnTo(c, p, q, b);
      if Turn(c, p, r) {
        var d :| Looks(c, p.s, d) && TurnTo(c, p, r, d);
        LooksOneWay(c, p.s, b, d);
      }
    }
  }

  lemma {:induction false} ReachedOnce(c: Corpus, p: Run, q: Run, n: nat)
    requires c.Valid() && Reached(c, p, n) && Reached(c, q, n)
    ensures p == q
    decreases n
  {
    hide Turn, Shape;
    if n > 0 {
      var o: Run :| Shape(c, o.s) && Reached(c, o, n - 1) && Turn(c, o, p);
      var u: Run :| Shape(c, u.s) && Reached(c, u, n - 1) && Turn(c, u, q);
      ReachedOnce(c, o, u, n - 1);
      TurnIsDetermined(c, o, p, q);
    }
  }

  /** The loop has been everywhere it could be on its way. */
  lemma {:induction false} WayThere(c: Corpus, q: Run, n: nat, m: nat) returns (p: Run, next: Run)
    requires c.Valid() && Reached(c, q, m) && n < m
    ensures Reached(c, p, n) && Shape(c, p.s) && Turn(c, p, next)
    decreases m
  {
    hide Turn, Shape;
    var o: Run :| Shape(c, o.s) && Reached(c, o, m - 1) && Turn(c, o, q);
    if n == m - 1 {
      p, next := o, q;
    } else {
      p, next := WayThere(c, o, n, m - 1);
    }
  }

  lemma EndsOnce(c: Corpus, p: Run, q: Run, n: nat, m: nat)
    requires c.Valid() && EndsAt(c, p, n) && EndsAt(c, q, m) && n <= m
    ensures p == q
  {
    hide Turn, Shape, Done, Reached;
    if n < m {
      var o, next := WayThere(c, q, n, m);
      ReachedOnce(c, o, p, n);
      TurnIsDetermined(c, o, next, next);
    } else {
      ReachedOnce(c, p, q, n);
    }
  }

  /** The corpus determines the merges. */
  lemma MergesAreDetermined(c: Corpus, a: seq<Merge>, b: seq<Merge>)
    requires c.Valid() && Ends(c, a) && Ends(c, b)
    ensures a == b
  {
    hide EndsAt;
    var p, n :| EndsAt(c, p, n) && p.merges == a;
    var q, m :| EndsAt(c, q, m) && q.merges == b;
    if n <= m { EndsOnce(c, p, q, n, m); } else { EndsOnce(c, q, p, m, n); }
  }

  lemma EndsHere(c: Corpus, s: State, merges: seq<Merge>, n: nat)
    requires c.Valid() && Shape(c, s) && Reached(c, Run(s, merges), n) && Done(c, s)
    ensures Ends(c, merges)
  {
    hide Shape, Reached, Done;
    assert EndsAt(c, Run(s, merges), n);
  }

  // ----- equal classes, equal cuts

  ghost predicate SameClasses(a: seq<nat>, b: seq<nat>) {
    |a| == |b| && forall i: nat, j: nat :: i < |a| && j < |a| ==> (a[i] == a[j] <==> b[i] == b[j])
  }

  lemma LinkKeepsSame(a: seq<nat>, b: seq<nat>, i: nat, j: nat)
    requires SameClasses(a, b) && i < |a| && j < |a|
    ensures SameClasses(Link(a, i, j), Link(b, i, j))
  {
  }

  /** The cut depends on which pins are joined, not on which index stands for them. */
  lemma {:induction false} CutKeepsSame(a: seq<nat>, b: seq<nat>, merges: seq<Merge>, threshold: real)
    requires SameClasses(a, b) && InRange(merges, |a|)
    ensures SameClasses(Cut(a, merges, threshold), Cut(b, merges, threshold))
  {
    if merges != [] {
      var m := merges[|merges| - 1];
      var before := merges[..|merges| - 1];
      CutKeepsSame(a, b, before, threshold);
      LinkKeepsSame(Cut(a, before, threshold), Cut(b, before, threshold), m.repA, m.repB);
    }
  }

  // ----- the merges by height

  /** The cluster of a slot is a block, or its height is that of a merge made. */
  ghost predicate Made(s: State, merges: seq<Merge>) {
    forall a :: a in s.alive && a < |s.tree| ==>
      s.tree[a].Leaf? || exists k :: 0 <= k < |merges| && merges[k].height == s.tree[a].height
  }

  /** What merge k joined lies in a cluster alive that is at least as high. */
  ghost predicate Within(s: State, m: Merge) {
    exists x :: x in s.alive && x < |s.members| && x < |s.tree|
             && m.repA in s.members[x] && m.repB in s.members[x] && s.tree[x].Node? && s.tree[x].height >= m.height
  }

  /** Merge k is above the threshold and no merge before it lies between. */
  ghost predicate NextAbove(merges: seq<Merge>, k: nat, threshold: real)
    requires k < |merges|
  {
    && merges[k].height > threshold
    && forall j :: 0 <= j < k ==> merges[j].height <= threshold || merges[j].height > merges[k].height
  }

  /** The merge joins two linkable classes with geometry, at their distance. */
  ghost predicate JoinsClasses(c: Corpus, cut: seq<nat>, m: Merge)
    requires c.Valid()
  {
    && m.repA < |cut| && m.repB < |cut| && cut[m.repA] != cut[m.repB]
    && (var X, Y := Class(cut, m.repA), Class(cut, m.repB);
        && Size(c, X) > 0.0 && Size(c, Y) > 0.0 && !CannotLink(c, X, Y)
        && MeanDistance(c, X, Y) == m.height)
  }

  /** Every merge joined two classes of the cut just below it. */
  ghost predicate Recorded(c: Corpus, s: State, root: seq<nat>, merges: seq<Merge>)
    requires c.Valid()
  {
    && InRange(merges, |root|) && Made(s, merges)
    && (forall k :: 0 <= k < |merges| ==> Within(s, merges[k]))
    && forall k: nat, threshold: real :: k < |merges| && NextAbove(merges, k, threshold) ==>
         JoinsClasses(c, Cut(root, merges, threshold), merges[k])
  }

  lemma MergeKeepsMade(c: Corpus, s: State, merges: seq<Merge>, a: nat, b: nat, m: Merge)
    requires c.Valid() && Shape(c, s) && Reciprocal(c, s, a, b) && Made(s, merges)
    requires a < |s.members| && b < |s.members| && m.height == Gap(c, s, a, b)
    ensures Made(Merged(c, s, a, b), merges + [m])
  {
    hide WellBuilt, Nearest, Owned;
    var t := Merged(c, s, a, b);
    assert (merges + [m])[|merges|] == m;
    forall x | x in t.alive && x < |t.tree| && t.tree[x].Node?
      ensures exists k :: 0 <= k < |merges + [m]| && (merges + [m])[k].height == t.tree[x].height
    {
      if x < |s.tree| {
        var k :| 0 <= k < |merges| && merges[k].height == s.tree[x].height;
        assert (merges + [m])[k] == merges[k];
      }
    }
  }

  lemma MergeKeepsWithin(c: Corpus, s: State, a: nat, b: nat, e: Merge)
    requires c.Valid() && Shape(c, s) && Monotone(c, s) && Reciprocal(c, s, a, b) && Within(s, e)
    requires a < |s.members| && b < |s.members|
    ensures Within(Merged(c, s, a, b), e)
  {
    hide WellBuilt, Owned;
    var t, new' := Merged(c, s, a, b), |s.members|;
    GapSymmetric(c, s, a, b);
    var x :| x in s.alive && x < |s.members| && x < |s.tree|
             && e.repA in s.members[x] && e.repB in s.members[x] && s.tree[x].Node? && s.tree[x].height >= e.height;
    if x == a || x == b {
      assert new' in t.alive && e.repA in t.members[new'] && t.tree[new'].height == Gap(c, s, a, b);
    } else {
      assert x in t.alive && t.members[x] == s.members[x];
    }
  }

  /** The new merge itself joins two classes. */
  lemma NewMergeJoins(c: Corpus, s: State, root: seq<nat>, merges: seq<Merge>, cut: seq<nat>, a: nat, b: nat,
                      threshold: real)
    requires c.Valid() && Shape(c, s) && Monotone(c, s) && Reciprocal(c, s, a, b) && Made(s, merges)
    requires CutInvariant(c, s, cut, threshold) && a < |s.members| && b < |s.members|
    requires Gap(c, s, a, b) > threshold
    requires forall j :: 0 <= j < |merges| ==> merges[j].height <= threshold || merges[j].height > Gap(c, s, a, b)
    ensures JoinsClasses(c, cut, Merge(Gap(c, s, a, b), s.reps[a], s.reps[b]))
  {
    hide WellBuilt, Owned, MeanDistance, CannotLink, Justified, Apart;
    GapSymmetric(c, s, a, b);
    assert GoodCluster(c, s, a) && GoodCluster(c, s, b);
    assert Under(s.tree[a], threshold) && Under(s.tree[b], threshold);
    assert Class(cut, s.reps[a]) == s.members[a] && Class(cut, s.reps[b]) == s.members[b];
    assert s.members[a] !! s.members[b];
    assert s.reps[b] in s.members[b];
  }

  /** A merge at or below the threshold leaves the classes of a merge above it alone. */
  lemma LinkKeepsJoined(c: Corpus, s: State, cut: seq<nat>, a: nat, b: nat, threshold: real, e: Merge)
    requires c.Valid() && Shape(c, s) && Monotone(c, s) && Reciprocal(c, s, a, b) && Within(s, e)
    requires CutInvariant(c, s, cut, threshold) && a < |s.members| && b < |s.members|
    requires Gap(c, s, a, b) <= threshold < e.height && JoinsClasses(c, cut, e)
    requires s.reps[a] < |cut| && s.reps[b] < |cut|
    ensures JoinsClasses(c, Link(cut, s.reps[a], s.reps[b]), e)
  {
    hide WellBuilt, Owned, MeanDistance, CannotLink, Justified, Apart;
    GapSymmetric(c, s, a, b);
    assert GoodCluster(c, s, a) && GoodCluster(c, s, b);
    assert Class(cut, s.reps[a]) == s.members[a] && Class(cut, s.reps[b]) == s.members[b];
    var x :| x in s.alive && x < |s.members| && x < |s.tree|
             && e.repA in s.members[x] && e.repB in s.members[x] && s.tree[x].Node? && s.tree[x].height >= e.height;
    assert x != a && x != b;
    assert s.members[x] !! s.members[a] && s.members[x] !! s.members[b];
    LinkClasses(cut, s.reps[a], s.reps[b], e.repA);
    LinkClasses(cut, s.reps[a], s.reps[b], e.repB);
    assert e.repA in Class(cut, e.repA) && e.repB in Class(cut, e.repB);
  }

  lemma AllJoin(c: Corpus, s: State, root: seq<nat>, merges: seq<Merge>, a: nat, b: nat, more: seq<Merge>)
    requires c.Valid() && Shape(c, s) && Monotone(c, s) && Reciprocal(c, s, a, b) && Recorded(c, s, root, merges)
    requires forall threshold: real :: CutInvariant(c, s, Cut(root, merges, threshold), threshold)
    requires a < |s.members| == |s.reps| && b < |s.members| && s.reps[a] < |root| && s.reps[b] < |root|
    requires more == merges + [Merge(Gap(c, s, a, b), s.reps[a], s.reps[b])]
    ensures InRange(more, |root|)
    ensures forall k: nat, threshold: real :: k < |more| && NextAbove(more, k, threshold) ==>
      JoinsClasses(c, Cut(root, more, threshold), more[k])
  {
    hide CutInvariant, Recorded, JoinsClasses, Shape, Monotone, Reciprocal, NextAbove, Gap;
    forall k: nat, threshold: real | k < |more| && NextAbove(more, k, threshold)
      ensures InRange(more, |root|) && JoinsClasses(c, Cut(root, more, threshold), more[k])
    {
      MergeKeepsJoins(c, s, root, merges, a, b, k, threshold);
    }
    RecordedInRange(c, s, root, merges);
  }

  lemma RecordedInRange(c: Corpus, s: State, root: seq<nat>, merges: seq<Merge>)
    requires c.Valid() && Recorded(c, s, root, merges)
    ensures InRange(merges, |root|)
  {
  }

  /** Recording a merge keeps everything recorded. */
  lemma MergeKeepsRecord(c: Corpus, s: State, root: seq<nat>, merges: seq<Merge>, a: nat, b: nat)
    requires c.Valid() && Shape(c, s) && Monotone(c, s) && Reciprocal(c, s, a, b) && Recorded(c, s, root, merges)
    requires forall threshold: real :: CutInvariant(c, s, Cut(root, merges, threshold), threshold)
    requires a < |s.members| == |s.reps| && b < |s.members| && s.reps[a] < |root| && s.reps[b] < |root|
    ensures Recorded(c, Merged(c, s, a, b), root, merges + [Merge(Gap(c, s, a, b), s.reps[a], s.reps[b])])
  {
    assert |s.chain| >= 2 && |s.members| == |s.tree| == |s.reps|;
    hide CutInvariant, Within, Made, JoinsClasses, Shape, Monotone, Reciprocal, NextAbove, Merged, Gap, Cut, InRange;
    var m := Merge(Gap(c, s, a, b), s.reps[a], s.reps[b]);
    MergeKeepsMade(c, s, merges, a, b, m);
    AllWithin(c, s, merges, a, b);
    AllJoin(c, s, root, merges, a, b, merges + [m]);
  }

  lemma AllWithin(c: Corpus, s: State, merges: seq<Merge>, a: nat, b: nat)
    requires c.Valid() && Shape(c, s) && Monotone(c, s) && Reciprocal(c, s, a, b)
    requires a < |s.members| == |s.reps| && b < |s.members|
    requires forall k :: 0 <= k < |merges| ==> Within(s, merges[k])
    ensures var more := merges + [Merge(Gap(c, s, a, b), s.reps[a], s.reps[b])];
      forall k :: 0 <= k < |more| ==> Within(Merged(c, s, a, b), more[k])
  {
    assert |s.chain| >= 2 && |s.members| == |s.tree| == |s.reps|;
    hide Within, Shape, Monotone, Reciprocal, Merged, Gap;
    NewIsWithin(c, s, a, b);
    forall k | 0 <= k < |merges| ensures Within(Merged(c, s, a, b), merges[k]) {
      MergeKeepsWithin(c, s, a, b, merges[k]);
    }
  }

  lemma MergeKeepsJoins(c: Corpus, s: State, root: seq<nat>, merges: seq<Merge>, a: nat, b: nat, k: nat,
                        threshold: real)
    requires c.Valid() && Shape(c, s) && Monotone(c, s) && Reciprocal(c, s, a, b) && Recorded(c, s, root, merges)
    requires CutInvariant(c, s, Cut(root, merges, threshold), threshold)
    requires a < |s.members| == |s.reps| && b < |s.members| && s.reps[a] < |root| && s.reps[b] < |root|
    requires k < |merges| + 1 && NextAbove(merges + [Merge(Gap(c, s, a, b), s.reps[a], s.reps[b])], k, threshold)
    ensures var more := merges + [Merge(Gap(c, s, a, b), s.reps[a], s.reps[b])];
      InRange(more, |root|) && JoinsClasses(c, Cut(root, more, threshold), more[k])
  {
    hide CutInvariant, Within, Made, JoinsClasses, Shape, Monotone, Reciprocal, NextAbove, Cut, Gap;
    var m := Merge(Gap(c, s, a, b), s.reps[a], s.reps[b]);
    if k < |merges| {
      NextAboveBefore(merges, m, k, threshold);
      assert Within(s, merges[k]);
      OldMergeStays(c, s, root, merges, a, b, k, threshold);
    } else {
      NewMergeRecorded(c, s, root, merges, a, b, threshold);
    }
  }

  lemma NextAboveBefore(merges: seq<Merge>, m: Merge, k: nat, threshold: real)
    requires k < |merges| && NextAbove(merges + [m], k, threshold)
    ensures NextAbove(merges, k, threshold) && merges[k].height > threshold
  {
    forall j | 0 <= j <= k ensures (merges + [m])[j] == merges[j] {}
  }

  lemma OldMergeStays(c: Corpus, s: State, root: seq<nat>, merges: seq<Merge>, a: nat, b: nat, k: nat, threshold: real)
    requires c.Valid() && Shape(c, s) && Monotone(c, s) && Reciprocal(c, s, a, b)
    requires InRange(merges, |root|) && k < |merges| && Within(s, merges[k]) && threshold < merges[k].height
    requires CutInvariant(c, s, Cut(root, merges, threshold), threshold)
    requires a < |s.members| == |s.reps| && b < |s.members| && s.reps[a] < |root| && s.reps[b] < |root|
    requires JoinsClasses(c, Cut(root, merges, threshold), merges[k])
    ensures var m := Merge(Gap(c, s, a, b), s.reps[a], s.reps[b]);
      InRange(merges + [m], |root|) && JoinsClasses(c, Cut(root, merges + [m], threshold), merges[k])
  {
    hide CutInvariant, Within, JoinsClasses, Shape, Monotone, Reciprocal;
    var m := Merge(Gap(c, s, a, b), s.reps[a], s.reps[b]);
    assert (merges + [m])[..|merges|] == merges;
    if m.height <= threshold {
      LinkKeepsJoined(c, s, Cut(root, merges, threshold), a, b, threshold, merges[k]);
    }
  }

  lemma NewMergeRecorded(c: Corpus, s: State, root: seq<nat>, merges: seq<Merge>, a: nat, b: nat, threshold: real)
    requires c.Valid() && Shape(c, s) && Monotone(c, s) && Reciprocal(c, s, a, b) && Made(s, merges)
    requires InRange(merges, |root|) && CutInvariant(c, s, Cut(root, merges, threshold), threshold)
    requires a < |s.members| == |s.reps| && b < |s.members| && s.reps[a] < |root| && s.reps[b] < |root|
    requires NextAbove(merges + [Merge(Gap(c, s, a, b), s.reps[a], s.reps[b])], |merges|, threshold)
    ensures var m := Merge(Gap(c, s, a, b), s.reps[a], s.reps[b]);
      InRange(merges + [m], |root|) && JoinsClasses(c, Cut(root, merges + [m], threshold), m)
  {
    hide CutInvariant, Made, JoinsClasses, Shape, Monotone, Reciprocal;
    var m := Merge(Gap(c, s, a, b), s.reps[a], s.reps[b]);
    var more := merges + [m];
    assert more[..|merges|] == merges;
    forall j | 0 <= j < |merges| ensures merges[j].height <= threshold || merges[j].height > m.height {
      assert more[j] == merges[j];
    }
    NewMergeJoins(c, s, root, merges, Cut(root, merges, threshold), a, b, threshold);
  }

  lemma NewIsWithin(c: Corpus, s: State, a: nat, b: nat)
    requires c.Valid() && Shape(c, s) && Reciprocal(c, s, a, b) && a < |s.members| && b < |s.members|
    ensures Within(Merged(c, s, a, b), Merge(Gap(c, s, a, b), s.reps[a], s.reps[b]))
  {
    var t := Merged(c, s, a, b);
    assert GoodCluster(c, s, a) && GoodCluster(c, s, b);
    assert |s.members| in t.alive && s.reps[a] in t.members[|s.members|] && s.reps[b] in t.members[|s.members|];
  }

  // ----- a closest pair first

  /** Merges between two thresholds are what makes their cuts differ. */
  lemma {:induction false} CutBetween(root: seq<nat>, merges: seq<Merge>, low: real, high: real)
    requires InRange(merges, |root|) && low <= high
    requires forall k :: 0 <= k < |merges| ==> merges[k].height <= low || merges[k].height > high
    ensures Cut(root, merges, low) == Cut(root, merges, high)
  {
    if merges != [] {
      CutBetween(root, merges[..|merges| - 1], low, high);
    }
  }

  /** What the loop's merge list says of the clusters: its cut leaves nothing to merge at any
      threshold, and every merge joined two classes of the cut just below it. */
  ghost predicate ByHeight(c: Corpus, root: seq<nat>, merges: seq<Merge>)
    requires c.Valid()
  {
    && InRange(merges, |root|)
    && (forall threshold: real :: Maximal(c, Cut(root, merges, threshold), threshold))
    && forall k: nat, threshold: real :: k < |merges| && NextAbove(merges, k, threshold) ==>
         JoinsClasses(c, Cut(root, merges, threshold), merges[k])
  }

  /** Two different classes with geometry that may be linked. */
  ghost predicate LinkableClasses(c: Corpus, cut: seq<nat>, i: nat, j: nat)
    requires c.Valid()
  {
    && i < |cut| && j < |cut| && cut[i] != cut[j]
    && Size(c, Class(cut, i)) > 0.0 && Size(c, Class(cut, j)) > 0.0 && !CannotLink(c, Class(cut, i), Class(cut, j))
  }

  /** No linkable classes of a cut are nearer than the next merge. */
  lemma NoneNearer(c: Corpus, root: seq<nat>, merges: seq<Merge>, threshold: real, h: real, i: nat, j: nat)
    requires c.Valid() && ByHeight(c, root, merges)
    requires forall k :: 0 <= k < |merges| ==> merges[k].height <= threshold || merges[k].height >= h
    requires LinkableClasses(c, Cut(root, merges, threshold), i, j)
    ensures MeanDistance(c, Class(Cut(root, merges, threshold), i), Class(Cut(root, merges, threshold), j)) >= h
  {
    hide MeanDistance, CannotLink, Size, JoinsClasses, NextAbove, Maximal;
    var cut := Cut(root, merges, threshold);
    var d := MeanDistance(c, Class(cut, i), Class(cut, j));
    assert Maximal(c, cut, threshold);
    FartherThan(c, cut, threshold, i, j);
    if d < h {
      CutBetween(root, merges, threshold, d);
      assert Maximal(c, Cut(root, merges, d), d);
      FartherThan(c, cut, d, i, j);
    }
  }

  lemma FartherThan(c: Corpus, cut: seq<nat>, threshold: real, i: nat, j: nat)
    requires c.Valid() && Maximal(c, cut, threshold) && LinkableClasses(c, cut, i, j)
    ensures MeanDistance(c, Class(cut, i), Class(cut, j)) > threshold
  {
    hide MeanDistance, CannotLink, Size;
    assert Apart(c, Class(cut, i), Class(cut, j), threshold);
  }

  /** Merge k is the next one above the threshold: the first of the least height. */
  ghost predicate IsNext(merges: seq<Merge>, k: nat, threshold: real)
    requires k < |merges|
  {
    && NextAbove(merges, k, threshold)
    && forall j :: 0 <= j < |merges| ==> merges[j].height <= threshold || merges[j].height >= merges[k].height
  }

  /** Average linkage, by height: the next merge above any threshold joins two linkable classes of
      the cut at that threshold, and no two linkable classes are closer than those. */
  lemma ClosestPairFirst(c: Corpus, root: seq<nat>, merges: seq<Merge>, threshold: real, k: nat)
    requires c.Valid() && ByHeight(c, root, merges) && k < |merges| && IsNext(merges, k, threshold)
    ensures JoinsClasses(c, Cut(root, merges, threshold), merges[k])
    ensures forall i: nat, j: nat :: LinkableClasses(c, Cut(root, merges, threshold), i, j) ==>
      MeanDistance(c, Class(Cut(root, merges, threshold), i), Class(Cut(root, merges, threshold), j))
      >= merges[k].height
  {
    hide MeanDistance, JoinsClasses, Size, CannotLink;
    forall i: nat, j: nat | LinkableClasses(c, Cut(root, merges, threshold), i, j)
      ensures MeanDistance(c, Class(Cut(root, merges, threshold), i), Class(Cut(root, merges, threshold), j))
              >= merges[k].height
    {
      NoneNearer(c, root, merges, threshold, merges[k].height, i, j);
    }
  }

  /** And past the last merge nothing may be linked at any distance. */
  lemma NothingLinkableAbove(c: Corpus, root: seq<nat>, merges: seq<Merge>, threshold: real, i: nat, j: nat)
    requires c.Valid() && ByHeight(c, root, merges)
    requires forall k :: 0 <= k < |merges| ==> merges[k].height <= threshold
    ensures !LinkableClasses(c, Cut(root, merges, threshold), i, j)
  {
    hide MeanDistance, CannotLink, Size, Maximal, NextAbove;
    var cut := Cut(root, merges, threshold);
    if LinkableClasses(c, cut, i, j) {
      NoneNearer(c, root, merges, threshold, MeanDistance(c, Class(cut, i), Class(cut, j)) + 1.0, i, j);
    }
  }
}
