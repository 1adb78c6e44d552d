/** The theory of the nearest-neighbour chain (processing/clustering.py:90-135).

    One state is what the agglomeration loop holds: the clusters alive, the chain
    and, for every cluster ever made, its members and the merge tree it grew from.
    The lemmas say that both moves of the loop, extending the chain and merging its
    two last links, keep the invariants, and what the invariants mean for the cut. */
module NnChain {
  import opened Linkage
  import opened DisjointSets

  // ----- what a cluster may be

  datatype Tree = Leaf(block: set<nat>) | Node(height: real, left: Tree, right: Tree)

  function Members(t: Tree): set<nat> {
    match t
    case Leaf(block) => block
    case Node(_, left, right) => Members(left) + Members(right)
  }

  function Height(t: Tree): real {
    if t.Leaf? then 0.0 else t.height
  }

  /** An index with everything it must stay with: its pin group, or itself. */
  function Block(c: Corpus, i: nat): (b: set<nat>)
    ensures i in b
  {
    if i in c.pins then set j | j in c.pins && c.pins[j] == c.pins[i] else {i}
  }

  /** A dendrogram over blocks: every merge joins two disjoint linkable clusters with
      geometry, at their mean distance, never below the merges inside them. */
  ghost predicate WellBuilt(c: Corpus, t: Tree)
    requires c.Valid()
  {
    match t
    case Leaf(block) => exists i: nat :: i < |c.unit| && block == Block(c, i)
    case Node(height, left, right) =>
      && WellBuilt(c, left) && WellBuilt(c, right)
      && Members(left) !! Members(right)
      && Size(c, Members(left)) > 0.0 && Size(c, Members(right)) > 0.0
      && !CannotLink(c, Members(left), Members(right))
      && height == MeanDistance(c, Members(left), Members(right))
      && Height(left) <= height && Height(right) <= height
  }

  /** Not cut at the threshold. */
  predicate Under(t: Tree, threshold: real) {
    t.Leaf? || t.height <= threshold
  }

  /** X is a node of a dendrogram at or below the threshold. */
  ghost predicate Justified(c: Corpus, X: set<nat>, threshold: real)
    requires c.Valid()
  {
    exists t :: WellBuilt(c, t) && Members(t) == X && Under(t, threshold)
  }

  /** Pins and non-finite rows under any merge order: one identity at most, with all of
      its pins; and an unpinned row without geometry stays alone. */
  ghost predicate HonoursPins(c: Corpus, X: set<nat>)
    requires c.Valid()
  {
    && (forall i :: i in X ==> i < |c.unit|)
    && (forall i, j :: i in X && j in X && i in c.pins && j in c.pins ==> c.pins[i] == c.pins[j])
    && (forall i, j :: i in X && i in c.pins && j in c.pins && c.pins[i] == c.pins[j] ==> j in X)
    && (forall i :: i in X && i !in c.pins && !c.finite[i] ==> X == {i})
  }

  lemma {:induction false} TreeHonoursPins(c: Corpus, t: Tree)
    requires c.Valid() && WellBuilt(c, t)
    ensures HonoursPins(c, Members(t))
  {
    match t
    case Leaf(block) =>
    case Node(_, left, right) =>
      TreeHonoursPins(c, left);
      TreeHonoursPins(c, right);
      forall i | i in Members(t) && i !in c.pins
        ensures c.finite[i]
      {
        if !c.finite[i] { EmptySize(c, {i}, |c.finite|); }
      }
      var L, R := Members(left), Members(right);
      forall i, j | i in L && j in R && i in c.pins && j in c.pins
        ensures c.pins[i] == c.pins[j]
      {
        assert !CannotLink(c, L, R);
      }
  }

  lemma JustifiedHonoursPins(c: Corpus, X: set<nat>, threshold: real)
    requires c.Valid() && Justified(c, X, threshold)
    ensures HonoursPins(c, X)
  {
    var t :| WellBuilt(c, t) && Members(t) == X && Under(t, threshold);
    TreeHonoursPins(c, t);
  }

  // ----- the loop's state

  datatype State = State(
    members: seq<set<nat>>,
    tree: seq<Tree>,
    reps: seq<nat>,
    alive: set<nat>,
    chain: seq<nat>
  )

  predicate Linkable(c: Corpus, s: State, a: nat, b: nat)
    requires a < |s.members| && b < |s.members|
  {
    !CannotLink(c, s.members[a], s.members[b])
  }

  function Gap(c: Corpus, s: State, a: nat, b: nat): real
    requires c.Valid() && a < |s.members| && b < |s.members|
  {
    MeanDistance(c, s.members[a], s.members[b])
  }

  ghost predicate Owned(s: State, i: nat) {
    exists a :: a in s.alive && a < |s.members| && i in s.members[a]
  }

  ghost predicate GoodCluster(c: Corpus, s: State, a: nat)
    requires c.Valid()
  {
    && a < |s.members| && a < |s.tree| && a < |s.reps|
    && (forall i :: i in s.members[a] ==> i < |c.unit|)
    && Size(c, s.members[a]) > 0.0
    && WellBuilt(c, s.tree[a]) && Members(s.tree[a]) == s.members[a]
    && s.reps[a] in s.members[a]
  }

  ghost predicate Shape(c: Corpus, s: State)
    requires c.Valid()
  {
    && |s.members| == |s.tree| == |s.reps|
    && (forall a :: a in s.alive ==> GoodCluster(c, s, a))
    && (forall a, b :: a in s.alive && b in s.alive && a != b ==> s.members[a] !! s.members[b])
    && (forall i: nat :: i < |c.unit| && c.finite[i] ==> Owned(s, i))
  }

  /** b is a nearest linkable neighbour of a among the clusters alive. */
  ghost predicate Nearest(c: Corpus, s: State, a: nat, b: nat)
    requires c.Valid() && Shape(c, s)
  {
    && a in s.alive && b in s.alive && a != b && Linkable(c, s, a, b)
    && forall x :: x in s.alive && x != a && Linkable(c, s, a, x) ==> Gap(c, s, a, b) <= Gap(c, s, a, x)
  }

  /** The distance across link k of the chain. */
  function LinkGap(c: Corpus, s: State, k: nat): real
    requires c.Valid() && k + 1 < |s.chain| && s.chain[k] < |s.members| && s.chain[k + 1] < |s.members|
  {
    Gap(c, s, s.chain[k], s.chain[k + 1])
  }

  ghost predicate LinkNearest(c: Corpus, s: State, k: nat)
    requires c.Valid() && Shape(c, s) && k + 1 < |s.chain|
  {
    Nearest(c, s, s.chain[k], s.chain[k + 1])
  }

  ghost predicate ChainAlive(s: State) {
    && (forall k :: 0 <= k < |s.chain| ==> s.chain[k] in s.alive)
    && (forall j, k :: 0 <= j < k < |s.chain| ==> s.chain[j] != s.chain[k])
  }

  /** Chain members are alive and distinct, each link goes to a nearest neighbour, and
      the links get strictly shorter. */
  ghost predicate ChainInvariant(c: Corpus, s: State)
    requires c.Valid() && Shape(c, s)
  {
    && ChainAlive(s)
    && (forall k :: 0 <= k < |s.chain| - 1 ==> LinkNearest(c, s, k))
    && (forall j, k :: 0 <= j < k < |s.chain| - 1 ==> LinkGap(c, s, k) < LinkGap(c, s, j))
  }

  /** Heights never decrease: nothing is closer to a cluster than the merge that made it. */
  ghost predicate Monotone(c: Corpus, s: State)
    requires c.Valid() && Shape(c, s)
  {
    forall a, b :: a in s.alive && b in s.alive && a != b && Linkable(c, s, a, b) ==>
      Height(s.tree[a]) <= Gap(c, s, a, b)
  }

  lemma CannotLinkSymmetric(c: Corpus, X: set<nat>, Y: set<nat>)
    ensures CannotLink(c, X, Y) == CannotLink(c, Y, X)
  {
  }

  lemma CannotLinkUnion(c: Corpus, A: set<nat>, B: set<nat>, Y: set<nat>)
    ensures CannotLink(c, A + B, Y) <==> CannotLink(c, A, Y) || CannotLink(c, B, Y)
  {
  }

  lemma GapSymmetric(c: Corpus, s: State, a: nat, b: nat)
    requires c.Valid() && a < |s.members| && b < |s.members|
    ensures Gap(c, s, a, b) == Gap(c, s, b, a)
    ensures Linkable(c, s, a, b) == Linkable(c, s, b, a)
  {
    MeanDistanceSymmetric(c, s.members[a], s.members[b]);
    CannotLinkSymmetric(c, s.members[a], s.members[b]);
  }

  // ----- extending the chain

  function Extended(s: State, b: nat): State {
    s.(chain := s.chain + [b])
  }

  /** b is where the loop extends the chain to: a nearest neighbour of its tip, strictly
      closer than the link before (a tie would have merged). */
  ghost predicate NextLink(c: Corpus, s: State, b: nat)
    requires c.Valid() && Shape(c, s)
  {
    && |s.chain| > 0 && Nearest(c, s, s.chain[|s.chain| - 1], b)
    && (|s.chain| >= 2 && s.chain[|s.chain| - 2] in s.alive ==>
          Gap(c, s, s.chain[|s.chain| - 1], b) < Gap(c, s, s.chain[|s.chain| - 1], s.chain[|s.chain| - 2]))
  }

  /** The chain never revisits a cluster. */
  lemma ChainNeverRevisits(c: Corpus, s: State, b: nat)
    requires c.Valid() && Shape(c, s) && ChainInvariant(c, s) && NextLink(c, s, b)
    ensures b !in s.chain
  {
    hide CannotLink, MeanDistance, WellBuilt, Owned;
    var n := |s.chain|;
    var a := s.chain[n - 1];
    forall j | 0 <= j < n - 1
      ensures LinkGap(c, s, n - 2) <= LinkGap(c, s, j)
      ensures Linkable(c, s, s.chain[j], a) ==> LinkGap(c, s, j) <= Gap(c, s, s.chain[j], a)
    {
      assert LinkNearest(c, s, j);
      GapSymmetric(c, s, a, s.chain[j]);
    }
    if n >= 2 {
      GapSymmetric(c, s, a, s.chain[n - 2]);
    }
    GapSymmetric(c, s, a, b);
  }

  lemma ExtendKeepsShape(c: Corpus, s: State, b: nat)
    requires c.Valid() && Shape(c, s)
    ensures Shape(c, Extended(s, b))
    ensures Monotone(c, s) ==> Monotone(c, Extended(s, b))
  {
    hide WellBuilt, CannotLink, MeanDistance;
    var s' := Extended(s, b);
    forall a | a in s'.alive ensures GoodCluster(c, s', a) { assert GoodCluster(c, s, a); }
    forall i: nat | i < |c.unit| && c.finite[i] ensures Owned(s', i) { assert Owned(s, i); }
  }

  lemma ExtendKeepsChain(c: Corpus, s: State, b: nat)
    requires c.Valid() && Shape(c, s) && ChainInvariant(c, s) && NextLink(c, s, b)
    requires Shape(c, Extended(s, b))
    ensures ChainInvariant(c, Extended(s, b))
  {
    hide CannotLink, MeanDistance, WellBuilt, Owned;
    ChainNeverRevisits(c, s, b);
    var s', n := Extended(s, b), |s.chain|;
    if n >= 2 {
      assert LinkNearest(c, s, n - 2);
      GapSymmetric(c, s, s.chain[n - 1], s.chain[n - 2]);
    }
    forall k | 0 <= k < n
      ensures LinkNearest(c, s', k)
      ensures k < n - 1 ==> LinkGap(c, s', k) == LinkGap(c, s, k)
    {
      if k < n - 1 { assert LinkNearest(c, s, k); }
    }
    forall j, k | 0 <= j < k < n
      ensures LinkGap(c, s', k) < LinkGap(c, s', j)
    {
      if k == n - 1 {
        assert LinkGap(c, s, n - 2) <= LinkGap(c, s, j);
      }
    }
  }

  // ----- merging the chain's two last links

  function Merged(c: Corpus, s: State, a: nat, b: nat): State
    requires c.Valid() && a < |s.members| == |s.tree| == |s.reps| && b < |s.members| && |s.chain| >= 2
  {
    State(
      s.members + [s.members[a] + s.members[b]],
      s.tree + [Node(Gap(c, s, a, b), s.tree[a], s.tree[b])],
      s.reps + [s.reps[a]],
      s.alive - {a, b} + {|s.members|},
      s.chain[..|s.chain| - 2])
  }

  /** a and b are the chain's last two links and each other's nearest neighbours. */
  ghost predicate Reciprocal(c: Corpus, s: State, a: nat, b: nat)
    requires c.Valid() && Shape(c, s)
  {
    && |s.chain| >= 2 && a == s.chain[|s.chain| - 1] && b == s.chain[|s.chain| - 2]
    && Nearest(c, s, a, b) && Nearest(c, s, b, a)
  }

  /** The new cluster keeps every distance to the others at or above a bound that both
      parts kept, and is linkable to them only if both parts were. */
  lemma MergedGap(c: Corpus, s: State, a: nat, b: nat, x: nat, h: real)
    requires c.Valid() && Shape(c, s) && Reciprocal(c, s, a, b)
    requires x in s.alive && x != a && x != b
    ensures var s', new' := Merged(c, s, a, b), |s.members|;
      && Gap(c, s', x, new') == Gap(c, s', new', x)
      && (Linkable(c, s', x, new') <==> Linkable(c, s, x, a) && Linkable(c, s, x, b))
      && (Linkable(c, s', x, new') == Linkable(c, s', new', x))
      && (Gap(c, s, x, a) >= h && Gap(c, s, x, b) >= h ==> Gap(c, s', x, new') >= h)
  {
    var s', new' := Merged(c, s, a, b), |s.members|;
    assert GoodCluster(c, s, a) && GoodCluster(c, s, b) && GoodCluster(c, s, x);
    Reducible(c, s.members[a], s.members[b], s.members[x], h);
    CannotLinkUnion(c, s.members[a], s.members[b], s.members[x]);
    GapSymmetric(c, s', x, new');
    GapSymmetric(c, s, x, a);
    GapSymmetric(c, s, x, b);
  }

  lemma MergeKeepsShape(c: Corpus, s: State, a: nat, b: nat)
    requires c.Valid() && Shape(c, s) && Monotone(c, s) && Reciprocal(c, s, a, b)
    ensures Shape(c, Merged(c, s, a, b))
  {
    var s', new' := Merged(c, s, a, b), |s.members|;
    assert GoodCluster(c, s, a) && GoodCluster(c, s, b);
    SumOfUnion(c, s.members[a], s.members[b]);
    GapSymmetric(c, s, a, b);
    assert WellBuilt(c, s'.tree[new']);
    assert GoodCluster(c, s', new');
    forall x | x in s'.alive ensures GoodCluster(c, s', x) {
      if x != new' { assert GoodCluster(c, s, x); }
    }
    forall i: nat | i < |c.unit| && c.finite[i] ensures Owned(s', i) {
      assert Owned(s, i);
      var x :| x in s.alive && x < |s.members| && i in s.members[x];
      var y := if x == a || x == b then new' else x;
      assert y in s'.alive && i in s'.members[y];
    }
  }

  /** Links below the merge still go to nearest neighbours: average linkage is reducible. */
  lemma MergeKeepsChain(c: Corpus, s: State, a: nat, b: nat)
    requires c.Valid() && Shape(c, s) && Monotone(c, s) && ChainInvariant(c, s) && Reciprocal(c, s, a, b)
    requires Shape(c, Merged(c, s, a, b))
    ensures ChainInvariant(c, Merged(c, s, a, b))
  {
    hide CannotLink, MeanDistance, Owned;
    var s', new' := Merged(c, s, a, b), |s.members|;
    forall k | 0 <= k < |s'.chain|
      ensures s'.chain[k] in s'.alive && s'.chain[k] != a && s'.chain[k] != b && s'.chain[k] < |s.members|
    {
      assert s'.chain[k] == s.chain[k];
      assert GoodCluster(c, s, s.chain[k]);
    }
    forall k | 0 <= k < |s'.chain| - 1
      ensures LinkNearest(c, s', k) && LinkGap(c, s', k) == LinkGap(c, s, k)
    {
      var p, q := s.chain[k], s.chain[k + 1];
      assert s'.chain[k] == p && s'.chain[k + 1] == q;
      assert LinkNearest(c, s, k);
      MergedGap(c, s, a, b, p, Gap(c, s, p, q));
    }
  }

  lemma MergeKeepsMonotone(c: Corpus, s: State, a: nat, b: nat)
    requires c.Valid() && Shape(c, s) && Monotone(c, s) && Reciprocal(c, s, a, b)
    requires Shape(c, Merged(c, s, a, b))
    ensures Monotone(c, Merged(c, s, a, b))
  {
    var s', new' := Merged(c, s, a, b), |s.members|;
    GapSymmetric(c, s, a, b);
    forall x, y | x in s'.alive && y in s'.alive && x != y && Linkable(c, s', x, y)
      ensures Height(s'.tree[x]) <= Gap(c, s', x, y)
    {
      if x == new' {
        GapSymmetric(c, s, y, a);
        GapSymmetric(c, s, y, b);
        MergedGap(c, s, a, b, y, Gap(c, s, a, b));
      } else if y == new' {
        MergedGap(c, s, a, b, x, Height(s.tree[x]));
      }
    }
  }

  // ----- running out of candidates

  /** When one cluster is forbidden to all the others, every remaining pair is: each
      identity's pins sit in one cluster only. */
  lemma BreakMeansAllForbidden(c: Corpus, s: State, a: nat)
    requires c.Valid() && Shape(c, s) && a in s.alive
    requires forall x :: x in s.alive && x != a ==> !Linkable(c, s, a, x)
    ensures forall x, y :: x in s.alive && y in s.alive && x != y ==> !Linkable(c, s, x, y)
  {
    forall x, y | x in s.alive && y in s.alive && x != y
      ensures !Linkable(c, s, x, y)
    {
      if x == a {
      } else if y == a {
        GapSymmetric(c, s, x, y);
      } else {
        assert GoodCluster(c, s, x) && GoodCluster(c, s, y);
        TreeHonoursPins(c, s.tree[x]);
        TreeHonoursPins(c, s.tree[y]);
        assert CannotLink(c, s.members[a], s.members[x]) && CannotLink(c, s.members[a], s.members[y]);
        var i :| i in s.members[x] && i in c.pins;
        var j :| j in s.members[y] && j in c.pins;
        assert s.members[x] !! s.members[y];
        assert c.pins[i] != c.pins[j];
      }
    }
  }

  lemma {:induction false} ChainFits(s: State)
    requires forall k :: 0 <= k < |s.chain| ==> s.chain[k] in s.alive
    requires forall j, k :: 0 <= j < k < |s.chain| ==> s.chain[j] != s.chain[k]
    ensures |s.chain| <= |s.alive|
    decreases |s.chain|
  {
    if s.chain != [] {
      var last := s.chain[|s.chain| - 1];
      ChainFits(s.(chain := s.chain[..|s.chain| - 1], alive := s.alive - {last}));
    }
  }

  // ----- the threshold cut

  datatype Merge = Merge(height: real, repA: nat, repB: nat)

  ghost predicate InRange(merges: seq<Merge>, n: nat) {
    forall k :: 0 <= k < |merges| ==> merges[k].repA < n && merges[k].repB < n
  }

  /** Representatives after applying every merge at or below the threshold, in order. */
  ghost function Cut(root: seq<nat>, merges: seq<Merge>, threshold: real): (r: seq<nat>)
    requires InRange(merges, |root|)
    ensures |r| == |root|
  {
    if merges == [] then root
    else
      var before := Cut(root, merges[..|merges| - 1], threshold);
      var m := merges[|merges| - 1];
      if m.height <= threshold then Link(before, m.repA, m.repB) else before
  }

  /** Two classes of the cut may not be merged any more. */
  ghost predicate Apart(c: Corpus, X: set<nat>, Y: set<nat>, threshold: real)
    requires c.Valid()
  {
    Size(c, X) > 0.0 && Size(c, Y) > 0.0 && !CannotLink(c, X, Y) ==> MeanDistance(c, X, Y) > threshold
  }

  /** The union-find cut against the dendrogram: a cluster at or below the threshold is
      one class, a cluster above it is a union of classes that are apart from all others. */
  ghost predicate CutInvariant(c: Corpus, s: State, root: seq<nat>, threshold: real)
    requires c.Valid() && Shape(c, s)
  {
    && |root| == |c.unit|
    && (forall i: nat :: i < |root| ==> Justified(c, Class(root, i), threshold))
    && (forall a, i :: a in s.alive && i in s.members[a] ==>
          Size(c, Class(root, i)) > 0.0 && Class(root, i) <= s.members[a])
    && (forall a, i :: a in s.alive && Under(s.tree[a], threshold) && i in s.members[a] ==>
          Class(root, i) == s.members[a])
    && (forall a, i, j: nat ::
          (a in s.alive && !Under(s.tree[a], threshold) && i in s.members[a] && j < |root| && root[j] != root[i])
          ==> Apart(c, Class(root, i), Class(root, j), threshold))
  }

  lemma ApartSymmetric(c: Corpus, X: set<nat>, Y: set<nat>, threshold: real)
    requires c.Valid() && Apart(c, X, Y, threshold)
    ensures Apart(c, Y, X, threshold)
  {
    MeanDistanceSymmetric(c, X, Y);
    CannotLinkSymmetric(c, X, Y);
  }

  lemma ApartUnion(c: Corpus, X: set<nat>, A: set<nat>, B: set<nat>, threshold: real)
    requires c.Valid() && A !! B && Size(c, A) > 0.0 && Size(c, B) > 0.0
    requires Apart(c, X, A, threshold) && Apart(c, X, B, threshold)
    ensures Apart(c, X, A + B, threshold)
  {
    ApartSymmetric(c, X, A, threshold);
    ApartSymmetric(c, X, B, threshold);
    CannotLinkUnion(c, A, B, X);
    if Size(c, X) > 0.0 { Reducible(c, A, B, X, threshold); }
    CannotLinkSymmetric(c, X, A + B);
    MeanDistanceSymmetric(c, X, A + B);
  }

  /** A class with geometry belongs to a cluster alive. */
  lemma OwnerOf(c: Corpus, s: State, root: seq<nat>, threshold: real, j: nat) returns (x: nat)
    requires c.Valid() && Shape(c, s) && CutInvariant(c, s, root, threshold)
    requires j < |root| && Size(c, Class(root, j)) > 0.0
    ensures x in s.alive && j in s.members[x]
  {
    EmptySize(c, Class(root, j), |c.finite|);
    var i: nat :| i < |c.finite| && Counts(c, Class(root, j), i);
    assert Owned(s, i);
    x :| x in s.alive && x < |s.members| && i in s.members[x];
    assert Class(root, i) == Class(root, j) && j in Class(root, j);
  }

  /** A merge above the threshold leaves the cut as it is. */
  lemma MergeAboveKeepsCut(c: Corpus, s: State, a: nat, b: nat, root: seq<nat>, threshold: real)
    requires c.Valid() && Shape(c, s) && Reciprocal(c, s, a, b)
    requires Shape(c, Merged(c, s, a, b))
    requires CutInvariant(c, s, root, threshold)
    requires Gap(c, s, a, b) > threshold
    ensures CutInvariant(c, Merged(c, s, a, b), root, threshold)
  {
    hide CannotLink, MeanDistance, WellBuilt, Owned, Size, Justified;
    var s', new' := Merged(c, s, a, b), |s.members|;
    GapSymmetric(c, s, a, b);
    forall i, j: nat | i in s'.members[new'] && j < |root| && root[j] != root[i]
      ensures Apart(c, Class(root, i), Class(root, j), threshold)
    {
      var p := if i in s.members[a] then a else b;
      if Under(s.tree[p], threshold) && Size(c, Class(root, j)) > 0.0 {
        var x := OwnerOf(c, s, root, threshold, j);
        if !Under(s.tree[x], threshold) {
          ApartSymmetric(c, Class(root, j), Class(root, i), threshold);
        } else {
          assert Class(root, i) == s.members[p] && Class(root, j) == s.members[x];
          assert i in Class(root, i) && j in Class(root, j);
        }
      }
    }
  }

  lemma LinkClasses(root: seq<nat>, a: nat, b: nat, i: nat)
    requires a < |root| && b < |root| && i < |root|
    ensures Class(Link(root, a, b), i) ==
            if root[i] == root[a] || root[i] == root[b] then Class(root, a) + Class(root, b) else Class(root, i)
  {
  }

  /** A merge at or below the threshold joins exactly the two classes it merged. */
  lemma MergeBelowKeepsCut(c: Corpus, s: State, a: nat, b: nat, root: seq<nat>, threshold: real)
    requires c.Valid() && Shape(c, s) && Monotone(c, s) && Reciprocal(c, s, a, b)
    requires Shape(c, Merged(c, s, a, b))
    requires CutInvariant(c, s, root, threshold)
    requires Gap(c, s, a, b) <= threshold
    requires s.reps[a] < |root| && s.reps[b] < |root|
    ensures CutInvariant(c, Merged(c, s, a, b), Link(root, s.reps[a], s.reps[b]), threshold)
  {
    hide CannotLink, MeanDistance, WellBuilt, Owned, Size, Apart;
    var s', new' := Merged(c, s, a, b), |s.members|;
    var A, B, U := s.members[a], s.members[b], s'.members[new'];
    var ra, rb := s.reps[a], s.reps[b];
    var root' := Link(root, ra, rb);
    GapSymmetric(c, s, a, b);
    assert GoodCluster(c, s, a) && GoodCluster(c, s, b);
    assert Class(root, ra) == A && Class(root, rb) == B;
    SumOfUnion(c, A, B);
    assert GoodCluster(c, s', new') && Under(s'.tree[new'], threshold);
    assert Justified(c, U, threshold);
    forall i: nat | i < |root|
      ensures i in U ==> Class(root', i) == U
      ensures i !in U ==> Class(root', i) == Class(root, i)
      ensures i in U <==> root[i] == root[ra] || root[i] == root[rb]
    {
      LinkClasses(root, ra, rb, i);
      assert i in Class(root, i);
      assert i in A <==> root[i] == root[ra];
      assert i in B <==> root[i] == root[rb];
    }
    forall x, i, j: nat | x in s'.alive && !Under(s'.tree[x], threshold) && i in s'.members[x]
      && j < |root| && root'[j] != root'[i]
      ensures Apart(c, Class(root', i), Class(root', j), threshold)
    {
      assert x != new' && GoodCluster(c, s, x);
      assert i !in U by { assert s'.members[x] !! s'.members[new']; }
      if j in U {
        assert Apart(c, Class(root, i), Class(root, ra), threshold);
        assert Apart(c, Class(root, i), Class(root, rb), threshold);
        ApartUnion(c, Class(root, i), A, B, threshold);
      }
    }
  }

  /** No two classes of the final cut can still be merged at the threshold. */
  ghost predicate Maximal(c: Corpus, root: seq<nat>, threshold: real)
    requires c.Valid()
  {
    forall i: nat, j: nat :: i < |root| && j < |root| && root[i] != root[j] ==>
      Apart(c, Class(root, i), Class(root, j), threshold)
  }

  lemma CutIsMaximal(c: Corpus, s: State, root: seq<nat>, threshold: real)
    requires c.Valid() && Shape(c, s) && CutInvariant(c, s, root, threshold)
    requires forall x, y :: x in s.alive && y in s.alive && x != y ==> !Linkable(c, s, x, y)
    ensures Maximal(c, root, threshold)
  {
    forall i: nat, j: nat | i < |root| && j < |root| && root[i] != root[j]
      ensures Apart(c, Class(root, i), Class(root, j), threshold)
    {
      if Size(c, Class(root, i)) > 0.0 && Size(c, Class(root, j)) > 0.0 {
        var x := OwnerOf(c, s, root, threshold, i);
        var y := OwnerOf(c, s, root, threshold, j);
        if !Under(s.tree[x], threshold) {
        } else if !Under(s.tree[y], threshold) {
          ApartSymmetric(c, Class(root, j), Class(root, i), threshold);
        } else {
          assert i in Class(root, i) && j in Class(root, j);
        }
      }
    }
  }
}
