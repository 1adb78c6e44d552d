/** `cluster_corpus` itself (processing/clustering.py:16-140): pin groups, union-find,
    the nearest-neighbour chain over sums of unit vectors, and the threshold cut. */
module Clustering {
  import opened Linkage
  import opened DisjointSets
  import opened NnChain
  import opened AverageLinkage

  datatype Coordinate = Finite(value: real) | NonFinite

  // ----- the normalised corpus

  predicate AllFinite(row: seq<Coordinate>) {
    forall k :: 0 <= k < |row| ==> row[k].Finite?
  }

  /** A row with its values, or zeros throughout when one of them is not finite. */
  function Safe(row: seq<Coordinate>): (v: Vector)
    ensures |v| == |row|
  {
    if AllFinite(row) then seq(|row|, k requires 0 <= k < |row| => row[k].value) else Zero(|row|)
  }

  predicate Rectangular(vectors: seq<seq<Coordinate>>, dim: nat) {
    forall i :: 0 <= i < |vectors| ==> |vectors[i]| == dim
  }

  /** The Euclidean length of a safe row. */
  predicate IsNorm(row: seq<Coordinate>, norm: real) {
    norm >= 0.0 && norm * norm == Dot(Safe(row), Safe(row))
  }

  /** `norms` are the Euclidean lengths of the safe rows. */
  predicate AreNorms(vectors: seq<seq<Coordinate>>, norms: seq<real>) {
    && |norms| == |vectors|
    && forall i :: 0 <= i < |vectors| ==> IsNorm(vectors[i], norms[i])
  }

  function Unit(row: seq<Coordinate>, norm: real): Vector {
    Divide(Safe(row), if norm == 0.0 then 1.0 else norm)
  }

  function Normalised(vectors: seq<seq<Coordinate>>, norms: seq<real>, pins: map<nat, Identity>, dim: nat): Corpus
    requires |norms| == |vectors|
  {
    Corpus(
      dim,
      seq(|vectors|, i requires 0 <= i < |vectors| => Unit(vectors[i], norms[i])),
      seq(|vectors|, i requires 0 <= i < |vectors| => AllFinite(vectors[i])),
      pins)
  }

  lemma SquareNonZero(x: real, e: real)
    requires x != 0.0 && e == x * x
    ensures e != 0.0
  {
    QuotientIs(e, x, x);
    QuotientIs(0.0, x, 0.0);
  }

  lemma UnitLength(row: seq<Coordinate>, norm: real)
    requires IsNorm(row, norm)
    ensures Dot(Unit(row, norm), Unit(row, norm)) <= 1.0
  {
    if norm == 0.0 {
      DotDivide(Safe(row), 1.0, 1.0);
    } else {
      var e := norm * norm;
      SquareNonZero(norm, e);
      DotDivide(Safe(row), norm, e);
      QuotientIs(e, e, 1.0);
    }
  }

  /** The values of a finite row. */
  function Values(row: seq<Coordinate>): (v: Vector)
    requires forall k :: 0 <= k < |row| ==> row[k].Finite?
    ensures |v| == |row| && forall k :: 0 <= k < |row| ==> v[k] == row[k].value
  {
    seq(|row|, k requires 0 <= k < |row| => row[k].value)
  }

  /** A finite row's norm is the root of the sum of its squares; any other row's is zero. */
  lemma NormMeans(row: seq<Coordinate>, norm: real)
    requires IsNorm(row, norm)
    ensures norm >= 0.0
    ensures (forall k :: 0 <= k < |row| ==> row[k].Finite?) ==> norm * norm == Dot(Values(row), Values(row))
    ensures (exists k :: 0 <= k < |row| && !row[k].Finite?) ==> norm == 0.0
  {
    if AllFinite(row) {
      assert Safe(row) == Values(row);
    } else {
      DotZero(Zero(|row|));
      SquareSign(norm);
    }
  }

  /** The corpus of some vectors: the finite rows that are not zero, each scaled to length one, and
      zeros for all the others. */
  ghost predicate Directions(vectors: seq<seq<Coordinate>>, norms: seq<real>, c: Corpus) {
    && |c.unit| == |c.finite| == |vectors| == |norms|
    && (forall i :: 0 <= i < |vectors| ==> |c.unit[i]| == |vectors[i]|)
    && (forall i :: 0 <= i < |vectors| ==>
          (c.finite[i] <==> forall k :: 0 <= k < |vectors[i]| ==> vectors[i][k].Finite?))
    && (forall i :: 0 <= i < |vectors| && c.finite[i] && norms[i] != 0.0 ==>
          && Dot(c.unit[i], c.unit[i]) == 1.0
          && forall k :: 0 <= k < |vectors[i]| ==> norms[i] * c.unit[i][k] == vectors[i][k].value)
    && (forall i :: 0 <= i < |vectors| && !(c.finite[i] && norms[i] != 0.0) ==>
          forall k :: 0 <= k < |vectors[i]| ==> c.unit[i][k] == 0.0)
  }

  lemma UnitMeans(row: seq<Coordinate>, norm: real)
    requires IsNorm(row, norm)
    ensures AllFinite(row) && norm != 0.0 ==> Dot(Unit(row, norm), Unit(row, norm)) == 1.0
    ensures AllFinite(row) && norm != 0.0 ==>
      forall k :: 0 <= k < |row| ==> norm * Unit(row, norm)[k] == row[k].value
    ensures !(AllFinite(row) && norm != 0.0) ==> forall k :: 0 <= k < |row| ==> Unit(row, norm)[k] == 0.0
  {
    NoLength(Safe(row));
    NormMeans(row, norm);
    if AllFinite(row) && norm != 0.0 {
      var e := norm * norm;
      SquareNonZero(norm, e);
      DotDivide(Safe(row), norm, e);
      QuotientIs(e, e, 1.0);
    } else {
      SquareSign(norm);
      assert forall k :: 0 <= k < |row| ==> Safe(row)[k] == 0.0;
      forall k | 0 <= k < |row| ensures Unit(row, norm)[k] == 0.0 {
        QuotientIs(0.0, if norm == 0.0 then 1.0 else norm, 0.0);
      }
    }
  }

  lemma NormalisedDirections(vectors: seq<seq<Coordinate>>, norms: seq<real>, pins: map<nat, Identity>, dim: nat)
    requires AreNorms(vectors, norms)
    ensures Directions(vectors, norms, Normalised(vectors, norms, pins, dim))
  {
    forall i | 0 <= i < |vectors| ensures IsNorm(vectors[i], norms[i]) {}
    hide IsNorm, Unit, AllFinite, Dot;
    forall i | 0 <= i < |vectors|
      ensures var u := Normalised(vectors, norms, pins, dim).unit[i];
        && |u| == |vectors[i]|
        && (AllFinite(vectors[i]) && norms[i] != 0.0 ==>
              Dot(u, u) == 1.0 && forall k :: 0 <= k < |vectors[i]| ==> norms[i] * u[k] == vectors[i][k].value)
        && (!(AllFinite(vectors[i]) && norms[i] != 0.0) ==> forall k :: 0 <= k < |vectors[i]| ==> u[k] == 0.0)
    {
      UnitMeans(vectors[i], norms[i]);
    }
  }

  /** So the product of two of its rows is the cosine of the raw ones: times their norms it is the
      product of those. */
  lemma CosineOfRows(vectors: seq<seq<Coordinate>>, norms: seq<real>, c: Corpus, i: nat, j: nat)
    requires Directions(vectors, norms, c) && i < |vectors| && j < |vectors| && |vectors[i]| == |vectors[j]|
    requires c.finite[i] && c.finite[j] && norms[i] != 0.0 && norms[j] != 0.0
    ensures norms[i] * norms[j] * Dot(c.unit[i], c.unit[j]) == Dot(Values(vectors[i]), Values(vectors[j]))
  {
    DotScaled(c.unit[i], c.unit[j], Values(vectors[i]), Values(vectors[j]), norms[i], norms[j]);
  }

  lemma NormalisedIsValid(vectors: seq<seq<Coordinate>>, norms: seq<real>, pins: map<nat, Identity>, dim: nat)
    requires Rectangular(vectors, dim) && AreNorms(vectors, norms)
    requires forall i :: i in pins ==> i < |vectors|
    ensures Normalised(vectors, norms, pins, dim).Valid()
  {
    forall i | 0 <= i < |vectors|
      ensures Dot(Unit(vectors[i], norms[i]), Unit(vectors[i], norms[i])) <= 1.0
    {
      UnitLength(vectors[i], norms[i]);
    }
  }

  // ----- pin groups

  function Elements(s: seq<nat>): set<nat> {
    set x | x in s
  }

  predicate Increasing(s: seq<nat>) {
    forall j, k :: 0 <= j < k < |s| ==> s[j] < s[k]
  }

  /** The pinned indices below n grouped by identity, in order of first appearance. */
  ghost predicate AreGroups(pins: map<nat, Identity>, n: nat, groups: seq<seq<nat>>, keys: seq<Identity>) {
    && |groups| == |keys|
    && (forall g, h :: 0 <= g < h < |keys| ==> keys[g] != keys[h])
    && (forall g :: 0 <= g < |groups| ==> groups[g] != [] && Increasing(groups[g]))
    && (forall g, h :: 0 <= g < h < |groups| ==> groups[g] != [] && groups[h] != [] && groups[g][0] < groups[h][0])
    && (forall g, i {:trigger i in groups[g]} :: 0 <= g < |groups| && i in groups[g] ==>
          i in pins && i < n && pins[i] == keys[g])
    && (forall g, i {:trigger keys[g], pins[i]} :: 0 <= g < |groups| && i in pins && i < n && pins[i] == keys[g] ==>
          i in groups[g])
    && (forall i :: i in pins && i < n ==> pins[i] in keys)
  }

  lemma AppendKeepsIncreasing(s: seq<nat>, i: nat)
    requires Increasing(s) && forall x :: x in s ==> x < i
    ensures Increasing(s + [i])
  {
    forall k | 0 <= k < |s| ensures s[k] < i { assert s[k] in s; }
  }

  /** Where each identity's group is. */
  ghost predicate GroupPositions(keys: seq<Identity>, position: map<Identity, nat>) {
    && (forall key :: key in position <==> key in keys)
    && (forall key :: key in position ==> position[key] < |keys| && keys[position[key]] == key)
  }

  lemma GroupGrows(pins: map<nat, Identity>, i: nat, groups: seq<seq<nat>>, keys: seq<Identity>, g: nat)
    requires AreGroups(pins, i, groups, keys) && i in pins && g < |keys| && keys[g] == pins[i]
    ensures g < |groups| && AreGroups(pins, i + 1, groups[g := groups[g] + [i]], keys)
  {
    AppendKeepsIncreasing(groups[g], i);
    hide Increasing;
  }

  lemma GroupOpens(pins: map<nat, Identity>, i: nat, groups: seq<seq<nat>>, keys: seq<Identity>)
    requires AreGroups(pins, i, groups, keys) && i in pins && pins[i] !in keys
    ensures AreGroups(pins, i + 1, groups + [[i]], keys + [pins[i]])
  {
    assert Increasing([i]);
    assert forall g :: 0 <= g < |groups| ==> groups[g][0] in groups[g];
    hide Increasing;
  }

  lemma PositionOpens(keys: seq<Identity>, position: map<Identity, nat>, key: Identity)
    requires GroupPositions(keys, position) && key !in keys
    ensures GroupPositions(keys + [key], position[key := |keys|])
  {
  }

  lemma Unpinned(pins: map<nat, Identity>, i: nat, groups: seq<seq<nat>>, keys: seq<Identity>)
    requires AreGroups(pins, i, groups, keys) && i !in pins
    ensures AreGroups(pins, i + 1, groups, keys)
  {
    hide Increasing;
  }

  method PinGroups(n: nat, pins: map<nat, Identity>) returns (groups: seq<seq<nat>>, keys: seq<Identity>)
    ensures AreGroups(pins, n, groups, keys)
  {
    groups, keys := [], [];
    var position: map<Identity, nat> := map[];
    for i := 0 to n
      invariant AreGroups(pins, i, groups, keys) && GroupPositions(keys, position)
    {
      hide AreGroups, GroupPositions;
      if i in pins {
        var key := pins[i];
        if key in position {
          var g := position[key];
          GroupGrows(pins, i, groups, keys, g);
          groups := groups[g := groups[g] + [i]];
        } else {
          GroupOpens(pins, i, groups, keys);
          PositionOpens(keys, position, key);
          position := position[key := |keys|];
          groups, keys := groups + [[i]], keys + [key];
        }
      } else {
        Unpinned(pins, i, groups, keys);
      }
    }
  }

  /** Two indices share a class exactly when they are the same or both already joined
      and pinned to one identity. */
  ghost predicate JoinedPins(pins: map<nat, Identity>, root: seq<nat>, joined: set<nat>) {
    && (forall i :: i in joined ==> i in pins && i < |root|)
    && forall i: nat, j: nat :: i < |root| && j < |root| ==>
         (root[i] == root[j] <==> i == j || (i in joined && j in joined && pins[i] == pins[j]))
  }

  lemma JoinOne(pins: map<nat, Identity>, root: seq<nat>, joined: set<nat>, head: nat, other: nat)
    requires JoinedPins(pins, root, joined) && head in joined
    requires other in pins && other !in joined && other < |root| && pins[other] == pins[head]
    ensures JoinedPins(pins, Link(root, head, other), joined + {other})
  {
  }

  /** One index alone joins nothing. */
  lemma HeadAlone(pins: map<nat, Identity>, root: seq<nat>, joined: set<nat>, head: nat)
    requires JoinedPins(pins, root, joined) && head in pins && head < |root|
    requires forall i :: i in joined ==> pins[i] != pins[head]
    ensures JoinedPins(pins, root, joined + {head})
  {
  }

  lemma NoRepeats(ids: seq<nat>)
    requires Increasing(ids)
    ensures forall k :: 0 <= k < |ids| ==> ids[k] !in ids[..k]
  {
  }

  method UnionGroup(uf: UnionFind, pins: map<nat, Identity>, ids: seq<nat>, ghost key: Identity, ghost before: set<nat>)
    requires uf.Valid() && JoinedPins(pins, uf.root, before)
    requires ids != [] && Increasing(ids) && Elements(ids) !! before
    requires forall k :: 0 <= k < |ids| ==> ids[k] in pins && ids[k] < |uf.root| && pins[ids[k]] == key
    requires forall i :: i in before ==> i in pins && pins[i] != key
    modifies uf, uf.parent
    ensures uf.Valid() && |uf.root| == |old(uf.root)|
    ensures JoinedPins(pins, uf.root, before + Elements(ids))
  {
    hide JoinedPins, Link, Forest, Increasing;
    ghost var joined := before + {ids[0]};
    HeadAlone(pins, uf.root, before, ids[0]);
    NoRepeats(ids);
    assert Elements(ids[..1]) == {ids[0]};
    for k := 1 to |ids|
      invariant uf.Valid() && |uf.root| == |old(uf.root)| && JoinedPins(pins, uf.root, joined)
      invariant joined == before + Elements(ids[..k])
    {
      assert ids[k] in Elements(ids) && ids[0] in ids[..k];
      assert Elements(ids[..k + 1]) == Elements(ids[..k]) + {ids[k]};
      JoinOne(pins, uf.root, joined, ids[0], ids[k]);
      joined := joined + {ids[k]};
      uf.Union(ids[0], ids[k]);
    }
    assert ids[..|ids|] == ids;
  }

  /** The pinned indices of the first g groups. */
  ghost function PinnedBelow(groups: seq<seq<nat>>, g: nat): set<nat>
    requires g <= |groups|
  {
    set h, i | 0 <= h < g && i in groups[h] :: i
  }

  lemma NextGroup(pins: map<nat, Identity>, n: nat, groups: seq<seq<nat>>, keys: seq<Identity>, g: nat)
    requires AreGroups(pins, n, groups, keys) && g < |groups|
    ensures PinnedBelow(groups, g + 1) == PinnedBelow(groups, g) + Elements(groups[g])
    ensures Elements(groups[g]) !! PinnedBelow(groups, g)
    ensures forall i :: i in PinnedBelow(groups, g) ==> i in pins && pins[i] != keys[g]
    ensures forall k :: 0 <= k < |groups[g]| ==>
      groups[g][k] in pins && groups[g][k] < n && pins[groups[g][k]] == keys[g]
  {
    forall k | 0 <= k < |groups[g]| ensures groups[g][k] in groups[g] {}
    forall i | i in Elements(groups[g]) ensures i !in PinnedBelow(groups, g) {}
  }

  lemma AllGroups(pins: map<nat, Identity>, n: nat, groups: seq<seq<nat>>, keys: seq<Identity>)
    requires AreGroups(pins, n, groups, keys)
    ensures PinnedBelow(groups, |groups|) == set i | i in pins && i < n
  {
    forall i | i in pins && i < n ensures i in PinnedBelow(groups, |groups|) {
      var g :| 0 <= g < |keys| && keys[g] == pins[i];
      assert i in groups[g];
    }
  }

  method UnionPins(uf: UnionFind, pins: map<nat, Identity>, groups: seq<seq<nat>>, ghost keys: seq<Identity>)
    requires uf.Valid() && AreGroups(pins, |uf.root|, groups, keys)
    requires forall i :: 0 <= i < |uf.root| ==> uf.root[i] == i
    modifies uf, uf.parent
    ensures uf.Valid() && |uf.root| == |old(uf.root)|
    ensures JoinedPins(pins, uf.root, set i | i in pins && i < |uf.root|)
  {
    ghost var n := |uf.root|;
    assert PinnedBelow(groups, 0) == {};
    for g := 0 to |groups|
      invariant uf.Valid() && |uf.root| == n
      invariant JoinedPins(pins, uf.root, PinnedBelow(groups, g))
    {
      NextGroup(pins, n, groups, keys, g);
      UnionGroup(uf, pins, groups[g], keys[g], PinnedBelow(groups, g));
    }
    AllGroups(pins, n, groups, keys);
  }

  // ----- the arrays against the abstract state

  /** The tag of a cluster: -1 without a pin, else the number of its only identity. */
  ghost predicate TagFits(c: Corpus, keys: seq<Identity>, X: set<nat>, tag: int) {
    if tag == -1 then forall i :: i in X ==> i !in c.pins
    else
      && 0 <= tag < |keys|
      && (exists i :: i in X && i in c.pins)
      && (forall i :: i in X && i in c.pins ==> c.pins[i] == keys[tag])
  }

  ghost predicate Mirrors(c: Corpus, s: State, keys: seq<Identity>, totals: array<Vector>, sizes: array<real>,
                          tags: array<int>, alive: array<bool>)
    requires c.Valid()
    reads totals, sizes, tags, alive
  {
    && |s.members| <= totals.Length == sizes.Length == tags.Length == alive.Length
    && (forall a: nat :: a < |s.members| ==> (alive[a] <==> a in s.alive))
    && (forall a :: a in s.alive && a < |s.members| ==>
          && totals[a] == Sum(c, s.members[a])
          && sizes[a] == Size(c, s.members[a])
          && TagFits(c, keys, s.members[a], tags[a]))
  }

  lemma TagsDecideLinks(c: Corpus, keys: seq<Identity>, X: set<nat>, Y: set<nat>, tx: int, ty: int)
    requires forall g, h :: 0 <= g < h < |keys| ==> keys[g] != keys[h]
    requires TagFits(c, keys, X, tx) && TagFits(c, keys, Y, ty)
    ensures CannotLink(c, X, Y) <==> tx != -1 && ty != -1 && tx != ty
    ensures !CannotLink(c, X, Y) ==> TagFits(c, keys, X + Y, if tx != -1 then tx else ty)
  {
    if tx != -1 && ty != -1 && tx != ty {
      var i :| i in X && i in c.pins;
      var j :| j in Y && j in c.pins;
      assert c.pins[i] != c.pins[j];
    }
  }

  lemma {:induction false} SingletonSum(c: Corpus, j: nat, k: nat)
    requires c.Valid() && j < |c.unit| && k <= |c.unit| && c.finite[j]
    ensures Count(c, {j}, k) == if j < k then 1.0 else 0.0
    ensures Total(c, {j}, k) == if j < k then c.unit[j] else Zero(c.dim)
  {
    if k > 0 {
      SingletonSum(c, j, k - 1);
    }
  }

  /** The sum and the number of the finite rows among `ids`. */
  method SumRows(c: Corpus, ids: seq<nat>) returns (total: Vector, size: real)
    requires c.Valid() && Increasing(ids)
    requires forall k :: 0 <= k < |ids| ==> ids[k] < |c.unit|
    ensures total == Sum(c, Elements(ids)) && size == Size(c, Elements(ids))
  {
    total, size := Zero(c.dim), 0.0;
    EmptySum(c, |c.unit|);
    assert Elements(ids[..0]) == {};
    for k := 0 to |ids|
      invariant total == Sum(c, Elements(ids[..k])) && size == Size(c, Elements(ids[..k]))
    {
      var j := ids[k];
      assert Elements(ids[..k + 1]) == Elements(ids[..k]) + {j};
      assert j !in Elements(ids[..k]);
      SumOfUnion(c, Elements(ids[..k]), {j});
      if c.finite[j] {
        SingletonSum(c, j, |c.unit|);
        total, size := Add(total, c.unit[j]), size + 1.0;
      } else {
        DroppedRow(c, {j}, |c.unit|);
      }
    }
    assert ids[..|ids|] == ids;
  }

  lemma {:induction false} EmptySum(c: Corpus, k: nat)
    requires c.Valid() && k <= |c.unit|
    ensures Total(c, {}, k) == Zero(c.dim) && Count(c, {}, k) == 0.0
  {
    DroppedRow(c, {}, k);
  }

  lemma {:induction false} DroppedRow(c: Corpus, X: set<nat>, k: nat)
    requires c.Valid() && k <= |c.unit|
    requires forall i :: 0 <= i < k ==> !Counts(c, X, i)
    ensures Total(c, X, k) == Zero(c.dim) && Count(c, X, k) == 0.0
  {
    if k > 0 {
      DroppedRow(c, X, k - 1);
    }
  }

  // ----- the base clusters

  ghost predicate Held(s: State, i: nat) {
    exists a: nat :: a < |s.members| && i in s.members[a]
  }

  /** The clusters that exist before any merge: one per block, alive when it has geometry. */
  ghost predicate BaseState(c: Corpus, s: State, n: nat)
    requires c.Valid() && n <= |c.unit|
  {
    && |s.members| == |s.tree| == |s.reps| && s.chain == []
    && (forall a :: a in s.alive <==> 0 <= a < |s.members| && Size(c, s.members[a]) > 0.0)
    && (forall a: nat :: a < |s.members| ==>
          s.reps[a] < n && s.members[a] == Block(c, s.reps[a]) && s.tree[a] == Leaf(s.members[a]))
    && (forall a, b :: 0 <= a < b < |s.reps| ==> s.members[a] !! s.members[b])
    && (forall i: nat :: i < n ==> Held(s, i))
  }

  lemma BlockIsShared(c: Corpus, i: nat, j: nat)
    requires c.Valid() && i < |c.unit| && j < |c.unit| && j in Block(c, i)
    ensures Block(c, j) == Block(c, i)
  {
  }

  /** The union-find over the pin groups has exactly the blocks for classes. */
  lemma ClassesAreBlocks(c: Corpus, root: seq<nat>, i: nat)
    requires c.Valid() && |root| == |c.unit| && i < |root|
    requires JoinedPins(c.pins, root, set j | j in c.pins && j < |root|)
    ensures Class(root, i) == Block(c, i)
  {
  }

  lemma BaseShape(c: Corpus, s: State)
    requires c.Valid() && BaseState(c, s, |c.unit|)
    ensures Shape(c, s) && ChainInvariant(c, s)
  {
    hide MeanDistance, CannotLink;
    forall a | a in s.alive ensures GoodCluster(c, s, a) {
      assert WellBuilt(c, s.tree[a]);
    }
    forall i: nat | i < |c.unit| && c.finite[i] ensures Owned(s, i) {
      assert Held(s, i);
      var a: nat :| a < |s.members| && i in s.members[a];
      EmptySize(c, s.members[a], |c.finite|);
      assert Counts(c, s.members[a], i);
    }
  }

  lemma BaseMonotone(c: Corpus, s: State)
    requires c.Valid() && BaseState(c, s, |c.unit|) && Shape(c, s)
    ensures Monotone(c, s)
  {
    hide WellBuilt, CannotLink, Block;
    forall x, y | x in s.alive && y in s.alive && x != y && Linkable(c, s, x, y)
      ensures Height(s.tree[x]) <= Gap(c, s, x, y)
    {
      MeanDistanceClosed(c, s.members[x], s.members[y]);
    }
  }

  lemma BaseCut(c: Corpus, s: State, root: seq<nat>, threshold: real)
    requires c.Valid() && BaseState(c, s, |c.unit|) && |root| == |c.unit| && Shape(c, s)
    requires JoinedPins(c.pins, root, set j | j in c.pins && j < |root|)
    ensures CutInvariant(c, s, root, threshold)
  {
    hide MeanDistance, CannotLink, Size, JoinedPins, Block, Apart;
    forall i: nat | i < |root| ensures Justified(c, Class(root, i), threshold) {
      ClassesAreBlocks(c, root, i);
      assert WellBuilt(c, Leaf(Block(c, i)));
    }
    forall a, i | a in s.alive && i in s.members[a]
      ensures Class(root, i) == s.members[a]
    {
      assert GoodCluster(c, s, a);
      ClassesAreBlocks(c, root, i);
      BlockIsShared(c, s.reps[a], i);
    }
  }

  // ----- one look at the neighbours of a cluster

  datatype Distance = At(value: real) | Unreachable

  /** The distance the loop sees from a to x: unreachable when the tags differ. */
  ghost function SeenDistance(c: Corpus, s: State, a: nat, x: nat): Distance
    requires c.Valid() && a < |s.members| && x < |s.members|
  {
    if Linkable(c, s, a, x) then At(Gap(c, s, a, x)) else Unreachable
  }

  /** The distance from the stored sums and sizes, clamped at zero. */
  function Clamped(u: Vector, v: Vector, m: real, n: real): real
    requires |u| == |v|
  {
    var p := m * n;
    if p == 0.0 then 0.0
    else
      var d := 1.0 - Dot(u, v) / p;
      if d < 0.0 then 0.0 else d
  }

  lemma ProductNonZero(x: real, y: real, p: real)
    requires x > 0.0 && y > 0.0 && p == x * y
    ensures p > 0.0
  {
  }

  /** What the sums give is the mean pairwise distance. */
  lemma ClampedIsMean(c: Corpus, X: set<nat>, Y: set<nat>)
    requires c.Valid() && Size(c, X) > 0.0 && Size(c, Y) > 0.0
    ensures Clamped(Sum(c, X), Sum(c, Y), Size(c, X), Size(c, Y)) == MeanDistance(c, X, Y)
  {
    ProductNonZero(Size(c, X), Size(c, Y), Size(c, X) * Size(c, Y));
    MeanDistanceClosed(c, X, Y);
  }

  method Measure(totals: array<Vector>, sizes: array<real>, tags: array<int>, a: nat, x: nat,
                 ghost c: Corpus, ghost s: State, ghost keys: seq<Identity>, alive: array<bool>)
    returns (d: Distance)
    requires c.Valid() && Shape(c, s) && Mirrors(c, s, keys, totals, sizes, tags, alive)
    requires forall g, h :: 0 <= g < h < |keys| ==> keys[g] != keys[h]
    requires a in s.alive && x in s.alive
    requires a < |s.members| && x < |s.members|
    ensures d == SeenDistance(c, s, a, x)
  {
    hide Clamped, MeanDistance, CannotLink, WellBuilt, Size, Sum;
    assert GoodCluster(c, s, a) && GoodCluster(c, s, x);
    TagsDecideLinks(c, keys, s.members[a], s.members[x], tags[a], tags[x]);
    ClampedIsMean(c, s.members[x], s.members[a]);
    GapSymmetric(c, s, a, x);
    d := if tags[a] != -1 && tags[x] != -1 && tags[x] != tags[a] then Unreachable
         else At(Clamped(totals[x], totals[a], sizes[x], sizes[a]));
  }

  predicate Closer(d: Distance, e: Distance) {
    d.At? && (e.At? ==> d.value < e.value)
  }

  /** The first index of a smallest distance. */
  method ArgMin(dist: seq<Distance>) returns (k: nat)
    requires dist != []
    ensures k < |dist| && forall j :: 0 <= j < |dist| ==> !Closer(dist[j], dist[k])
    ensures forall j :: 0 <= j < k ==> Closer(dist[k], dist[j])
  {
    k := 0;
    for j := 1 to |dist|
      invariant k < j && forall i :: 0 <= i < j ==> !Closer(dist[i], dist[k])
      invariant forall i :: 0 <= i < k ==> Closer(dist[k], dist[i])
    {
      if Closer(dist[j], dist[k]) { k := j; }
    }
  }

  /** The clusters alive other than a, in order, with their distances to a. */
  method Look(totals: array<Vector>, sizes: array<real>, tags: array<int>, alive: array<bool>,
              a: nat, total: nat, ghost c: Corpus, ghost s: State, ghost keys: seq<Identity>)
    returns (ids: seq<nat>, dist: seq<Distance>)
    requires c.Valid() && Shape(c, s) && Mirrors(c, s, keys, totals, sizes, tags, alive)
    requires forall g, h :: 0 <= g < h < |keys| ==> keys[g] != keys[h]
    requires a in s.alive && total == |s.members| && a < total
    ensures |ids| == |dist| && Increasing(ids)
    ensures forall x :: x in ids <==> x in s.alive && x != a
    ensures forall k :: 0 <= k < |ids| ==> ids[k] < |s.members| && dist[k] == SeenDistance(c, s, a, ids[k])
  {
    ids, dist := [], [];
    for x := 0 to total
      invariant |ids| == |dist| && Increasing(ids)
      invariant forall y :: y in ids <==> y in s.alive && y != a && y < x
      invariant forall k :: 0 <= k < |ids| ==> ids[k] < |s.members| && dist[k] == SeenDistance(c, s, a, ids[k])
    {
      if alive[x] && x != a {
        var d := Measure(totals, sizes, tags, a, x, c, s, keys, alive);
        AppendKeepsIncreasing(ids, x);
        ids, dist := ids + [x], dist + [d];
      }
    }
    forall x | x in s.alive ensures x < total { assert GoodCluster(c, s, x); }
  }

  /** One look from the chain's tip: the least distance and where the chain goes next. A
      tie with the previous link counts as reciprocal. */
  method NextOf(ids: seq<nat>, dist: seq<Distance>, chain: seq<nat>, ghost c: Corpus, ghost s: State)
    returns (low: Distance, b: nat)
    requires c.Valid() && Shape(c, s) && ChainInvariant(c, s) && chain == s.chain != []
    requires |ids| == |dist| && dist != [] && Increasing(ids)
    requires forall x :: x in ids <==> x in s.alive && x != chain[|chain| - 1]
    requires chain[|chain| - 1] < |s.members|
    requires forall k :: 0 <= k < |ids| ==>
      ids[k] < |s.members| && dist[k] == SeenDistance(c, s, chain[|chain| - 1], ids[k])
    ensures low == Unreachable ==>
      forall x :: x in s.alive && x != chain[|chain| - 1] && x < |s.members| ==> !Linkable(c, s, chain[|chain| - 1], x)
    ensures low.At? ==> b in s.alive && b < |s.members| && low.value == Gap(c, s, chain[|chain| - 1], b)
    ensures low.At? ==> Looks(c, s, b)
    ensures low.At? ==>
      if |chain| >= 2 && b == chain[|chain| - 2] then Reciprocal(c, s, chain[|chain| - 1], b) else NextLink(c, s, b)
  {
    hide CannotLink, MeanDistance, WellBuilt, Owned;
    var a := chain[|chain| - 1];
    var k := ArgMin(dist);
    low, b := dist[k], ids[k];
    assert ids[k] in ids;
    forall x | x in s.alive && x != a
      ensures x < |s.members| && !Closer(SeenDistance(c, s, a, x), low)
    {
      var j :| 0 <= j < |ids| && ids[j] == x;
      assert !Closer(dist[j], low);
    }
    if |chain| >= 2 {
      var prev := chain[|chain| - 2];
      assert LinkNearest(c, s, |chain| - 2);
      GapSymmetric(c, s, a, prev);
      assert prev in ids;
      var p: nat :| p < |ids| && ids[p] == prev;
      if dist[p] == low { b := prev; }
    }
  }

  /** The first index of each group, to the group's number. */
  function Heads(groups: seq<seq<nat>>): (heads: map<nat, nat>)
    requires forall g :: 0 <= g < |groups| ==> groups[g] != []
    requires forall g, h :: 0 <= g < h < |groups| ==> groups[g][0] != groups[h][0]
    ensures forall i: nat :: i in heads ==> heads[i] < |groups| && groups[heads[i]][0] == i
    ensures forall g :: 0 <= g < |groups| ==> groups[g][0] in heads
  {
    map g: nat | g < |groups| :: groups[g][0] := g
  }

  lemma FirstsDiffer(pins: map<nat, Identity>, n: nat, groups: seq<seq<nat>>, keys: seq<Identity>)
    requires AreGroups(pins, n, groups, keys)
    ensures forall g :: 0 <= g < |groups| ==> groups[g] != []
    ensures forall g, h :: 0 <= g < h < |groups| ==> groups[g][0] != groups[h][0]
  {
    forall g | 0 <= g < |groups| ensures groups[g][0] in groups[g] {}
  }

  lemma GroupIsBlock(c: Corpus, groups: seq<seq<nat>>, keys: seq<Identity>, g: nat)
    requires c.Valid() && AreGroups(c.pins, |c.unit|, groups, keys) && g < |groups|
    ensures |groups| == |keys| && Increasing(groups[g]) && groups[g] != []
    ensures forall k :: 0 <= k < |groups[g]| ==> groups[g][k] < |c.unit|
    ensures groups[g][0] in c.pins && c.pins[groups[g][0]] == keys[g]
    ensures Elements(groups[g]) == Block(c, groups[g][0])
    ensures forall j :: j in Block(c, groups[g][0]) ==> groups[g][0] <= j
  {
    forall k | 0 <= k < |groups[g]| ensures groups[g][k] in groups[g] {}
  }

  lemma PlacedKeepsBase(c: Corpus, s: State, i: nat)
    requires c.Valid() && i < |c.unit| && BaseState(c, s, i)
    requires forall j :: j in Block(c, i) ==> i <= j
    ensures BaseState(c, Placed(c, s, i), i + 1)
  {
    var s' := Placed(c, s, i);
    forall a: nat, j | a < |s.members| && j in s.members[a] ensures j !in Block(c, i) {
      assert s.reps[a] < i;
      if j in Block(c, i) {
        BlockIsShared(c, i, j);
        BlockIsShared(c, s.reps[a], j);
      }
    }
    forall j: nat | j < i + 1 ensures Held(s', j) {
      if j < i {
        assert Held(s, j);
        var a: nat :| a < |s.members| && j in s.members[a];
        assert s'.members[a] == s.members[a];
      } else {
        assert s'.members[|s.members|] == Block(c, i);
      }
    }
  }

  lemma SkippedIsHeld(c: Corpus, s: State, i: nat, head: nat)
    requires c.Valid() && i < |c.unit| && BaseState(c, s, i)
    requires head < i && i in Block(c, head)
    ensures BaseState(c, s, i + 1)
  {
    assert Held(s, head);
    var a: nat :| a < |s.members| && head in s.members[a];
    BlockIsShared(c, s.reps[a], head);
    assert i in s.members[a];
  }

  /** What the loop stores for one block. */
  method StoreBlock(c: Corpus, i: nat, ids: seq<nat>) returns (total: Vector, size: real, live: bool)
    requires c.Valid() && i < |c.unit|
    requires i !in c.pins ==> ids == []
    requires i in c.pins ==> Increasing(ids) && Elements(ids) == Block(c, i)
    requires forall k :: 0 <= k < |ids| ==> ids[k] < |c.unit|
    ensures live <==> Size(c, Block(c, i)) > 0.0
    ensures live ==> total == Sum(c, Block(c, i)) && size == Size(c, Block(c, i))
  {
    if i in c.pins {
      total, size := SumRows(c, ids);
      live := size > 0.0;
    } else {
      total, size, live := c.unit[i], 1.0, c.finite[i];
      if live { SingletonSum(c, i, |c.unit|); } else { DroppedRow(c, {i}, |c.unit|); }
    }
  }

  /** Writes one block into the next free slot. */
  method PlaceBlock(c: Corpus, i: nat, ids: seq<nat>, tag: int, at: nat, ghost s: State, ghost keys: seq<Identity>,
                    totals: array<Vector>, sizes: array<real>, tags: array<int>, alive: array<bool>)
    returns (live: bool)
    requires c.Valid() && i < |c.unit| && BaseState(c, s, i) && Mirrors(c, s, keys, totals, sizes, tags, alive)
    requires forall k :: 0 <= k < |ids| ==> ids[k] < |c.unit|
    requires i !in c.pins ==> ids == [] && tag == -1
    requires i in c.pins ==>
      Increasing(ids) && Elements(ids) == Block(c, i) && 0 <= tag < |keys| && keys[tag] == c.pins[i]
    requires at == |s.members| < totals.Length
    requires forall j :: j in Block(c, i) ==> i <= j
    modifies totals, sizes, tags, alive
    ensures BaseState(c, Placed(c, s, i), i + 1) && Mirrors(c, Placed(c, s, i), keys, totals, sizes, tags, alive)
    ensures live <==> at in Placed(c, s, i).alive
  {
    hide Size, Sum, CannotLink;
    var total, size;
    total, size, live := StoreBlock(c, i, ids);
    totals[at], sizes[at], tags[at], alive[at] := total, size, tag, live;
    PlacedKeepsBase(c, s, i);
    assert TagFits(c, keys, Block(c, i), tag);
  }

  /** Lays out the blocks: one slot per unpinned index or pin group. */
  method LayBlocks(c: Corpus, groups: seq<seq<nat>>, keys: seq<Identity>,
                   totals: array<Vector>, sizes: array<real>, tags: array<int>, alive: array<bool>)
    returns (reps: seq<nat>, active: nat, ghost s: State)
    requires c.Valid() && AreGroups(c.pins, |c.unit|, groups, keys)
    requires totals.Length == sizes.Length == tags.Length == alive.Length == 2 * |c.unit|
    requires forall k :: 0 <= k < tags.Length ==> tags[k] == -1 && !alive[k]
    modifies totals, sizes, tags, alive
    ensures s == Base(c, |c.unit|)
    ensures BaseState(c, s, |c.unit|) && Mirrors(c, s, keys, totals, sizes, tags, alive)
    ensures reps == s.reps && |s.members| == |reps| <= |c.unit| && active == |s.alive| <= |reps| && s.chain == []
  {
    hide Size, Sum, CannotLink, BaseState, Mirrors, AreGroups, Block, Base;
    BaseOfNone(c);
    FirstsDiffer(c.pins, |c.unit|, groups, keys);
    var headOf := Heads(groups);
    reps, active := [], 0;
    s := State([], [], [], {}, []);
    NothingPlaced(c, keys, totals, sizes, tags, alive);
    for i := 0 to |c.unit|
      invariant s == Base(c, i)
      invariant BaseState(c, s, i) && reps == s.reps && |s.members| == |reps| <= i
      invariant active == |s.alive| <= |reps| && s.chain == []
      invariant forall a :: a in s.alive ==> a < |s.members|
      invariant Mirrors(c, s, keys, totals, sizes, tags, alive)
    {
      if i in headOf { GroupIsBlock(c, groups, keys, headOf[i]); }
      if i !in c.pins || i in headOf {
        if i !in c.pins { BlockAlone(c, i); }
        BaseOpens(c, i);
        var ids := if i in c.pins then groups[headOf[i]] else [];
        var tag := if i in c.pins then headOf[i] else -1;
        var live := PlaceBlock(c, i, ids, tag, |reps|, s, keys, totals, sizes, tags, alive);
        s := Placed(c, s, i);
        reps := reps + [i];
        if live { active := active + 1; }
      } else {
        ghost var g := GroupOf(c, groups, keys, i);
        SkippedIsHeld(c, s, i, groups[g][0]);
        BaseSkips(c, i, groups[g][0]);
      }
    }
  }

  lemma NothingPlaced(c: Corpus, keys: seq<Identity>, totals: array<Vector>, sizes: array<real>, tags: array<int>,
                      alive: array<bool>)
    requires c.Valid() && totals.Length == sizes.Length == tags.Length == alive.Length
    ensures BaseState(c, State([], [], [], {}, []), 0)
    ensures Mirrors(c, State([], [], [], {}, []), keys, totals, sizes, tags, alive)
  {
  }

  lemma BaseOfNone(c: Corpus)
    requires c.Valid()
    ensures Base(c, 0) == State([], [], [], {}, [])
  {
  }

  lemma BaseOpens(c: Corpus, i: nat)
    requires c.Valid() && i < |c.unit| && forall j :: j in Block(c, i) ==> i <= j
    ensures Base(c, i + 1) == Placed(c, Base(c, i), i)
  {
    hide Placed;
    assert Opens(c, i + 1 - 1);
  }

  lemma BaseSkips(c: Corpus, i: nat, head: nat)
    requires c.Valid() && i < |c.unit| && head < i && i in Block(c, head)
    ensures Base(c, i + 1) == Base(c, i)
  {
    hide Placed;
    BlockIsShared(c, head, i);
    assert head in Block(c, i) && !Opens(c, i + 1 - 1);
  }

  lemma BlockAlone(c: Corpus, i: nat)
    requires i !in c.pins
    ensures forall j :: j in Block(c, i) ==> i <= j
  {
  }

  lemma GroupOf(c: Corpus, groups: seq<seq<nat>>, keys: seq<Identity>, i: nat) returns (g: nat)
    requires c.Valid() && AreGroups(c.pins, |c.unit|, groups, keys) && i in c.pins
    ensures g < |groups| && groups[g] != [] && i in Block(c, groups[g][0]) && groups[g][0] <= i
  {
    g :| 0 <= g < |keys| && keys[g] == c.pins[i];
    assert i in groups[g];
    GroupIsBlock(c, groups, keys, g);
    assert groups[g][0] in groups[g];
  }

  // ----- the agglomeration

  /** No two clusters alive may be linked. */
  ghost predicate AllForbidden(c: Corpus, s: State) {
    forall x, y :: x in s.alive && y in s.alive && x != y ==>
      x < |s.members| && y < |s.members| && !Linkable(c, s, x, y)
  }

  /** Everything the loop keeps true. */
  ghost predicate Agglomerating(c: Corpus, s: State, root: seq<nat>, merges: seq<Merge>)
    requires c.Valid()
  {
    && |root| == |c.unit| && InRange(merges, |root|)
    && Shape(c, s) && ChainInvariant(c, s) && Monotone(c, s) && Recorded(c, s, root, merges)
    && forall threshold: real :: CutInvariant(c, s, Cut(root, merges, threshold), threshold)
  }

  /** And that this is where the loop gets to. */
  ghost predicate Underway(c: Corpus, s: State, root: seq<nat>, merges: seq<Merge>, turns: nat)
    requires c.Valid()
  {
    Agglomerating(c, s, root, merges) && Reached(c, Run(s, merges), turns)
  }

  /** One merge keeps everything, on whichever side of a threshold it lies. */
  lemma MergeStep(c: Corpus, s: State, root: seq<nat>, merges: seq<Merge>, a: nat, b: nat)
    requires c.Valid() && Agglomerating(c, s, root, merges) && Reciprocal(c, s, a, b)
    ensures a in s.alive && b in s.alive && s.reps[a] < |root| && s.reps[b] < |root|
    ensures Agglomerating(c, Merged(c, s, a, b), root,
                          merges + [Merge(Gap(c, s, a, b), s.reps[a], s.reps[b])])
  {
    hide Recorded;
    assert GoodCluster(c, s, a) && GoodCluster(c, s, b);
    var m := Merge(Gap(c, s, a, b), s.reps[a], s.reps[b]);
    assert (merges + [m])[..|merges|] == merges;
    MergeKeepsShape(c, s, a, b);
    MergeKeepsChain(c, s, a, b);
    MergeKeepsMonotone(c, s, a, b);
    MergeKeepsRecord(c, s, root, merges, a, b);
    forall threshold: real
      ensures CutInvariant(c, Merged(c, s, a, b), Cut(root, merges + [m], threshold), threshold)
    {
      var cut := Cut(root, merges, threshold);
      if m.height <= threshold {
        MergeBelowKeepsCut(c, s, a, b, cut, threshold);
      } else {
        MergeAboveKeepsCut(c, s, a, b, cut, threshold);
      }
    }
  }

  /** The lowest slot alive. */
  method FirstAlive(alive: array<bool>, total: nat, ghost c: Corpus, ghost s: State, ghost keys: seq<Identity>,
                    totals: array<Vector>, sizes: array<real>, tags: array<int>)
    returns (first: nat)
    requires c.Valid() && Shape(c, s) && Mirrors(c, s, keys, totals, sizes, tags, alive)
    requires total == |s.members| && s.alive != {}
    ensures first in s.alive && forall a :: a in s.alive ==> first <= a
  {
    first := 0;
    AliveInRange(c, s);
    while !alive[first]
      invariant first < total
      decreases total - first
      invariant forall a: nat :: a < first ==> a !in s.alive
    {
      ghost var other: nat :| other in s.alive;
      assert first < other < total;
      first := first + 1;
    }
  }

  lemma ExtendKeepsRecord(c: Corpus, s: State, root: seq<nat>, merges: seq<Merge>, b: nat)
    requires c.Valid() && Recorded(c, s, root, merges)
    ensures Recorded(c, Extended(s, b), root, merges)
  {
    hide JoinsClasses, NextAbove;
    forall k | 0 <= k < |merges| ensures Within(Extended(s, b), merges[k]) {
      assert Within(s, merges[k]);
    }
  }

  /** The chain has no part in the cuts. */
  lemma ExtendKeepsCuts(c: Corpus, s: State, root: seq<nat>, merges: seq<Merge>, b: nat)
    requires c.Valid() && Agglomerating(c, s, root, merges) && Shape(c, Extended(s, b))
    ensures forall threshold: real :: CutInvariant(c, Extended(s, b), Cut(root, merges, threshold), threshold)
  {
    hide Shape, ChainInvariant, Monotone, Cut, Recorded;
    forall threshold: real ensures CutInvariant(c, Extended(s, b), Cut(root, merges, threshold), threshold) {
      assert CutInvariant(c, s, Cut(root, merges, threshold), threshold);
    }
  }

  lemma RestartKeepsAll(c: Corpus, s: State, root: seq<nat>, merges: seq<Merge>, first: nat)
    requires c.Valid() && Agglomerating(c, s, root, merges) && s.chain == [] && first in s.alive
    ensures Agglomerating(c, Extended(s, first), root, merges)
  {
    hide Recorded, CutInvariant, Cut, Shape, ChainInvariant, Monotone, Extended;
    ExtendKeepsShape(c, s, first);
    ExtendKeepsCuts(c, s, root, merges, first);
    ExtendKeepsRecord(c, s, root, merges, first);
    ChainOfOne(c, s, first);
  }

  lemma ChainOfOne(c: Corpus, s: State, first: nat)
    requires c.Valid() && Shape(c, Extended(s, first)) && s.chain == [] && first in s.alive
    ensures ChainInvariant(c, Extended(s, first))
  {
    hide Shape, Nearest, MeanDistance, CannotLink;
  }

  /** Nothing but the chain has changed. */
  predicate OnlyChain(s: State, t: State, b: nat) {
    && t.chain == s.chain + [b] && t.reps == s.reps
    && |t.alive| == |s.alive| && |t.members| == |s.members|
  }

  lemma ExtendKeepsAll(c: Corpus, s: State, root: seq<nat>, merges: seq<Merge>, b: nat, turns: nat)
    requires c.Valid() && Underway(c, s, root, merges, turns) && Shape(c, s) && NextLink(c, s, b)
    requires |s.alive| > 1 && s.chain != [] && Looks(c, s, b) && !(|s.chain| >= 2 && b == s.chain[|s.chain| - 2])
    ensures Underway(c, Extended(s, b), root, merges, turns + 1)
    ensures |s.chain| < |s.alive| && OnlyChain(s, Extended(s, b), b)
  {
    hide Reached, Looks;
    ExtendIsTurn(c, s, merges, turns, b);
    ExtendKeepsShape(c, s, b);
    ExtendKeepsCuts(c, s, root, merges, b);
    ExtendKeepsRecord(c, s, root, merges, b);
    hide Recorded, CutInvariant;
    ExtendKeepsChain(c, s, b);
    ChainFits(Extended(s, b));
  }

  lemma Tip(c: Corpus, s: State)
    requires c.Valid() && Shape(c, s) && ChainInvariant(c, s) && s.chain != []
    ensures s.chain[|s.chain| - 1] in s.alive && s.chain[|s.chain| - 1] < |s.members|
    ensures |s.chain| <= |s.alive| && |s.members| == |s.reps|
  {
    AliveInRange(c, s);
    ChainFits(s);
  }

  lemma AliveInRange(c: Corpus, s: State)
    requires c.Valid() && Shape(c, s)
    ensures forall a :: a in s.alive ==> a < |s.members|
  {
    forall a | a in s.alive ensures a < |s.members| { assert GoodCluster(c, s, a); }
  }

  lemma LastOneStanding(s: State)
    requires |s.alive| <= 1
    ensures forall x, y :: x in s.alive && y in s.alive ==> x == y
  {
    forall x, y | x in s.alive && y in s.alive ensures x == y {
      assert {x, y} <= s.alive && s.alive == {x, y} + (s.alive - {x, y});
    }
  }

  lemma OthersExist(s: State, a: nat, ids: seq<nat>)
    requires |s.alive| > 1 && a in s.alive && forall x :: x in ids <==> x in s.alive && x != a
    ensures ids != []
  {
    assert s.alive != {a};
    var x :| x in s.alive && x != a;
    assert x in ids;
  }

  /** Writes the union of two clusters into the next free slot. */
  method MergeArrays(ghost c: Corpus, ghost s: State, ghost keys: seq<Identity>, a: nat, b: nat, at: nat,
                     totals: array<Vector>, sizes: array<real>, tags: array<int>, alive: array<bool>)
    requires c.Valid() && Shape(c, s) && Reciprocal(c, s, a, b) && Mirrors(c, s, keys, totals, sizes, tags, alive)
    requires forall g, h :: 0 <= g < h < |keys| ==> keys[g] != keys[h]
    requires at == |s.members| < totals.Length && a < at && b < at
    modifies totals, sizes, tags, alive
    ensures Mirrors(c, Merged(c, s, a, b), keys, totals, sizes, tags, alive)
  {
    hide Size, Sum, CannotLink, MeanDistance, WellBuilt, Owned;
    assert GoodCluster(c, s, a) && GoodCluster(c, s, b);
    SumOfUnion(c, s.members[a], s.members[b]);
    TagsDecideLinks(c, keys, s.members[a], s.members[b], tags[a], tags[b]);
    totals[at] := Add(totals[a], totals[b]);
    sizes[at] := sizes[a] + sizes[b];
    tags[at] := if tags[a] != -1 then tags[a] else tags[b];
    alive[a] := false;
    alive[b] := false;
    alive[at] := true;
  }

  lemma Unpack(c: Corpus, s: State, root: seq<nat>, merges: seq<Merge>, turns: nat)
    requires c.Valid() && Underway(c, s, root, merges, turns)
    ensures Shape(c, s) && ChainInvariant(c, s) && Monotone(c, s)
    ensures forall a :: a in s.alive ==> a < |s.members|
  {
    AliveInRange(c, s);
  }

  lemma BaseIsAgglomerating(c: Corpus, s: State, root: seq<nat>)
    requires c.Valid() && BaseState(c, s, |c.unit|) && |root| == |c.unit|
    requires JoinedPins(c.pins, root, set j | j in c.pins && j < |root|)
    ensures Agglomerating(c, s, root, [])
  {
    BaseShape(c, s);
    BaseMonotone(c, s);
    forall threshold: real ensures CutInvariant(c, s, Cut(root, [], threshold), threshold) {
      BaseCut(c, s, root, threshold);
    }
  }

  lemma KeysDiffer(pins: map<nat, Identity>, n: nat, groups: seq<seq<nat>>, keys: seq<Identity>)
    requires AreGroups(pins, n, groups, keys)
    ensures forall g, h :: 0 <= g < h < |keys| ==> keys[g] != keys[h]
  {
  }

  lemma MirrorsExtended(c: Corpus, s: State, keys: seq<Identity>, totals: array<Vector>, sizes: array<real>,
                        tags: array<int>, alive: array<bool>, b: nat)
    requires c.Valid() && Mirrors(c, s, keys, totals, sizes, tags, alive)
    ensures Mirrors(c, Extended(s, b), keys, totals, sizes, tags, alive)
  {
  }

  lemma MergedCount(c: Corpus, s: State, a: nat, b: nat)
    requires c.Valid() && Shape(c, s) && Reciprocal(c, s, a, b)
    requires a < |s.members| && b < |s.members| && |s.chain| >= 2
    ensures |Merged(c, s, a, b).alive| == |s.alive| - 1
  {
    AliveInRange(c, s);
    assert {a, b} <= s.alive && |{a, b}| == 2;
    assert |s.alive - {a, b}| == |s.alive| - 2;
  }

  /** What one look from the chain's tip decides: nothing left to merge, a merge with the
      previous link, or the next link. */
  method Probe(totals: array<Vector>, sizes: array<real>, tags: array<int>, alive: array<bool>, chain: seq<nat>,
               total: nat, ghost c: Corpus, ghost s: State, ghost keys: seq<Identity>)
    returns (low: Distance, b: nat)
    requires c.Valid() && Shape(c, s) && ChainInvariant(c, s) && Mirrors(c, s, keys, totals, sizes, tags, alive)
    requires forall g, h :: 0 <= g < h < |keys| ==> keys[g] != keys[h]
    requires chain == s.chain != [] && total == |s.members| && |s.alive| > 1
    ensures low == Unreachable ==> AllForbidden(c, s) && Done(c, s)
    ensures low.At? ==> Looks(c, s, b)
    ensures low.At? && |chain| >= 2 && b == chain[|chain| - 2] ==>
      Reciprocal(c, s, chain[|chain| - 1], b) && b < total && low.value == Gap(c, s, chain[|chain| - 1], b)
    ensures low.At? && !(|chain| >= 2 && b == chain[|chain| - 2]) ==> NextLink(c, s, b)
    ensures chain[|chain| - 1] in s.alive && chain[|chain| - 1] < total
  {
    hide Nearest, NextLink, Reciprocal, CannotLink, MeanDistance, SeenDistance, Linkable, WellBuilt, Owned, Mirrors;
    hide Looks, Done;
    Tip(c, s);
    var a := chain[|chain| - 1];
    var ids, dist := Look(totals, sizes, tags, alive, a, total, c, s, keys);
    OthersExist(s, a, ids);
    low, b := NextOf(ids, dist, chain, c, s);
    if low == Unreachable {
      AliveInRange(c, s);
      BreakMeansAllForbidden(c, s, a);
      NowhereToGo(c, s);
    }
  }

  lemma NowhereToGo(c: Corpus, s: State)
    requires c.Valid() && Shape(c, s) && s.chain != [] && AllForbidden(c, s)
    ensures Done(c, s)
  {
    hide CannotLink, MeanDistance, WellBuilt, Owned;
  }

  lemma MergeAll(c: Corpus, s: State, root: seq<nat>, merges: seq<Merge>, a: nat, b: nat, turns: nat)
    requires c.Valid() && Underway(c, s, root, merges, turns) && Shape(c, s) && Reciprocal(c, s, a, b)
    requires |s.alive| > 1 && Looks(c, s, b)
    ensures a < |s.members| == |s.tree| == |s.reps| && b < |s.members| && |s.chain| >= 2
    ensures a == s.chain[|s.chain| - 1] && s.reps[a] < |root| && s.reps[b] < |root|
    ensures Underway(c, Merged(c, s, a, b), root,
                     merges + [Merge(Gap(c, s, a, b), s.reps[a], s.reps[b])], turns + 1)
    ensures var t := Merged(c, s, a, b);
      && |t.alive| == |s.alive| - 1 && |t.members| == |s.members| + 1
      && t.reps == s.reps + [s.reps[a]] && t.chain == s.chain[..|s.chain| - 2]
  {
    hide Reached, Looks, Recorded, CutInvariant, ChainInvariant, Monotone, MeanDistance, CannotLink;
    AliveInRange(c, s);
    MergeStep(c, s, root, merges, a, b);
    MergedCount(c, s, a, b);
    MergeIsTurn(c, s, merges, turns, a, b);
  }

  /** The chain's first cluster: the first one alive. */
  method Restart(alive: array<bool>, total: nat, ghost c: Corpus, ghost s: State, ghost keys: seq<Identity>,
                 totals: array<Vector>, sizes: array<real>, tags: array<int>, ghost root: seq<nat>,
                 ghost merges: seq<Merge>, ghost turns: nat)
    returns (first: nat)
    requires c.Valid() && Underway(c, s, root, merges, turns) && Mirrors(c, s, keys, totals, sizes, tags, alive)
    requires s.chain == [] && |s.alive| > 1 && total == |s.members|
    ensures Underway(c, Extended(s, first), root, merges, turns + 1) && OnlyChain(s, Extended(s, first), first)
    ensures Mirrors(c, Extended(s, first), keys, totals, sizes, tags, alive)
    ensures Shape(c, Extended(s, first)) && ChainInvariant(c, Extended(s, first))
  {
    hide Agglomerating, Mirrors, Shape, ChainInvariant, Monotone, Reached;
    Unpack(c, s, root, merges, turns);
    assert s.alive != {};
    first := FirstAlive(alive, total, c, s, keys, totals, sizes, tags);
    RestartKeepsAll(c, s, root, merges, first);
    MirrorsExtended(c, s, keys, totals, sizes, tags, alive, first);
    StartIsTurn(c, s, merges, turns, first);
    Unpack(c, Extended(s, first), root, merges, turns + 1);
  }

  /** The merge list the loop ends with: the only one the turns lead to, it joins a closest pair
      first, and its cut at any threshold has the dendrogram's nodes for classes. */
  ghost predicate Agglomerated(c: Corpus, root: seq<nat>, merges: seq<Merge>)
    requires c.Valid()
  {
    && |root| == |c.unit| && Ends(c, merges) && ByHeight(c, root, merges)
    && forall threshold: real, i: nat :: i < |root| ==>
         Justified(c, Class(Cut(root, merges, threshold), i), threshold)
  }

  lemma LastIsAgglomerated(c: Corpus, s: State, root: seq<nat>, merges: seq<Merge>, turns: nat)
    requires c.Valid() && Underway(c, s, root, merges, turns) && Shape(c, s) && AllForbidden(c, s) && Done(c, s)
    ensures Agglomerated(c, root, merges)
  {
    hide Linkable, ChainInvariant, Monotone, Justified, Maximal, Ends, JoinsClasses, Reached, Done;
    EndsHere(c, s, merges, turns);
    forall threshold: real
      ensures Maximal(c, Cut(root, merges, threshold), threshold)
      ensures forall i: nat :: i < |root| ==> Justified(c, Class(Cut(root, merges, threshold), i), threshold)
    {
      AliveInRange(c, s);
      CutIsMaximal(c, s, Cut(root, merges, threshold), threshold);
    }
  }

  /** The NN-chain loop. It ends because every turn either merges two clusters or makes
      the chain, which never outgrows the clusters alive, longer by one. */
  method Agglomerate(c: Corpus, groups: seq<seq<nat>>, keys: seq<Identity>, ghost root: seq<nat>)
    returns (merges: seq<Merge>)
    requires c.Valid() && AreGroups(c.pins, |c.unit|, groups, keys)
    requires |root| == |c.unit| && JoinedPins(c.pins, root, set j | j in c.pins && j < |root|)
    ensures Agglomerated(c, root, merges)
  {
    hide Agglomerating, Mirrors, Shape, ChainInvariant, Monotone, BaseState, AreGroups, JoinedPins, AllForbidden;
    hide Nearest, NextLink, Reciprocal, CannotLink, MeanDistance, Gap, Block, Size, Sum, Merged, Extended;
    hide Underway, Reached, Looks, Done, Base, Ends, Agglomerated, Starts, Linkable, Increasing, Cut;
    var capacity := 2 * |c.unit|;
    var totals := new Vector[capacity](_ => Zero(c.dim));
    var sizes := new real[capacity](_ => 0.0);
    var tags := new int[capacity](_ => -1);
    var alive := new bool[capacity](_ => false);
    var reps, active;
    ghost var s;
    reps, active, s := LayBlocks(c, groups, keys, totals, sizes, tags, alive);
    BaseIsUnderway(c, s, root);
    KeysDiffer(c.pins, |c.unit|, groups, keys);
    merges := [];
    var chain: seq<nat> := [];
    ghost var turns: nat := 0;
    while active > 1
      invariant Underway(c, s, root, merges, turns)
      invariant Mirrors(c, s, keys, totals, sizes, tags, alive)
      invariant reps == s.reps && |reps| == |s.members| && chain == s.chain
      invariant active == |s.alive| && |reps| + active <= capacity
      decreases active, active - |chain|
    {
      Unpack(c, s, root, merges, turns);
      if chain == [] {
        var first := Restart(alive, |reps|, c, s, keys, totals, sizes, tags, root, merges, turns);
        chain, s, turns := [first], Extended(s, first), turns + 1;
      }
      var a := chain[|chain| - 1];
      var low, b := Probe(totals, sizes, tags, alive, chain, |reps|, c, s, keys);
      if low == Unreachable {
        LastIsAgglomerated(c, s, root, merges, turns);
        return;  // every remaining pair is cannot-linked
      }
      if |chain| >= 2 && b == chain[|chain| - 2] {
        MergeAll(c, s, root, merges, a, b, turns);
        MergeArrays(c, s, keys, a, b, |reps|, totals, sizes, tags, alive);
        chain := chain[..|chain| - 2];
        merges := merges + [Merge(low.value, reps[a], reps[b])];
        reps := reps + [reps[a]];
        active := active - 1;
        s, turns := Merged(c, s, a, b), turns + 1;
      } else {
        ExtendKeepsAll(c, s, root, merges, b, turns);
        MirrorsExtended(c, s, keys, totals, sizes, tags, alive, b);
        chain, s, turns := chain + [b], Extended(s, b), turns + 1;
      }
    }
    NothingLeft(c, s, root, merges, turns);
    LastIsAgglomerated(c, s, root, merges, turns);
  }

  lemma BaseIsUnderway(c: Corpus, s: State, root: seq<nat>)
    requires c.Valid() && BaseState(c, s, |c.unit|) && |root| == |c.unit| && s == Base(c, |c.unit|)
    requires JoinedPins(c.pins, root, set j | j in c.pins && j < |root|)
    ensures Underway(c, s, root, [], 0)
  {
    hide Agglomerating, Base;
    BaseIsAgglomerating(c, s, root);
  }

  lemma NothingLeft(c: Corpus, s: State, root: seq<nat>, merges: seq<Merge>, turns: nat)
    requires c.Valid() && Underway(c, s, root, merges, turns) && |s.alive| <= 1
    ensures AllForbidden(c, s) && Shape(c, s) && Done(c, s)
  {
    LastOneStanding(s);
    AliveInRange(c, s);
  }

  // ----- the flat clusters

  ghost predicate InSome(clusters: seq<seq<nat>>, i: nat) {
    exists k :: 0 <= k < |clusters| && i in clusters[k]
  }

  /** Ordered lists that hold every index below n exactly once, in order of first member. */
  ghost predicate Partition(clusters: seq<seq<nat>>, n: nat) {
    && (forall k :: 0 <= k < |clusters| ==> clusters[k] != [] && Increasing(clusters[k]) && clusters[k][0] < n)
    && (forall k, i :: 0 <= k < |clusters| && i in clusters[k] ==> i < n)
    && (forall i: nat :: i < n ==> InSome(clusters, i))
    && (forall k, l, i :: 0 <= k < l < |clusters| && i in clusters[k] ==> i !in clusters[l])
    && (forall k, l :: 0 <= k < l < |clusters| ==> clusters[k][0] < clusters[l][0])
  }

  /** The indices below n by representative. */
  ghost predicate Grouped(root: seq<nat>, clusters: seq<seq<nat>>, n: nat)
    requires n <= |root|
  {
    && Partition(clusters, n)
    && (forall k, i {:trigger i in clusters[k]} :: 0 <= k < |clusters| && i in clusters[k] ==>
          root[i] == root[clusters[k][0]])
    && (forall k, l :: 0 <= k < l < |clusters| ==> root[clusters[k][0]] != root[clusters[l][0]])
  }

  lemma JoinCluster(root: seq<nat>, clusters: seq<seq<nat>>, i: nat, k: nat)
    requires i < |root| && Grouped(root, clusters, i) && k < |clusters| && root[clusters[k][0]] == root[i]
    ensures Grouped(root, clusters[k := clusters[k] + [i]], i + 1)
  {
    var joined := clusters[k := clusters[k] + [i]];
    AppendKeepsIncreasing(clusters[k], i);
    forall j: nat | j < i + 1 ensures InSome(joined, j) {
      if j < i {
        assert InSome(clusters, j);
        var l :| 0 <= l < |clusters| && j in clusters[l];
        assert j in joined[l];
      } else {
        assert j in joined[k];
      }
    }
    forall l | 0 <= l < |clusters| ensures joined[l][0] == clusters[l][0] {}
  }

  lemma OpenCluster(root: seq<nat>, clusters: seq<seq<nat>>, i: nat)
    requires i < |root| && Grouped(root, clusters, i)
    requires forall k :: 0 <= k < |clusters| ==> root[clusters[k][0]] != root[i]
    ensures Grouped(root, clusters + [[i]], i + 1)
  {
    var grown := clusters + [[i]];
    forall j: nat | j < i + 1 ensures InSome(grown, j) {
      if j < i {
        assert InSome(clusters, j);
        var l :| 0 <= l < |clusters| && j in clusters[l];
        assert j in grown[l];
      } else {
        assert j in grown[|clusters|];
      }
    }
  }

  /** Positions by representative, as the dict of components keeps them. */
  ghost predicate Positions(root: seq<nat>, clusters: seq<seq<nat>>, position: map<nat, nat>, n: nat)
    requires n <= |root| && Partition(clusters, n)
  {
    && (forall r :: r in position ==> position[r] < |clusters| && root[clusters[position[r]][0]] == r)
    && (forall k :: 0 <= k < |clusters| ==> root[clusters[k][0]] in position)
  }

  /** `components.setdefault(r, []).append(i)`, with the position of each key's list. */
  function Appended(clusters: seq<seq<nat>>, position: map<nat, nat>, r: nat, i: nat): (seq<seq<nat>>, map<nat, nat>)
    requires r in position ==> position[r] < |clusters|
  {
    if r in position then (clusters[position[r] := clusters[position[r]] + [i]], position)
    else (clusters + [[i]], position[r := |clusters|])
  }

  /** The components of the indices below n, and where each one's list is. */
  ghost predicate Collected(root: seq<nat>, clusters: seq<seq<nat>>, position: map<nat, nat>, n: nat) {
    && n <= |root| && Grouped(root, clusters, n) && Positions(root, clusters, position, n)
  }

  lemma AppendedKeeps(root: seq<nat>, clusters: seq<seq<nat>>, position: map<nat, nat>, i: nat)
    requires i < |root| && Collected(root, clusters, position, i)
    ensures root[i] in position ==> position[root[i]] < |clusters|
    ensures var (grown, placed) := Appended(clusters, position, root[i], i); Collected(root, grown, placed, i + 1)
  {
    if root[i] in position {
      var k := position[root[i]];
      JoinCluster(root, clusters, i, k);
      forall l | 0 <= l < |clusters| ensures clusters[k := clusters[k] + [i]][l][0] == clusters[l][0] {}
    } else {
      OpenCluster(root, clusters, i);
    }
  }

  lemma NothingCollected(root: seq<nat>)
    ensures Collected(root, [], map[], 0)
  {
  }

  method Components(uf: UnionFind) returns (clusters: seq<seq<nat>>)
    requires uf.Valid()
    modifies uf.parent
    ensures uf.Valid() && uf.root == old(uf.root)
    ensures Grouped(uf.root, clusters, |uf.root|)
  {
    hide Forest, Grouped, Positions, Partition, Appended;
    RootLength(uf);
    ghost var root := uf.root;
    clusters := [];
    var position: map<nat, nat> := map[];
    NothingCollected(root);
    for i := 0 to uf.parent.Length
      invariant uf.Valid() && uf.root == root && |root| == uf.parent.Length
      invariant Collected(root, clusters, position, i)
    {
      hide Collected;
      var r := uf.Find(i);
      AppendedKeeps(root, clusters, position, i);
      var next := Appended(clusters, position, r, i);
      clusters, position := next.0, next.1;
    }
  }

  lemma RootLength(uf: UnionFind)
    requires uf.Valid()
    ensures |uf.root| == uf.parent.Length
  {
  }

  /** The representatives of the pin groups alone. */
  ghost predicate PinRoots(c: Corpus, root: seq<nat>)
    requires c.Valid()
  {
    |root| == |c.unit| && JoinedPins(c.pins, root, set j | j in c.pins && j < |root|)
  }

  /** The flat clusters of average linkage: the classes of the merges at or below the threshold. */
  ghost predicate FlatCut(c: Corpus, root: seq<nat>, merges: seq<Merge>, threshold: real, clusters: seq<seq<nat>>)
    requires c.Valid()
  {
    && PinRoots(c, root) && Agglomerated(c, root, merges)
    && Grouped(Cut(root, merges, threshold), clusters, |root|)
  }

  /** What `cluster_corpus` returns: average linkage, with the closest pair first, cut at the
      threshold. */
  ghost predicate AverageLinkageOf(c: Corpus, threshold: real, clusters: seq<seq<nat>>)
    requires c.Valid()
  {
    exists root, merges :: FlatCut(c, root, merges, threshold, clusters)
  }

  lemma FlatCutFacts(c: Corpus, root: seq<nat>, merges: seq<Merge>, threshold: real, clusters: seq<seq<nat>>)
    requires c.Valid() && FlatCut(c, root, merges, threshold, clusters)
    ensures Partition(clusters, |c.unit|)
    ensures forall k :: 0 <= k < |clusters| ==> Justified(c, Elements(clusters[k]), threshold)
    ensures forall k, l :: 0 <= k < l < |clusters| ==> Apart(c, Elements(clusters[k]), Elements(clusters[l]), threshold)
  {
    hide Justified, Apart, Ends, JoinsClasses, NextAbove, JoinedPins;
    var cut := Cut(root, merges, threshold);
    assert Maximal(c, cut, threshold);
    ClustersAreClasses(cut, clusters);
  }

  /** Everything past the normalisation. */
  method ClusterRows(c: Corpus, threshold: real) returns (clusters: seq<seq<nat>>)
    requires c.Valid()
    ensures AverageLinkageOf(c, threshold, clusters) && Partition(clusters, |c.unit|)
    ensures forall k :: 0 <= k < |clusters| ==> Justified(c, Elements(clusters[k]), threshold)
    ensures forall k, l :: 0 <= k < l < |clusters| ==> Apart(c, Elements(clusters[k]), Elements(clusters[l]), threshold)
  {
    hide Agglomerated, JoinedPins, AreGroups, Grouped, Justified, Apart, Link, Partition;
    var groups, keys := PinGroups(|c.unit|, c.pins);
    var uf := new UnionFind(|c.unit|);
    UnionPins(uf, c.pins, groups, keys);
    ghost var root := uf.root;
    var merges := Agglomerate(c, groups, keys, root);
    AgglomeratedInRange(c, root, merges);
    for k := 0 to |merges|
      invariant uf.Valid() && uf.root == Cut(root, merges[..k], threshold)
    {
      assert merges[..k + 1][..k] == merges[..k];
      if merges[k].height <= threshold {
        uf.Union(merges[k].repA, merges[k].repB);
      }
    }
    assert merges[..|merges|] == merges;
    clusters := Components(uf);
    assert FlatCut(c, root, merges, threshold, clusters);
    FlatCutFacts(c, root, merges, threshold, clusters);
  }

  /** `cluster_corpus`. The vectors are scaled to length one; the clusters partition the indices; each
      is a node of the average-linkage dendrogram at or below the threshold; and no two of them that
      hold a finite vector and are not pinned apart are within the threshold of each other. */
  method ClusterCorpus(vectors: seq<seq<Coordinate>>, norms: seq<real>, pins: map<nat, Identity>, dim: nat,
                       threshold: real)
    returns (clusters: seq<seq<nat>>)
    requires Rectangular(vectors, dim) && AreNorms(vectors, norms)
    requires forall i :: i in pins ==> i < |vectors|
    ensures Normalised(vectors, norms, pins, dim).Valid()
    ensures Directions(vectors, norms, Normalised(vectors, norms, pins, dim))
    ensures Normalised(vectors, norms, pins, dim).pins == pins && Normalised(vectors, norms, pins, dim).dim == dim
    ensures AverageLinkageOf(Normalised(vectors, norms, pins, dim), threshold, clusters)
    ensures Partition(clusters, |vectors|)
    ensures forall k :: 0 <= k < |clusters| ==>
      Justified(Normalised(vectors, norms, pins, dim), Elements(clusters[k]), threshold)
    ensures forall k, l :: 0 <= k < l < |clusters| ==>
      Apart(Normalised(vectors, norms, pins, dim), Elements(clusters[k]), Elements(clusters[l]), threshold)
  {
    NormalisedIsValid(vectors, norms, pins, dim);
    NormalisedDirections(vectors, norms, pins, dim);
    var c := Normalised(vectors, norms, pins, dim);
    if |vectors| == 0 {
      NothingToCluster(c, threshold);
      return [];
    }
    hide Justified, Apart, Directions, AreNorms, Partition, AverageLinkageOf, Rectangular;
    clusters := ClusterRows(c, threshold);
  }

  lemma AgglomeratedInRange(c: Corpus, root: seq<nat>, merges: seq<Merge>)
    requires c.Valid() && Agglomerated(c, root, merges)
    ensures |root| == |c.unit| && InRange(merges, |root|)
  {
  }

  lemma NothingToCluster(c: Corpus, threshold: real)
    requires c.Valid() && c.unit == []
    ensures AverageLinkageOf(c, threshold, [])
  {
    var s := Base(c, 0);
    assert Reached(c, Run(s, []), 0) && Shape(c, s) && Done(c, s);
    EndsHere(c, s, [], 0);
    assert FlatCut(c, [], [], threshold, []);
  }

  // ----- one answer for one corpus

  lemma PinRootsAlike(c: Corpus, a: seq<nat>, b: seq<nat>)
    requires c.Valid() && PinRoots(c, a) && PinRoots(c, b)
    ensures SameClasses(a, b)
  {
  }

  lemma SomeMember(a: seq<nat>)
    requires a != []
    ensures exists x :: x in a
  {
    assert a[0] in a;
  }

  lemma {:induction false} IncreasingOnce(a: seq<nat>, b: seq<nat>)
    requires Increasing(a) && Increasing(b) && forall x :: x in a <==> x in b
    ensures a == b
  {
    if a == [] || b == [] {
      if a != [] { SomeMember(a); }
      if b != [] { SomeMember(b); }
    } else {
      var n, m := |a| - 1, |b| - 1;
      assert a[n] in b && b[m] in a;
      assert a[n] == b[m];
      forall x ensures x in a[..n] <==> x in b[..m] {
        assert x in a[..n] <==> x in a && x != a[n];
        assert x in b[..m] <==> x in b && x != b[m];
      }
      IncreasingOnce(a[..n], b[..m]);
      assert a == a[..n] + [a[n]] && b == b[..m] + [b[m]];
    }
  }

  /** The first index that the clusters before k do not hold opens cluster k. */
  lemma OpensNext(root: seq<nat>, clusters: seq<seq<nat>>, n: nat, k: nat, i: nat)
    requires n <= |root| && Grouped(root, clusters, n) && k < |clusters| && i < n
    requires forall l :: 0 <= l < k ==> i !in clusters[l]
    ensures clusters[k] != [] && clusters[k][0] <= i
  {
    assert InSome(clusters, i);
    var l :| 0 <= l < |clusters| && i in clusters[l];
    assert clusters[l][0] <= i;
  }

  lemma MoreClusters(x: seq<seq<nat>>, y: seq<seq<nat>>, n: nat, l: nat, i: nat)
    requires Partition(x, n) && Partition(y, n) && l < |x| && i in x[l]
    requires l <= |y| && forall m :: 0 <= m < l ==> x[m] == y[m]
    ensures l < |y|
  {
    assert InSome(y, i);
  }

  /** Equal classes give equal lists, cluster by cluster. */
  lemma {:induction false} GroupedOnce(a: seq<nat>, b: seq<nat>, x: seq<seq<nat>>, y: seq<seq<nat>>, k: nat)
    requires SameClasses(a, b) && Grouped(a, x, |a|) && Grouped(b, y, |b|)
    requires k <= |x|
    ensures k <= |y| && x[..k] == y[..k]
  {
    if k > 0 {
      GroupedOnce(a, b, x, y, k - 1);
      var l := k - 1;
      var i := x[l][0];
      assert forall m :: 0 <= m < l ==> x[m] == x[..l][m] && y[m] == y[..l][m];
      assert i in x[l];
      MoreClusters(x, y, |a|, l, i);
      var j := y[l][0];
      assert j in y[l];
      OpensNext(a, x, |a|, l, j);
      OpensNext(b, y, |b|, l, i);
      assert i == j;
      ClassOf(a, x, l);
      ClassOf(b, y, l);
      IncreasingOnce(x[l], y[l]);
      assert x[..k] == x[..l] + [x[l]] && y[..k] == y[..l] + [y[l]];
    }
  }

  lemma ClassOf(root: seq<nat>, clusters: seq<seq<nat>>, k: nat)
    requires Grouped(root, clusters, |root|) && k < |clusters|
    ensures clusters[k] != [] && clusters[k][0] < |root|
    ensures forall i: nat :: i in clusters[k] <==> i < |root| && root[i] == root[clusters[k][0]]
  {
    ClustersAreClasses(root, clusters);
    forall i: nat ensures i in clusters[k] <==> i in Elements(clusters[k]) {}
  }

  /** The clusters are determined by the corpus and the threshold, ties included. */
  lemma ClustersAreDetermined(c: Corpus, threshold: real, x: seq<seq<nat>>, y: seq<seq<nat>>)
    requires c.Valid() && AverageLinkageOf(c, threshold, x) && AverageLinkageOf(c, threshold, y)
    ensures x == y
  {
    hide Grouped, PinRoots, Ends, ByHeight;
    var a, merges :| FlatCut(c, a, merges, threshold, x);
    var b, others :| FlatCut(c, b, others, threshold, y);
    MergesAreDetermined(c, merges, others);
    AgglomeratedInRange(c, a, merges);
    PinRootsAlike(c, a, b);
    CutKeepsSame(a, b, merges, threshold);
    var p, q := Cut(a, merges, threshold), Cut(b, merges, threshold);
    SameClassesSymmetric(p, q);
    GroupedOnce(p, q, x, y, |x|);
    GroupedOnce(q, p, y, x, |y|);
  }

  lemma SameClassesSymmetric(a: seq<nat>, b: seq<nat>)
    requires SameClasses(a, b)
    ensures SameClasses(b, a)
  {
  }

  lemma ClustersAreClasses(root: seq<nat>, clusters: seq<seq<nat>>)
    requires Grouped(root, clusters, |root|)
    ensures forall k :: 0 <= k < |clusters| ==>
      clusters[k][0] < |root| && Elements(clusters[k]) == Class(root, clusters[k][0])
    ensures forall k, l :: 0 <= k < l < |clusters| ==> root[clusters[k][0]] != root[clusters[l][0]]
  {
    forall k | 0 <= k < |clusters|
      ensures Elements(clusters[k]) == Class(root, clusters[k][0])
    {
      forall i: nat | i < |root| && root[i] == root[clusters[k][0]] ensures i in clusters[k] {
        assert InSome(clusters, i);
      }
    }
  }

  /** Must-link, cannot-link and singletons, for every input, threshold and merge order. */
  lemma PinsAreHonoured(c: Corpus, clusters: seq<seq<nat>>, threshold: real)
    requires c.Valid() && Partition(clusters, |c.unit|)
    requires forall k :: 0 <= k < |clusters| ==> Justified(c, Elements(clusters[k]), threshold)
    ensures forall k, i, j :: 0 <= k < |clusters| && i in clusters[k] && i in c.pins && j in c.pins ==>
      (j in clusters[k] <==> c.pins[i] == c.pins[j])
    ensures forall k, i :: 0 <= k < |clusters| && i in clusters[k] && i !in c.pins && !c.finite[i] ==>
      clusters[k] == [i]
  {
    forall k | 0 <= k < |clusters|
      ensures HonoursPins(c, Elements(clusters[k]))
      ensures forall i :: i in clusters[k] && i !in c.pins && !c.finite[i] ==> clusters[k] == [i]
    {
      JustifiedHonoursPins(c, Elements(clusters[k]), threshold);
      forall i | i in clusters[k] && i !in c.pins && !c.finite[i] ensures clusters[k] == [i] {
        SingleElement(clusters[k], i);
      }
    }
  }

  lemma SingleElement(s: seq<nat>, i: nat)
    requires s != [] && Increasing(s) && Elements(s) == {i}
    ensures s == [i]
  {
    assert s[0] in Elements(s) && s[|s| - 1] in Elements(s);
  }
}
