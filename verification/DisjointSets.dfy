/** The union-find of `cluster_corpus`: a parent list with path halving
    (processing/clustering.py, `find` and `union`). */
module DisjointSets {

  /** What `union(a, b)` does to the representatives: a's class takes b's. */
  function Link(root: seq<nat>, a: nat, b: nat): (r: seq<nat>)
    requires a < |root| && b < |root|
    ensures |r| == |root|
  {
    seq(|root|, i requires 0 <= i < |root| => if root[i] == root[a] then root[b] else root[i])
  }

  /** The indices that share i's representative. */
  function Class(root: seq<nat>, i: nat): (s: set<nat>)
    requires i < |root|
    ensures forall j: nat :: j in s <==> j < |root| && root[j] == root[i]
  {
    set j: nat | j < |root| && root[j] == root[i]
  }

  /** A parent list whose links all lead to `root`, one step of `depth` at a time. */
  ghost predicate Forest(parent: seq<nat>, root: seq<nat>, depth: seq<nat>)
  {
    && |root| == |depth| == |parent|
    && (forall x {:trigger root[x]} :: 0 <= x < |parent| ==>
          root[x] < |parent| && root[root[x]] == root[x] && parent[root[x]] == root[x])
    && (forall x {:trigger parent[x]} :: 0 <= x < |parent| ==>
          && parent[x] < |parent|
          && root[parent[x]] == root[x]
          && (if parent[x] == x then root[x] == x else depth[parent[x]] < depth[x]))
  }

  /** Depths after hanging root ra below root rb. */
  ghost function Deeper(root: seq<nat>, depth: seq<nat>, ra: nat, rb: nat): (d: seq<nat>)
    requires |root| == |depth| && rb < |depth|
  {
    if ra == rb then depth
    else seq(|depth|, i requires 0 <= i < |depth| => if root[i] == ra then depth[i] + depth[rb] + 1 else depth[i])
  }

  lemma LinkKeepsForest(parent: seq<nat>, root: seq<nat>, depth: seq<nat>, a: nat, b: nat)
    requires Forest(parent, root, depth) && a < |parent| && b < |parent|
    ensures Forest(parent[root[a] := root[b]], Link(root, a, b), Deeper(root, depth, root[a], root[b]))
  {
    var ra, rb := root[a], root[b];
    var p, r, d := parent[ra := rb], Link(root, a, b), Deeper(root, depth, ra, rb);
    forall x | 0 <= x < |p|
      ensures r[x] < |p| && r[r[x]] == r[x] && p[r[x]] == r[x]
    {
    }
    forall x | 0 <= x < |p|
      ensures p[x] < |p| && r[p[x]] == r[x]
      ensures if p[x] == x then r[x] == x else d[p[x]] < d[x]
    {
    }
  }

  class UnionFind {
    const parent: array<nat>
    ghost var root: seq<nat>   // every index's representative
    ghost var depth: seq<nat>  // shrinks along parent links

    ghost predicate Valid()
      reads this, parent
    {
      Forest(parent[..], root, depth)
    }

    constructor (n: nat)
      ensures Valid() && fresh(parent)
      ensures |root| == n && forall i :: 0 <= i < n ==> root[i] == i
    {
      parent := new nat[n](i => i);
      root := seq(n, i => i);
      depth := seq(n, _ => 0);
    }

    method Find(start: nat) returns (r: nat)
      requires Valid() && start < |root|
      modifies parent
      ensures Valid() && root == old(root) && r == root[start] && r < |root|
      ensures parent[r] == r
    {
      var x: nat := start;
      while parent[x] != x
        invariant Valid() && root == old(root) && depth == old(depth)
        invariant x < |root| && root[x] == root[start]
        decreases depth[x]
      {
        parent[x] := parent[parent[x]];
        x := parent[x];
      }
      r := x;
    }

    method Union(a: nat, b: nat)
      requires Valid() && a < |root| && b < |root|
      modifies this, parent
      ensures Valid() && root == Link(old(root), a, b)
    {
      var rb := Find(b);
      var ra := Find(a);
      LinkKeepsForest(parent[..], root, depth, a, b);
      parent[ra] := rb;
      depth := Deeper(root, depth, ra, rb);
      root := Link(root, a, b);
    }
  }
}
