/** Average linkage over cosine distance (processing/clustering.py).

    A corpus is what `cluster_corpus` works on once the input is normalised: one
    vector of length at most one per index, a flag saying whether the raw row was
    finite, and the pins. The distance between two index sets is defined from
    scratch as the mean of the pairwise cosine distances of their finite members;
    the closed form the source computes is a theorem about that mean. */
module Linkage {

  type Vector = seq<real>

  /** An identity key: the id of a `speakers` row. */
  datatype Identity = Identity(uuid: nat)

  datatype Corpus = Corpus(dim: nat, unit: seq<Vector>, finite: seq<bool>, pins: map<nat, Identity>)
  {
    ghost predicate Valid() {
      && |unit| == |finite|
      && (forall i :: 0 <= i < |unit| ==> |unit[i]| == dim)
      && (forall i :: 0 <= i < |unit| ==> Dot(unit[i], unit[i]) <= 1.0)
      && (forall i :: i in pins ==> i < |unit|)
    }
  }

  // ----- vectors

  function Dot(u: Vector, v: Vector): real
    requires |u| == |v|
  {
    if |u| == 0 then 0.0 else u[0] * v[0] + Dot(u[1..], v[1..])
  }

  function Zero(dim: nat): (z: Vector)
    ensures |z| == dim && forall k :: 0 <= k < dim ==> z[k] == 0.0
  {
    seq(dim, _ => 0.0)
  }

  function Add(u: Vector, v: Vector): (w: Vector)
    requires |u| == |v|
    ensures |w| == |u|
  {
    seq(|u|, i requires 0 <= i < |u| => u[i] + v[i])
  }

  function Divide(u: Vector, d: real): (w: Vector)
    requires d != 0.0
    ensures |w| == |u|
  {
    seq(|u|, i requires 0 <= i < |u| => u[i] / d)
  }

  lemma {:induction false} DotSymmetric(u: Vector, v: Vector)
    requires |u| == |v|
    ensures Dot(u, v) == Dot(v, u)
  {
    if |u| > 0 {
      DotSymmetric(u[1..], v[1..]);
    }
  }

  /** A product with a coordinate's own direction is that coordinate. */
  lemma {:induction false} DotPicks(u: Vector, e: Vector, k: nat)
    requires |u| == |e| && k < |u| && forall i :: 0 <= i < |e| ==> e[i] == if i == k then 1.0 else 0.0
    ensures Dot(u, e) == u[k]
  {
    if k == 0 {
      assert e[1..] == Zero(|u| - 1);
      DotZero(u[1..]);
      DotSymmetric(u[1..], Zero(|u| - 1));
    } else {
      DotPicks(u[1..], e[1..], k - 1);
    }
  }

  lemma {:induction false} DotZero(v: Vector)
    ensures Dot(Zero(|v|), v) == 0.0
  {
    if |v| > 0 {
      DotZero(v[1..]);
      assert Zero(|v|)[1..] == Zero(|v[1..]|);
    }
  }

  lemma {:induction false} DotAdd(u: Vector, v: Vector, w: Vector)
    requires |u| == |v| == |w|
    ensures Dot(Add(u, v), w) == Dot(u, w) + Dot(v, w)
  {
    if |u| > 0 {
      DotAdd(u[1..], v[1..], w[1..]);
      assert Add(u, v)[1..] == Add(u[1..], v[1..]);
      assert (u[0] + v[0]) * w[0] == u[0] * w[0] + v[0] * w[0];
    }
  }

  /** Coordinate by coordinate, from the far end as well. */
  lemma {:induction false} DotMore(u: Vector, v: Vector, x: real, y: real)
    requires |u| == |v|
    ensures Dot(u + [x], v + [y]) == Dot(u, v) + x * y
    ensures Dot([], []) == 0.0
  {
    if |u| > 0 {
      DotMore(u[1..], v[1..], x, y);
      assert (u + [x])[1..] == u[1..] + [x] && (v + [y])[1..] == v[1..] + [y];
    } else {
      assert (u + [x])[1..] == [] && (v + [y])[1..] == [];
    }
  }

  /** A vector without length is zero throughout. */
  lemma {:induction false} NoLength(v: Vector)
    ensures Dot(v, v) >= 0.0
    ensures Dot(v, v) == 0.0 <==> forall k :: 0 <= k < |v| ==> v[k] == 0.0
  {
    if |v| > 0 {
      NoLength(v[1..]);
      assert forall k :: 0 < k < |v| ==> v[k] == v[1..][k - 1];
      SquareSign(v[0]);
    }
  }

  lemma SquareSign(x: real)
    ensures x * x >= 0.0 && (x * x == 0.0 <==> x == 0.0)
  {
    if x != 0.0 && x * x == 0.0 {
      QuotientIs(0.0, x, x);
      QuotientIs(0.0, x, 0.0);
    }
  }

  /** Scaling both sides scales the product. */
  lemma {:induction false} DotScaled(u: Vector, v: Vector, x: Vector, y: Vector, m: real, n: real)
    requires |u| == |v| == |x| == |y|
    requires forall k :: 0 <= k < |u| ==> x[k] == m * u[k] && y[k] == n * v[k]
    ensures Dot(x, y) == m * n * Dot(u, v)
  {
    if |u| > 0 {
      DotScaled(u[1..], v[1..], x[1..], y[1..], m, n);
      ScaledStep(u[0], v[0], x[0], y[0], m, n, Dot(u[1..], v[1..]));
    }
  }

  lemma ScaledStep(a: real, b: real, p: real, q: real, m: real, n: real, d: real)
    requires p == m * a && q == n * b
    ensures p * q + m * n * d == m * n * (a * b + d)
  {
  }

  lemma DotAddRight(w: Vector, u: Vector, v: Vector)
    requires |u| == |v| == |w|
    ensures Dot(w, Add(u, v)) == Dot(w, u) + Dot(w, v)
  {
    DotAdd(u, v, w);
    DotSymmetric(w, Add(u, v));
    DotSymmetric(w, u);
    DotSymmetric(w, v);
  }

  /** 2ab <= a*a + b*b, summed over the coordinates. */
  lemma {:induction false} DotBound(u: Vector, v: Vector)
    requires |u| == |v|
    ensures 2.0 * Dot(u, v) <= Dot(u, u) + Dot(v, v)
  {
    if |u| > 0 {
      DotBound(u[1..], v[1..]);
      var a, b := u[0], v[0];
      assert (a - b) * (a - b) >= 0.0;
      assert (a - b) * (a - b) == a * a - 2.0 * (a * b) + b * b;
    }
  }

  lemma QuotientIs(x: real, d: real, q: real)
    requires d != 0.0 && q * d == x
    ensures x / d == q
  {
    var r := x / d;
    assert r * d == x;
    assert (r - q) * d == 0.0;
  }

  /** (a*a + s) over e = d*d, when the tail's quotient is q. */
  lemma DivideStep(a: real, d: real, e: real, s: real, q: real)
    requires d != 0.0 && e == d * d && e != 0.0 && q == s / e
    ensures (a / d) * (a / d) + q == (a * a + s) / e
  {
    var r := a / d;
    calc {
      (r * r + q) * e;
      r * r * e + q * e;
      { assert q * e == s; }
      r * r * (d * d) + s;
      (r * d) * (r * d) + s;
      { assert r * d == a; }
      a * a + s;
    }
    QuotientIs(a * a + s, e, r * r + q);
  }

  lemma {:induction false} DotDivide(u: Vector, d: real, e: real)
    requires d != 0.0 && e == d * d && e != 0.0
    ensures Dot(Divide(u, d), Divide(u, d)) == Dot(u, u) / e
  {
    if |u| == 0 {
      QuotientIs(0.0, e, 0.0);
    } else {
      DotDivide(u[1..], d, e);
      assert Divide(u, d)[1..] == Divide(u[1..], d);
      DivideStep(u[0], d, e, Dot(u[1..], u[1..]), Dot(Divide(u[1..], d), Divide(u[1..], d)));
    }
  }

  // ----- sums over the finite members of an index set

  predicate Counts(c: Corpus, X: set<nat>, i: nat)
    requires i < |c.finite|
  {
    i in X && c.finite[i]
  }

  function Count(c: Corpus, X: set<nat>, k: nat): (n: real)
    requires k <= |c.finite|
    ensures n >= 0.0
  {
    if k == 0 then 0.0 else Count(c, X, k - 1) + if Counts(c, X, k - 1) then 1.0 else 0.0
  }

  function Total(c: Corpus, X: set<nat>, k: nat): (s: Vector)
    requires c.Valid() && k <= |c.unit|
    ensures |s| == c.dim
  {
    if k == 0 then Zero(c.dim)
    else if Counts(c, X, k - 1) then Add(Total(c, X, k - 1), c.unit[k - 1])
    else Total(c, X, k - 1)
  }

  /** The number of finite members. */
  function Size(c: Corpus, X: set<nat>): (n: real)
    ensures n >= 0.0
  {
    Count(c, X, |c.finite|)
  }

  /** The sum of the finite members' unit vectors. */
  function Sum(c: Corpus, X: set<nat>): (s: Vector)
    requires c.Valid()
    ensures |s| == c.dim
  {
    Total(c, X, |c.unit|)
  }

  /** That is how many finite members there are. */
  lemma {:induction false} CountIsSize(c: Corpus, X: set<nat>, k: nat)
    requires k <= |c.finite|
    ensures Count(c, X, k) == |set i: nat | i < k && i in X && c.finite[i]| as real
  {
    var below := set i: nat | i < k && i in X && c.finite[i];
    if k > 0 {
      CountIsSize(c, X, k - 1);
      var before := set i: nat | i < k - 1 && i in X && c.finite[i];
      if Counts(c, X, k - 1) {
        assert below == before + {k - 1};
      } else {
        assert below == before;
      }
    } else {
      assert below == {};
    }
  }

  /** Cosine distance of two rows. */
  function Cosine(c: Corpus, i: nat, j: nat): real
    requires c.Valid() && i < |c.unit| && j < |c.unit|
  {
    1.0 - Dot(c.unit[i], c.unit[j])
  }

  function RowSum(c: Corpus, i: nat, Y: set<nat>, k: nat): real
    requires c.Valid() && i < |c.unit| && k <= |c.unit|
  {
    if k == 0 then 0.0
    else RowSum(c, i, Y, k - 1) + if Counts(c, Y, k - 1) then Cosine(c, i, k - 1) else 0.0
  }

  function PairSum(c: Corpus, X: set<nat>, Y: set<nat>, k: nat): real
    requires c.Valid() && k <= |c.unit|
  {
    if k == 0 then 0.0
    else PairSum(c, X, Y, k - 1) + if Counts(c, X, k - 1) then RowSum(c, k - 1, Y, |c.unit|) else 0.0
  }

  /** The mean cosine distance over all pairs of finite members; 0 when there is no pair. */
  function MeanDistance(c: Corpus, X: set<nat>, Y: set<nat>): real
    requires c.Valid()
  {
    if Size(c, X) == 0.0 || Size(c, Y) == 0.0 then 0.0
    else PairSum(c, X, Y, |c.unit|) / (Size(c, X) * Size(c, Y))
  }

  // ----- the closed form

  lemma {:induction false} RowSumClosed(c: Corpus, i: nat, Y: set<nat>, k: nat)
    requires c.Valid() && i < |c.unit| && k <= |c.unit|
    ensures RowSum(c, i, Y, k) == Count(c, Y, k) - Dot(c.unit[i], Total(c, Y, k))
  {
    if k == 0 {
      DotZero(c.unit[i]);
      DotSymmetric(c.unit[i], Zero(c.dim));
    } else {
      RowSumClosed(c, i, Y, k - 1);
      DotAddRight(c.unit[i], Total(c, Y, k - 1), c.unit[k - 1]);
    }
  }

  /** One more row on the left adds that row's sum to the closed form. */
  lemma ClosedStep(p: real, n: real, m: real, s: real, r: real, d: real, t: real)
    requires p == n * m - s && r == m - d && t == s + d
    ensures p + r == (n + 1.0) * m - t
  {
  }

  lemma {:induction false} PairSumClosed(c: Corpus, X: set<nat>, Y: set<nat>, k: nat)
    requires c.Valid() && k <= |c.unit|
    ensures PairSum(c, X, Y, k) == Count(c, X, k) * Size(c, Y) - Dot(Total(c, X, k), Sum(c, Y))
  {
    hide Dot;
    if k == 0 {
      DotZero(Sum(c, Y));
    } else {
      PairSumClosed(c, X, Y, k - 1);
      if Counts(c, X, k - 1) {
        var row, s, S := c.unit[k - 1], Total(c, X, k - 1), Sum(c, Y);
        RowSumClosed(c, k - 1, Y, |c.unit|);
        DotAdd(s, row, S);
        ClosedStep(PairSum(c, X, Y, k - 1), Count(c, X, k - 1), Size(c, Y), Dot(s, S),
                   RowSum(c, k - 1, Y, |c.unit|), Dot(row, S), Dot(Add(s, row), S));
      }
    }
  }

  lemma {:induction false} PairSumNonNegative(c: Corpus, X: set<nat>, Y: set<nat>, k: nat)
    requires c.Valid() && k <= |c.unit|
    ensures PairSum(c, X, Y, k) >= 0.0
  {
    if k > 0 {
      PairSumNonNegative(c, X, Y, k - 1);
      RowSumNonNegative(c, k - 1, Y, |c.unit|);
    }
  }

  lemma {:induction false} RowSumNonNegative(c: Corpus, i: nat, Y: set<nat>, k: nat)
    requires c.Valid() && i < |c.unit| && k <= |c.unit|
    ensures RowSum(c, i, Y, k) >= 0.0
  {
    if k > 0 {
      RowSumNonNegative(c, i, Y, k - 1);
      DotBound(c.unit[i], c.unit[k - 1]);
    }
  }

  lemma ClosedQuotient(w: real, p: real, d: real)
    requires p > 0.0 && w == p - d && w >= 0.0
    ensures w / p == 1.0 - d / p && w / p >= 0.0
  {
    var q := d / p;
    assert q * p == d;
    assert (1.0 - q) * p == p - d;
    QuotientIs(w, p, 1.0 - q);
  }

  /** The mean pairwise distance is exactly 1 - (S_a . S_b) / (n_a n_b), and the
      clamp at zero never changes it. */
  lemma MeanDistanceClosed(c: Corpus, X: set<nat>, Y: set<nat>)
    requires c.Valid() && Size(c, X) > 0.0 && Size(c, Y) > 0.0
    ensures MeanDistance(c, X, Y) == 1.0 - Dot(Sum(c, X), Sum(c, Y)) / (Size(c, X) * Size(c, Y))
    ensures MeanDistance(c, X, Y) >= 0.0
  {
    hide Dot, PairSum, Count, Total;
    PairSumClosed(c, X, Y, |c.unit|);
    PairSumNonNegative(c, X, Y, |c.unit|);
    var w, p, d := PairSum(c, X, Y, |c.unit|), Size(c, X) * Size(c, Y), Dot(Sum(c, X), Sum(c, Y));
    ClosedQuotient(w, p, d);
    assert MeanDistance(c, X, Y) == w / p;
    assert MeanDistance(c, X, Y) == 1.0 - d / p;
  }

  lemma MeanDistanceSymmetric(c: Corpus, X: set<nat>, Y: set<nat>)
    requires c.Valid()
    ensures MeanDistance(c, X, Y) == MeanDistance(c, Y, X)
  {
    if Size(c, X) > 0.0 && Size(c, Y) > 0.0 {
      MeanDistanceClosed(c, X, Y);
      MeanDistanceClosed(c, Y, X);
      DotSymmetric(Sum(c, X), Sum(c, Y));
    }
  }

  // ----- merging two disjoint sets

  lemma {:induction false} TotalOfUnion(c: Corpus, A: set<nat>, B: set<nat>, k: nat)
    requires c.Valid() && A !! B && k <= |c.unit|
    ensures Count(c, A + B, k) == Count(c, A, k) + Count(c, B, k)
    ensures Total(c, A + B, k) == Add(Total(c, A, k), Total(c, B, k))
  {
    if k > 0 {
      TotalOfUnion(c, A, B, k - 1);
    }
  }

  lemma SumOfUnion(c: Corpus, A: set<nat>, B: set<nat>)
    requires c.Valid() && A !! B
    ensures Size(c, A + B) == Size(c, A) + Size(c, B)
    ensures Sum(c, A + B) == Add(Sum(c, A), Sum(c, B))
  {
    TotalOfUnion(c, A, B, |c.unit|);
  }

  lemma QuotientAtLeast(w: real, n: real, h: real)
    requires n > 0.0
    ensures w / n >= h <==> w >= h * n
    ensures w / n > h <==> w > h * n
  {
    var q := w / n;
    assert q * n == w;
    if q >= h { assert (q - h) * n >= 0.0; }
    if q > h { assert (q - h) * n > 0.0; }
    if q < h { assert (h - q) * n > 0.0; }
  }

  lemma Averaging(wa: real, na: real, wb: real, nb: real, h: real)
    requires na > 0.0 && nb > 0.0
    ensures wa / na >= h && wb / nb >= h ==> (wa + wb) / (na + nb) >= h
    ensures wa / na > h && wb / nb > h ==> (wa + wb) / (na + nb) > h
  {
    QuotientAtLeast(wa, na, h);
    QuotientAtLeast(wb, nb, h);
    QuotientAtLeast(wa + wb, na + nb, h);
    assert h * (na + nb) == h * na + h * nb;
  }

  lemma Distribute(na: real, nb: real, m: real)
    ensures (na + nb) * m == na * m + nb * m
  {
  }

  lemma PairSumOfUnion(c: Corpus, A: set<nat>, B: set<nat>, Y: set<nat>)
    requires c.Valid() && A !! B
    ensures PairSum(c, A + B, Y, |c.unit|) == PairSum(c, A, Y, |c.unit|) + PairSum(c, B, Y, |c.unit|)
  {
    hide Dot, PairSum, Count, Total;
    SumOfUnion(c, A, B);
    PairSumClosed(c, A, Y, |c.unit|);
    PairSumClosed(c, B, Y, |c.unit|);
    PairSumClosed(c, A + B, Y, |c.unit|);
    DotAdd(Sum(c, A), Sum(c, B), Sum(c, Y));
    Distribute(Size(c, A), Size(c, B), Size(c, Y));
  }

  /** Reducibility: a union is no closer to Y than the nearer of its two parts. */
  lemma Reducible(c: Corpus, A: set<nat>, B: set<nat>, Y: set<nat>, h: real)
    requires c.Valid() && A !! B
    requires Size(c, A) > 0.0 && Size(c, B) > 0.0 && Size(c, Y) > 0.0
    ensures MeanDistance(c, A, Y) >= h && MeanDistance(c, B, Y) >= h ==> MeanDistance(c, A + B, Y) >= h
    ensures MeanDistance(c, A, Y) > h && MeanDistance(c, B, Y) > h ==> MeanDistance(c, A + B, Y) > h
  {
    hide Dot, PairSum, Count, Total;
    SumOfUnion(c, A, B);
    PairSumOfUnion(c, A, B, Y);
    Distribute(Size(c, A), Size(c, B), Size(c, Y));
    Averaging(PairSum(c, A, Y, |c.unit|), Size(c, A) * Size(c, Y),
              PairSum(c, B, Y, |c.unit|), Size(c, B) * Size(c, Y), h);
  }

  lemma Weighted(n: real, m: real, w: real)
    requires n > 0.0 && m > 0.0
    ensures n * (w / (n * m)) == w / m
  {
    var p := n * m;
    var q := w / p;
    assert q * p == w;
    assert (n * q) * m == q * p;
    QuotientIs(w, m, n * q);
  }

  lemma SumOfQuotients(v: real, w: real, m: real)
    requires m > 0.0
    ensures (v + w) / m == v / m + w / m
  {
    var p, q := v / m, w / m;
    assert p * m == v && q * m == w;
    Distribute(p, q, m);
    QuotientIs(v + w, m, p + q);
  }

  /** The distance of a union is the mean of its parts', weighted by their sizes. */
  lemma MeanOfUnion(c: Corpus, A: set<nat>, B: set<nat>, Y: set<nat>)
    requires c.Valid() && A !! B && Size(c, A) > 0.0 && Size(c, B) > 0.0 && Size(c, Y) > 0.0
    ensures (Size(c, A) + Size(c, B)) * MeanDistance(c, A + B, Y)
            == Size(c, A) * MeanDistance(c, A, Y) + Size(c, B) * MeanDistance(c, B, Y)
  {
    hide Dot, PairSum, Count, Total;
    SumOfUnion(c, A, B);
    PairSumOfUnion(c, A, B, Y);
    var n := |c.unit|;
    var v, w, m := PairSum(c, A, Y, n), PairSum(c, B, Y, n), Size(c, Y);
    Weighted(Size(c, A), m, v);
    Weighted(Size(c, B), m, w);
    Weighted(Size(c, A) + Size(c, B), m, v + w);
    SumOfQuotients(v, w, m);
  }

  lemma {:induction false} TotalOfOne(c: Corpus, i: nat, k: nat)
    requires c.Valid() && i < |c.unit| && c.finite[i] && k <= |c.unit|
    ensures Count(c, {i}, k) == if i < k then 1.0 else 0.0
    ensures Total(c, {i}, k) == if i < k then c.unit[i] else Zero(c.dim)
  {
    if k > 0 {
      TotalOfOne(c, i, k - 1);
      assert Add(Zero(c.dim), c.unit[i]) == c.unit[i];
    }
  }

  /** The distance of two finite vectors on their own: one minus their product. */
  lemma MeanOfPair(c: Corpus, i: nat, j: nat)
    requires c.Valid() && i < |c.unit| && j < |c.unit| && c.finite[i] && c.finite[j]
    ensures Size(c, {i}) == 1.0 && MeanDistance(c, {i}, {j}) == 1.0 - Dot(c.unit[i], c.unit[j])
  {
    TotalOfOne(c, i, |c.unit|);
    TotalOfOne(c, j, |c.unit|);
    hide Dot, Count, Total, PairSum;
    MeanDistanceClosed(c, {i}, {j});
  }

  // ----- cannot-link

  /** X and Y carry pins of different identities. */
  predicate CannotLink(c: Corpus, X: set<nat>, Y: set<nat>)
  {
    exists i, j :: i in X && j in Y && i in c.pins && j in c.pins && c.pins[i] != c.pins[j]
  }

  lemma {:induction false} EmptySize(c: Corpus, X: set<nat>, k: nat)
    requires k <= |c.finite|
    ensures Count(c, X, k) > 0.0 <==> exists i :: 0 <= i < k && Counts(c, X, i)
  {
    if k > 0 {
      EmptySize(c, X, k - 1);
      if Count(c, X, k) > 0.0 && !Counts(c, X, k - 1) {
        var i :| 0 <= i < k - 1 && Counts(c, X, i);
      }
    }
  }
}
