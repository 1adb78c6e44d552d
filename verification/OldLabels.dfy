/** Old labels whose own spans overlap (database/repos/label_carry.py:36-43 reads them from the same
    utterances as the new ones): exactly when `map_labels` (processing/label_carry.py:53-70) still
    picks a new label that shares the most. */
module OldLabels {
  import opened Arithmetic
  import opened Sorting
  import opened Intervals
  import opened LabelCarry

  /** Millisecond t lies in two of the spans. */
  ghost predicate Twice(spans: seq<Span>, t: int) {
    exists i, j :: i != j && InSpan(spans, i, t) && InSpan(spans, j, t)
  }

  /** A millisecond that two spans share is the first of at most two that there are. */
  ghost predicate Harmless(spans: seq<Span>) {
    forall t :: Twice(spans, t) ==> Points(spans) <= {t, t + 1}
  }

  ghost predicate AllClean(labels: map<string, seq<Span>>) {
    forall c :: c in labels ==> Clean(labels[c])
  }

  // ----- sorting keeps what is covered twice

  function Covering(spans: seq<Span>, t: int): nat {
    if spans == [] then 0
    else Covering(spans[1..], t) + if spans[0].start <= t < spans[0].end then 1 else 0
  }

  lemma {:induction false} CoveringInsert(x: Span, spans: seq<Span>, le: (Span, Span) -> bool, t: int)
    ensures Covering(Insert(x, spans, le), t) == Covering([x] + spans, t)
  {
    assert ([x] + spans)[1..] == spans;
    if spans != [] && !le(x, spans[0]) {
      CoveringInsert(x, spans[1..], le, t);
      assert Insert(x, spans, le)[1..] == Insert(x, spans[1..], le);
      assert ([x] + spans[1..])[1..] == spans[1..];
    } else if spans == [] {
      assert [x] + spans == [x];
    }
  }

  lemma {:induction false} CoveringSort(spans: seq<Span>, le: (Span, Span) -> bool, t: int)
    ensures Covering(Sort(spans, le), t) == Covering(spans, t)
  {
    if spans != [] {
      CoveringSort(spans[1..], le, t);
      CoveringInsert(spans[0], Sort(spans[1..], le), le, t);
      var rest := Sort(spans[1..], le);
      assert ([spans[0]] + rest)[1..] == rest;
    }
  }

  lemma {:induction false} CoveringSome(spans: seq<Span>, t: int)
    ensures Covering(spans, t) >= 1 <==> exists i :: InSpan(spans, i, t)
  {
    if spans != [] {
      var rest := spans[1..];
      CoveringSome(rest, t);
      if Covering(rest, t) >= 1 {
        var i :| InSpan(rest, i, t);
        assert InSpan(spans, i + 1, t);
      }
      if i :| InSpan(spans, i, t) && i != 0 {
        assert InSpan(rest, i - 1, t);
      }
      assert InSpan(spans, 0, t) <==> spans[0].start <= t < spans[0].end;
    }
  }

  lemma {:induction false} CoveringTwice(spans: seq<Span>, t: int)
    ensures Covering(spans, t) >= 2 <==> Twice(spans, t)
  {
    if spans != [] {
      var rest := spans[1..];
      CoveringTwice(rest, t);
      CoveringSome(rest, t);
      assert InSpan(spans, 0, t) <==> spans[0].start <= t < spans[0].end;
      forall i ensures InSpan(rest, i, t) <==> i >= 0 && InSpan(spans, i + 1, t) {}
      if Twice(rest, t) {
        var i, j :| i != j && InSpan(rest, i, t) && InSpan(rest, j, t);
        assert InSpan(spans, i + 1, t) && InSpan(spans, j + 1, t);
      }
      if InSpan(spans, 0, t) && Covering(rest, t) >= 1 {
        var i :| InSpan(rest, i, t);
        assert InSpan(spans, i + 1, t);
      }
      if Twice(spans, t) {
        var i, j :| i != j && InSpan(spans, i, t) && InSpan(spans, j, t);
        assert i != 0 ==> InSpan(rest, i - 1, t);
        assert j != 0 ==> InSpan(rest, j - 1, t);
      }
    }
  }

  lemma SortKeepsTwice(spans: seq<Span>, t: int)
    ensures Twice(SortSpans(spans), t) <==> Twice(spans, t)
  {
    CoveringSort(spans, (a: Span, b: Span) => SpanLe(a, b), t);
    CoveringTwice(spans, t);
    CoveringTwice(SortSpans(spans), t);
  }

  // ----- a millisecond counted twice

  /** One that is counted twice against a list without overlap lies in two spans of a, and the span
      of b it lies in goes on past it. */
  lemma CountedTwice(a: seq<Span>, b: seq<Span>, g: Hit, h: Hit)
    requires StartSorted(b) && Clean(b)
    requires g in Hits(a, b) && h in Hits(a, b) && g.t == h.t && g != h
    ensures Twice(a, g.t) && InSpan(b, g.j, g.t + 1)
  {
    assert InSpan(a, g.i, g.t) && InSpan(a, h.i, h.t) && InSpan(b, g.j, g.t) && InSpan(b, h.j, h.t);
    assert g.j == h.j && g.i != h.i;
    if g.i < h.i { PastTheFirst(a, b, g.i, h.i, g.j, g.t); } else { PastTheFirst(a, b, h.i, g.i, g.j, g.t); }
  }

  lemma PastTheFirst(a: seq<Span>, b: seq<Span>, i: nat, k: nat, j: nat, t: int)
    requires StartSorted(b) && Clean(b) && i < k && Visited(a, b, k, j)
    requires InSpan(a, i, t) && InSpan(b, j, t)
    ensures InSpan(b, j, t + 1)
  {
    LatestAtLeast(a, k, i);
    var m := LatestCovers(b, j + 1);
    assert b[m].end > t + 1 && InSpan(b, m, t);
    assert m == j;
  }

  lemma {:induction false} LatestAtLeast(spans: seq<Span>, n: nat, i: nat)
    requires i < n <= |spans|
    ensures Latest(spans, n) >= spans[i].end
  {
    if i < n - 1 { LatestAtLeast(spans, n - 1, i); }
  }

  /** So a label that is scored too high covers all there is of a harmless list. */
  lemma TooHighCoversAll(a: seq<Span>, b: seq<Span>)
    requires Harmless(a) && Clean(b) && Score(a, b) > Shared(a, b)
    ensures Points(a) <= Points(b)
  {
    var x, y := SortSpans(a), SortSpans(b);
    SortKeepsClean(a);
    SortKeepsClean(b);
    OverlapExactlyWhen(x, y);
    var g, h :| g in Hits(x, y) && h in Hits(x, y) && g.t == h.t && g != h;
    CountedTwice(x, y, g, h);
    SortKeepsTwice(a, g.t);
    HitIsCommon(x, y, g);
    PointsAreCovered(y);
  }

  lemma HarmlessPicksMost(a: seq<Span>, labels: map<string, seq<Span>>)
    requires Harmless(a) && AllClean(labels)
    ensures PicksMost(a, labels)
  {
    hide Clean, Score, Harmless, Points;
    forall c, d | BestLabel(a, labels, c) && d in labels ensures Shared(a, labels[d]) <= Shared(a, labels[c]) {
      ScoreBounds(a, labels[c]);
      ScoreBounds(a, labels[d]);
      if Score(a, labels[c]) > Shared(a, labels[c]) {
        TooHighCoversAll(a, labels[c]);
        SubsetSize(Points(a) * Points(labels[d]), Points(a));
        assert Points(a) * Points(labels[c]) == Points(a);
      }
    }
  }

  lemma {:induction false} SubsetSize(x: set<int>, y: set<int>)
    requires x <= y
    ensures |x| <= |y|
  {
    assert y == x + (y - x);
  }

  // ----- a rival of any size

  lemma {:induction false} SubsetOf(points: set<int>, n: nat) returns (some: set<int>)
    requires n <= |points|
    ensures some <= points && |some| == n
    decreases n
  {
    if n == 0 {
      some := {};
    } else {
      var t := Member(points);
      var rest := SubsetOf(points - {t}, n - 1);
      some := rest + {t};
    }
  }

  predicate Units(spans: seq<Span>) {
    forall k :: 0 <= k < |spans| ==> spans[k].end == spans[k].start + 1
  }

  /** Single milliseconds, one span each. */
  lemma {:induction false} UnitsOf(points: set<int>) returns (spans: seq<Span>)
    ensures Units(spans) && Points(spans) == points && Lengths(spans) == |points|
    decreases |points|
  {
    if points == {} {
      spans := [];
    } else {
      var t := Member(points);
      var rest := UnitsOf(points - {t});
      spans := [Span(t, t + 1)] + rest;
      assert spans[1..] == rest;
      assert Range(t, t + 1) == {t};
    }
  }

  /** Single milliseconds are never counted twice. */
  lemma UnitsScoreRight(a: seq<Span>, r: seq<Span>)
    requires Units(r) && Clean(r)
    ensures Score(a, r) == Shared(a, r)
  {
    hide Points, Lengths;
    var x, y := SortSpans(a), SortSpans(r);
    SortKeepsClean(a);
    SortKeepsClean(r);
    SortSpansSorts(r);
    forall k | 0 <= k < |y| ensures y[k].end == y[k].start + 1 {
      assert y[k] in r;
    }
    OverlapExactlyWhen(x, y);
    UnitsOnce(x, y);
  }

  lemma UnitsOnce(x: seq<Span>, y: seq<Span>)
    requires Units(y) && Clean(y) && StartSorted(y)
    ensures Once(Hits(x, y))
  {
    forall g, h | g in Hits(x, y) && h in Hits(x, y) && g.t == h.t ensures g == h {
      if g != h {
        CountedTwice(x, y, g, h);
      }
    }
  }

  /** Against a label scored too high that does not cover all of a, a rival that covers one
      millisecond more loses. */
  lemma RivalLoses(a: seq<Span>, b: seq<Span>) returns (r: seq<Span>)
    requires Clean(b) && Score(a, b) > Shared(a, b) && Shared(a, b) < |Points(a)|
    ensures Clean(r) && !PicksMost(a, map["a" := b, "b" := r])
  {
    hide Clean, Score, Points, Lengths;
    var some := SubsetOf(Points(a), Shared(a, b) + 1);
    r := UnitsOf(some);
    CleanBySize(r);
    UnitsScoreRight(a, r);
    assert Points(a) * Points(r) == some;
    var labels := map["a" := b, "b" := r];
    assert StringLe("a", "b") && StringLe("a", "a");
    assert BestLabel(a, labels, "a");
  }

  // ----- lists that are not harmless

  /** Some label without overlap is scored too high and does not cover all of a. */
  ghost predicate Misled(a: seq<Span>, b: seq<Span>) {
    Clean(b) && Score(a, b) > Shared(a, b) && Shared(a, b) < |Points(a)|
  }

  lemma MissesOne(a: seq<Span>, x: Span, p: int)
    requires p in Points(a) && !(x.start <= p < x.end)
    ensures Shared(a, [x]) < |Points(a)|
  {
    PointsAreCovered([x]);
    hide Points;
    assert p !in Points(a) * Points([x]);
    SubsetSize(Points(a) * Points([x]), Points(a) - {p});
  }

  /** The sweep against one span looks at every span up to k. */
  lemma CountsBoth(a: seq<Span>, x: Span, i: nat, k: nat, t: int)
    requires i < k < |SortSpans(a)| && InSpan(SortSpans(a), i, t) && InSpan(SortSpans(a), k, t)
    requires x.start <= t < x.end && Latest(SortSpans(a), k) < x.end
    ensures Score(a, [x]) > Shared(a, [x])
  {
    hide Points, Clean;
    var s := SortSpans(a);
    OneSorted(x);
    SortKeepsClean(a);
    OverlapExactlyWhen(s, [x]);
    if i > 0 { LatestGrows(s, i, k); }
    assert Visited(s, [x], i, 0) && Visited(s, [x], k, 0);
    assert t in Both(s[i], x) && t in Both(s[k], x);
    assert Hit(i, 0, t) in Hits(s, [x]) && Hit(k, 0, t) in Hits(s, [x]);
    assert Points(s) * Points([x]) == Points(a) * Points([x]);
  }

  /** The first two of the sorted spans that t lies in. */
  lemma FirstTwo(s: seq<Span>, t: int) returns (u: nat, v: nat)
    requires Twice(s, t)
    ensures u < v < |s| && InSpan(s, u, t) && InSpan(s, v, t)
    ensures forall k :: 0 <= k < v && k != u ==> !InSpan(s, k, t)
  {
    var i, j :| i != j && InSpan(s, i, t) && InSpan(s, j, t);
    u := 0;
    while !InSpan(s, u, t)
      invariant u <= i && u <= j && forall k :: 0 <= k < u ==> !InSpan(s, k, t)
      decreases |s| - u
    {
      u := u + 1;
    }
    v := u + 1;
    while !InSpan(s, v, t)
      invariant u < v <= Max(i, j) && forall k :: 0 <= k < v && k != u ==> !InSpan(s, k, t)
      decreases |s| - v
    {
      v := v + 1;
    }
  }

  /** A millisecond covered twice, and another before it: a span from there to past the end. */
  lemma MisledFromHere(a: seq<Span>, t: int, p: int) returns (x: Span)
    requires Twice(a, t) && p in Points(a) && p < t
    ensures Misled(a, [x])
  {
    hide Points, Score, Shared, Clean;
    SortKeepsTwice(a, t);
    var s := SortSpans(a);
    var u, v := FirstTwo(s, t);
    x := Span(t, Max(t, Latest(s, v)) + 1);
    CountsBoth(a, x, u, v, t);
    MissesOne(a, x, p);
    SingleIsClean(x);
  }

  lemma {:induction false} LatestAtMost(s: seq<Span>, n: nat, bound: int)
    requires 0 < n <= |s| && forall k :: 0 <= k < n ==> s[k].end <= bound
    ensures Latest(s, n) <= bound
  {
    if n > 1 { LatestAtMost(s, n - 1, bound); }
  }

  /** The first millisecond covered twice, and more than the one after it: that pair is misled by. */
  lemma MisledAtStart(a: seq<Span>, t: int, p: int) returns (x: Span)
    requires Twice(a, t) && p in Points(a) && p > t + 1
    requires forall q :: q in Points(a) ==> q >= t
    ensures Misled(a, [x])
  {
    hide Points, Score, Shared, Clean;
    SortKeepsTwice(a, t);
    var s := SortSpans(a);
    SortKeepsClean(a);
    SortSpansOrders(a);
    var u, v := FirstTwo(s, t);
    if s[u].end >= t + 2 {
      StartsAt(s, a, t, u);
      StartsAt(s, a, t, v);
      assert SpanLe(s[u], s[v]);
      assert InSpan(s, u, t + 1) && InSpan(s, v, t + 1);
      SortKeepsTwice(a, t + 1);
      PointsAreCovered(s);
      assert CoveredBy(s, t);
      x := MisledFromHere(a, t + 1, t);
    } else {
      x := Span(t, t + 2);
      forall k | 0 <= k < v ensures s[k].end <= t + 1 { EarlyEnd(s, t, u, v, k); }
      LatestAtMost(s, v, t + 1);
      CountsBoth(a, x, u, v, t);
      MissesOne(a, x, p);
      SingleIsClean(x);
    }
  }

  lemma StartsAt(s: seq<Span>, a: seq<Span>, t: int, k: nat)
    requires Points(s) == Points(a) && forall q :: q in Points(a) ==> q >= t
    requires InSpan(s, k, t)
    ensures s[k].start == t
  {
    PointsAreCovered(s);
    hide Points;
    assert s[k].start <= s[k].start < s[k].end;
    assert CoveredBy(s, s[k].start);
  }

  lemma EarlyEnd(s: seq<Span>, t: int, u: nat, v: nat, k: nat)
    requires u < v < |s| && k < v && InSpan(s, v, t) && s[u].end < t + 2
    requires forall j :: 0 <= j < v && j != u ==> !InSpan(s, j, t)
    requires SpanLe(s[k], s[v])
    ensures s[k].end <= t + 1
  {
    if k != u { assert !InSpan(s, k, t); }
  }

  lemma SomeOther(points: set<int>, t: int) returns (p: int)
    requires !(points <= {t, t + 1})
    ensures p in points && p != t && p != t + 1
  {
    assert points - {t, t + 1} != {};
    p := Member(points - {t, t + 1});
  }

  lemma HarmfulIsMisled(a: seq<Span>) returns (x: Span)
    requires !Harmless(a)
    ensures Misled(a, [x])
  {
    hide Points, Misled, Twice;
    var t :| Twice(a, t) && !(Points(a) <= {t, t + 1});
    var p := SomeOther(Points(a), t);
    if q :| q in Points(a) && q < t {
      x := MisledFromHere(a, t, q);
    } else {
      x := MisledAtStart(a, t, p);
    }
  }

  /** Among new labels free of overlap, an old label is always given one that shares the most exactly
      when every millisecond that two of its spans share is the first of at most two there are. */
  lemma OldRightExactlyWhen(a: seq<Span>)
    ensures (forall labels :: AllClean(labels) ==> PicksMost(a, labels)) <==> Harmless(a)
  {
    hide Harmless, PicksMost, Clean, Score, Points;
    if Harmless(a) {
      forall labels | AllClean(labels) ensures PicksMost(a, labels) { HarmlessPicksMost(a, labels); }
    } else {
      var x := HarmfulIsMisled(a);
      var r := RivalLoses(a, [x]);
      assert AllClean(map["a" := [x], "b" := r]);
    }
  }

  /** How long two spans overlap. */
  function Common(a: Span, b: Span): int {
    Max(0, Min(a.end, b.end) - Max(a.start, b.start))
  }

  /** Against a span that outlasts the first of two but not the second, the sweep looks at both. */
  lemma TwoAgainstOne(a: Span, b: Span, x: Span)
    requires SpanLe(a, b) && a.end < x.end <= b.end
    ensures Score([a, b], [x]) == Common(a, x) + Common(b, x)
  {
    TwoSorted(a, b);
    OneSorted(x);
    hide SortSpans, Hits, Ahead, Common;
    AheadIsHits([a, b], [x]);
    StepPast([a, b], x, 0);
    StepLast([a, b], x, 1);
  }

  lemma StepPast(s: seq<Span>, x: Span, i: nat)
    requires i < |s| && s[i].end < x.end
    ensures |Ahead(s, [x], i, 0)| == Common(s[i], x) + |Ahead(s, [x], i + 1, 0)|
  {
    AheadStep(s, [x], i, 0);
  }

  lemma StepLast(s: seq<Span>, x: Span, i: nat)
    requires i < |s| && s[i].end >= x.end
    ensures |Ahead(s, [x], i, 0)| == Common(s[i], x)
  {
    AheadStep(s, [x], i, 0);
    NothingAhead(s, [x], i, 1);
  }

  lemma NothingAhead(a: seq<Span>, b: seq<Span>, i: nat, j: nat)
    requires i <= |a| && j <= |b| && (i == |a| || j == |b|)
    ensures Ahead(a, b, i, j) == {}
  {
  }

  lemma TwoSorted(a: Span, b: Span)
    requires SpanLe(a, b)
    ensures SortSpans([a, b]) == [a, b]
  {
    assert [a, b][1..] == [b] && [b][1..] == [];
  }

  lemma CommonPoints(a: seq<Span>, x: Span)
    requires Range(x.start, x.end) <= Points(a)
    ensures Shared(a, [x]) == Length(x)
  {
    PointsOfOne(x);
    RangeSize(x.start, x.end);
    hide Range, Points;
    assert Points(a) * Points([x]) == Range(x.start, x.end);
  }

  /** An old label of [0,10) and [5,20) with the new labels [9,11) and [15,18): both score 3, and the
      one picked shares 2. */
  lemma OldOverlapMisleads()
    ensures var a, b, r := [Span(0, 10), Span(5, 20)], [Span(9, 11)], [Span(15, 18)];
      && Clean(b) && Clean(r) && BestLabel(a, map["a" := b, "b" := r], "a") && Shared(a, b) == 2 && Shared(a, r) == 3
  {
    var x, y, u, v := Span(0, 10), Span(5, 20), Span(9, 11), Span(15, 18);
    hide Points, Score, Clean, Shared, Range, BestLabel;
    TwoAgainstOne(x, y, u);
    TwoAgainstOne(x, y, v);
    BothInside(x, y, u, v);
    SingleIsClean(u);
    SingleIsClean(v);
    TieIsFirst([x, y], [u], [v]);
  }

  lemma TieIsFirst(a: seq<Span>, b: seq<Span>, r: seq<Span>)
    requires Score(a, b) == Score(a, r) > 0
    ensures BestLabel(a, map["a" := b, "b" := r], "a")
  {
    hide Score;
    assert StringLe("a", "b") && StringLe("a", "a");
  }

  lemma BothInside(x: Span, y: Span, u: Span, v: Span)
    requires x == Span(0, 10) && y == Span(5, 20) && u == Span(9, 11) && v == Span(15, 18)
    ensures Shared([x, y], [u]) == 2 && Shared([x, y], [v]) == 3
  {
    PointsOfTwo(x, y);
    CommonPoints([x, y], u);
    CommonPoints([x, y], v);
  }
}
