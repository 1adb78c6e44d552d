/** `overlap_ms` and `map_labels` (processing/label_carry.py:39-70): how much speech two labels
    share, and which new label an old one becomes. The sweep is given any lists of spans; its
    total is stated for all of them, and then when it is the speech shared. */
module LabelCarry {
  import opened Arithmetic
  import opened Sorting
  import opened Wrappers
  import opened Intervals

  // ----- what the sweep adds up

  /** Millisecond t lies in both a[i] and b[j]. */
  datatype Hit = Hit(i: nat, j: nat, t: int)

  /** The latest end among the first n spans. */
  function Latest(spans: seq<Span>, n: nat): int
    requires 0 < n <= |spans|
  {
    if n == 1 then spans[0].end else Max(Latest(spans, n - 1), spans[n - 1].end)
  }

  /** The sweep looks at the pair (i, j): everything before a[i] ends before something up to b[j]
      does, and everything before b[j] ends no later than something up to a[i]. */
  predicate Visited(a: seq<Span>, b: seq<Span>, i: nat, j: nat) {
    && i < |a| && j < |b|
    && (i > 0 ==> Latest(a, i) < Latest(b, j + 1))
    && (j > 0 ==> Latest(b, j) <= Latest(a, i + 1))
  }

  function Both(x: Span, y: Span): set<int> {
    Range(Max(x.start, y.start), Min(x.end, y.end))
  }

  /** Milliseconds common to a pair the sweep looks at, pair by pair. */
  ghost function Hits(a: seq<Span>, b: seq<Span>): set<Hit> {
    set i, j, t | 0 <= i < |a| && 0 <= j < |b| && Visited(a, b, i, j) && t in Both(a[i], b[j]) :: Hit(i, j, t)
  }

  ghost function Marks(i: nat, j: nat, times: set<int>): (m: set<Hit>)
    ensures forall h :: h in m <==> h.i == i && h.j == j && h.t in times
  {
    set t | t in times :: Hit(i, j, t)
  }

  lemma Member<T>(s: set<T>) returns (x: T)
    requires s != {}
    ensures x in s
  {
    x :| x in s;
  }

  lemma {:induction false} MarksSize(i: nat, j: nat, times: set<int>)
    ensures |Marks(i, j, times)| == |times|
    decreases |times|
  {
    if times == {} {
      assert Marks(i, j, times) == {};
    } else {
      var t := Member(times);
      MarksSize(i, j, times - {t});
      assert Marks(i, j, times) == Marks(i, j, times - {t}) + {Hit(i, j, t)};
    }
  }

  /** The hits of the pairs still ahead of the sweep at (i, j). */
  ghost function Ahead(a: seq<Span>, b: seq<Span>, i: nat, j: nat): set<Hit>
    requires i <= |a| && j <= |b|
    decreases |a| - i + |b| - j
  {
    if i == |a| || j == |b| then {}
    else Marks(i, j, Both(a[i], b[j])) + if a[i].end < b[j].end then Ahead(a, b, i + 1, j) else Ahead(a, b, i, j + 1)
  }

  lemma {:induction false} AheadIsLater(a: seq<Span>, b: seq<Span>, i: nat, j: nat)
    requires i <= |a| && j <= |b|
    ensures forall h :: h in Ahead(a, b, i, j) ==> h.i >= i && h.j >= j
    decreases |a| - i + |b| - j
  {
    if i < |a| && j < |b| {
      if a[i].end < b[j].end {
        AheadIsLater(a, b, i + 1, j);
      } else {
        AheadIsLater(a, b, i, j + 1);
      }
    }
  }

  /** One look of the sweep. */
  lemma AheadStep(a: seq<Span>, b: seq<Span>, i: nat, j: nat)
    requires i < |a| && j < |b|
    ensures |Ahead(a, b, i, j)| == Max(0, Min(a[i].end, b[j].end) - Max(a[i].start, b[j].start))
            + if a[i].end < b[j].end then |Ahead(a, b, i + 1, j)| else |Ahead(a, b, i, j + 1)|
  {
    var rest := if a[i].end < b[j].end then Ahead(a, b, i + 1, j) else Ahead(a, b, i, j + 1);
    var here := Marks(i, j, Both(a[i], b[j]));
    if a[i].end < b[j].end { AheadIsLater(a, b, i + 1, j); } else { AheadIsLater(a, b, i, j + 1); }
    MarksSize(i, j, Both(a[i], b[j]));
    RangeSize(Max(a[i].start, b[j].start), Min(a[i].end, b[j].end));
    assert here !! rest && Ahead(a, b, i, j) == here + rest;
    hide Ahead;
  }

  lemma {:induction false} LatestGrows(spans: seq<Span>, m: nat, n: nat)
    requires 0 < m <= n <= |spans|
    ensures Latest(spans, m) <= Latest(spans, n)
  {
    if m < n {
      LatestGrows(spans, m, n - 1);
    }
  }

  /** From a visited pair, the sweep goes on to a visited pair and passes over none. */
  lemma NextVisited(a: seq<Span>, b: seq<Span>, i: nat, j: nat)
    requires Visited(a, b, i, j)
    ensures a[i].end < b[j].end && i + 1 < |a| ==> Visited(a, b, i + 1, j)
    ensures a[i].end >= b[j].end && j + 1 < |b| ==> Visited(a, b, i, j + 1)
  {
  }

  lemma NonePassedOver(a: seq<Span>, b: seq<Span>, i: nat, j: nat, x: nat, y: nat)
    requires Visited(a, b, i, j) && Visited(a, b, x, y) && x >= i && y >= j && (x, y) != (i, j)
    ensures if a[i].end < b[j].end then x > i else y > j
  {
    if a[i].end < b[j].end {
      if x == i { LatestGrows(b, j + 1, y); }
    } else {
      if y == j { LatestGrows(a, i + 1, x); }
    }
  }

  lemma {:induction false} AheadIsVisited(a: seq<Span>, b: seq<Span>, i: nat, j: nat, h: Hit)
    requires i <= |a| && j <= |b| && (i < |a| && j < |b| ==> Visited(a, b, i, j))
    ensures h in Ahead(a, b, i, j) <==>
      h.i >= i && h.j >= j && Visited(a, b, h.i, h.j) && h.t in Both(a[h.i], b[h.j])
    decreases |a| - i + |b| - j
  {
    hide Visited, Both;
    if i < |a| && j < |b| {
      NextVisited(a, b, i, j);
      if h.i >= i && h.j >= j && Visited(a, b, h.i, h.j) && (h.i, h.j) != (i, j) {
        NonePassedOver(a, b, i, j, h.i, h.j);
      }
      if a[i].end < b[j].end {
        AheadIsVisited(a, b, i + 1, j, h);
      } else {
        AheadIsVisited(a, b, i, j + 1, h);
      }
    } else if Visited(a, b, h.i, h.j) {
      VisitedInRange(a, b, h.i, h.j);
    }
  }

  lemma VisitedInRange(a: seq<Span>, b: seq<Span>, i: nat, j: nat)
    requires Visited(a, b, i, j)
    ensures i < |a| && j < |b|
  {
  }

  lemma AheadIsHits(a: seq<Span>, b: seq<Span>)
    ensures Ahead(a, b, 0, 0) == Hits(a, b)
  {
    forall h ensures h in Ahead(a, b, 0, 0) <==> h in Hits(a, b) {
      AheadIsVisited(a, b, 0, 0, h);
      hide Both, Ahead;
      if h in Hits(a, b) {
        var i, j, t :| 0 <= i < |a| && 0 <= j < |b| && Visited(a, b, i, j) && t in Both(a[i], b[j])
                       && h == Hit(i, j, t);
      }
    }
  }

  /** `overlap_ms`, on any two lists: the milliseconds common to the pairs it looks at. */
  method Overlap(a: seq<Span>, b: seq<Span>) returns (total: int)
    ensures total == |Hits(a, b)|
  {
    hide Hits, Ahead;
    total := 0;
    var i, j := 0, 0;
    while i < |a| && j < |b|
      invariant 0 <= i <= |a| && 0 <= j <= |b|
      invariant total + |Ahead(a, b, i, j)| == |Ahead(a, b, 0, 0)|
      decreases |a| - i + |b| - j
    {
      AheadStep(a, b, i, j);
      var lo, hi := Max(a[i].start, b[j].start), Min(a[i].end, b[j].end);
      if hi > lo { total := total + hi - lo; }
      if a[i].end < b[j].end {
        i := i + 1;
      } else {
        j := j + 1;
      }
    }
    NoneAhead(a, b, i, j);
    AheadIsHits(a, b);
  }

  lemma NoneAhead(a: seq<Span>, b: seq<Span>, i: nat, j: nat)
    requires i <= |a| && j <= |b| && (i == |a| || j == |b|)
    ensures Ahead(a, b, i, j) == {}
  {
  }

  // ----- against the speech shared

  /** Speech two labels share. */
  function Shared(a: seq<Span>, b: seq<Span>): nat {
    |Points(a) * Points(b)|
  }

  ghost function Times(hits: set<Hit>): set<int> {
    set h | h in hits :: h.t
  }

  /** No millisecond is hit twice. */
  ghost predicate Once(hits: set<Hit>) {
    forall g, h :: g in hits && h in hits && g.t == h.t ==> g == h
  }

  lemma {:induction false} TimesSize(hits: set<Hit>)
    ensures |Times(hits)| <= |hits|
    ensures |Times(hits)| == |hits| <==> Once(hits)
    decreases |hits|
  {
    if hits != {} {
      var h :| h in hits;
      var rest := hits - {h};
      TimesSize(rest);
      assert Times(hits) == Times(rest) + {h.t};
      if h.t in Times(rest) {
        var g :| g in rest && g.t == h.t;
      }
    }
  }

  lemma {:induction false} LatestCovers(spans: seq<Span>, n: nat) returns (k: nat)
    requires 0 < n <= |spans|
    ensures k < n && spans[k].end == Latest(spans, n)
  {
    if n == 1 || spans[n - 1].end == Latest(spans, n) {
      k := n - 1;
    } else {
      k := LatestCovers(spans, n - 1);
    }
  }

  /** Every common millisecond of two sorted lists is hit: if the sweep does not look at a pair
      that has it, an earlier pair has it too. */
  lemma {:induction false} CommonIsHit(a: seq<Span>, b: seq<Span>, i: nat, j: nat, t: int) returns (h: Hit)
    requires StartSorted(a) && StartSorted(b) && i < |a| && j < |b|
    requires a[i].start <= t < a[i].end && b[j].start <= t < b[j].end
    ensures h in Hits(a, b) && h.t == t
    decreases i + j
  {
    LatestGrows(a, i + 1, i + 1);
    if i > 0 && Latest(a, i) >= Latest(b, j + 1) {
      var k := LatestCovers(a, i);
      h := CommonIsHit(a, b, k, j, t);
    } else if j > 0 && Latest(b, j) > Latest(a, i + 1) {
      var k := LatestCovers(b, j);
      h := CommonIsHit(a, b, i, k, t);
    } else {
      h := Hit(i, j, t);
      assert Visited(a, b, i, j) && t in Both(a[i], b[j]);
    }
  }

  lemma HitIsCommon(a: seq<Span>, b: seq<Span>, h: Hit)
    requires h in Hits(a, b)
    ensures CoveredBy(a, h.t) && CoveredBy(b, h.t)
  {
    var i, j, t :| 0 <= i < |a| && 0 <= j < |b| && Visited(a, b, i, j) && t in Both(a[i], b[j]) && h == Hit(i, j, t);
    assert a[i].start <= t < a[i].end && b[j].start <= t < b[j].end;
  }

  lemma HitTimes(a: seq<Span>, b: seq<Span>)
    requires StartSorted(a) && StartSorted(b)
    ensures Times(Hits(a, b)) == Points(a) * Points(b)
  {
    PointsAreCovered(a);
    PointsAreCovered(b);
    hide Hits, Points;
    forall t | t in Points(a) * Points(b) ensures t in Times(Hits(a, b)) {
      var i :| 0 <= i < |a| && a[i].start <= t < a[i].end;
      var j :| 0 <= j < |b| && b[j].start <= t < b[j].end;
      var h := CommonIsHit(a, b, i, j, t);
    }
    forall t | t in Times(Hits(a, b)) ensures t in Points(a) * Points(b) {
      var h :| h in Hits(a, b) && h.t == t;
      HitIsCommon(a, b, h);
    }
  }

  /** On sorted lists, overlapping or not, the sweep never counts less than the speech shared, and
      counts exactly that when, and only when, no millisecond lies in two of the pairs it looks at. */
  lemma OverlapExactlyWhen(a: seq<Span>, b: seq<Span>)
    requires StartSorted(a) && StartSorted(b)
    ensures |Hits(a, b)| >= Shared(a, b)
    ensures |Hits(a, b)| == Shared(a, b) <==> Once(Hits(a, b))
    ensures |Hits(a, b)| > 0 ==> Shared(a, b) > 0
  {
    HitTimes(a, b);
    TimesSize(Hits(a, b));
    if |Hits(a, b)| > 0 {
      var h :| h in Hits(a, b);
      assert h.t in Times(Hits(a, b));
    }
  }

  // ----- lists without overlap

  function Length(s: Span): nat {
    if s.start < s.end then s.end - s.start else 0
  }

  function Lengths(spans: seq<Span>): nat {
    if spans == [] then 0 else Length(spans[0]) + Lengths(spans[1..])
  }

  /** No millisecond lies in two of the spans, whatever their order. */
  ghost predicate Clean(spans: seq<Span>) {
    forall i, j, t :: InSpan(spans, i, t) && InSpan(spans, j, t) ==> i == j
  }

  predicate InSpan(spans: seq<Span>, i: int, t: int) {
    0 <= i < |spans| && spans[i].start <= t < spans[i].end
  }

  /** Counted by size: a list is clean exactly when its spans are as long together as what they
      cover. */
  lemma {:induction false} CleanBySize(spans: seq<Span>)
    ensures |Points(spans)| <= Lengths(spans)
    ensures |Points(spans)| == Lengths(spans) <==> Clean(spans)
  {
    if spans != [] {
      var first, rest := spans[0], spans[1..];
      CleanBySize(rest);
      RangeSize(first.start, first.end);
      PointsAreCovered(rest);
      CleanTail(spans);
      var x, y := Range(first.start, first.end), Points(rest);
      UnionAtMost(x, y);
      hide Points, Range, Clean;
    }
  }

  lemma UnionAtMost(x: set<int>, y: set<int>)
    ensures |x + y| <= |x| + |y|
    ensures |x + y| == |x| + |y| <==> x !! y
  {
    assert |x + y| == |x| + |y| - |x * y|;
  }

  lemma CleanTail(spans: seq<Span>)
    requires spans != []
    ensures Clean(spans) <==> Clean(spans[1..]) && Range(spans[0].start, spans[0].end) !! Points(spans[1..])
  {
    var rest := spans[1..];
    PointsAreCovered(rest);
    forall i, t ensures InSpan(rest, i, t) <==> i >= 0 && InSpan(spans, i + 1, t) {}
    if Clean(spans) {
      forall i, j, t | InSpan(rest, i, t) && InSpan(rest, j, t) ensures i == j {
        assert InSpan(spans, i + 1, t) && InSpan(spans, j + 1, t);
      }
      forall t | t in Range(spans[0].start, spans[0].end) ensures t !in Points(rest) {
        if CoveredBy(rest, t) {
          var k :| 0 <= k < |rest| && rest[k].start <= t < rest[k].end;
          assert InSpan(spans, 0, t) && InSpan(spans, k + 1, t);
        }
      }
    }
    if Clean(rest) && Range(spans[0].start, spans[0].end) !! Points(rest) {
      forall i, j, t | InSpan(spans, i, t) && InSpan(spans, j, t) ensures i == j {
        assert i > 0 ==> InSpan(rest, i - 1, t) && CoveredBy(rest, t);
        assert j > 0 ==> InSpan(rest, j - 1, t) && CoveredBy(rest, t);
        assert i == 0 || j == 0 ==> t in Range(spans[0].start, spans[0].end);
      }
    }
  }

  lemma {:induction false} LengthsInsert(x: Span, spans: seq<Span>, le: (Span, Span) -> bool)
    ensures Lengths(Insert(x, spans, le)) == Length(x) + Lengths(spans)
  {
    if spans != [] && !le(x, spans[0]) {
      LengthsInsert(x, spans[1..], le);
      assert Insert(x, spans, le)[1..] == Insert(x, spans[1..], le);
    } else if spans != [] {
      assert Insert(x, spans, le)[1..] == spans;
    }
  }

  lemma {:induction false} LengthsSort(spans: seq<Span>, le: (Span, Span) -> bool)
    ensures Lengths(Sort(spans, le)) == Lengths(spans)
  {
    if spans != [] {
      LengthsSort(spans[1..], le);
      LengthsInsert(spans[0], Sort(spans[1..], le), le);
    }
  }

  /** Sorting keeps what is covered, the lengths, and so cleanness. */
  lemma SortKeepsClean(spans: seq<Span>)
    ensures StartSorted(SortSpans(spans)) && Points(SortSpans(spans)) == Points(spans)
    ensures Lengths(SortSpans(spans)) == Lengths(spans)
    ensures Clean(SortSpans(spans)) <==> Clean(spans)
  {
    hide Points, Clean, Lengths;
    SortSpansSorts(spans);
    SamePoints(SortSpans(spans), spans);
    SamePoints(spans, SortSpans(spans));
    LengthsSort(spans, (a: Span, b: Span) => SpanLe(a, b));
    CleanBySize(spans);
    CleanBySize(SortSpans(spans));
  }

  lemma CleanHitsOnce(a: seq<Span>, b: seq<Span>)
    requires Clean(a) && Clean(b)
    ensures Once(Hits(a, b))
  {
    forall g, h | g in Hits(a, b) && h in Hits(a, b) && g.t == h.t ensures g == h {
      assert InSpan(a, g.i, g.t) && InSpan(a, h.i, h.t);
      assert InSpan(b, g.j, g.t) && InSpan(b, h.j, h.t);
    }
  }

  // ----- one long span against a list

  /** The sweep looks at every span of b while a's only one outlasts them. */
  lemma {:induction false} LongSpanSums(x: Span, b: seq<Span>, j: nat)
    requires j <= |b| && Within(b, x)
    ensures |Ahead([x], b, 0, j)| == Lengths(b[j..])
    decreases |b| - j
  {
    if j < |b| {
      LongSpanSums(x, b, j + 1);
      AheadStep([x], b, 0, j);
      assert b[j..][1..] == b[j + 1..];
    }
  }

  /** Nor does it stop early the other way round, when b's only one outlasts all of a. */
  lemma {:induction false} ShortSpansSum(x: Span, a: seq<Span>, i: nat)
    requires i <= |a| && Within(a, Span(x.start, x.end - 1))
    ensures |Ahead(a, [x], i, 0)| == Lengths(a[i..])
    decreases |a| - i
  {
    if i < |a| {
      ShortSpansSum(x, a, i + 1);
      AheadStep(a, [x], i, 0);
      assert a[i..][1..] == a[i + 1..];
    }
  }

  /** The least start and the greatest end, at least `room` apart. */
  lemma {:induction false} Around(spans: seq<Span>, room: nat) returns (x: Span)
    ensures Within(spans, x)
    ensures x.start + room <= x.end
  {
    if spans == [] {
      x := Span(0, room);
    } else {
      var y := Around(spans[1..], room);
      x := Span(Min(y.start, spans[0].start), Max(y.end, spans[0].end));
    }
  }

  // ----- map_labels

  /** What the code compares: `overlap_ms` of the sorted spans. */
  ghost function Score(a: seq<Span>, b: seq<Span>): nat {
    |Hits(SortSpans(a), SortSpans(b))|
  }

  lemma ScoreBounds(a: seq<Span>, b: seq<Span>)
    ensures Score(a, b) >= Shared(a, b)
    ensures Score(a, b) > 0 <==> Shared(a, b) > 0
    ensures Clean(a) && Clean(b) ==> Score(a, b) == Shared(a, b)
  {
    hide Hits, Clean, Points, Once;
    SortKeepsClean(a);
    SortKeepsClean(b);
    OverlapExactlyWhen(SortSpans(a), SortSpans(b));
    if Clean(a) && Clean(b) { CleanHitsOnce(SortSpans(a), SortSpans(b)); }
  }

  /** c scores the most with `spans`; of those that score as much it has the least name. */
  ghost predicate BestLabel(spans: seq<Span>, labels: map<string, seq<Span>>, c: string) {
    && c in labels && Score(spans, labels[c]) > 0
    && forall d :: d in labels ==>
         && Score(spans, labels[d]) <= Score(spans, labels[c])
         && (Score(spans, labels[d]) == Score(spans, labels[c]) ==> StringLe(c, d))
  }

  method SortedKeys(labels: map<string, seq<Span>>) returns (names: seq<string>)
    ensures forall c :: c in names <==> c in labels
    ensures forall i, j :: 0 <= i < j < |names| ==> StringLe(names[i], names[j])
  {
    var rest := labels.Keys;
    var found: seq<string> := [];
    while rest != {}
      invariant forall c :: c in labels <==> c in rest || c in found
      decreases |rest|
    {
      var c :| c in rest;
      rest, found := rest - {c}, found + [c];
    }
    var le := (a: string, b: string) => StringLe(a, b);
    names := Sort(found, le);
    StringsOrdered(le);
    SortSorts(found, le);
    SortKeepsMembers(found, le);
    forall i, j | 0 <= i < j < |names| ensures StringLe(names[i], names[j]) {
      assert le(names[i], names[j]);
    }
  }

  lemma StringsOrdered(le: (string, string) -> bool)
    requires forall a, b :: le(a, b) == StringLe(a, b)
    ensures TotalPreorder(le)
  {
    forall a, b ensures le(a, b) || le(b, a) { StringLeTotal(a, b); }
    forall a, b, c | le(a, b) && le(b, c) ensures le(a, c) { StringLeTransitive(a, b, c); }
  }

  /** The best of names[..k] so far: it scores bestMs, more than none, nobody scores more, and of
      those that score as much it is the least. */
  ghost predicate BestSoFar(spans: seq<Span>, labels: map<string, seq<Span>>, names: seq<string>, k: nat,
                            best: Option<string>, bestMs: nat)
    requires k <= |names| && forall j :: 0 <= j < |names| ==> names[j] in labels
  {
    && (best.None? ==> bestMs == 0)
    && (best.Some? ==> bestMs > 0 && best.value in names[..k] && bestMs == Score(spans, labels[best.value]))
    && (forall j :: 0 <= j < k ==> Score(spans, labels[names[j]]) <= bestMs)
    && (best.Some? ==>
          forall j :: 0 <= j < k && Score(spans, labels[names[j]]) == bestMs ==> StringLe(best.value, names[j]))
  }

  lemma BestNext(spans: seq<Span>, labels: map<string, seq<Span>>, names: seq<string>, k: nat,
                 best: Option<string>, bestMs: nat)
    requires k < |names| && forall j :: 0 <= j < |names| ==> names[j] in labels
    requires forall i, j :: 0 <= i < j < |names| ==> StringLe(names[i], names[j])
    requires BestSoFar(spans, labels, names, k, best, bestMs)
    ensures var score := Score(spans, labels[names[k]]);
      BestSoFar(spans, labels, names, k + 1, if score > bestMs then Some(names[k]) else best,
                if score > bestMs then score else bestMs)
  {
    hide Score, StringLe;
    assert names[k] in names[..k + 1];
    StringLeTotal(names[k], names[k]);
    if best.Some? {
      var j :| 0 <= j < k && names[j] == best.value;
      assert names[..k + 1][j] == best.value;
      assert StringLe(names[j], names[k]);
    }
  }

  lemma BestAtEnd(spans: seq<Span>, labels: map<string, seq<Span>>, names: seq<string>, best: Option<string>,
                  bestMs: nat)
    requires forall c :: c in names <==> c in labels
    requires BestSoFar(spans, labels, names, |names|, best, bestMs)
    ensures best.Some? ==> BestLabel(spans, labels, best.value)
    ensures best.None? ==> forall c :: c in labels ==> Shared(spans, labels[c]) == 0
  {
    hide Score, StringLe, Shared;
    forall d | d in labels ensures exists j :: 0 <= j < |names| && names[j] == d { assert d in names; }
    if best.None? {
      forall c | c in labels ensures Shared(spans, labels[c]) == 0 { ScoreBounds(spans, labels[c]); }
    }
  }

  /** The best label for one list of spans, if any shares speech with it. */
  method BestFor(spans: seq<Span>, labels: map<string, seq<Span>>, names: seq<string>) returns (best: Option<string>)
    requires forall c :: c in names <==> c in labels
    requires forall i, j :: 0 <= i < j < |names| ==> StringLe(names[i], names[j])
    ensures best.Some? ==> BestLabel(spans, labels, best.value)
    ensures best.None? <==> forall c :: c in labels ==> Shared(spans, labels[c]) == 0
  {
    hide StringLe, BestSoFar, Shared, Score;
    best := None;
    var bestMs: nat := 0;
    NoneIsBest(spans, labels, names);
    for k := 0 to |names|
      invariant BestSoFar(spans, labels, names, k, best, bestMs)
    {
      assert names[k] in labels;
      var score := Overlap(SortSpans(spans), SortSpans(labels[names[k]]));
      ScoreIs(spans, labels[names[k]]);
      BestNext(spans, labels, names, k, best, bestMs);
      if score > bestMs {
        best, bestMs := Some(names[k]), score;
      }
    }
    BestAtEnd(spans, labels, names, best, bestMs);
    if best.Some? { ScoreBounds(spans, labels[best.value]); }
  }

  lemma ScoreIs(a: seq<Span>, b: seq<Span>)
    ensures Score(a, b) == |Hits(SortSpans(a), SortSpans(b))|
  {
  }

  lemma NoneIsBest(spans: seq<Span>, labels: map<string, seq<Span>>, names: seq<string>)
    requires forall j :: 0 <= j < |names| ==> names[j] in labels
    ensures BestSoFar(spans, labels, names, 0, None, 0)
  {
  }

  /** `map_labels`: each old label to its best new one; exactly those that share no speech with
      any new label are left out. */
  method MapLabels(previous: map<string, seq<Span>>, labels: map<string, seq<Span>>) returns (out: map<string, string>)
    ensures forall c :: c in out ==> c in previous && BestLabel(previous[c], labels, out[c])
    ensures forall c :: c in previous ==>
      (c !in out <==> forall d :: d in labels ==> Shared(previous[c], labels[d]) == 0)
  {
    hide BestLabel, Shared;
    var names := SortedKeys(labels);
    out := map[];
    var rest := previous.Keys;
    while rest != {}
      invariant rest <= previous.Keys && out.Keys !! rest
      invariant forall c :: c in out ==> c in previous && BestLabel(previous[c], labels, out[c])
      invariant forall c :: c in previous && c !in rest ==>
        (c !in out <==> forall d :: d in labels ==> Shared(previous[c], labels[d]) == 0)
      decreases |rest|
    {
      var c :| c in rest;
      var best := BestFor(previous[c], labels, names);
      if best.Some? { out := out[c := best.value]; }
      rest := rest - {c};
    }
  }

  /** The best label is unique, so the result does not depend on the order of the maps. */
  lemma BestLabelUnique(spans: seq<Span>, labels: map<string, seq<Span>>, c: string, d: string)
    requires BestLabel(spans, labels, c) && BestLabel(spans, labels, d)
    ensures c == d
  {
    StringLeTotal(c, d);
  }

  // ----- the label that shares most

  /** Whichever label is picked shares the most speech. */
  ghost predicate PicksMost(spans: seq<Span>, labels: map<string, seq<Span>>) {
    forall c, d :: BestLabel(spans, labels, c) && d in labels ==> Shared(spans, labels[d]) <= Shared(spans, labels[c])
  }

  lemma CleanPicksMost(spans: seq<Span>, labels: map<string, seq<Span>>)
    requires Clean(spans) && forall c :: c in labels ==> Clean(labels[c])
    ensures PicksMost(spans, labels)
  {
    hide Clean, Shared, Score;
    forall c | c in labels ensures Score(spans, labels[c]) == Shared(spans, labels[c]) {
      ScoreBounds(spans, labels[c]);
    }
  }

  predicate Within(b: seq<Span>, x: Span) {
    forall k :: 0 <= k < |b| ==> x.start <= b[k].start && b[k].end <= x.end
  }

  lemma SortedWithin(b: seq<Span>, x: Span)
    requires Within(b, x)
    ensures Within(SortSpans(b), x)
  {
    var sorted := SortSpans(b);
    SortSpansSorts(b);
    forall k | 0 <= k < |sorted| ensures x.start <= sorted[k].start && sorted[k].end <= x.end {
      assert sorted[k] in sorted;
    }
  }

  lemma SharedAround(x: Span, b: seq<Span>)
    requires Within(b, x)
    ensures Shared([x], b) == |Points(b)|
  {
    PointsAreCovered(b);
    PointsAreCovered([x]);
    hide Points;
    forall t | t in Points(b) ensures t in Points([x]) {
      var k :| 0 <= k < |b| && b[k].start <= t < b[k].end;
      assert [x][0].start <= t < [x][0].end;
    }
    assert Points([x]) * Points(b) == Points(b);
  }

  /** A list's score with one span around all of it is the sum of its lengths. */
  lemma ScoreAround(x: Span, b: seq<Span>)
    requires Within(b, x)
    ensures Score([x], b) == Lengths(b) && Shared([x], b) == |Points(b)|
  {
    hide Points, Hits, Ahead, Lengths, Shared, Clean;
    var sorted := SortSpans(b);
    SortKeepsClean(b);
    SortedWithin(b, x);
    LongSpanSums(x, sorted, 0);
    AheadIsHits([x], sorted);
    assert sorted[0..] == sorted;
    OneSorted(x);
    SharedAround(x, b);
  }

  lemma ScoreWithin(x: Span, a: seq<Span>)
    requires Within(a, Span(x.start, x.end - 1))
    ensures Score(a, [x]) == Lengths(a) && Shared(a, [x]) == |Points(a)|
  {
    hide Points, Hits, Ahead, Lengths, Clean;
    var sorted := SortSpans(a);
    SortKeepsClean(a);
    SortedWithin(a, Span(x.start, x.end - 1));
    ShortSpansSum(x, sorted, 0);
    AheadIsHits(sorted, [x]);
    assert sorted[0..] == sorted;
    OneSorted(x);
    SharedAround(x, a);
    assert Points(a) * Points([x]) == Points([x]) * Points(a);
  }

  lemma OneSorted(x: Span)
    ensures SortSpans([x]) == [x]
  {
  }

  lemma SingleIsClean(x: Span)
    ensures Clean([x])
  {
  }

  /** As a new label against every old one without overlap, or as an old label against every new
      one without, a list is measured right exactly when it has no overlap itself. */
  lemma ScoreRightExactlyWhen(b: seq<Span>)
    ensures (forall a :: Clean(a) ==> Score(a, b) == Shared(a, b)) <==> Clean(b)
    ensures (forall a :: Clean(a) ==> Score(b, a) == Shared(b, a)) <==> Clean(b)
  {
    hide Clean, Score, Shared, Points, Lengths;
    if Clean(b) {
      forall a | Clean(a) ensures Score(a, b) == Shared(a, b) && Score(b, a) == Shared(b, a) {
        ScoreBounds(a, b);
        ScoreBounds(b, a);
      }
    } else {
      var x := Around(b, 0);
      var longer := Span(x.start, x.end + 1);
      SingleIsClean(x);
      SingleIsClean(longer);
      ScoreAround(x, b);
      ScoreWithin(longer, b);
      CleanBySize(b);
    }
  }

  /** A list that overlaps itself beats a longer one it shares less than. */
  lemma OverlapWins(b: seq<Span>) returns (x: Span, y: Span)
    requires !Clean(b)
    ensures !PicksMost([x], map["a" := b, "b" := [y]])
  {
    hide Clean, Score, Shared, Points;
    CleanBySize(b);
    var p := |Points(b)|;
    x := Around(b, p + 1);
    y := Span(x.start, x.start + p + 1);
    ScoreAround(x, b);
    ScoreAround(x, [y]);
    SingleIsClean(y);
    CleanBySize([y]);
    assert Lengths([y]) == p + 1 by { assert [y][1..] == []; }
    var labels := map["a" := b, "b" := [y]];
    assert StringLe("a", "b") && StringLe("a", "a");
    assert BestLabel([x], labels, "a");
  }

  /** A new label is safe against every rival and every old label, all of them free of overlap,
      exactly when its own spans do not overlap. */
  lemma PickRightExactlyWhen(b: seq<Span>)
    ensures (forall a, r, c, d :: Clean(a) && Clean(r) && c != d ==> PicksMost(a, map[c := b, d := r])) <==> Clean(b)
  {
    hide Clean, PicksMost;
    if Clean(b) {
      forall a, r, c, d | Clean(a) && Clean(r) && c != d ensures PicksMost(a, map[c := b, d := r]) {
        CleanPicksMost(a, map[c := b, d := r]);
      }
    } else {
      var x, y := OverlapWins(b);
      SingleIsClean(x);
      SingleIsClean(y);
      assert Clean([x]) && Clean([y]) && "a" != "b" && !PicksMost([x], map["a" := b, "b" := [y]]);
    }
  }

  /** Two utterances of one speaker that overlap, [0,10) and [5,20), score 25 with the old label
      [0,24), of which they cover 20 ms; the label that covers all 24 loses. */
  lemma OverlapScoresTwice()
    ensures var labels := map["a" := [Span(0, 10), Span(5, 20)], "b" := [Span(0, 24)]];
      BestLabel([Span(0, 24)], labels, "a") && !PicksMost([Span(0, 24)], labels)
  {
    hide Points, Lengths, Score, Shared;
    var x, b, r := Span(0, 24), [Span(0, 10), Span(5, 20)], [Span(0, 24)];
    ScoreAround(x, b);
    ScoreAround(x, r);
    TwoSpans();
    assert StringLe("a", "b") && StringLe("a", "a");
    var labels := map["a" := b, "b" := r];
    assert BestLabel([x], labels, "a");
  }

  lemma PointsOfOne(x: Span)
    ensures Points([x]) == Range(x.start, x.end) && Lengths([x]) == Length(x)
  {
    hide Range;
    assert [x][1..] == [];
  }

  lemma PointsOfTwo(x: Span, y: Span)
    ensures Points([x, y]) == Range(x.start, x.end) + Range(y.start, y.end)
    ensures Lengths([x, y]) == Length(x) + Length(y)
  {
    hide Range;
    assert [x, y][1..] == [y];
    PointsOfOne(y);
  }

  lemma TwoSpans()
    ensures Lengths([Span(0, 10), Span(5, 20)]) == 25 && |Points([Span(0, 10), Span(5, 20)])| == 20
    ensures Lengths([Span(0, 24)]) == 24 && |Points([Span(0, 24)])| == 24
  {
    PointsOfTwo(Span(0, 10), Span(5, 20));
    PointsOfOne(Span(0, 24));
    RangeSize(0, 20);
    RangeSize(0, 24);
    hide Range, Points, Lengths;
    assert Range(0, 10) + Range(5, 20) == Range(0, 20);
  }
}
