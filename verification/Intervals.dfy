/** Millisecond spans and `_gap_crosstalk_ms` (processing/pipelines/diarize.py:114-129), a sweep
    measured against the set of milliseconds the spans cover. */
module Intervals {
  import opened Arithmetic
  import opened Sorting

  datatype Span = Span(start: int, end: int)

  function Range(lo: int, hi: int): (r: set<int>)
    ensures forall t :: t in r <==> lo <= t < hi
    decreases hi - lo
  {
    if lo < hi then Range(lo, hi - 1) + {hi - 1} else {}
  }

  predicate CoveredBy(spans: seq<Span>, t: int) {
    exists k :: 0 <= k < |spans| && spans[k].start <= t < spans[k].end
  }

  /** The milliseconds covered by some span. */
  function Points(spans: seq<Span>): set<int> {
    if spans == [] then {} else Range(spans[0].start, spans[0].end) + Points(spans[1..])
  }

  lemma {:induction false} PointsAreCovered(spans: seq<Span>)
    ensures forall t :: t in Points(spans) <==> CoveredBy(spans, t)
  {
    if spans != [] {
      PointsAreCovered(spans[1..]);
      forall t | CoveredBy(spans, t) ensures t in Points(spans) {
        var k :| 0 <= k < |spans| && spans[k].start <= t < spans[k].end;
        if k > 0 { assert spans[1..][k - 1] == spans[k]; }
      }
      forall t | CoveredBy(spans[1..], t) ensures CoveredBy(spans, t) {
        var k :| 0 <= k < |spans| - 1 && spans[1..][k].start <= t < spans[1..][k].end;
        assert spans[1..][k] == spans[k + 1];
      }
      assert CoveredBy(spans, spans[0].start) || spans[0].start >= spans[0].end;
    }
  }

  lemma {:induction false} RangeSize(lo: int, hi: int)
    ensures |Range(lo, hi)| == Max(0, hi - lo)
    decreases hi - lo
  {
    if lo < hi {
      RangeSize(lo, hi - 1);
    }
  }

  lemma {:induction false} PointsAppend(spans: seq<Span>, s: Span)
    ensures Points(spans + [s]) == Points(spans) + Range(s.start, s.end)
  {
    if spans == [] {
      assert (spans + [s])[1..] == [];
    } else {
      PointsAppend(spans[1..], s);
      assert (spans + [s])[1..] == spans[1..] + [s];
    }
  }

  predicate StartSorted(spans: seq<Span>) {
    forall i, j :: 0 <= i < j < |spans| ==> spans[i].start <= spans[j].start
  }

  /** What the sweep over a prefix knows: nothing covered lies at or past the cursor, and
      from the last start on everything before the cursor is covered. */
  ghost predicate Swept(seen: seq<Span>, gapStart: int, gapEnd: int, cursor: int) {
    && gapStart <= cursor <= gapEnd
    && (forall t :: t in Points(seen) && gapStart <= t < gapEnd ==> t < cursor)
    && (forall t :: gapStart <= t < cursor && (seen != [] ==> seen[|seen| - 1].start <= t) ==> t in Points(seen))
  }

  lemma UnionSize<T(!new)>(x: set<T>, y: set<T>, z: set<T>)
    requires forall t :: t in z <==> t in x || t in y
    requires forall t :: t in x ==> t !in y
    ensures |z| == |x| + |y|
  {
    assert z == x + y && x !! y;
  }

  lemma SweepAdds(seen: seq<Span>, s: Span, gapStart: int, gapEnd: int, cursor: int)
    requires Swept(seen, gapStart, gapEnd, cursor)
    requires seen != [] ==> seen[|seen| - 1].start <= s.start
    requires seen == [] ==> cursor == gapStart
    ensures |Points(seen + [s]) * Range(gapStart, gapEnd)| == |Points(seen) * Range(gapStart, gapEnd)|
            + Max(0, Min(s.end, gapEnd) - Max(s.start, cursor))
  {
    var lo, hi := Max(s.start, cursor), Min(s.end, gapEnd);
    PointsAppend(seen, s);
    RangeSize(lo, hi);
    hide Points, Range;
    UnionSize(Points(seen) * Range(gapStart, gapEnd), Range(lo, hi), Points(seen + [s]) * Range(gapStart, gapEnd));
  }

  lemma SweepKeeps(seen: seq<Span>, s: Span, gapStart: int, gapEnd: int, cursor: int)
    requires Swept(seen, gapStart, gapEnd, cursor) && s.start < gapEnd
    requires seen != [] ==> seen[|seen| - 1].start <= s.start
    requires seen == [] ==> cursor == gapStart
    ensures var lo, hi := Max(s.start, cursor), Min(s.end, gapEnd);
      Swept(seen + [s], gapStart, gapEnd, if hi > lo then hi else cursor)
  {
    PointsAppend(seen, s);
    hide Points, Range;
  }

  /** Milliseconds of the gap covered by the union of start-sorted, possibly overlapping spans. */
  method GapCrosstalk(others: seq<Span>, gapStart: int, gapEnd: int) returns (total: int)
    requires StartSorted(others)
    ensures total == |Points(others) * Range(gapStart, gapEnd)|
  {
    hide Points, Range;
    if gapEnd <= gapStart {
      assert Points(others) * Range(gapStart, gapEnd) == {};
      return 0;
    }
    var cursor := gapStart;
    total := 0;
    var k := 0;
    PointsAreCovered(others[..0]);
    assert Points(others[..0]) * Range(gapStart, gapEnd) == {};
    while k < |others|
      invariant 0 <= k <= |others| && Swept(others[..k], gapStart, gapEnd, cursor)
      invariant k == 0 ==> cursor == gapStart
      invariant total == |Points(others[..k]) * Range(gapStart, gapEnd)|
    {
      var s := others[k];
      if s.start >= gapEnd {
        LateSpans(others, k, gapStart, gapEnd);
        break;
      }
      SweepAdds(others[..k], s, gapStart, gapEnd, cursor);
      SweepKeeps(others[..k], s, gapStart, gapEnd, cursor);
      assert others[..k + 1] == others[..k] + [s];
      var lo, hi := Max(s.start, cursor), Min(s.end, gapEnd);
      if hi > lo {
        total := total + hi - lo;
        cursor := hi;
      }
      k := k + 1;
    }
    if k == |others| { assert others[..k] == others; }
  }

  /** Spans that start at or past the gap's end add nothing. */
  lemma LateSpans(others: seq<Span>, k: nat, gapStart: int, gapEnd: int)
    requires StartSorted(others) && k < |others| && others[k].start >= gapEnd
    ensures Points(others) * Range(gapStart, gapEnd) == Points(others[..k]) * Range(gapStart, gapEnd)
  {
    PointsAreCovered(others);
    PointsAreCovered(others[..k]);
    forall t | CoveredBy(others, t) && t < gapEnd ensures CoveredBy(others[..k], t) {
      var j :| 0 <= j < |others| && others[j].start <= t < others[j].end;
      assert j < k && others[..k][j] == others[j];
    }
    forall t | CoveredBy(others[..k], t) ensures CoveredBy(others, t) {
      var j :| 0 <= j < k && others[..k][j].start <= t < others[..k][j].end;
      assert others[j] == others[..k][j];
    }
  }

  // ----- spans in order

  predicate SpanLe(a: Span, b: Span) {
    a.start < b.start || (a.start == b.start && a.end <= b.end)
  }

  function SortSpans(spans: seq<Span>): seq<Span> {
    Sort(spans, (a: Span, b: Span) => SpanLe(a, b))
  }

  lemma SamePoints(a: seq<Span>, b: seq<Span>)
    requires forall s :: s in a ==> s in b
    ensures Points(a) <= Points(b)
  {
    PointsAreCovered(a);
    PointsAreCovered(b);
    forall t | CoveredBy(a, t) ensures CoveredBy(b, t) {
      var k :| 0 <= k < |a| && a[k].start <= t < a[k].end;
      assert a[k] in b;
      var j :| 0 <= j < |b| && b[j] == a[k];
    }
  }

  lemma SortSpansOrders(spans: seq<Span>)
    ensures forall i, j :: 0 <= i < j < |SortSpans(spans)| ==> SpanLe(SortSpans(spans)[i], SortSpans(spans)[j])
  {
    var le := (a: Span, b: Span) => SpanLe(a, b);
    SortSorts(spans, le);
    forall i, j | 0 <= i < j < |SortSpans(spans)| ensures SpanLe(SortSpans(spans)[i], SortSpans(spans)[j]) {
      assert le(SortSpans(spans)[i], SortSpans(spans)[j]);
    }
  }

  lemma SortSpansSorts(spans: seq<Span>)
    ensures StartSorted(SortSpans(spans))
    ensures forall s :: s in SortSpans(spans) <==> s in spans
  {
    var le := (a: Span, b: Span) => SpanLe(a, b);
    SortSorts(spans, le);
    SortKeepsMembers(spans, le);
    forall i, j | 0 <= i < j < |SortSpans(spans)|
      ensures SortSpans(spans)[i].start <= SortSpans(spans)[j].start
    {
      assert le(SortSpans(spans)[i], SortSpans(spans)[j]);
    }
  }
}
