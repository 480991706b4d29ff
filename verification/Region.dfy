/** Decomposition of a surface region into non-overlapping rectangles.

    A region is an ordered list of rectangles, each adding or subtracting its pixels
    (`src/utils/region.rs`). `Decompose` cuts the plane into horizontal bands at every edge and keeps,
    for the current band, a sorted list of horizontal spans.
  */
module Region {

  datatype Kind = Add | Subtract

  datatype Rect = Rect(x: int, y: int, w: int, h: int)

  datatype Piece = Piece(kind: Kind, rect: Rect)

  /** The half-open interval `[start, end)`. */
  datatype Span = Span(start: int, end: int)

  predicate Within(s: Span, x: int) {
    s.start <= x < s.end
  }

  predicate Contains(r: Rect, x: int, y: int) {
    r.x <= x < r.x + r.w && r.y <= y < r.y + r.h
  }

  /** A pixel belongs to the region when the last piece that covers it adds it. */
  predicate Member(pieces: seq<Piece>, x: int, y: int) {
    if pieces == [] then false
    else
      var last := pieces[|pieces| - 1];
      if Contains(last.rect, x, y) then last.kind.Add?
      else Member(pieces[..|pieces| - 1], x, y)
  }

  /** Smithay sizes are never negative. */
  predicate WellSized(pieces: seq<Piece>) {
    forall i :: 0 <= i < |pieces| ==> 0 <= pieces[i].rect.w
  }

  predicate Covers(rects: seq<Rect>, x: int, y: int) {
    exists k :: 0 <= k < |rects| && Contains(rects[k], x, y)
  }

  ghost predicate Disjoint(rects: seq<Rect>) {
    forall i, j, x, y :: 0 <= i < j < |rects| && Contains(rects[i], x, y) ==> !Contains(rects[j], x, y)
  }

  predicate NonEmpty(rects: seq<Rect>) {
    forall i :: 0 <= i < |rects| ==> 0 < rects[i].w && 0 < rects[i].h
  }

  /** Rectangles come band by band, and two in the same band leave a gap: none could be merged sideways. */
  predicate Banded(rects: seq<Rect>) {
    forall i, j :: 0 <= i < j < |rects| ==>
      || rects[i].y + rects[i].h <= rects[j].y
      || (rects[i].y == rects[j].y && rects[i].h == rects[j].h && rects[i].x + rects[i].w < rects[j].x)
  }

  /** What the decomposition promises: it tiles exactly the region's pixels. */
  ghost predicate IsDecomposition(pieces: seq<Piece>, rects: seq<Rect>) {
    && (forall x, y :: Member(pieces, x, y) <==> Covers(rects, x, y))
    && Disjoint(rects)
    && NonEmpty(rects)
    && Banded(rects)
  }

  // ----- Sorted span lists

  predicate Covered(spans: seq<Span>, x: int) {
    exists i :: 0 <= i < |spans| && Within(spans[i], x)
  }

  /** Non-empty spans in increasing order with a gap between neighbours. */
  predicate Gapped(spans: seq<Span>) {
    && (forall i :: 0 <= i < |spans| ==> spans[i].start < spans[i].end)
    && (forall i, j :: 0 <= i < j < |spans| ==> spans[i].end < spans[j].start)
  }

  lemma GappedConcat(a: seq<Span>, b: seq<Span>)
    requires Gapped(a) && Gapped(b)
    requires a != [] && b != [] ==> a[|a| - 1].end < b[0].start
    ensures Gapped(a + b)
  {
    forall i, j | 0 <= i < |a| && 0 <= j < |b|
      ensures a[i].end < b[j].start
    {
      assert a[i].end <= a[|a| - 1].end;
      assert b[0].start <= b[j].start;
    }
  }

  lemma CoveredConcat(a: seq<Span>, b: seq<Span>)
    ensures forall x :: Covered(a + b, x) <==> Covered(a, x) || Covered(b, x)
  {
    forall x
      ensures Covered(a + b, x) <==> Covered(a, x) || Covered(b, x)
    {
      if Covered(a, x) {
        var i :| 0 <= i < |a| && Within(a[i], x);
        assert Within((a + b)[i], x);
      }
      if Covered(b, x) {
        var i :| 0 <= i < |b| && Within(b[i], x);
        assert Within((a + b)[|a| + i], x);
      }
    }
  }

  lemma CoveredSingle(s: Span)
    ensures forall x :: Covered([s], x) <==> Within(s, x)
  {
    forall x
      ensures Covered([s], x) <==> Within(s, x)
    {
      if Within(s, x) {
        assert Within([s][0], x);
      }
    }
  }

  lemma CoveredSplit(spans: seq<Span>, i: nat)
    requires i < |spans|
    ensures forall x :: Covered(spans, x) <==>
                        Covered(spans[..i], x) || Within(spans[i], x) || Covered(spans[i + 1..], x)
  {
    assert spans == spans[..i] + ([spans[i]] + spans[i + 1..]);
    CoveredConcat(spans[..i], [spans[i]] + spans[i + 1..]);
    CoveredConcat([spans[i]], spans[i + 1..]);
    CoveredSingle(spans[i]);
  }

  /** In one of the spans or in `[x1, x2)`. */
  predicate CoveredWith(spans: seq<Span>, x1: int, x2: int, x: int) {
    Covered(spans, x) || x1 <= x < x2
  }

  lemma InsertSpanGapped(left: seq<Span>, x1: int, x2: int, right: seq<Span>)
    requires Gapped(left + right) && x1 < x2
    requires left != [] ==> left[|left| - 1].end < x1
    requires right != [] ==> x2 < right[0].start
    ensures Gapped(left + ([Span(x1, x2)] + right))
  {
    assert (left + right)[..|left|] == left && (left + right)[|left|..] == right;
    GappedConcat([Span(x1, x2)], right);
    GappedConcat(left, [Span(x1, x2)] + right);
  }

  /** Inserting `[x1, x2)` between two parts of a span list. */
  lemma InsertSpan(left: seq<Span>, x1: int, x2: int, right: seq<Span>)
    ensures forall x :: Covered(left + ([Span(x1, x2)] + right), x) <==> CoveredWith(left + right, x1, x2, x)
  {
    CoveredConcat(left, [Span(x1, x2)] + right);
    CoveredConcat([Span(x1, x2)], right);
    CoveredConcat(left, right);
    CoveredSingle(Span(x1, x2));
  }

  /** Absorbing the span at `i`, which `[x1, x2)` touches, into `[x1, x2)`. */
  lemma MergeSpan(spans: seq<Span>, i: nat, x1: int, x2: int)
    requires Gapped(spans) && i < |spans| && x1 <= spans[i].end && spans[i].start <= x2
    ensures Gapped(spans[..i] + spans[i + 1..])
    ensures forall x :: CoveredWith(spans, x1, x2, x) <==>
                        CoveredWith(spans[..i] + spans[i + 1..], Min(x1, spans[i].start), Max(x2, spans[i].end), x)
  {
    GappedConcat(spans[..i], spans[i + 1..]);
    CoveredSplit(spans, i);
    CoveredConcat(spans[..i], spans[i + 1..]);
  }

  function Min(a: int, b: int): int {
    if a < b then a else b
  }

  function Max(a: int, b: int): int {
    if a < b then b else a
  }

  /** While `initial` is scanned for `[from, to)`: what is merged so far is `[x1, x2)`, it lies left of
      the spans from `i` on, and nothing is lost. */
  ghost predicate Merging(initial: seq<Span>, from: int, to: int, spans: seq<Span>, i: nat, x1: int, x2: int) {
    && i <= |spans|
    && Gapped(spans) && x1 < x2
    && (i < |spans| ==> x2 < spans[i].start)
    && (forall x :: CoveredWith(initial, from, to, x) <==> CoveredWith(spans, x1, x2, x))
  }

  lemma KeepMerging(initial: seq<Span>, from: int, to: int, spans: seq<Span>, i: nat, x1: int, x2: int)
    requires i < |spans| && Merging(initial, from, to, spans, i + 1, x1, x2)
    requires x1 <= spans[i].end && spans[i].start <= x2
    ensures Merging(initial, from, to, spans[..i] + spans[i + 1..], i, Min(x1, spans[i].start), Max(x2, spans[i].end))
  {
    MergeSpan(spans, i, x1, x2);
  }

  lemma FinishMerging(initial: seq<Span>, from: int, to: int, spans: seq<Span>, i: nat, x1: int, x2: int)
    requires Merging(initial, from, to, spans, i, x1, x2)
    requires i > 0 ==> spans[i - 1].end < x1
    ensures var after := spans[..i] + ([Span(x1, x2)] + spans[i..]);
            Gapped(after) && forall x :: Covered(after, x) <==> CoveredWith(initial, from, to, x)
  {
    assert spans[..i] + spans[i..] == spans;
    InsertSpanGapped(spans[..i], x1, x2, spans[i..]);
    InsertSpan(spans[..i], x1, x2, spans[i..]);
  }

  /** Merges the span `[from, to)` into a sorted span list, scanning it from the right. */
  method AddSpan(initial: seq<Span>, from: int, to: int) returns (spans: seq<Span>)
    requires Gapped(initial) && from < to
    ensures Gapped(spans)
    ensures forall x :: Covered(spans, x) <==> CoveredWith(initial, from, to, x)
  {
    spans := initial;
    var x1, x2 := from, to;
    var i := |spans|;
    while i > 0
      invariant 0 <= i && Merging(initial, from, to, spans, i, x1, x2)
    {
      var s := spans[i - 1];
      if s.end < x1 {
        break;
      }
      i := i - 1;
      if s.start <= x2 {
        KeepMerging(initial, from, to, spans, i, x1, x2);
        spans := spans[..i] + spans[i + 1..];
        x1, x2 := Min(x1, s.start), Max(x2, s.end);
      }
    }
    FinishMerging(initial, from, to, spans, i, x1, x2);
    spans := spans[..i] + ([Span(x1, x2)] + spans[i..]);
  }

  /** What is left of `s` after cutting out `[x1, x2)`. */
  function Remainder(s: Span, x1: int, x2: int): seq<Span> {
    (if s.start < x1 then [Span(s.start, x1)] else []) + (if x2 < s.end then [Span(x2, s.end)] else [])
  }

  lemma RemainderCovers(s: Span, x1: int, x2: int)
    requires x1 < x2 && x1 < s.end && s.start < x2
    ensures forall x :: Covered(Remainder(s, x1, x2), x) <==> Within(s, x) && !(x1 <= x < x2)
  {
    CoveredConcat(if s.start < x1 then [Span(s.start, x1)] else [], if x2 < s.end then [Span(x2, s.end)] else []);
    CoveredSingle(Span(s.start, x1));
    CoveredSingle(Span(x2, s.end));
  }

  predicate Apart(s: Span, x1: int, x2: int) {
    s.end <= x1 || x2 <= s.start
  }

  lemma CutSpanGapped(spans: seq<Span>, i: nat, x1: int, x2: int)
    requires Gapped(spans) && i < |spans| && x1 < x2 && !Apart(spans[i], x1, x2)
    ensures Gapped(spans[..i] + (Remainder(spans[i], x1, x2) + spans[i + 1..]))
  {
    var rest := Remainder(spans[i], x1, x2);
    GappedConcat(rest, spans[i + 1..]);
    GappedConcat(spans[..i], rest + spans[i + 1..]);
  }

  /** Cutting `[x1, x2)` out of the span at `i`, which it overlaps. */
  lemma CutSpan(spans: seq<Span>, i: nat, x1: int, x2: int)
    requires Gapped(spans) && i < |spans| && x1 < x2 && !Apart(spans[i], x1, x2)
    ensures var after := spans[..i] + (Remainder(spans[i], x1, x2) + spans[i + 1..]);
            forall x :: Covered(after, x) <==> Covered(spans, x) && (Within(spans[i], x) ==> !(x1 <= x < x2))
  {
    var rest := Remainder(spans[i], x1, x2);
    CoveredSplit(spans, i);
    RemainderCovers(spans[i], x1, x2);
    CoveredConcat(rest, spans[i + 1..]);
    CoveredConcat(spans[..i], rest + spans[i + 1..]);
    forall x | Within(spans[i], x)
      ensures !Covered(spans[..i], x) && !Covered(spans[i + 1..], x)
    {
      var right := spans[i + 1..];
      assert forall k :: 0 <= k < |right| ==> right[k] == spans[i + 1 + k];
    }
  }

  /** Cuts the span `[x1, x2)` out of a sorted span list, scanning it from the right. */
  method SubtractSpan(initial: seq<Span>, x1: int, x2: int) returns (spans: seq<Span>)
    requires Gapped(initial) && x1 < x2
    ensures Gapped(spans)
    ensures forall x :: Covered(spans, x) <==> Covered(initial, x) && !(x1 <= x < x2)
  {
    spans := initial;
    var i := |spans|;
    while i > 0
      invariant 0 <= i <= |spans| && i <= |initial| && spans[..i] == initial[..i]
      invariant Gapped(spans)
      invariant forall j :: i <= j < |spans| ==> Apart(spans[j], x1, x2)
      invariant forall x :: !(x1 <= x < x2) ==> (Covered(spans, x) <==> Covered(initial, x))
      invariant forall x :: Covered(spans, x) ==> Covered(initial, x)
    {
      i := i - 1;
      var s := spans[i];
      if s.end <= x1 {
        return;
      }
      if x2 <= s.start {
        continue;
      }
      CutSpanGapped(spans, i, x1, x2);
      CutSpan(spans, i, x1, x2);
      spans := spans[..i] + (Remainder(s, x1, x2) + spans[i + 1..]);
    }
  }

  // ----- Bands

  predicate Increasing(ys: seq<int>) {
    forall i, j :: 0 <= i < j < |ys| ==> ys[i] < ys[j]
  }

  predicate Lists(ys: seq<int>, y: int) {
    exists i :: 0 <= i < |ys| && ys[i] == y
  }

  /** `BTreeSet::insert` on the sorted elements. */
  function InsertEdge(ys: seq<int>, y: int): seq<int> {
    if ys == [] || y < ys[0] then [y] + ys
    else if y == ys[0] then ys
    else [ys[0]] + InsertEdge(ys[1..], y)
  }

  lemma ListsConcat(a: seq<int>, b: seq<int>, v: int)
    ensures Lists(a + b, v) <==> Lists(a, v) || Lists(b, v)
  {
    if i :| 0 <= i < |a| && a[i] == v {
      assert (a + b)[i] == v;
    }
    if i :| 0 <= i < |b| && b[i] == v {
      assert (a + b)[|a| + i] == v;
    }
  }

  lemma {:induction false} InsertEdgeLists(ys: seq<int>, y: int, v: int)
    ensures Lists(InsertEdge(ys, y), v) <==> Lists(ys, v) || v == y
  {
    assert [y][0] == y;
    if ys == [] || y < ys[0] {
      ListsConcat([y], ys, v);
    } else if y != ys[0] {
      InsertEdgeLists(ys[1..], y, v);
      ListsConcat([ys[0]], InsertEdge(ys[1..], y), v);
      ListsConcat([ys[0]], ys[1..], v);
      assert [ys[0]] + ys[1..] == ys;
    }
  }

  lemma {:induction false} InsertEdgeIncreases(ys: seq<int>, y: int)
    requires Increasing(ys)
    ensures var r := InsertEdge(ys, y); Increasing(r) && r != [] && (r[0] == y || (ys != [] && r[0] == ys[0]))
  {
    if ys == [] || y <= ys[0] {
    } else {
      InsertEdgeIncreases(ys[1..], y);
    }
  }

  predicate HasEdges(ys: seq<int>, r: Rect) {
    Lists(ys, r.y) && Lists(ys, r.y + r.h)
  }

  predicate IsEdge(pieces: seq<Piece>, y: int) {
    exists i :: 0 <= i < |pieces| && (pieces[i].rect.y == y || pieces[i].rect.y + pieces[i].rect.h == y)
  }

  lemma IsEdgeNext(pieces: seq<Piece>, k: nat, y: int)
    requires k < |pieces|
    ensures IsEdge(pieces[..k + 1], y) <==>
            IsEdge(pieces[..k], y) || pieces[k].rect.y == y || pieces[k].rect.y + pieces[k].rect.h == y
  {
    assert pieces[..k + 1][k] == pieces[k];
    assert forall i :: 0 <= i < k ==> pieces[..k + 1][i] == pieces[..k][i];
  }

  ghost predicate ListsEdges(ys: seq<int>, pieces: seq<Piece>) {
    Increasing(ys) && forall y :: Lists(ys, y) <==> IsEdge(pieces, y)
  }

  function InsertEdges(ys: seq<int>, r: Rect): seq<int> {
    InsertEdge(InsertEdge(ys, r.y), r.y + r.h)
  }

  lemma InsertEdgesLists(ys: seq<int>, r: Rect, y: int)
    ensures Lists(InsertEdges(ys, r), y) <==> Lists(ys, y) || y == r.y || y == r.y + r.h
  {
    InsertEdgeLists(ys, r.y, y);
    InsertEdgeLists(InsertEdge(ys, r.y), r.y + r.h, y);
  }

  predicate Extends(after: seq<int>, ys: seq<int>, r: Rect, y: int) {
    Lists(after, y) <==> Lists(ys, y) || y == r.y || y == r.y + r.h
  }

  lemma InsertEdgesExtends(ys: seq<int>, r: Rect)
    ensures forall y :: Extends(InsertEdges(ys, r), ys, r, y)
  {
    forall y
      ensures Extends(InsertEdges(ys, r), ys, r, y)
    {
      InsertEdgesLists(ys, r, y);
    }
  }

  lemma NextEdges(ys: seq<int>, after: seq<int>, pieces: seq<Piece>, k: nat)
    requires k < |pieces| && ListsEdges(ys, pieces[..k]) && Increasing(after)
    requires forall y :: Extends(after, ys, pieces[k].rect, y)
    ensures ListsEdges(after, pieces[..k + 1])
  {
    forall y: int
      ensures Lists(after, y) <==> IsEdge(pieces[..k + 1], y)
    {
      assert Extends(after, ys, pieces[k].rect, y);
      IsEdgeNext(pieces, k, y);
    }
  }

  /** Every distinct top and bottom edge and nothing else, in increasing order. */
  method CollectEdges(pieces: seq<Piece>) returns (ys: seq<int>)
    ensures ListsEdges(ys, pieces)
  {
    ys := [];
    for k := 0 to |pieces|
      invariant ListsEdges(ys, pieces[..k])
    {
      var after := InsertEdges(ys, pieces[k].rect);
      InsertEdgeIncreases(ys, pieces[k].rect.y);
      InsertEdgeIncreases(InsertEdge(ys, pieces[k].rect.y), pieces[k].rect.y + pieces[k].rect.h);
      InsertEdgesExtends(ys, pieces[k].rect);
      NextEdges(ys, after, pieces, k);
      ys := after;
    }
    assert pieces[..|pieces|] == pieces;
  }

  lemma EdgesListed(pieces: seq<Piece>, ys: seq<int>)
    requires ListsEdges(ys, pieces)
    ensures pieces != [] ==> ys != []
    ensures forall i :: 0 <= i < |pieces| ==> HasEdges(ys, pieces[i].rect)
  {
    forall i | 0 <= i < |pieces|
      ensures HasEdges(ys, pieces[i].rect)
    {
      assert IsEdge(pieces, pieces[i].rect.y) && IsEdge(pieces, pieces[i].rect.y + pieces[i].rect.h);
    }
    if pieces != [] {
      assert HasEdges(ys, pieces[0].rect);
    }
  }

  /** No edge lies strictly between `lo` and `hi`. */
  predicate FreeBand(pieces: seq<Piece>, lo: int, hi: int) {
    forall i :: 0 <= i < |pieces| ==> Outside(pieces[i].rect, lo, hi)
  }

  predicate Outside(r: Rect, lo: int, hi: int) {
    !(lo < r.y < hi) && !(lo < r.y + r.h < hi)
  }

  /** All rows of a band have the same pixels. */
  lemma {:induction false} BandUniform(pieces: seq<Piece>, lo: int, hi: int, x: int, y: int)
    requires FreeBand(pieces, lo, hi) && lo <= y < hi
    ensures Member(pieces, x, y) <==> Member(pieces, x, lo)
  {
    if pieces == [] {
    } else {
      var n := |pieces| - 1;
      assert Outside(pieces[n].rect, lo, hi);
      BandUniform(pieces[..n], lo, hi, x, y);
    }
  }

  /** The region has no pixel in a row that lies before or after all edges. */
  lemma {:induction false} NoPixelBeyond(pieces: seq<Piece>, x: int, y: int)
    requires forall i :: 0 <= i < |pieces| ==> !(pieces[i].rect.y <= y < pieces[i].rect.y + pieces[i].rect.h)
    ensures !Member(pieces, x, y)
  {
    if pieces == [] {
    } else {
      NoPixelBeyond(pieces[..|pieces| - 1], x, y);
    }
  }

  lemma NoneBetween(ys: seq<int>, k: nat, y: int)
    requires Increasing(ys) && 0 < k < |ys| && Lists(ys, y)
    ensures !(ys[k - 1] < y < ys[k])
  {
    var a :| 0 <= a < |ys| && ys[a] == y;
    assert a < k - 1 || a == k - 1 || a == k || k < a;
  }

  /** Consecutive edges enclose a band without edges. */
  lemma EdgesFreeBand(pieces: seq<Piece>, ys: seq<int>, k: nat)
    requires Increasing(ys) && 0 < k < |ys|
    requires forall i :: 0 <= i < |pieces| ==> HasEdges(ys, pieces[i].rect)
    ensures FreeBand(pieces, ys[k - 1], ys[k])
  {
    forall i | 0 <= i < |pieces|
      ensures Outside(pieces[i].rect, ys[k - 1], ys[k])
    {
      var r := pieces[i].rect;
      assert HasEdges(ys, r);
      NoneBetween(ys, k, r.y);
      NoneBetween(ys, k, r.y + r.h);
    }
  }

  lemma WithinEnds(ys: seq<int>, y: int)
    requires Increasing(ys) && Lists(ys, y)
    ensures ys[0] <= y <= ys[|ys| - 1]
  {
    var a :| 0 <= a < |ys| && ys[a] == y;
    assert a == 0 || 0 < a;
    assert a == |ys| - 1 || a < |ys| - 1;
  }

  /** The region has no pixel in a row before the first edge or after the last one. */
  lemma NoPixelBeyondEdges(pieces: seq<Piece>, ys: seq<int>, x: int, y: int)
    requires Increasing(ys) && ys != []
    requires forall i :: 0 <= i < |pieces| ==> HasEdges(ys, pieces[i].rect)
    requires y < ys[0] || ys[|ys| - 1] <= y
    ensures !Member(pieces, x, y)
  {
    forall i | 0 <= i < |pieces|
      ensures !(pieces[i].rect.y <= y < pieces[i].rect.y + pieces[i].rect.h)
    {
      var r := pieces[i].rect;
      assert HasEdges(ys, r);
      WithinEnds(ys, r.y);
      WithinEnds(ys, r.y + r.h);
    }
    NoPixelBeyond(pieces, x, y);
  }

  /** The spans of the band `[lo, hi)`: exactly the pixels of its rows. */
  method BandSpans(pieces: seq<Piece>, lo: int, hi: int) returns (spans: seq<Span>)
    requires WellSized(pieces) && lo < hi && FreeBand(pieces, lo, hi)
    ensures Gapped(spans)
    ensures forall x :: Covered(spans, x) <==> Member(pieces, x, lo)
  {
    spans := [];
    for k := 0 to |pieces|
      invariant Gapped(spans)
      invariant forall x :: Covered(spans, x) <==> Member(pieces[..k], x, lo)
    {
      assert pieces[..k + 1][..k] == pieces[..k];
      var r := pieces[k].rect;
      assert Outside(r, lo, hi);
      if hi <= r.y || r.y + r.h <= lo {
        continue;
      }
      var x1, x2 := r.x, r.x + r.w;
      if x1 == x2 {
        continue;
      }
      match pieces[k].kind
      case Add => spans := AddSpan(spans, x1, x2);
      case Subtract => spans := SubtractSpan(spans, x1, x2);
    }
    assert pieces[..|pieces|] == pieces;
  }

  /** The rectangles of one band. */
  function BandRects(spans: seq<Span>, lo: int, hi: int): (r: seq<Rect>)
    ensures |r| == |spans|
    ensures forall i :: 0 <= i < |r| ==> r[i] == Rect(spans[i].start, lo, spans[i].end - spans[i].start, hi - lo)
  {
    seq(|spans|, i requires 0 <= i < |spans| => Rect(spans[i].start, lo, spans[i].end - spans[i].start, hi - lo))
  }

  /** The band's rectangles cover exactly the band's part of the region. */
  lemma BandRectsCover(pieces: seq<Piece>, spans: seq<Span>, lo: int, hi: int)
    requires lo < hi && FreeBand(pieces, lo, hi)
    requires forall x :: Covered(spans, x) <==> Member(pieces, x, lo)
    ensures forall x, y :: Covers(BandRects(spans, lo, hi), x, y) <==> lo <= y < hi && Member(pieces, x, y)
  {
    var rects := BandRects(spans, lo, hi);
    forall x, y
      ensures Covers(rects, x, y) <==> lo <= y < hi && Member(pieces, x, y)
    {
      if lo <= y < hi {
        BandUniform(pieces, lo, hi, x, y);
        if Covered(spans, x) {
          var i :| 0 <= i < |spans| && Within(spans[i], x);
          assert Contains(rects[i], x, y);
        }
        if Covers(rects, x, y) {
          var i :| 0 <= i < |rects| && Contains(rects[i], x, y);
          assert Within(spans[i], x);
        }
      }
    }
  }

  lemma CoversConcat(a: seq<Rect>, b: seq<Rect>)
    ensures forall x, y :: Covers(a + b, x, y) <==> Covers(a, x, y) || Covers(b, x, y)
  {
    forall x, y
      ensures Covers(a + b, x, y) <==> Covers(a, x, y) || Covers(b, x, y)
    {
      if Covers(a, x, y) {
        var i :| 0 <= i < |a| && Contains(a[i], x, y);
        assert Contains((a + b)[i], x, y);
      }
      if Covers(b, x, y) {
        var i :| 0 <= i < |b| && Contains(b[i], x, y);
        assert Contains((a + b)[|a| + i], x, y);
      }
    }
  }

  lemma AppendBand(output: seq<Rect>, spans: seq<Span>, lo: int, hi: int)
    requires Banded(output) && NonEmpty(output) && Gapped(spans) && lo < hi
    requires forall i :: 0 <= i < |output| ==> output[i].y + output[i].h <= lo
    ensures var after := output + BandRects(spans, lo, hi);
            && Banded(after) && NonEmpty(after)
            && (forall i :: 0 <= i < |after| ==> after[i].y + after[i].h <= hi)
            && (forall x, y :: Covers(after, x, y) <==> Covers(output, x, y) || Covers(BandRects(spans, lo, hi), x, y))
  {
    CoversConcat(output, BandRects(spans, lo, hi));
  }

  /** Rectangles listed band by band with gaps inside a band cannot overlap. */
  lemma BandedIsDisjoint(rects: seq<Rect>)
    requires Banded(rects)
    ensures Disjoint(rects)
  {}

  /** The loop over bands, from the first edge to the last. */
  method Bands(pieces: seq<Piece>, ys: seq<int>) returns (output: seq<Rect>)
    requires WellSized(pieces) && ListsEdges(ys, pieces) && ys != []
    ensures IsDecomposition(pieces, output)
  {
    output := [];
    EdgesListed(pieces, ys);
    var lo := ys[0];
    forall x, y | y < lo || ys[|ys| - 1] <= y
      ensures !Member(pieces, x, y)
    {
      NoPixelBeyondEdges(pieces, ys, x, y);
    }
    for k := 1 to |ys|
      invariant lo == ys[k - 1]
      invariant Banded(output) && NonEmpty(output)
      invariant forall i :: 0 <= i < |output| ==> output[i].y + output[i].h <= lo
      invariant forall x, y :: Covers(output, x, y) <==> y < lo && Member(pieces, x, y)
    {
      var hi := ys[k];
      EdgesFreeBand(pieces, ys, k);
      var spans := BandSpans(pieces, lo, hi);
      BandRectsCover(pieces, spans, lo, hi);
      AppendBand(output, spans, lo, hi);
      output := output + BandRects(spans, lo, hi);
      lo := hi;
    }
    BandedIsDisjoint(output);
  }

  /** Splits a region into non-overlapping rectangles. */
  method Decompose(pieces: seq<Piece>) returns (output: seq<Rect>)
    requires WellSized(pieces)
    ensures IsDecomposition(pieces, output)
  {
    var ys := CollectEdges(pieces);
    EdgesListed(pieces, ys);
    if ys == [] {
      return [];
    }
    output := Bands(pieces, ys);
  }
}
