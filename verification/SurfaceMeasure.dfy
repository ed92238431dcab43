/** Measuring how far a swipe moved the surface, by comparing two screenshots. */
module SurfaceMeasure {
  import opened Bytes
  import opened Numbers
  import opened Results
  import opened SurfacePixels
  import opened SurfaceStitch

  /** Two screenshots of one surface, before and after a swipe, at the same size. */
  datatype Move = Move(previous: Image, current: Image, previousSurface: Rect, currentSurface: Rect)

  predicate MoveFits(m: Move) {
    && Valid(m.previous) && Valid(m.current)
    && Inside(m.previousSurface, m.previous) && Inside(m.currentSurface, m.current)
    && 2 <= m.previousSurface.width == m.currentSurface.width
    && m.previousSurface.height == m.currentSurface.height
  }

  // ----- the sampled differences -----

  /** Mean channel difference of a pixel and the pixel it would come from after moving `delta` rows. */
  function PixelDifference(m: Move, delta: nat, x: nat, y: nat): (d: real)
    requires MoveFits(m) && x < m.previousSurface.width && y + delta < m.previousSurface.height
    ensures d >= 0.0
  {
    var px, py := m.previousSurface.x + x, m.previousSurface.y + y + delta;
    var cx, cy := m.currentSurface.x + x, m.currentSurface.y + y;
    (Distance(Channel(m.previous, px, py, 0), Channel(m.current, cx, cy, 0))
     + Distance(Channel(m.previous, px, py, 1), Channel(m.current, cx, cy, 1))
     + Distance(Channel(m.previous, px, py, 2), Channel(m.current, cx, cy, 2))) as real / 3.0
  }

  function RowDifferences(m: Move, delta: nat, y: nat, x: nat, right: nat): (ds: seq<real>)
    requires MoveFits(m) && right <= m.previousSurface.width && y + delta < m.previousSurface.height
    ensures x < right ==> ds != []
    decreases right - x
  {
    if x >= right then [] else [PixelDifference(m, delta, x, y)] + RowDifferences(m, delta, y, x + 4, right)
  }

  /** The differences of every fourth pixel of every fourth row from `y`. */
  function Differences(m: Move, delta: nat, y: nat): (ds: seq<real>)
    requires MoveFits(m) && delta <= m.previousSurface.height
    ensures y + delta < m.previousSurface.height ==> ds != []
    decreases m.previousSurface.height - delta - y
  {
    var w := m.previousSurface.width;
    SamplesInside(w);
    if y + delta >= m.previousSurface.height then []
    else RowDifferences(m, delta, y, SampleLeft(w), SampleRight(w)) + Differences(m, delta, y + 4)
  }

  function FirstSampledRow(overlap: nat): nat {
    overlap * 8 / 100
  }

  /** At least one row is sampled, so the differences are never empty. */
  lemma SomeRowSampled(overlap: nat)
    requires overlap > 0
    ensures FirstSampledRow(overlap) < overlap
  {
  }

  // ----- means -----

  function Sum(s: seq<real>): real {
    if s == [] then 0.0 else Sum(s[..|s| - 1]) + s[|s| - 1]
  }

  /** How many of `n` differences are kept: all of them, or the smallest four fifths. */
  function RetainedCount(n: nat, trimOutliers: bool): (k: nat)
    ensures n > 0 ==> 0 < k <= n
  {
    if !trimOutliers then n else if (n * 4 + 4) / 5 < 1 then 1 else (n * 4 + 4) / 5
  }

  function Retained(ds: seq<real>, trimOutliers: bool): (kept: seq<real>)
    requires ds != []
    ensures kept != []
  {
    SortValues(ds)[..RetainedCount(|ds|, trimOutliers)]
  }

  /** The mean difference of the pages when one is moved `delta` rows. */
  function MeanDifference(m: Move, delta: nat, trimOutliers: bool): real
    requires MoveFits(m) && delta < m.previousSurface.height
  {
    var ds := Differences(m, delta, FirstSampledRow(m.previousSurface.height - delta));
    var kept := Retained(ds, trimOutliers);
    Sum(kept) / |kept| as real
  }

  lemma {:induction false} SumBounds(s: seq<real>)
    requires forall d :: d in s ==> d >= 0.0
    ensures Sum(s) >= 0.0
    ensures (forall d :: d in s ==> d == 0.0) ==> Sum(s) == 0.0
  {
    if s != [] {
      var init := s[..|s| - 1];
      forall d | d in init ensures d in s {
        Unsnoc(s);
      }
      Unsnoc(s);
      assert s[|s| - 1] in s;
      SumBounds(init);
    }
  }

  /** Trimming keeps the smallest differences: none that is dropped is smaller than one that is kept. */
  lemma RetainedAreLeast(ds: seq<real>, trimOutliers: bool)
    requires ds != []
    ensures var all, k := SortValues(ds), RetainedCount(|ds|, trimOutliers);
            && Retained(ds, trimOutliers) == all[..k] && multiset(all) == multiset(ds)
            && (forall i, j :: 0 <= i < k <= j < |ds| ==> all[i] <= all[j])
            && (!trimOutliers ==> k == |ds|)
  {
    hide SortValues;
    SortValuesIs(ds);
  }

  /** Only differences that were sampled are kept. */
  lemma RetainedFrom(ds: seq<real>, trimOutliers: bool)
    requires ds != []
    ensures forall d :: d in Retained(ds, trimOutliers) ==> d in ds
  {
    hide SortValues;
    SortKeeps(ds);
    forall d | d in Retained(ds, trimOutliers) ensures d in SortValues(ds) {
    }
  }

  lemma {:induction false} RowNotNegative(m: Move, delta: nat, y: nat, x: nat, right: nat)
    requires MoveFits(m) && right <= m.previousSurface.width && y + delta < m.previousSurface.height
    ensures forall d :: d in RowDifferences(m, delta, y, x, right) ==> d >= 0.0
    decreases right - x
  {
    hide PixelDifference, MoveFits;
    if x < right {
      RowNotNegative(m, delta, y, x + 4, right);
    }
  }

  lemma {:induction false} NotNegative(m: Move, delta: nat, y: nat)
    requires MoveFits(m) && delta < m.previousSurface.height
    ensures forall d :: d in Differences(m, delta, y) ==> d >= 0.0
    decreases m.previousSurface.height - delta - y
  {
    hide RowDifferences;
    var w := m.previousSurface.width;
    SamplesInside(w);
    if y + delta < m.previousSurface.height {
      RowNotNegative(m, delta, y, SampleLeft(w), SampleRight(w));
      NotNegative(m, delta, y + 4);
    }
  }

  lemma MeanNotNegative(m: Move, delta: nat, trimOutliers: bool)
    requires MoveFits(m) && delta < m.previousSurface.height
    ensures MeanDifference(m, delta, trimOutliers) >= 0.0
  {
    hide Retained, Differences, MoveFits;
    var ds := Differences(m, delta, FirstSampledRow(m.previousSurface.height - delta));
    NotNegative(m, delta, FirstSampledRow(m.previousSurface.height - delta));
    RetainedFrom(ds, trimOutliers);
    SumBounds(Retained(ds, trimOutliers));
  }

  /** Row `k` of the new page is row `k + delta` of the old one. */
  ghost predicate RowMoved(m: Move, delta: nat, k: nat)
    requires MoveFits(m) && k + delta < m.previousSurface.height
  {
    SameRow(m.previous, m.previousSurface.x, m.previousSurface.y + delta,
            m.current, m.currentSurface.x, m.currentSurface.y, m.previousSurface.width, k)
  }

  /** The new page shows the old one `delta` rows further down. */
  ghost predicate MovedBy(m: Move, delta: nat)
    requires MoveFits(m) && delta < m.previousSurface.height
  {
    forall k: nat :: k < m.previousSurface.height - delta ==> RowMoved(m, delta, k)
  }

  lemma MovedPixel(m: Move, delta: nat, x: nat, y: nat)
    requires MoveFits(m) && x < m.previousSurface.width && y + delta < m.previousSurface.height && MovedBy(m, delta)
    ensures PixelDifference(m, delta, x, y) == 0.0
  {
    hide Row, Channel, Valid;
    var w := m.previousSurface.width;
    var p, c := m.previousSurface, m.currentSurface;
    assert RowMoved(m, delta, y);
    ChannelInRow(m.previous, p.x, p.y + delta + y, w, x, 0);
    ChannelInRow(m.current, c.x, c.y + y, w, x, 0);
    ChannelInRow(m.previous, p.x, p.y + delta + y, w, x, 1);
    ChannelInRow(m.current, c.x, c.y + y, w, x, 1);
    ChannelInRow(m.previous, p.x, p.y + delta + y, w, x, 2);
    ChannelInRow(m.current, c.x, c.y + y, w, x, 2);
  }

  lemma {:induction false} MovedRow(m: Move, delta: nat, y: nat, x: nat, right: nat)
    requires MoveFits(m) && right <= m.previousSurface.width && y + delta < m.previousSurface.height &&
             MovedBy(m, delta)
    ensures forall d :: d in RowDifferences(m, delta, y, x, right) ==> d == 0.0
    decreases right - x
  {
    hide PixelDifference, MovedBy;
    if x < right {
      MovedPixel(m, delta, x, y);
      MovedRow(m, delta, y, x + 4, right);
    }
  }

  lemma {:induction false} MovedRows(m: Move, delta: nat, y: nat)
    requires MoveFits(m) && delta < m.previousSurface.height && MovedBy(m, delta)
    ensures forall d :: d in Differences(m, delta, y) ==> d == 0.0
    decreases m.previousSurface.height - delta - y
  {
    hide PixelDifference, MovedBy, RowDifferences;
    var w := m.previousSurface.width;
    SamplesInside(w);
    if y + delta < m.previousSurface.height {
      MovedRow(m, delta, y, SampleLeft(w), SampleRight(w));
      MovedRows(m, delta, y + 4);
    }
  }

  /** At the true distance the pages match exactly. */
  lemma TrueDistanceMatches(m: Move, delta: nat, trimOutliers: bool)
    requires MoveFits(m) && delta < m.previousSurface.height && MovedBy(m, delta)
    ensures MeanDifference(m, delta, trimOutliers) == 0.0
  {
    hide Retained, Differences, MovedBy, MoveFits;
    var y := FirstSampledRow(m.previousSurface.height - delta);
    MovedRows(m, delta, y);
    RetainedFrom(Differences(m, delta, y), trimOutliers);
    SumBounds(Retained(Differences(m, delta, y), trimOutliers));
  }

  // ----- reading the pixels -----

  method ReadPixelDifference(m: Move, delta: nat, x: nat, y: nat) returns (d: real)
    requires MoveFits(m) && x < m.previousSurface.width && y + delta < m.previousSurface.height
    ensures d == PixelDifference(m, delta, x, y)
  {
    var px, py := m.previousSurface.x + x, m.previousSurface.y + y + delta;
    var cx, cy := m.currentSurface.x + x, m.currentSurface.y + y;
    var previousOffset := (py * m.previous.width + px) * 4;
    var currentOffset := (cy * m.current.width + cx) * 4;
    RowFits(m.previous, px, py, 1);
    RowFits(m.current, cx, cy, 1);
    d := (Distance(m.previous.data[previousOffset], m.current.data[currentOffset])
          + Distance(m.previous.data[previousOffset + 1], m.current.data[currentOffset + 1])
          + Distance(m.previous.data[previousOffset + 2], m.current.data[currentOffset + 2])) as real / 3.0;
  }

  method SampleRow(m: Move, delta: nat, y: nat, left: nat, right: nat) returns (row: seq<real>)
    requires MoveFits(m) && right <= m.previousSurface.width && y + delta < m.previousSurface.height
    ensures row == RowDifferences(m, delta, y, left, right)
  {
    hide PixelDifference, MoveFits;
    row := [];
    var x := left;
    while x < right
      invariant row + RowDifferences(m, delta, y, x, right) == RowDifferences(m, delta, y, left, right)
    {
      var d := ReadPixelDifference(m, delta, x, y);
      Rejoin(row, [d], RowDifferences(m, delta, y, x + 4, right));
      row := row + [d];
      x := x + 4;
    }
  }

  method SampledSurfaceDifference(m: Move, delta: nat, trimOutliers: bool) returns (mean: real)
    requires MoveFits(m) && delta < m.previousSurface.height
    ensures mean == MeanDifference(m, delta, trimOutliers)
  {
    hide PixelDifference, RowDifferences, MoveFits, SortValues, Sum, SampleLeft, SampleRight, FirstSampledRow,
      RetainedCount;
    var overlap := m.previousSurface.height - delta;
    var differences: seq<real> := [];
    var sampleLeft, sampleRight := SampleLeft(m.previousSurface.width), SampleRight(m.previousSurface.width);
    MoveSize(m);
    SamplesInside(m.previousSurface.width);
    SomeRowSampled(overlap);
    ghost var all := Differences(m, delta, FirstSampledRow(overlap));
    var y := FirstSampledRow(overlap);
    while y < overlap
      invariant differences + Differences(m, delta, y) == all
    {
      var row := SampleRow(m, delta, y, sampleLeft, sampleRight);
      Rejoin(differences, row, Differences(m, delta, y + 4));
      differences := differences + row;
      y := y + 4;
    }
    assert differences == all;
    differences := SortValues(differences);
    var retained := differences[..RetainedCount(|differences|, trimOutliers)];
    mean := Sum(retained) / |retained| as real;
  }

  // ----- the measurement -----

  function MinimumOverlap(height: nat): nat {
    if height * 12 / 100 < 4 then 4 else height * 12 / 100
  }

  function DistancePenalty(delta: int, requestedRows: int): real {
    if requestedRows > 0 then Off(delta, requestedRows) as real / requestedRows as real * 8.0 else 0.0
  }

  function MoveScore(m: Move, requestedRows: int, delta: int): real
    requires MoveFits(m) && 0 <= delta < m.previousSurface.height
  {
    MeanDifference(m, delta, true) + DistancePenalty(delta, requestedRows)
  }

  /** `best` is the first distance with the least score among `1 .. end - 1`. */
  ghost predicate BestDistance(m: Move, requestedRows: int, best: int, end: int)
    requires MoveFits(m) && end <= m.previousSurface.height
  {
    && 1 <= best < end
    && (forall k :: 1 <= k < best ==> MoveScore(m, requestedRows, best) < MoveScore(m, requestedRows, k))
    && (forall k :: best <= k < end ==> MoveScore(m, requestedRows, best) <= MoveScore(m, requestedRows, k))
  }

  /** One past the largest distance that leaves enough overlap. */
  function DistanceEnd(m: Move): int
    requires MoveFits(m)
  {
    var h := m.previousSurface.height;
    if h < MinimumOverlap(h) then 0 else h - MinimumOverlap(h) + 1
  }

  lemma KeepBestDistance(m: Move, requestedRows: int, best: int, delta: int)
    requires MoveFits(m) && delta < m.previousSurface.height && BestDistance(m, requestedRows, best, delta)
    ensures if MoveScore(m, requestedRows, delta) < MoveScore(m, requestedRows, best)
            then BestDistance(m, requestedRows, delta, delta + 1)
            else BestDistance(m, requestedRows, best, delta + 1)
  {
    hide MoveScore;
  }

  /**
   No movement is reported exactly when the pages still match in place. Otherwise the answer is the
   first distance with the least score, and the measurement fails when even there the pages differ
   too much, or no distance leaves enough overlap.
   */
  method MeasureRevealedRows(m: Move, requestedRows: int) returns (r: Result<nat>)
    requires MoveFits(m)
    ensures r == Ok(0) <==> MeanDifference(m, 0, false) < 10.0
    ensures r.Ok? && r.value > 0 ==>
              && BestDistance(m, requestedRows, r.value, DistanceEnd(m))
              && MeanDifference(m, r.value, true) <= 24.0
    ensures r.Err? ==>
              && r.error == NoOverlapProof
              && forall best :: BestDistance(m, requestedRows, best, DistanceEnd(m)) ==>
                   MeanDifference(m, best, true) > 24.0
  {
    hide MeanDifference, MoveFits, BestDistance;
    var height: int := m.previousSurface.height;
    var minimumOverlap := MinimumOverlap(height);
    MoveSize(m);
    var stationaryDifference := SampledSurfaceDifference(m, 0, false);
    if stationaryDifference < 10.0 {
      return Ok(0);
    }
    var bestDelta, bestScore, bestDifference := 0, Infinite, Infinite;
    var delta := 1;
    while delta <= height - minimumOverlap
      invariant 1 <= delta && (delta <= height - minimumOverlap + 1 || delta == 1)
      invariant bestScore.Infinite? ==> delta == 1 && bestDelta == 0
      invariant bestScore.Finite? ==>
                  && 1 <= bestDelta < delta && BestDistance(m, requestedRows, bestDelta, delta)
                  && bestScore.value == MoveScore(m, requestedRows, bestDelta)
                  && bestDifference == Finite(MeanDifference(m, bestDelta, true))
    {
      var meanDifference := SampledSurfaceDifference(m, delta, true);
      var distancePenalty := DistancePenalty(delta, requestedRows);
      var score := Finite(meanDifference + distancePenalty);
      if bestScore.Finite? {
        KeepBestDistance(m, requestedRows, bestDelta, delta);
      } else {
        FirstDistance(m, requestedRows);
      }
      if score.LessThan(bestScore) {
        bestScore, bestDifference, bestDelta := score, Finite(meanDifference), delta;
      }
      delta := delta + 1;
    }
    if bestDelta == 0 || Finite(24.0).LessThan(bestDifference) {
      OneBestDistance(m, requestedRows, bestDelta);
      return Err(NoOverlapProof);
    }
    r := Ok(bestDelta);
  }

  lemma MoveSize(m: Move)
    requires MoveFits(m)
    ensures m.previousSurface.height > 0 && m.previousSurface.width >= 2
  {
  }

  lemma FirstDistance(m: Move, requestedRows: int)
    requires MoveFits(m) && 1 < m.previousSurface.height
    ensures BestDistance(m, requestedRows, 1, 2)
  {
  }

  lemma NoneBetter(m: Move, requestedRows: int, best: int, k: int, end: int)
    requires MoveFits(m) && end <= m.previousSurface.height && BestDistance(m, requestedRows, best, end)
    ensures best <= k < end ==> MoveScore(m, requestedRows, best) <= MoveScore(m, requestedRows, k)
  {
  }

  lemma OneBestDistance(m: Move, requestedRows: int, best: int)
    requires MoveFits(m)
    requires best == 0 ==> DistanceEnd(m) <= 1
    requires best != 0 ==> BestDistance(m, requestedRows, best, DistanceEnd(m))
    ensures forall other :: BestDistance(m, requestedRows, other, DistanceEnd(m)) ==> other == best && best != 0
  {
    hide MoveScore;
    forall other | BestDistance(m, requestedRows, other, DistanceEnd(m)) ensures other == best && best != 0 {
      NoneBetter(m, requestedRows, other, best, DistanceEnd(m));
    }
  }

  /**
   A swipe that moved the surface by exactly the requested rows is measured exactly: the score there
   is zero, and every other distance is penalised.
   */
  lemma ExactMove(m: Move, requestedRows: nat, best: nat)
    requires MoveFits(m) && 1 <= requestedRows < DistanceEnd(m) && MovedBy(m, requestedRows)
    requires BestDistance(m, requestedRows, best, DistanceEnd(m))
    ensures best == requestedRows && MeanDifference(m, best, true) == 0.0
  {
    hide MeanDifference, MovedBy, MoveFits;
    TrueDistanceMatches(m, requestedRows, true);
    MeanNotNegative(m, best, true);
    assert MoveScore(m, requestedRows, requestedRows) == 0.0;
    assert MoveScore(m, requestedRows, best) <= 0.0;
  }

  // ----- moves by other than the requested rows -----

  function Off(delta: int, requestedRows: int): nat {
    if delta < requestedRows then requestedRows - delta else delta - requestedRows
  }

  /** The search prefers `delta` to `rows` unless the pages differ there. */
  predicate Nearer(requestedRows: int, delta: int, rows: int) {
    Off(delta, requestedRows) < Off(rows, requestedRows) ||
      (Off(delta, requestedRows) == Off(rows, requestedRows) && delta < rows)
  }

  /** The pages, moved by `delta` instead of `rows`, differ by more than the nearer distance is worth. */
  ghost predicate Differs(m: Move, requestedRows: int, rows: int, delta: int)
    requires MoveFits(m) && 0 <= delta < m.previousSurface.height
  {
    var gain := DistancePenalty(rows, requestedRows) - DistancePenalty(delta, requestedRows);
    if delta < rows then MeanDifference(m, delta, true) > gain else MeanDifference(m, delta, true) >= gain
  }

  lemma PenaltyOrder(requestedRows: nat, a: nat, b: nat)
    ensures requestedRows > 0 ==>
              && (Off(a, requestedRows) <= Off(b, requestedRows) ==>
                   DistancePenalty(a, requestedRows) <= DistancePenalty(b, requestedRows))
              && (Off(a, requestedRows) < Off(b, requestedRows) ==>
                   DistancePenalty(a, requestedRows) < DistancePenalty(b, requestedRows))
    ensures DistancePenalty(a, requestedRows) >= 0.0
  {
    if requestedRows <= 0 {
      NoPenalty(a);
    } else {
      hide *;
      PenaltyIs(requestedRows, a);
      PenaltyIs(requestedRows, b);
      ScaleOrder(Off(a, requestedRows), Off(b, requestedRows), 8.0 / requestedRows as real);
    }
  }

  function Scaled(x: nat, unit: real): real {
    x as real * unit
  }

  lemma ScaleOrder(x: nat, y: nat, unit: real)
    requires unit > 0.0
    ensures Scaled(x, unit) >= 0.0
    ensures x <= y ==> Scaled(x, unit) <= Scaled(y, unit)
    ensures x < y ==> Scaled(x, unit) < Scaled(y, unit)
  {
    if x < y {
      assert (y as real - x as real) * unit > 0.0;
    }
  }

  lemma PenaltyIs(requestedRows: nat, delta: nat)
    requires requestedRows > 0
    ensures DistancePenalty(delta, requestedRows) == Scaled(Off(delta, requestedRows), 8.0 / requestedRows as real)
  {
    var q := requestedRows as real;
    var x := Off(delta, requestedRows) as real;
    assert x / q * 8.0 == x * (8.0 / q);
  }

  /** A distance that is not nearer, or differs, does not beat the true one. */
  lemma NotBetter(m: Move, requestedRows: nat, rows: nat, delta: nat)
    requires MoveFits(m) && 1 <= rows < m.previousSurface.height && MeanDifference(m, rows, true) == 0.0
    requires 1 <= delta < m.previousSurface.height && delta != rows
    ensures (if delta < rows then MoveScore(m, requestedRows, rows) < MoveScore(m, requestedRows, delta)
             else MoveScore(m, requestedRows, rows) <= MoveScore(m, requestedRows, delta))
            <==> (Nearer(requestedRows, delta, rows) ==> Differs(m, requestedRows, rows, delta))
  {
    hide MeanDifference, DistancePenalty, MoveFits;
    MeanNotNegative(m, delta, true);
    PenaltyOrder(requestedRows, delta, rows);
    PenaltyOrder(requestedRows, rows, delta);
    if requestedRows == 0 {
      NoPenalty(rows);
      NoPenalty(delta);
    }
  }

  lemma NoPenalty(delta: int)
    ensures DistancePenalty(delta, 0) == 0.0
  {
  }

  /** No distance nearer to the request passes for the true one. */
  ghost predicate NoneMistaken(m: Move, requestedRows: nat, rows: nat)
    requires MoveFits(m)
  {
    forall delta: nat :: 1 <= delta < DistanceEnd(m) && Nearer(requestedRows, delta, rows) ==>
        Differs(m, requestedRows, rows, delta)
  }

  lemma EndInside(m: Move)
    requires MoveFits(m)
    ensures DistanceEnd(m) <= m.previousSurface.height
  {
  }

  /**
   A swipe that moved the surface by `rows`, whatever was requested, is measured exactly if and only if
   no distance nearer to the request passes for it.
   */
  lemma MeasuredExactlyIff(m: Move, requestedRows: nat, rows: nat)
    requires MoveFits(m) && 1 <= rows < DistanceEnd(m) && MovedBy(m, rows)
    ensures BestDistance(m, requestedRows, rows, DistanceEnd(m)) <==> NoneMistaken(m, requestedRows, rows)
  {
    hide MeanDifference, MovedBy, MoveFits, MoveScore, Nearer, Differs, DistanceEnd;
    EndInside(m);
    TrueDistanceMatches(m, rows, true);
    forall delta: nat | 1 <= delta < DistanceEnd(m) && delta != rows
      ensures (if delta < rows then MoveScore(m, requestedRows, rows) < MoveScore(m, requestedRows, delta)
               else MoveScore(m, requestedRows, rows) <= MoveScore(m, requestedRows, delta))
              <==> (Nearer(requestedRows, delta, rows) ==> Differs(m, requestedRows, rows, delta))
    {
      NotBetter(m, requestedRows, rows, delta);
    }
    NotNearerItself(requestedRows, rows);
  }

  lemma NotNearerItself(requestedRows: int, rows: int)
    ensures !Nearer(requestedRows, rows, rows)
  {
  }

  /**
   A swipe that fell short of the request, as the last one does, is measured exactly if the pages differ by
   at least 8 times the missing share at every distance nearer to the request.
   */
  lemma ShortMoveMeasured(m: Move, requestedRows: nat, rows: nat)
    requires MoveFits(m) && 1 <= rows < DistanceEnd(m) && MovedBy(m, rows) && rows <= requestedRows
    requires forall delta: nat :: rows < delta < DistanceEnd(m) && Nearer(requestedRows, delta, rows) ==>
               MeanDifference(m, delta, true) >= 8.0 * (requestedRows - rows) as real / requestedRows as real
    ensures BestDistance(m, requestedRows, rows, DistanceEnd(m))
  {
    hide MeanDifference, MovedBy, MoveFits, MoveScore, DistanceEnd;
    EndInside(m);
    var share := 8.0 * (requestedRows - rows) as real / requestedRows as real;
    assert DistancePenalty(rows, requestedRows) == share by {
      hide *;
      PenaltyIs(requestedRows, rows);
      ShareIs(requestedRows, rows);
    }
    forall delta: nat | 1 <= delta < DistanceEnd(m) && Nearer(requestedRows, delta, rows)
      ensures Differs(m, requestedRows, rows, delta)
    {
      PenaltyOrder(requestedRows, delta, rows);
      assert rows < delta;
    }
    MeasuredExactlyIff(m, requestedRows, rows);
  }

  lemma ShareIs(requestedRows: nat, rows: nat)
    requires 1 <= rows <= requestedRows
    ensures Scaled(Off(rows, requestedRows), 8.0 / requestedRows as real) ==
            8.0 * (requestedRows - rows) as real / requestedRows as real
  {
  }
}
