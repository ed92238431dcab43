/** What the scores of the seam search and of the measurement say, in the bytes of the screenshots. */
module SurfaceSamples {
  import opened Bytes
  import opened Numbers
  import opened SurfacePixels
  import opened SurfaceStitch
  import opened SurfaceMeasure

  // ----- bytes -----

  /** Byte `c` of a pixel: 0 is red, 1 green, 2 blue. */
  function ByteAt(img: Image, x: nat, y: nat, c: nat): Byte
    requires Valid(img) && x < img.width && y < img.height && c < 4
  {
    PixelInside(img, x, y);
    img.data[(y * img.width + x) * 4 + c]
  }

  lemma PixelInside(img: Image, x: nat, y: nat)
    requires Valid(img) && x < img.width && y < img.height
    ensures 0 <= (y * img.width + x) * 4 <= |img.data| - 4
  {
    RowFits(img, x, y, 1);
  }

  lemma ChannelIs(img: Image, x: nat, y: nat, c: nat)
    requires Valid(img) && x < img.width && y < img.height && c < 4
    ensures Channel(img, x, y, c) == ByteAt(img, x, y, c)
  {
    RowFits(img, x, y, 1);
  }

  function Apart(a: int, b: int): nat {
    if a >= b then a - b else b - a
  }

  /** `from`, and every fourth on, before `to`. */
  predicate Fourth(x: int, from: int, to: int) {
    from <= x < to && (x - from) % 4 == 0
  }

  lemma FourthStep(x: int, from: int, to: int)
    ensures Fourth(x, from, to) <==> from < to && (x == from || Fourth(x, from + 4, to))
  {
  }

  // ----- the measured difference -----

  /** The two pages differ by this much in byte `c` of the pixel in column `x` and row `y`, moved by `delta` rows. */
  function Gap(m: Move, delta: nat, x: nat, y: nat, c: nat): nat
    requires MoveFits(m) && x < m.previousSurface.width && y + delta < m.previousSurface.height && c < 4
  {
    Apart(ByteAt(m.previous, m.previousSurface.x + x, m.previousSurface.y + y + delta, c),
          ByteAt(m.current, m.currentSurface.x + x, m.currentSurface.y + y, c))
  }

  /**
   The pixels that are compared: of the columns from a twentieth of the width on, and at least the second, up to four
   fifths of it, every fourth; and every fourth row from 8 hundredths of the overlap on.
   */
  predicate Sampled(m: Move, delta: nat, x: nat, y: nat)
    requires delta <= m.previousSurface.height
  {
    var w, overlap := m.previousSurface.width, m.previousSurface.height - delta;
    var left := if w / 20 < 1 then 1 else w / 20;
    var right := if w * 4 / 5 < left + 1 then left + 1 else w * 4 / 5;
    Fourth(x, left, right) && Fourth(y, overlap * 8 / 100, overlap)
  }

  lemma SampledInside(m: Move, delta: nat, x: nat, y: nat)
    requires MoveFits(m) && delta < m.previousSurface.height && Sampled(m, delta, x, y)
    ensures x < m.previousSurface.width && y + delta < m.previousSurface.height
  {
  }

  lemma {:induction false} RowIff(m: Move, delta: nat, y: nat, from: nat, right: nat, d: real)
    requires MoveFits(m) && right <= m.previousSurface.width && y + delta < m.previousSurface.height
    ensures d in RowDifferences(m, delta, y, from, right) <==>
              exists x: nat ::
                Fourth(x, from, right) && x < m.previousSurface.width && d == PixelDifference(m, delta, x, y)
    decreases right - from
  {
    hide PixelDifference, MoveFits, Fourth;
    forall x: nat
      ensures Fourth(x, from, right) <==> from < right && (x == from || Fourth(x, from + 4, right))
    {
      FourthStep(x, from, right);
    }
    if from < right {
      RowIff(m, delta, y, from + 4, right, d);
      var rest := RowDifferences(m, delta, y, from + 4, right);
      assert d in [PixelDifference(m, delta, from, y)] + rest <==> d == PixelDifference(m, delta, from, y) || d in rest;
    }
  }

  ghost predicate FromRow(m: Move, delta: nat, y: nat, d: real)
    requires MoveFits(m) && y + delta < m.previousSurface.height
  {
    RowWidth(m);
    d in RowDifferences(m, delta, y, SampleLeft(m.previousSurface.width), SampleRight(m.previousSurface.width))
  }

  ghost predicate OfRow(m: Move, delta: nat, from: nat, y: nat, d: real)
    requires MoveFits(m)
  {
    Fourth(y, from, m.previousSurface.height - delta) && y + delta < m.previousSurface.height && FromRow(m, delta, y, d)
  }

  lemma {:induction false} RowsIff(m: Move, delta: nat, from: nat, d: real)
    requires MoveFits(m) && delta < m.previousSurface.height
    ensures d in Differences(m, delta, from) <==> exists y: nat :: OfRow(m, delta, from, y, d)
    decreases m.previousSurface.height - delta - from
  {
    hide RowDifferences, MoveFits, Fourth, SampleLeft, SampleRight, FromRow;
    var end := m.previousSurface.height - delta;
    if from < end {
      var next := from + 4;
      RowsIff(m, delta, next, d);
      DifferencesStep(m, delta, from, d);
      OfRowStep(m, delta, from, from, d);
      if y: nat :| OfRow(m, delta, next, y, d) {
        OfRowStep(m, delta, from, y, d);
      }
    }
    if y: nat :| OfRow(m, delta, from, y, d) {
      OfRowStep(m, delta, from, y, d);
    }
  }

  lemma OfRowStep(m: Move, delta: nat, from: nat, y: nat, d: real)
    requires MoveFits(m)
    ensures OfRow(m, delta, from, y, d) <==>
              && from + delta < m.previousSurface.height
              && ((y == from && FromRow(m, delta, from, d)) || OfRow(m, delta, from + 4, y, d))
  {
    hide FromRow, MoveFits;
    FourthStep(y, from, m.previousSurface.height - delta);
  }

  lemma DifferencesStep(m: Move, delta: nat, from: nat, d: real)
    requires MoveFits(m) && from + delta < m.previousSurface.height
    ensures d in Differences(m, delta, from) <==> FromRow(m, delta, from, d) || d in Differences(m, delta, from + 4)
  {
    hide RowDifferences, MoveFits;
    var w := m.previousSurface.width;
    RowWidth(m);
    var row, rest := RowDifferences(m, delta, from, SampleLeft(w), SampleRight(w)), Differences(m, delta, from + 4);
    assert d in row + rest <==> d in row || d in rest;
  }

  lemma RowWidth(m: Move)
    requires MoveFits(m)
    ensures SampleRight(m.previousSurface.width) <= m.previousSurface.width
  {
    SamplesInside(m.previousSurface.width);
  }

  /** A sampled pixel that differs by `d`. */
  ghost predicate SampleOf(m: Move, delta: nat, x: nat, y: nat, d: real)
    requires MoveFits(m) && delta < m.previousSurface.height
  {
    && Sampled(m, delta, x, y) && x < m.previousSurface.width && y + delta < m.previousSurface.height
    && d == PixelDifference(m, delta, x, y)
  }

  /** The differences are those of the sampled pixels, and no others. */
  lemma DifferencesIff(m: Move, delta: nat, d: real)
    requires MoveFits(m) && delta < m.previousSurface.height
    ensures d in Differences(m, delta, FirstSampledRow(m.previousSurface.height - delta)) <==>
              exists x: nat, y: nat :: SampleOf(m, delta, x, y, d)
  {
    hide PixelDifference, RowDifferences, Differences, MoveFits, Fourth;
    var w, overlap := m.previousSurface.width, m.previousSurface.height - delta;
    var first := FirstSampledRow(overlap);
    RowWidth(m);
    RowsIff(m, delta, first, d);
    if y: nat :| OfRow(m, delta, first, y, d) {
      RowIff(m, delta, y, SampleLeft(w), SampleRight(w), d);
      var x: nat :| Fourth(x, SampleLeft(w), SampleRight(w)) && x < w && d == PixelDifference(m, delta, x, y);
      assert SampleOf(m, delta, x, y, d);
    }
    if x: nat, y: nat :| SampleOf(m, delta, x, y, d) {
      RowIff(m, delta, y, SampleLeft(w), SampleRight(w), d);
      assert Fourth(x, SampleLeft(w), SampleRight(w)) && OfRow(m, delta, first, y, d);
    }
  }

  lemma PixelDifferenceIs(m: Move, delta: nat, x: nat, y: nat)
    requires MoveFits(m) && x < m.previousSurface.width && y + delta < m.previousSurface.height
    ensures PixelDifference(m, delta, x, y)
            == (Gap(m, delta, x, y, 0) + Gap(m, delta, x, y, 1) + Gap(m, delta, x, y, 2)) as real / 3.0
  {
    var px, py := m.previousSurface.x + x, m.previousSurface.y + y + delta;
    var cx, cy := m.currentSurface.x + x, m.currentSurface.y + y;
    ChannelIs(m.previous, px, py, 0);
    ChannelIs(m.previous, px, py, 1);
    ChannelIs(m.previous, px, py, 2);
    ChannelIs(m.current, cx, cy, 0);
    ChannelIs(m.current, cx, cy, 1);
    ChannelIs(m.current, cx, cy, 2);
  }

  lemma {:induction false} SumOf(s: seq<real>, v: real)
    requires forall i :: 0 <= i < |s| ==> s[i] == v
    ensures Sum(s) == v * |s| as real
  {
    if s != [] {
      SumOf(s[..|s| - 1], v);
      OnceMore(v, |s| - 1);
    }
  }

  lemma OnceMore(v: real, n: nat)
    ensures v * (n + 1) as real == v * n as real + v
  {
    assert (n + 1) as real == n as real + 1.0;
  }

  lemma {:induction false} SumZero(s: seq<real>)
    requires (forall d :: d in s ==> d >= 0.0) && Sum(s) == 0.0
    ensures forall d :: d in s ==> d == 0.0
  {
    if s != [] {
      var init := s[..|s| - 1];
      Unsnoc(s);
      assert s[|s| - 1] in s && forall d :: d in init ==> d in s;
      SumBounds(init);
      SumZero(init);
    }
  }

  /** All of the sampled pixels agree in red, green and blue. */
  ghost predicate SamplesAgree(m: Move, delta: nat)
    requires MoveFits(m) && delta < m.previousSurface.height
  {
    forall x: nat, y: nat, c: nat :: Sampled(m, delta, x, y) && c < 3 ==>
      x < m.previousSurface.width && y + delta < m.previousSurface.height && Gap(m, delta, x, y, c) == 0
  }

  lemma PixelAgrees(m: Move, delta: nat, x: nat, y: nat)
    requires MoveFits(m) && x < m.previousSurface.width && y + delta < m.previousSurface.height
    ensures PixelDifference(m, delta, x, y) == 0.0 <==>
              Gap(m, delta, x, y, 0) == 0 && Gap(m, delta, x, y, 1) == 0 && Gap(m, delta, x, y, 2) == 0
  {
    hide PixelDifference, Gap, MoveFits;
    PixelDifferenceIs(m, delta, x, y);
  }

  /** The pages match exactly, over all samples, if and only if every sampled pixel agrees in red, green and blue. */
  lemma MeanZeroIff(m: Move, delta: nat)
    requires MoveFits(m) && delta < m.previousSurface.height
    ensures MeanDifference(m, delta, false) == 0.0 <==> SamplesAgree(m, delta)
  {
    hide PixelDifference, Differences, MoveFits, Gap, Sampled, FirstSampledRow, SortValues, Sum, RetainedCount;
    var first := FirstSampledRow(m.previousSurface.height - delta);
    var ds := Differences(m, delta, first);
    SomeDifference(m, delta);
    AllKept(ds);
    NotNegative(m, delta, first);
    var kept := Retained(ds, false);
    if MeanDifference(m, delta, false) == 0.0 {
      QuotientZero(Sum(kept), |kept|);
      SumZero(kept);
      forall x: nat, y: nat | Sampled(m, delta, x, y)
        ensures x < m.previousSurface.width && y + delta < m.previousSurface.height
        ensures Gap(m, delta, x, y, 0) == 0 && Gap(m, delta, x, y, 1) == 0 && Gap(m, delta, x, y, 2) == 0
      {
        SampledInside(m, delta, x, y);
        assert SampleOf(m, delta, x, y, PixelDifference(m, delta, x, y));
        DifferencesIff(m, delta, PixelDifference(m, delta, x, y));
        PixelAgrees(m, delta, x, y);
      }
    }
    if SamplesAgree(m, delta) {
      forall d | d in ds
        ensures d == 0.0
      {
        DifferencesIff(m, delta, d);
        var x: nat, y: nat :| SampleOf(m, delta, x, y, d);
        PixelAgrees(m, delta, x, y);
      }
      SumBounds(kept);
    }
  }

  lemma QuotientZero(x: real, n: nat)
    requires n > 0 && x / n as real == 0.0
    ensures x == 0.0
  {
    assert x == x / n as real * n as real;
  }

  lemma AllKept(ds: seq<real>)
    requires ds != []
    ensures forall d :: d in Retained(ds, false) <==> d in ds
  {
    hide SortValues;
    SortKeeps(ds);
    assert SortValues(ds)[..|ds|] == SortValues(ds);
  }

  /**
   The scale of a difference: pages that differ by `red`, `green` and `blue` at every sampled pixel have exactly the
   mean of the three, trimmed or not. A black page and a white one are 255 apart.
   */
  lemma UniformMean(m: Move, delta: nat, red: nat, green: nat, blue: nat, trimOutliers: bool)
    requires MoveFits(m) && delta < m.previousSurface.height
    requires forall x: nat, y: nat :: Sampled(m, delta, x, y) ==>
               x < m.previousSurface.width && y + delta < m.previousSurface.height
               && Gap(m, delta, x, y, 0) == red && Gap(m, delta, x, y, 1) == green && Gap(m, delta, x, y, 2) == blue
    ensures MeanDifference(m, delta, trimOutliers) == (red + green + blue) as real / 3.0
  {
    hide PixelDifference, Differences, MoveFits, Gap, Sampled, FirstSampledRow, Retained, Sum;
    var ds := Differences(m, delta, FirstSampledRow(m.previousSurface.height - delta));
    var v := (red + green + blue) as real / 3.0;
    forall d | d in ds
      ensures d == v
    {
      DifferencesIff(m, delta, d);
      var x: nat, y: nat :| SampleOf(m, delta, x, y, d);
      PixelDifferenceIs(m, delta, x, y);
    }
    SomeDifference(m, delta);
    RetainedFrom(ds, trimOutliers);
    var kept := Retained(ds, trimOutliers);
    assert forall i :: 0 <= i < |kept| ==> kept[i] in kept;
    MeanOf(kept, v);
    assert MeanDifference(m, delta, trimOutliers) == Sum(kept) / |kept| as real;
  }

  lemma MeanOf(s: seq<real>, v: real)
    requires s != [] && forall i :: 0 <= i < |s| ==> s[i] == v
    ensures Sum(s) / |s| as real == v
  {
    hide Sum;
    SumOf(s, v);
    assert |s| as real > 0.0;
  }

  lemma SomeDifference(m: Move, delta: nat)
    requires MoveFits(m) && delta < m.previousSurface.height
    ensures Differences(m, delta, FirstSampledRow(m.previousSurface.height - delta)) != []
  {
    SomeRowSampled(m.previousSurface.height - delta);
  }

  /** Trimming keeps four fifths of the samples, rounded up. */
  lemma FourFifthsKept(ds: seq<real>)
    requires ds != []
    ensures var k := |Retained(ds, true)|; 5 * k >= 4 * |ds| && 5 * (k - 1) < 4 * |ds|
    ensures |Retained(ds, false)| == |ds|
  {
    hide SortValues;
  }

  /** The distance moves the surface, and leaves at least 4 rows and 12 hundredths of the height. */
  predicate LeavesEnough(height: int, delta: int) {
    1 <= delta && height - delta >= 4 && height - delta >= height * 12 / 100
  }

  /** 8 times the share of the request by which a distance misses it. */
  function Missed(requestedRows: int, delta: int): real {
    if requestedRows <= 0 then 0.0 else Apart(delta, requestedRows) as real / requestedRows as real * 8.0
  }

  /**
   Which distance is measured, in numbers: one that leaves enough, and whose mean difference, plus 8 times the share by
   which it misses the request, is the least, and the first of such.
   */
  lemma BestDistanceIs(m: Move, requestedRows: int, best: int)
    requires MoveFits(m)
    ensures var h := m.previousSurface.height;
            BestDistance(m, requestedRows, best, DistanceEnd(m)) <==>
              && LeavesEnough(h, best)
              && forall k :: LeavesEnough(h, k) ==>
                   var mine := MeanDifference(m, best, true) + Missed(requestedRows, best);
                   var other := MeanDifference(m, k, true) + Missed(requestedRows, k);
                   if k < best then mine < other else mine <= other
  {
    hide MeanDifference, MoveFits, LeavesEnough, DistanceEnd;
    var h := m.previousSurface.height;
    forall k: int
      ensures LeavesEnough(h, k) <==> 1 <= k < DistanceEnd(m)
    {
      EndIs(m, k);
    }
    EndInside(m);
    forall k: int | 1 <= k < DistanceEnd(m)
      ensures MoveScore(m, requestedRows, k) == MeanDifference(m, k, true) + Missed(requestedRows, k)
    {
    }
    if BestDistance(m, requestedRows, best, DistanceEnd(m)) {
      forall k | LeavesEnough(h, k)
        ensures if k < best then MoveScore(m, requestedRows, best) < MoveScore(m, requestedRows, k)
                else MoveScore(m, requestedRows, best) <= MoveScore(m, requestedRows, k)
      {
      }
    }
  }

  lemma EndIs(m: Move, k: int)
    requires MoveFits(m)
    ensures LeavesEnough(m.previousSurface.height, k) <==> 1 <= k < DistanceEnd(m)
  {
  }

  // ----- the score of a seam -----

  /** `from`, and every third on, before `to`. */
  predicate Third(x: int, from: int, to: int) {
    from <= x < to && (x - from) % 3 == 0
  }

  lemma ThirdStep(x: int, from: int, to: int)
    ensures Third(x, from, to) <==> from < to && (x == from || Third(x, from + 3, to))
  {
  }

  /** The columns of a seam that are compared: every third, over the same part of the width. */
  predicate SeamColumn(j: Joint, x: nat) {
    var w := j.currentSurface.width;
    var left := if w / 20 < 1 then 1 else w / 20;
    Third(x, left, if w * 4 / 5 < left + 1 then left + 1 else w * 4 / 5)
  }

  /** Across the joint, and from above to below it on either page, a column differs by this much in byte `c`. */
  datatype Edge = Edge(across: nat, current: nat, next: nat)

  function EdgeAt(j: Joint, x: nat, c: nat): Edge
    requires JointFits(j) && x < j.currentSurface.width && c < 3
  {
    var cx, cy := j.currentSurface.x + x, j.currentSurface.y + j.row;
    var nx, ny := j.nextSurface.x + x, j.nextSurface.y + j.nextRow;
    Edge(Apart(ByteAt(j.current, cx, cy, c), ByteAt(j.next, nx, ny, c)),
         Apart(ByteAt(j.current, cx, cy - 1, c), ByteAt(j.current, cx, cy + 1, c)),
         Apart(ByteAt(j.next, nx, ny - 1, c), ByteAt(j.next, nx, ny + 1, c)))
  }

  /** What one channel of one column adds to the cost, in bytes: the difference across counts twice. */
  lemma ChannelCostIs(j: Joint, x: nat, c: nat)
    requires JointFits(j) && x < j.currentSurface.width && c < 3
    ensures var e := EdgeAt(j, x, c); ChannelCost(j, x, c) == 2 * e.across + e.current + e.next
  {
    var cx, cy := j.currentSurface.x + x, j.currentSurface.y + j.row;
    var nx, ny := j.nextSurface.x + x, j.nextSurface.y + j.nextRow;
    ChannelIs(j.current, cx, cy, c);
    ChannelIs(j.current, cx, cy - 1, c);
    ChannelIs(j.current, cx, cy + 1, c);
    ChannelIs(j.next, nx, ny, c);
    ChannelIs(j.next, nx, ny - 1, c);
    ChannelIs(j.next, nx, ny + 1, c);
  }

  lemma ColumnCostIs(j: Joint, x: nat)
    requires JointFits(j) && x < j.currentSurface.width
    ensures var r, g, b := EdgeAt(j, x, 0), EdgeAt(j, x, 1), EdgeAt(j, x, 2);
            ColumnCost(j, x) == 2 * (r.across + g.across + b.across) + (r.current + g.current + b.current)
                                + (r.next + g.next + b.next)
  {
    hide EdgeAt, ChannelCost, JointFits;
    ChannelCostIs(j, x, 0);
    ChannelCostIs(j, x, 1);
    ChannelCostIs(j, x, 2);
  }

  lemma {:induction false} CostZeroIff(j: Joint, from: nat, right: nat)
    requires JointFits(j) && right <= j.currentSurface.width
    ensures CostFrom(j, from, right) == 0 <==>
              forall x: nat :: Third(x, from, right) && x < j.currentSurface.width ==> ColumnCost(j, x) == 0
    decreases right - from
  {
    hide ColumnCost, JointFits, Third;
    var next := from + 3;
    forall x: nat
      ensures Third(x, from, right) <==> from < right && (x == from || Third(x, next, right))
    {
      ThirdStep(x, from, right);
    }
    if from < right {
      CostZeroIff(j, next, right);
      assert Third(from, from, right);
    }
  }

  lemma {:induction false} CostUniform(j: Joint, from: nat, right: nat, cost: nat)
    requires JointFits(j) && right <= j.currentSurface.width
    requires forall x: nat :: Third(x, from, right) && x < j.currentSurface.width ==> ColumnCost(j, x) == 3 * cost
    ensures 4 * CostFrom(j, from, right) == SamplesFrom(from, right) * cost
    decreases right - from
  {
    hide ColumnCost, JointFits, Third;
    var next := from + 3;
    forall x: nat
      ensures Third(x, from, right) <==> from < right && (x == from || Third(x, next, right))
    {
      ThirdStep(x, from, right);
    }
    if from < right {
      assert Third(from, from, right);
      CostUniform(j, next, right, cost);
      assert (12 + SamplesFrom(next, right)) * cost == 12 * cost + SamplesFrom(next, right) * cost;
    }
  }

  lemma SeamColumns(j: Joint, x: nat)
    requires JointFits(j)
    ensures var w := j.currentSurface.width;
            && SampleLeft(w) < SampleRight(w) <= w
            && (SeamColumn(j, x) <==> Third(x, SampleLeft(w), SampleRight(w)) && x < w)
  {
    SamplesInside(j.currentSurface.width);
  }

  /** A column that matches across the joint and has no contrast on either side. */
  ghost predicate Flawless(j: Joint, x: nat)
    requires JointFits(j)
  {
    x < j.currentSurface.width && forall c: nat :: c < 3 ==> EdgeAt(j, x, c) == Edge(0, 0, 0)
  }

  lemma FlawlessIff(j: Joint, x: nat)
    requires JointFits(j) && x < j.currentSurface.width
    ensures Flawless(j, x) <==> ColumnCost(j, x) == 0
  {
    hide EdgeAt, ColumnCost, JointFits;
    ColumnCostIs(j, x);
  }

  /** A seam scores zero if and only if every compared column matches across it, and is plain above and below. */
  lemma ScoreZeroIff(j: Joint)
    requires JointFits(j)
    ensures JointScore(j) == 0.0 <==> forall x: nat :: SeamColumn(j, x) ==> Flawless(j, x)
  {
    hide ColumnCost, JointFits, Third, CostFrom, SamplesFrom, Flawless, SeamColumn, SampleLeft, SampleRight;
    var w := j.currentSurface.width;
    SeamColumns(j, 0);
    var cost, samples := CostFrom(j, SampleLeft(w), SampleRight(w)), SamplesFrom(SampleLeft(w), SampleRight(w));
    CostZeroIff(j, SampleLeft(w), SampleRight(w));
    if JointScore(j) == 0.0 {
      QuotientZero(cost as real, samples);
    }
    forall x: nat
      ensures SeamColumn(j, x) <==> Third(x, SampleLeft(w), SampleRight(w)) && x < w
      ensures x < w ==> (Flawless(j, x) <==> ColumnCost(j, x) == 0)
    {
      SeamColumns(j, x);
      if x < w {
        FlawlessIff(j, x);
      }
    }
  }

  /** The scale of a score: where every compared byte has the same edge, twice across and once for each page, over 4. */
  lemma UniformScore(j: Joint, edge: Edge)
    requires JointFits(j)
    requires forall x: nat, c: nat :: SeamColumn(j, x) && c < 3 ==>
               x < j.currentSurface.width && EdgeAt(j, x, c) == edge
    ensures JointScore(j) == (2 * edge.across + edge.current + edge.next) as real / 4.0
  {
    hide ColumnCost, JointFits, Third, CostFrom, SamplesFrom, EdgeAt, SeamColumn, SampleLeft, SampleRight;
    var w := j.currentSurface.width;
    SeamColumns(j, 0);
    var cost := 2 * edge.across + edge.current + edge.next;
    forall x: nat | Third(x, SampleLeft(w), SampleRight(w)) && x < w
      ensures ColumnCost(j, x) == 3 * cost
    {
      SeamColumns(j, x);
      ColumnCostIs(j, x);
    }
    CostUniform(j, SampleLeft(w), SampleRight(w), cost);
    QuarterOf(CostFrom(j, SampleLeft(w), SampleRight(w)), SamplesFrom(SampleLeft(w), SampleRight(w)), cost);
  }

  lemma QuarterOf(total: nat, samples: nat, cost: nat)
    requires samples > 0 && 4 * total == samples * cost
    ensures total as real / samples as real == cost as real / 4.0
  {
    assert 4.0 * total as real == samples as real * cost as real;
    assert total as real == samples as real * (cost as real / 4.0);
  }

  /** Which seam is picked, in numbers: the first row of least score, two rows or more off the edges of the overlap. */
  lemma BestSeamIs(a: Page, b: Page, row: int)
    requires PairFits(a, b)
    ensures BestSeam(a, b, row) <==>
              && b.revealedRows + 2 <= row <= a.surface.height - 2
              && forall k :: b.revealedRows + 2 <= k <= a.surface.height - 2 ==>
                   var mine := JointScore(JointAt(a, b, row));
                   var other := JointScore(JointAt(a, b, k));
                   if k < row then mine < other else mine <= other
  {
    hide JointScore;
    assert forall k :: b.revealedRows + 2 <= k <= a.surface.height - 2 ==>
        SeamScore(a, b, k) == JointScore(JointAt(a, b, k));
  }

  /** Row `row` of page `a` against the row of page `b` that shows the same, `b` having moved by its revealed rows. */
  function JointAt(a: Page, b: Page, row: int): (j: Joint)
    requires PairFits(a, b) && b.revealedRows + 2 <= row <= a.surface.height - 2
    ensures JointFits(j)
  {
    Joint(a.image, b.image, a.surface, b.surface, row, row - b.revealedRows)
  }

  // ----- where each row of the region comes from -----

  /** `n` rows below its top, a block has the row of its image. */
  lemma {:induction false} BlockRow(img: Image, x: nat, y: nat, w: nat, rows: nat, n: nat)
    requires Valid(img) && x + w <= img.width && y + rows <= img.height && n < rows
    ensures Span(n, w) <= Span(n + 1, w) <= |Block(img, x, y, w, rows)|
    ensures Block(img, x, y, w, rows)[Span(n, w)..Span(n + 1, w)] == Row(img, x, y + n, w)
  {
    hide Row;
    SpanSum(n, 1, w);
    SpanSum(n + 1, rows - (n + 1), w);
    if n < rows - 1 {
      BlockRow(img, x, y, w, rows - 1, n);
    }
  }

  /** The surface row that the output has reached when `i` pages are placed. */
  ghost function PlacedTo(pages: seq<Page>, i: nat): nat
    requires Stitchable(pages) && 0 < i <= |pages|
  {
    Shift(pages, i - 1) + if i == |pages| then Height(pages) else Seams(pages)[i - 1]
  }

  /** Rows `n` of `bytes`, each `w` pixels wide. */
  ghost predicate RowIs(bytes: seq<Byte>, n: nat, w: nat, row: seq<Byte>) {
    Span(n, w) <= Span(n + 1, w) <= |bytes| && bytes[Span(n, w)..Span(n + 1, w)] == row
  }

  lemma RowInPrefix(longer: seq<Byte>, shorter: seq<Byte>, n: nat, w: nat, row: seq<Byte>)
    requires Begins(longer, shorter)
    ensures RowIs(shorter, n, w, row) ==> RowIs(longer, n, w, row)
    ensures RowIs(longer, n, w, row) && Span(n + 1, w) <= |shorter| ==> RowIs(shorter, n, w, row)
  {
    hide Span;
    if Span(n, w) <= Span(n + 1, w) <= |shorter| {
      assert longer[..|shorter|][Span(n, w)..Span(n + 1, w)] == longer[Span(n, w)..Span(n + 1, w)];
    }
  }

  lemma RowBehind(head: seq<Byte>, tail: seq<Byte>, rows: nat, n: nat, w: nat, row: seq<Byte>)
    requires |head| == Span(rows, w) && RowIs(tail, n, w, row)
    ensures RowIs(head + tail, rows + n, w, row)
  {
    SpanSum(rows, n, w);
    SpanSum(rows, n + 1, w);
    hide Span;
    assert (head + tail)[Span(rows, w) + Span(n, w)..Span(rows, w) + Span(n + 1, w)]
        == tail[Span(n, w)..Span(n + 1, w)];
  }

  lemma SpanGrows(n: nat, rows: nat, w: nat)
    requires n < rows
    ensures Span(n + 1, w) <= Span(rows, w)
  {
    SpanSum(n + 1, rows - (n + 1), w);
  }

  lemma RegionLength(pages: seq<Page>, placed: nat)
    requires Stitchable(pages) && 0 < placed <= |pages|
    ensures |Region(pages, Seams(pages), placed)| == Span(PlacedTo(pages, placed), Width(pages))
  {
    hide Region, Seams, Span;
  }

  /** The rows that page `i` gives lie between the seam above it and the one below. */
  ghost predicate Gives(pages: seq<Page>, i: nat, t: nat)
    requires Stitchable(pages) && i < |pages|
  {
    && (if i == 0 then 0 else Seams(pages)[i - 1] - pages[i].revealedRows) <= t
    && t < if i == |pages| - 1 then Height(pages) else Seams(pages)[i]
  }

  lemma PageInside(pages: seq<Page>, i: nat, t: nat)
    requires Stitchable(pages) && i < |pages| && t < Height(pages)
    ensures Valid(pages[i].image) && pages[i].surface.y + t < pages[i].image.height
    ensures pages[i].surface.x + Width(pages) <= pages[i].image.width
  {
    assert PageFits(pages[i]);
  }

  lemma GivesInside(pages: seq<Page>, i: nat, t: nat)
    requires Stitchable(pages) && i < |pages| && Gives(pages, i, t)
    ensures var from, to := Start(pages, Seams(pages), i), End(pages, Seams(pages), i); from <= t < to <= Height(pages)
  {
    hide Seams;
  }

  /** The page's own rows, just placed. */
  lemma RowPlaced(pages: seq<Page>, i: nat, t: nat)
    requires Stitchable(pages) && i < |pages| && Gives(pages, i, t)
    ensures t < Height(pages) && Valid(pages[i].image) && pages[i].surface.y + t < pages[i].image.height
    ensures pages[i].surface.x + Width(pages) <= pages[i].image.width
    ensures RowIs(Region(pages, Seams(pages), i + 1), Shift(pages, i) + t, Width(pages),
                  Row(pages[i].image, pages[i].surface.x, pages[i].surface.y + t, Width(pages)))
  {
    hide Row, Block, Seams, Span, Region, Gives, Start, End, Reached, Shift, Stitchable, SeamsFit;
    var seams, w, p := Seams(pages), Width(pages), pages[i];
    GivesInside(pages, i, t);
    PageInside(pages, i, t);
    RegionStep(pages, seams, i);
    var from, to := Start(pages, seams, i), End(pages, seams, i);
    PageInside(pages, i, to - 1);
    BlockRow(p.image, p.surface.x, p.surface.y + from, w, to - from, t - from);
    FixedOffset(pages, seams, i);
    RowBehind(Region(pages, seams, i), Block(p.image, p.surface.x, p.surface.y + from, w, to - from),
      Reached(pages, seams, i), t - from, w, Row(p.image, p.surface.x, p.surface.y + t, w));
  }

  /** Placing one more page keeps the rows above where it ends. */
  lemma RowKept(pages: seq<Page>, placed: nat, n: nat, row: seq<Byte>)
    requires Stitchable(pages) && placed < |pages| && RowIs(Region(pages, Seams(pages), placed), n, Width(pages), row)
    requires n < PlacedTo(pages, placed + 1)
    ensures RowIs(Region(pages, Seams(pages), placed + 1), n, Width(pages), row)
  {
    hide Block, Seams, Span, Region, Start, End, Stitchable, SeamsFit, PlacedTo;
    var seams, w := Seams(pages), Width(pages);
    RegionStep(pages, seams, placed);
    RegionLength(pages, placed + 1);
    SpanGrows(n, PlacedTo(pages, placed + 1), w);
    var before, after := Region(pages, seams, placed), Region(pages, seams, placed + 1);
    if Start(pages, seams, placed) < End(pages, seams, placed) {
      RowInPrefix(after, before, n, w, row);
    } else {
      RowInPrefix(before, after, n, w, row);
    }
  }

  /**
   Where the rows of the region come from: a row that page `i` gives is in the region as that page shows it, unless a
   later page goes back above it.
   */
  lemma {:induction false} RowsComeFrom(pages: seq<Page>, i: nat, t: nat, placed: nat)
    requires Stitchable(pages) && i < placed <= |pages| && Gives(pages, i, t)
    requires forall j :: i < j <= placed ==> Shift(pages, i) + t < PlacedTo(pages, j)
    ensures t < Height(pages) && Valid(pages[i].image) && pages[i].surface.y + t < pages[i].image.height
    ensures pages[i].surface.x + Width(pages) <= pages[i].image.width
    ensures RowIs(Region(pages, Seams(pages), placed), Shift(pages, i) + t, Width(pages),
                  Row(pages[i].image, pages[i].surface.x, pages[i].surface.y + t, Width(pages)))
  {
    hide Row, Seams, Region, Gives, Stitchable, PlacedTo, RowIs, Shift;
    if placed == i + 1 {
      RowPlaced(pages, i, t);
    } else {
      RowsComeFrom(pages, i, t, placed - 1);
      hide Height, Valid;
      RowKept(pages, placed - 1, Shift(pages, i) + t,
        Row(pages[i].image, pages[i].surface.x, pages[i].surface.y + t, Width(pages)));
    }
  }
}
