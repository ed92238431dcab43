/** Joining overlapping pages of a scrolled surface into one image. */
module SurfaceStitch {
  import opened Bytes
  import opened Results
  import opened SurfacePixels

  /** A captured page; `revealedRows` says how far it moved from the page before (unused on the first). */
  datatype Page = Page(image: Image, surface: Rect, revealedRows: nat)

  // ----- seams -----

  function SampleLeft(width: nat): nat {
    if width / 20 < 1 then 1 else width / 20
  }

  function SampleRight(width: nat): nat {
    if width * 4 / 5 < SampleLeft(width) + 1 then SampleLeft(width) + 1 else width * 4 / 5
  }

  lemma SamplesInside(width: nat)
    requires 2 <= width
    ensures 1 <= SampleLeft(width) < SampleRight(width) <= width
  {
  }

  function Distance(a: Byte, b: Byte): (d: nat) {
    if a < b then b - a else a - b
  }

  /** A seam between row `row` of one page and the row of the next page it should match. */
  datatype Joint = Joint(current: Image, next: Image, currentSurface: Rect, nextSurface: Rect, row: nat, nextRow: nat)

  predicate JointFits(j: Joint) {
    && Valid(j.current) && Valid(j.next) && j.current.width == j.next.width
    && Inside(j.currentSurface, j.current) && Inside(j.nextSurface, j.next)
    && 2 <= j.currentSurface.width == j.nextSurface.width
    && 1 <= j.row < j.currentSurface.height - 1
    && 1 <= j.nextRow < j.nextSurface.height - 1
  }

  /** How badly one channel of one column matches across the joint, with its contrast above and below. */
  function ChannelCost(j: Joint, x: nat, c: nat): nat
    requires JointFits(j) && x < j.currentSurface.width && c < 3
  {
    var cx, cy := j.currentSurface.x + x, j.currentSurface.y + j.row;
    var nx, ny := j.nextSurface.x + x, j.nextSurface.y + j.nextRow;
    Distance(Channel(j.current, cx, cy, c), Channel(j.next, nx, ny, c)) * 2
    + Distance(Channel(j.current, cx, cy - 1, c), Channel(j.current, cx, cy + 1, c))
    + Distance(Channel(j.next, nx, ny - 1, c), Channel(j.next, nx, ny + 1, c))
  }

  function ColumnCost(j: Joint, x: nat): nat
    requires JointFits(j) && x < j.currentSurface.width
  {
    ChannelCost(j, x, 0) + ChannelCost(j, x, 1) + ChannelCost(j, x, 2)
  }

  /** The cost of every third column from `x`. */
  function CostFrom(j: Joint, x: nat, right: nat): nat
    requires JointFits(j) && right <= j.currentSurface.width
    decreases right - x
  {
    if x >= right then 0 else ColumnCost(j, x) + CostFrom(j, x + 3, right)
  }

  function SamplesFrom(x: nat, right: nat): (n: nat)
    ensures x < right ==> n > 0
    decreases right - x
  {
    if x >= right then 0 else 12 + SamplesFrom(x + 3, right)
  }

  function JointScore(j: Joint): real
    requires JointFits(j)
  {
    var w := j.currentSurface.width;
    SamplesInside(w);
    CostFrom(j, SampleLeft(w), SampleRight(w)) as real / SamplesFrom(SampleLeft(w), SampleRight(w)) as real
  }

  method SampledSeamDifference(j: Joint) returns (score: Score)
    requires JointFits(j)
    ensures score == Finite(JointScore(j))
  {
    hide ColumnCost;
    var sampleLeft := SampleLeft(j.currentSurface.width);
    var sampleRight := SampleRight(j.currentSurface.width);
    SamplesInside(j.currentSurface.width);
    var difference, samples := 0, 0;
    var x := sampleLeft;
    while x < sampleRight
      invariant sampleLeft <= x
      invariant difference + CostFrom(j, x, sampleRight) == CostFrom(j, sampleLeft, sampleRight)
      invariant samples + SamplesFrom(x, sampleRight) == SamplesFrom(sampleLeft, sampleRight)
    {
      var column := ReadColumnCost(j, x);
      difference, samples := difference + column, samples + 12;
      x := x + 3;
    }
    score := Finite(difference as real / samples as real);
  }

  /** Red, green and blue of one column. */
  method ReadColumnCost(j: Joint, x: nat) returns (column: nat)
    requires JointFits(j) && x < j.currentSurface.width
    ensures column == ColumnCost(j, x)
  {
    hide ChannelCost;
    column := 0;
    for channel := 0 to 3
      invariant column == (if channel > 0 then ChannelCost(j, x, 0) else 0) +
                (if channel > 1 then ChannelCost(j, x, 1) else 0)
                          + (if channel > 2 then ChannelCost(j, x, 2) else 0)
    {
      var cost := ReadChannelCost(j, x, channel);
      column := column + cost;
    }
  }

  /** The six reads of one channel, by byte offset; all of them are inside the two images. */
  method ReadChannelCost(j: Joint, x: nat, channel: nat) returns (cost: nat)
    requires JointFits(j) && x < j.currentSurface.width && channel < 3
    ensures cost == ChannelCost(j, x, channel)
  {
    var width := j.current.width;
    var cx, cy := j.currentSurface.x + x, j.currentSurface.y + j.row;
    var nx, ny := j.nextSurface.x + x, j.nextSurface.y + j.nextRow;
    var currentOffset := (cy * width + cx) * 4 + channel;
    var nextOffset := (ny * width + nx) * 4 + channel;
    RowStep(width, cx, cy);
    RowStep(width, nx, ny);
    RowFits(j.current, cx, cy, 1);
    RowFits(j.current, cx, cy + 1, 1);
    RowFits(j.next, nx, ny, 1);
    RowFits(j.next, nx, ny + 1, 1);
    var currentAbove, currentBelow := currentOffset - width * 4, currentOffset + width * 4;
    var nextAbove, nextBelow := nextOffset - width * 4, nextOffset + width * 4;
    cost := Distance(j.current.data[currentOffset], j.next.data[nextOffset]) * 2;
    cost := cost + Distance(j.current.data[currentAbove], j.current.data[currentBelow]);
    cost := cost + Distance(j.next.data[nextAbove], j.next.data[nextBelow]);
  }

  lemma RowStep(width: nat, x: nat, y: nat)
    requires 1 <= y
    ensures Offset(width, x, y) == Offset(width, x, y - 1) + width * 4 >= 0
    ensures Offset(width, x, y + 1) == Offset(width, x, y) + width * 4
  {
    assert y * (width * 4) == (y - 1) * (width * 4) + width * 4;
    assert (y + 1) * (width * 4) == y * (width * 4) + width * 4;
  }

  /** Two consecutive pages whose seam can be searched. */
  predicate PairFits(a: Page, b: Page) {
    && Valid(a.image) && Valid(b.image) && a.image.width == b.image.width
    && Inside(a.surface, a.image) && Inside(b.surface, b.image)
    && 2 <= a.surface.width == b.surface.width
    && a.surface.height == b.surface.height
    && 1 <= b.revealedRows <= a.surface.height - 4
  }

  function PairJoint(a: Page, b: Page, row: nat): Joint
    requires PairFits(a, b) && b.revealedRows <= row
  {
    Joint(a.image, b.image, a.surface, b.surface, row, row - b.revealedRows)
  }

  /** The score of a seam at row `row` of page `a`. */
  function SeamScore(a: Page, b: Page, row: int): real
    requires PairFits(a, b) && b.revealedRows + 2 <= row <= a.surface.height - 2
  {
    JointScore(PairJoint(a, b, row))
  }

  /** `row` is the first row with the least score among the rows of `[b.revealedRows + 2, end)`. */
  ghost predicate BestSeamBefore(a: Page, b: Page, row: int, end: int)
    requires PairFits(a, b) && end <= a.surface.height - 1
  {
    && b.revealedRows + 2 <= row < end
    && (forall k :: b.revealedRows + 2 <= k < row ==> SeamScore(a, b, row) < SeamScore(a, b, k))
    && (forall k :: row <= k < end ==> SeamScore(a, b, row) <= SeamScore(a, b, k))
  }

  /** `row` is the first row with the least score among all the rows a seam may have. */
  ghost predicate BestSeam(a: Page, b: Page, row: int)
    requires PairFits(a, b)
  {
    BestSeamBefore(a, b, row, a.surface.height - 1)
  }

  lemma KeepBest(a: Page, b: Page, best: int, row: int)
    requires PairFits(a, b) && row <= a.surface.height - 2 && BestSeamBefore(a, b, best, row)
    ensures if SeamScore(a, b, row) < SeamScore(a, b, best) then BestSeamBefore(a, b, row, row + 1)
            else BestSeamBefore(a, b, best, row + 1)
  {
    hide SeamScore;
  }

  lemma {:induction false} SeamExists(a: Page, b: Page, end: int) returns (row: int)
    requires PairFits(a, b) && b.revealedRows + 2 < end <= a.surface.height - 1
    ensures BestSeamBefore(a, b, row, end)
    decreases end
  {
    hide SeamScore;
    row := end - 1;
    if end > b.revealedRows + 3 {
      var best := SeamExists(a, b, end - 1);
      KeepBest(a, b, best, end - 1);
      if SeamScore(a, b, best) <= SeamScore(a, b, end - 1) {
        row := best;
      }
    }
  }

  lemma SomeSeam(a: Page, b: Page)
    requires PairFits(a, b)
    ensures exists row: nat :: BestSeam(a, b, row)
  {
    var row := SeamExists(a, b, a.surface.height - 1);
    assert BestSeam(a, b, row);
  }

  /** The seam of two pages: the one first row with the least score. */
  ghost function TheSeam(a: Page, b: Page): (row: nat)
    requires PairFits(a, b)
    ensures BestSeam(a, b, row)
  {
    SomeSeam(a, b);
    var row: nat :| BestSeam(a, b, row);
    row
  }

  lemma OneBestSeam(a: Page, b: Page, row: int, other: int)
    requires PairFits(a, b) && BestSeam(a, b, row) && BestSeam(a, b, other)
    ensures row == other
  {
    hide SeamScore;
    assert SeamScore(a, b, row) <= SeamScore(a, b, other) <= SeamScore(a, b, row);
  }

  method SeamDifference(a: Page, b: Page, row: nat) returns (score: Score)
    requires PairFits(a, b) && b.revealedRows + 2 <= row <= a.surface.height - 2
    ensures score == Finite(SeamScore(a, b, row))
  {
    score := SampledSeamDifference(PairJoint(a, b, row));
  }

  method ChooseSurfaceSeam(a: Page, b: Page) returns (bestRow: nat)
    requires PairFits(a, b)
    ensures BestSeam(a, b, bestRow)
  {
    hide SeamScore;
    var height := a.surface.height;
    var minimum := if height - 2 < b.revealedRows + 2 then height - 2 else b.revealedRows + 2;
    var maximum := height - 2;
    bestRow := b.revealedRows;
    var bestScore := Infinite;
    for currentRow := minimum to maximum + 1
      invariant bestScore.Infinite? ==> currentRow == minimum
      invariant bestScore.Finite? ==>
                  BestSeamBefore(a, b, bestRow, currentRow) && bestScore.value == SeamScore(a, b, bestRow)
    {
      var score := SeamDifference(a, b, currentRow);
      if bestScore.Finite? {
        KeepBest(a, b, bestRow, currentRow);
      }
      if score.LessThan(bestScore) {
        bestScore := score;
        bestRow := currentRow;
      }
    }
  }

  // ----- copying -----

  /** Copies into a buffer, cutting off what does not fit. */
  method CopyBytes(bytes: seq<Byte>, dest: array<Byte>, at: nat)
    modifies dest
    ensures at + |bytes| <= dest.Length ==> dest[..at + |bytes|] == old(dest[..at]) + bytes
    ensures forall k :: at + |bytes| <= k < dest.Length ==> dest[k] == old(dest[k])
  {
    forall i | 0 <= i < |bytes| && at + i < dest.Length {
      dest[at + i] := bytes[i];
    }
  }

  /**
   A copy of `rows` rows to row `destY`: what is above and below them stays, and a count that is not
   positive copies nothing.
   */
  ghost predicate Copied(source: Image, x: nat, y: nat, w: nat, rows: int, destY: nat, before: seq<Byte>,
                         after: seq<Byte>)
    requires Valid(source) && x + w <= source.width && (rows > 0 ==> y + rows <= source.height)
  {
    && |before| == |after|
    && (rows <= 0 ==> after == before)
    && (rows > 0 && Span(destY + rows, w) <= |before| ==>
          && 0 <= Span(destY, w) <= |before|
          && after[..Span(destY + rows, w)] == before[..Span(destY, w)] + Block(source, x, y, w, rows)
          && after[Span(destY + rows, w)..] == before[Span(destY + rows, w)..])
  }

  method CopyImageRows(source: Image, dest: array<Byte>, destWidth: nat, sourceX: nat, sourceY: nat, rows: int,
                       destY: nat)
    requires Valid(source) && sourceX + destWidth <= source.width
    requires rows > 0 ==> sourceY + rows <= source.height
    modifies dest
    ensures Copied(source, sourceX, sourceY, destWidth, rows, destY, old(dest[..]), dest[..])
  {
    hide Block, Row;
    ghost var before := dest[..];
    ghost var fits := rows > 0 && Span(destY + rows, destWidth) <= dest.Length;
    for row := 0 to if rows > 0 then rows else 0
      invariant rows <= 0 ==> dest[..] == before
      invariant fits ==>
                  && 0 <= Span(destY, destWidth) <= Span(destY + row, destWidth) <= dest.Length
                  && dest[..Span(destY + row, destWidth)]
                     == before[..Span(destY, destWidth)] + Block(source, sourceX, sourceY, destWidth, row)
      invariant fits ==> forall k :: Span(destY + row, destWidth) <= k < dest.Length ==> dest[k] == before[k]
    {
      CursorStep(destWidth, destY, row, rows);
      BlockStep(source, sourceX, sourceY, destWidth, row);
      var sourceStart := ((sourceY + row) * source.width + sourceX) * 4;
      var sourceEnd := sourceStart + destWidth * 4;
      RowAt(source, sourceX, sourceY + row, destWidth);
      CopyBytes(source.data[sourceStart..sourceEnd], dest, Span(destY + row, destWidth));
      if fits {
        Rejoin(before[..Span(destY, destWidth)], Block(source, sourceX, sourceY, destWidth, row),
          Row(source, sourceX, sourceY + row, destWidth));
      }
    }
  }

  lemma RowAt(img: Image, x: nat, y: nat, w: nat)
    requires Valid(img) && x + w <= img.width && y < img.height
    ensures var start := (y * img.width + x) * 4;
            0 <= start <= start + w * 4 <= |img.data| && Row(img, x, y, w) == img.data[start..start + w * 4]
  {
    RowFits(img, x, y, w);
  }

  lemma CursorStep(w: nat, y: nat, row: nat, rows: nat)
    requires row < rows
    ensures Span(y, w) <= Span(y + row, w)
    ensures Span(y + row, w) + w * 4 == Span(y + (row + 1), w) == Span(y + row + 1, w) <= Span(y + rows, w)
  {
    SpanSum(y, row, w);
    SpanSum(y + row, 1, w);
    SpanSum(y + row + 1, rows - row - 1, w);
  }

  // ----- stitching -----

  predicate SameSurfaces(pages: seq<Page>)
    requires pages != []
  {
    forall p :: p in pages ==> p.surface.width == pages[0].surface.width && p.surface.height == pages[0].surface.height
  }

  predicate SameImages(pages: seq<Page>)
    requires pages != []
  {
    forall p :: p in pages ==> p.image.width == pages[0].image.width && p.image.height == pages[0].image.height
  }

  /** A page with a surface inside its image. */
  predicate PageFits(p: Page) {
    Valid(p.image) && Inside(p.surface, p.image)
  }

  /** Pages as a capture leaves them: pages of one size have moved by a measured number of rows. */
  predicate Captured(pages: seq<Page>) {
    && (forall p :: p in pages ==> PageFits(p))
    && (|pages| > 1 && SameSurfaces(pages) ==>
          2 <= pages[0].surface.width
          && forall i :: 1 <= i < |pages| ==> 1 <= pages[i].revealedRows <= pages[0].surface.height - 4)
  }

  predicate Stitchable(pages: seq<Page>) {
    pages != [] && Captured(pages) && SameSurfaces(pages) && SameImages(pages)
  }

  function Height(pages: seq<Page>): nat
    requires pages != []
  {
    pages[0].surface.height
  }

  function Width(pages: seq<Page>): nat
    requires pages != []
  {
    pages[0].surface.width
  }

  predicate FullWidth(pages: seq<Page>)
    requires pages != []
  {
    forall p :: p in pages ==> p.surface.x == 0 && p.surface.width == pages[0].image.width
  }

  /** How far page `i` lies below the first one: the rows revealed since. */
  function Shift(pages: seq<Page>, i: nat): nat
    requires i < |pages|
  {
    if i == 0 then 0 else Shift(pages, i - 1) + pages[i].revealedRows
  }

  /** Any choice of one seam for each pair of pages. */
  ghost predicate SeamsFit(pages: seq<Page>, seams: seq<nat>)
    requires pages != []
  {
    |seams| == |pages| - 1
    && forall i :: 0 <= i < |seams| ==> pages[i + 1].revealedRows <= seams[i] <= Height(pages)
  }

  /** The first surface row taken from page `i`. */
  ghost function Start(pages: seq<Page>, seams: seq<nat>, i: nat): nat
    requires i < |pages| && SeamsFit(pages, seams)
  {
    if i == 0 then 0 else seams[i - 1] - pages[i].revealedRows
  }

  /** The end of the surface rows taken from page `i`. */
  ghost function End(pages: seq<Page>, seams: seq<nat>, i: nat): nat
    requires i < |pages| && SeamsFit(pages, seams)
    ensures i > 0 ==> End(pages, seams, i - 1) == seams[i - 1]
  {
    if i == |pages| - 1 then Height(pages) else seams[i]
  }

  /** The surface row reached by the output once `i` pages are placed; crossing seams make it go back. */
  ghost function Reached(pages: seq<Page>, seams: seq<nat>, i: nat): nat
    requires 0 < |pages| && i <= |pages| && SeamsFit(pages, seams)
  {
    if i == 0 then 0 else Shift(pages, i - 1) + End(pages, seams, i - 1)
  }

  /** Wherever the seams lie, a page's rows go exactly as far down as the page has moved. */
  lemma FixedOffset(pages: seq<Page>, seams: seq<nat>, i: nat)
    requires i < |pages| && SeamsFit(pages, seams)
    ensures Reached(pages, seams, i) == Shift(pages, i) + Start(pages, seams, i)
  {
  }

  /** The surface rows the output holds for good once `i` pages are placed. */
  ghost function Region(pages: seq<Page>, seams: seq<nat>, i: nat): (bytes: seq<Byte>)
    requires Stitchable(pages) && i <= |pages| && SeamsFit(pages, seams)
    ensures |bytes| == Span(Reached(pages, seams, i), Width(pages))
  {
    if i == 0 then []
    else
      var p, from, to := pages[i - 1], Start(pages, seams, i - 1), End(pages, seams, i - 1);
      var before := Region(pages, seams, i - 1);
      FixedOffset(pages, seams, i - 1);
      ReachedStep(Reached(pages, seams, i - 1), Reached(pages, seams, i), Width(pages));
      assert PageFits(p);
      if from <= to then before + Block(p.image, p.surface.x, p.surface.y + from, Width(pages), to - from)
      else before[..Span(Reached(pages, seams, i), Width(pages))]
  }

  lemma ReachedStep(before: nat, after: nat, w: nat)
    ensures after >= before ==> Span(before, w) + Span(after - before, w) == Span(after, w)
    ensures after < before ==> Span(after, w) <= Span(before, w)
  {
    if after >= before {
      SpanSum(before, after - before, w);
    } else {
      SpanSum(after, before - after, w);
    }
  }

  // ----- exactness -----

  /** A page shows `height` rows of the tall surface, from row `from`. */
  predicate PageShows(p: Page, tall: Image, from: nat, height: nat) {
    && PageFits(p) && Valid(tall) && tall.width == p.surface.width && height == p.surface.height
    && from + height <= tall.height
    && forall k :: 0 <= k < height ==> SameRow(p.image, p.surface.x, p.surface.y, tall, 0, from, tall.width, k)
  }

  /** Every page shows the tall surface from the row it has moved to. */
  predicate Shows(pages: seq<Page>, tall: Image)
    requires pages != []
  {
    && Valid(tall) && tall.width == Width(pages)
    && forall i :: 0 <= i < |pages| ==> PageShows(pages[i], tall, Shift(pages, i), Height(pages))
  }

  lemma ShownBlock(p: Page, tall: Image, at: nat, height: nat, from: nat, rows: nat)
    requires PageShows(p, tall, at, height) && from + rows <= height
    ensures Block(p.image, p.surface.x, p.surface.y + from, tall.width, rows) ==
            Block(tall, 0, at + from, tall.width, rows)
  {
    hide Row;
    forall k: nat {:trigger SameRow(p.image, p.surface.x, p.surface.y + from, tall, 0, at + from, tall.width, k)}
      | k < rows
      ensures SameRow(p.image, p.surface.x, p.surface.y + from, tall, 0, at + from, tall.width, k)
    {
      assert SameRow(p.image, p.surface.x, p.surface.y, tall, 0, at, tall.width, from + k);
    }
    SameBlock(p.image, p.surface.x, p.surface.y + from, tall, 0, at + from, tall.width, rows);
  }

  /**
   Whatever seams are chosen, even crossing ones, the rows placed so far are the tall surface from
   its top: no row is missing, doubled or out of place.
   */
  lemma {:induction false} StitchIsExact(pages: seq<Page>, seams: seq<nat>, tall: Image, i: nat)
    requires Stitchable(pages) && SeamsFit(pages, seams) && Shows(pages, tall) && i <= |pages|
    ensures Reached(pages, seams, i) <= tall.height
    ensures Region(pages, seams, i) == Block(tall, 0, 0, tall.width, Reached(pages, seams, i))
  {
    hide Row, Block, SameRow, Span;
    if i > 0 {
      var p, from, to := pages[i - 1], Start(pages, seams, i - 1), End(pages, seams, i - 1);
      StitchIsExact(pages, seams, tall, i - 1);
      FixedOffset(pages, seams, i - 1);
      assert PageShows(p, tall, Shift(pages, i - 1), Height(pages));
      if from <= to {
        ShownBlock(p, tall, Shift(pages, i - 1), Height(pages), from, to - from);
        BlockJoin(tall, 0, 0, tall.width, Reached(pages, seams, i - 1), to - from);
      } else {
        BlockTake(tall, 0, 0, tall.width, Reached(pages, seams, i), Reached(pages, seams, i - 1));
      }
    } else {
      EmptyBlock(tall);
    }
  }

  lemma EmptyBlock(img: Image)
    requires Valid(img)
    ensures Block(img, 0, 0, img.width, 0) == []
  {
  }

  /** With the seams the search picks, the surface part of the output is the whole captured surface. */
  lemma SurfaceReproduced(pages: seq<Page>, tall: Image)
    requires Stitchable(pages) && Shows(pages, tall)
    ensures Shift(pages, |pages| - 1) + Height(pages) <= tall.height
    ensures Region(pages, Seams(pages), |pages|)
            == Block(tall, 0, 0, tall.width, Shift(pages, |pages| - 1) + Height(pages))
  {
    hide Region, Block, Seams;
    StitchIsExact(pages, Seams(pages), tall, |pages|);
    ReachedBound(pages, Seams(pages), |pages|);
  }

  // ----- the whole image -----

  function LeadingRows(pages: seq<Page>): nat
    requires pages != []
  {
    if FullWidth(pages) then pages[0].surface.y else 0
  }

  /** The rows of the last page below its surface; negative only for pages of different sizes. */
  function TrailingRows(pages: seq<Page>): int
    requires pages != []
  {
    var last := pages[|pages| - 1].surface;
    if FullWidth(pages) then pages[0].image.height - (last.y + last.height) else 0
  }

  /** The first page's rows above its surface. */
  function Lead(pages: seq<Page>): seq<Byte>
    requires Stitchable(pages)
  {
    assert PageFits(pages[0]);
    Block(pages[0].image, pages[0].surface.x, 0, Width(pages), LeadingRows(pages))
  }

  /** The last page's rows below its surface. */
  function Trail(pages: seq<Page>): seq<Byte>
    requires Stitchable(pages)
  {
    var p := pages[|pages| - 1];
    assert PageFits(p);
    if TrailingRows(pages) <= 0 then []
    else Block(p.image, p.surface.x, p.surface.y + p.surface.height, Width(pages), TrailingRows(pages))
  }

  lemma PairsFit(pages: seq<Page>, i: nat)
    requires pages != [] && Captured(pages) && SameSurfaces(pages) && i + 1 < |pages|
    requires pages[i].image.width == pages[i + 1].image.width
    ensures PairFits(pages[i], pages[i + 1])
  {
    assert PageFits(pages[i]) && PageFits(pages[i + 1]);
  }

  /** The seam the search picks between pages `i` and `i + 1`. */
  ghost function SeamAfter(pages: seq<Page>, i: nat): (row: nat)
    requires Stitchable(pages) && i < |pages| - 1
    ensures pages[i + 1].revealedRows <= row <= Height(pages)
  {
    PairsFit(pages, i);
    TheSeam(pages[i], pages[i + 1])
  }

  ghost function Seams(pages: seq<Page>): (seams: seq<nat>)
    requires Stitchable(pages)
    ensures |seams| == |pages| - 1
    ensures forall i :: 0 <= i < |seams| ==> seams[i] == SeamAfter(pages, i)
    ensures SeamsFit(pages, seams)
  {
    hide SeamAfter, TheSeam, SameSurfaces, SameImages, Captured;
    seq(|pages| - 1, i requires 0 <= i < |pages| - 1 => SeamAfter(pages, i))
  }

  /** The size of the stitched image; its surface part is as tall as the pages reach. */
  function StitchedHeight(pages: seq<Page>): int
    requires pages != []
  {
    LeadingRows(pages) + Shift(pages, |pages| - 1) + Height(pages) + TrailingRows(pages)
  }

  method SumRevealed(pages: seq<Page>) returns (sum: nat)
    requires pages != []
    ensures sum == Shift(pages, |pages| - 1)
  {
    sum := 0;
    for i := 1 to |pages|
      invariant sum == Shift(pages, i - 1)
    {
      sum := sum + pages[i].revealedRows;
    }
  }

  lemma {:induction false} ShiftGrows(pages: seq<Page>, i: nat, j: nat)
    requires i <= j < |pages|
    ensures Shift(pages, i) <= Shift(pages, j)
  {
    if i < j {
      ShiftGrows(pages, i, j - 1);
    }
  }

  /** No page reaches below the last one. */
  lemma ReachedBound(pages: seq<Page>, seams: seq<nat>, i: nat)
    requires pages != [] && i <= |pages| && SeamsFit(pages, seams)
    ensures Reached(pages, seams, i) <= Shift(pages, |pages| - 1) + Height(pages) == Reached(pages, seams, |pages|)
  {
    if i > 0 {
      ShiftGrows(pages, i - 1, |pages| - 1);
    }
  }

  /** One more page: its rows are appended, or rows are taken back when the seams cross. */
  lemma RegionStep(pages: seq<Page>, seams: seq<nat>, i: nat)
    requires Stitchable(pages) && i < |pages| && SeamsFit(pages, seams)
    ensures var from, to := Start(pages, seams, i), End(pages, seams, i); var p := pages[i];
            && PageFits(p) && p.surface.width == Width(pages) && to <= Height(pages) == p.surface.height
            && (from < to ==>
                  Region(pages, seams, i + 1)
                  == Region(pages, seams, i) + Block(p.image, p.surface.x, p.surface.y + from, Width(pages), to - from))
            && (to <= from ==> Begins(Region(pages, seams, i), Region(pages, seams, i + 1)))
  {
    hide Block;
    assert PageFits(pages[i]);
    FixedOffset(pages, seams, i);
    ReachedStep(Reached(pages, seams, i), Reached(pages, seams, i + 1), Width(pages));
  }

  /** `CopyImageRows` moves the cursor over the bytes of the region. */
  lemma CursorBytes(pages: seq<Page>, seams: seq<nat>, leadingRows: nat, i: nat)
    requires Stitchable(pages) && i < |pages| && SeamsFit(pages, seams)
    ensures Span(leadingRows + Shift(pages, i) + Start(pages, seams, i), Width(pages))
            == Span(leadingRows, Width(pages)) + |Region(pages, seams, i)|
  {
    hide Region, Span;
    FixedOffset(pages, seams, i);
    SpanSum(leadingRows, Reached(pages, seams, i), Width(pages));
  }

  lemma RegionRoom(pages: seq<Page>, seams: seq<nat>, i: nat)
    requires Stitchable(pages) && i <= |pages| && SeamsFit(pages, seams)
    ensures |Region(pages, seams, i)| <= |Region(pages, seams, |pages|)|
  {
    hide Region, Span;
    ReachedBound(pages, seams, i);
    var a, b := Reached(pages, seams, i), Reached(pages, seams, |pages|);
    SpanSum(a, b - a, Width(pages));
  }

  /** After the copy of page `i`, or none when its seams cross, the output begins with the next region. */
  lemma PagePlaced(pages: seq<Page>, seams: seq<nat>, leadingRows: nat, i: nat, top: seq<Byte>, before: seq<Byte>,
                   after: seq<Byte>)
    requires Stitchable(pages) && i < |pages| && SeamsFit(pages, seams) && PageFits(pages[i])
    requires Begins(before, top + Region(pages, seams, i))
    requires |top| == Span(leadingRows, Width(pages)) && |top| + |Region(pages, seams, |pages|)| <= |before|
    requires pages[i].surface.width == Width(pages) && pages[i].surface.height == Height(pages)
    requires var from, to := Start(pages, seams, i), End(pages, seams, i); var p := pages[i];
             && to <= Height(pages)
             && Copied(p.image, p.surface.x, p.surface.y + from, Width(pages), to - from,
                leadingRows + Shift(pages, i) + from, before, after)
    ensures Begins(after, top + Region(pages, seams, i + 1))
  {
    hide Region, Block, Span, Stitchable, Reached, SeamsFit;
    var from, to := Start(pages, seams, i), End(pages, seams, i);
    var at := leadingRows + Shift(pages, i) + from;
    RegionStep(pages, seams, i);
    RegionRoom(pages, seams, i + 1);
    CursorBytes(pages, seams, leadingRows, i);
    if from < to {
      assert before[..|top| + |Region(pages, seams, i)|] == top + Region(pages, seams, i);
      SpanSum(at, to - from, Width(pages));
      Rejoin(top, Region(pages, seams, i),
        Block(pages[i].image, pages[i].surface.x, pages[i].surface.y + from, Width(pages), to - from));
    }
  }

  lemma SeamIs(pages: seq<Page>, i: nat, row: nat)
    requires Stitchable(pages) && i < |pages| - 1 && PairFits(pages[i], pages[i + 1])
    requires BestSeam(pages[i], pages[i + 1], row)
    ensures Seams(pages)[i] == row
  {
    hide BestSeamBefore;
    OneBestSeam(pages[i], pages[i + 1], row, TheSeam(pages[i], pages[i + 1]));
  }

  /** The state of the page loop before page `i`, or at its end: the locals, and what the output holds. */
  ghost predicate Progress(pages: seq<Page>, i: nat, leadingRows: nat, top: seq<Byte>, outputY: int, sourceStart: int,
                           output: seq<Byte>)
    requires Stitchable(pages) && i <= |pages|
  {
    && outputY == leadingRows + Reached(pages, Seams(pages), i)
    && (i < |pages| ==> sourceStart == Start(pages, Seams(pages), i))
    && Begins(output, top + Region(pages, Seams(pages), i))
    && |top| == Span(leadingRows, Width(pages)) && |top| + |Region(pages, Seams(pages), |pages|)| <= |output|
  }

  lemma PageDone(pages: seq<Page>, i: nat, leadingRows: nat, top: seq<Byte>, outputY: nat, sourceStart: nat,
                 sourceEnd: nat, before: seq<Byte>, after: seq<Byte>)
    requires Stitchable(pages) && i < |pages| && PageFits(pages[i]) && |before| == |after|
    requires pages[i].surface.width == Width(pages) && pages[i].surface.height == Height(pages) &&
             sourceEnd <= Height(pages)
    requires Progress(pages, i, leadingRows, top, outputY, sourceStart, before)
    requires sourceEnd == if i + 1 < |pages| then Seams(pages)[i] else Height(pages)
    requires Copied(pages[i].image, pages[i].surface.x, pages[i].surface.y + sourceStart, Width(pages),
                    sourceEnd - sourceStart, outputY, before, after)
    ensures Progress(pages, i + 1, leadingRows, top, outputY + sourceEnd - sourceStart,
                     if i + 1 < |pages| then sourceEnd - pages[i + 1].revealedRows else sourceStart, after)
  {
    hide Block, Region, Seams, Copied, Stitchable, Span, Reached, Begins, SeamsFit, PageFits, Shift;
    var seams := Seams(pages);
    FixedOffset(pages, seams, i);
    ReachedNext(pages, seams, i);
    if i + 1 < |pages| {
      FixedOffset(pages, seams, i + 1);
    }
    PagePlaced(pages, seams, leadingRows, i, top, before, after);
  }

  /** Copies every page to its place below the leading rows. */
  method PlacePages(pages: seq<Page>, output: array<Byte>, leadingRows: nat, ghost top: seq<Byte>)
    returns (image: Result<Image>, outputY: nat)
    requires pages != [] && Captured(pages) && SameSurfaces(pages)
    requires SameImages(pages) ==> Progress(pages, 0, leadingRows, top, leadingRows, 0, output[..])
    modifies output
    ensures image.Ok? <==> SameImages(pages)
    ensures image.Err? ==> image.error == SizesChanged
    ensures image.Ok? ==> image.value == pages[|pages| - 1].image
    ensures image.Ok? ==>
              exists sourceStart :: Progress(pages, |pages|, leadingRows, top, outputY, sourceStart, output[..])
  {
    hide Valid, Copied, BestSeam, Progress, Span;
    var first := pages[0].image;
    var sourceStart: nat, current := 0, first;
    outputY := leadingRows;
    for index := 0 to |pages|
      invariant current == pages[if index < |pages| then index else index - 1].image
      invariant forall k :: 0 <= k <= index && k < |pages| ==>
                  pages[k].image.width == first.width && pages[k].image.height == first.height
      invariant index < |pages| ==> outputY == leadingRows + Shift(pages, index) + sourceStart
      invariant SameImages(pages) ==> Progress(pages, index, leadingRows, top, outputY, sourceStart, output[..])
    {
      assert PageFits(pages[index]) && pages[index].surface.height == Height(pages);
      var surface := pages[index].surface;
      var sourceEnd: nat := surface.height;
      if index + 1 < |pages| {
        var next := pages[index + 1].image;
        if next.width != first.width || next.height != first.height {
          return Err(SizesChanged), outputY;
        }
        PairsFit(pages, index);
        sourceEnd := ChooseSurfaceSeam(pages[index], pages[index + 1]);
        SeamInside(pages[index], pages[index + 1], sourceEnd);
        if SameImages(pages) {
          SeamIs(pages, index, sourceEnd);
        }
      }
      var rows := sourceEnd - sourceStart;
      ghost var before := output[..];
      CopyImageRows(current, output, surface.width, surface.x, surface.y + sourceStart, rows, outputY);
      if SameImages(pages) {
        PageDone(pages, index, leadingRows, top, outputY, sourceStart, sourceEnd, before, output[..]);
      }
      outputY := outputY + rows;
      if index + 1 < |pages| {
        sourceStart := sourceEnd - pages[index + 1].revealedRows;
        current := pages[index + 1].image;
      }
    }
    image := Ok(current);
  }

  lemma AllPlaced(pages: seq<Page>, leadingRows: nat, top: seq<Byte>, outputY: int, output: seq<Byte>)
    requires Stitchable(pages)
    requires exists sourceStart :: Progress(pages, |pages|, leadingRows, top, outputY, sourceStart, output)
    ensures outputY == leadingRows + Reached(pages, Seams(pages), |pages|)
    ensures Begins(output, top + Region(pages, Seams(pages), |pages|))
  {
  }

  lemma NothingPlaced(pages: seq<Page>, leadingRows: nat, top: seq<Byte>, output: seq<Byte>)
    requires Stitchable(pages)
    requires Begins(output, top) && |top| == Span(leadingRows, Width(pages))
    requires |top| + |Region(pages, Seams(pages), |pages|)| <= |output|
    ensures Progress(pages, 0, leadingRows, top, leadingRows, 0, output)
  {
    assert Region(pages, Seams(pages), 0) == [] && top + [] == top;
  }

  lemma SeamInside(a: Page, b: Page, row: int)
    requires PairFits(a, b) && BestSeam(a, b, row)
    ensures b.revealedRows + 2 <= row <= a.surface.height - 2
  {
  }

  lemma ReachedNext(pages: seq<Page>, seams: seq<nat>, i: nat)
    requires i < |pages| && SeamsFit(pages, seams)
    ensures Reached(pages, seams, i + 1) == Shift(pages, i) + End(pages, seams, i)
  {
  }

  /** The output buffer is exactly as large as the leading rows, the region and the trailing rows. */
  lemma OutputSize(pages: seq<Page>)
    requires Stitchable(pages)
    ensures TrailingRows(pages) >= 0 && StitchedHeight(pages) >= 0
    ensures Span(StitchedHeight(pages), Width(pages)) ==
            |Lead(pages)| + |Region(pages, Seams(pages), |pages|)| + |Trail(pages)|
    ensures |Lead(pages)| == Span(LeadingRows(pages), Width(pages)) &&
            |Trail(pages)| == Span(TrailingRows(pages), Width(pages))
  {
    hide Region, Block, Seams;
    assert PageFits(pages[0]) && PageFits(pages[|pages| - 1]);
    ReachedBound(pages, Seams(pages), |pages|);
    var surfaceRows := Reached(pages, Seams(pages), |pages|);
    SpanSum(LeadingRows(pages), surfaceRows, Width(pages));
    SpanSum(LeadingRows(pages) + surfaceRows, TrailingRows(pages), Width(pages));
  }

  lemma LeadCopied(pages: seq<Page>, blank: seq<Byte>, output: seq<Byte>)
    requires Stitchable(pages) && PageFits(pages[0]) && |blank| == |output|
    requires |Lead(pages)| == Span(LeadingRows(pages), Width(pages)) <= |output|
    requires LeadingRows(pages) > 0 ==> Copied(pages[0].image, 0, 0, Width(pages), LeadingRows(pages), 0, blank, output)
    ensures output[..Span(LeadingRows(pages), Width(pages))] == Lead(pages)
  {
    hide Block;
    if LeadingRows(pages) > 0 {
      assert FullWidth(pages) && pages[0].surface.x == 0;
    }
  }

  lemma TrailCopied(pages: seq<Page>, outputY: nat, before: seq<Byte>, after: seq<Byte>)
    requires Stitchable(pages) && PageFits(pages[|pages| - 1]) && |before| == |after|
    requires outputY == LeadingRows(pages) + Reached(pages, Seams(pages), |pages|)
    requires Begins(before, Lead(pages) + Region(pages, Seams(pages), |pages|))
    requires StitchedHeight(pages) >= 0 && |before| == Span(StitchedHeight(pages), Width(pages))
    requires var p := pages[|pages| - 1];
             if TrailingRows(pages) > 0
             then p.surface.x == 0
                  && Copied(p.image, 0, p.surface.y + p.surface.height, Width(pages), TrailingRows(pages), outputY,
                            before, after)
             else after == before
    ensures after == Lead(pages) + Region(pages, Seams(pages), |pages|) + Trail(pages)
  {
    hide *;
    OutputSize(pages);
    TrailPosition(pages, outputY);
    TrailBlock(pages);
    var held := |Lead(pages)| + |Region(pages, Seams(pages), |pages|)|;
    if TrailingRows(pages) > 0 {
      var p := pages[|pages| - 1];
      assert |before| == Span(outputY + TrailingRows(pages), Width(pages));
      CopiedBytes(p.image, 0, p.surface.y + p.surface.height, Width(pages), TrailingRows(pages), outputY, before,
        after);
      assert after[..|before|] == before[..held] + Trail(pages);
    } else {
      assert Trail(pages) == [] && after == before && |before| == held;
    }
    JoinEnd(Lead(pages), Region(pages, Seams(pages), |pages|), Trail(pages), before, after);
  }

  lemma CopiedBytes(source: Image, x: nat, y: nat, w: nat, rows: nat, destY: nat, before: seq<Byte>, after: seq<Byte>)
    requires Valid(source) && x + w <= source.width && y + rows <= source.height && rows > 0
    requires Copied(source, x, y, w, rows, destY, before, after) && Span(destY + rows, w) <= |before|
    ensures Span(destY, w) <= |before| == |after|
    ensures after[..Span(destY + rows, w)] == before[..Span(destY, w)] + Block(source, x, y, w, rows)
  {
    hide Block, Span;
  }

  lemma TrailBlock(pages: seq<Page>)
    requires Stitchable(pages)
    ensures pages != []
    ensures TrailingRows(pages) <= 0 ==> Trail(pages) == []
    ensures TrailingRows(pages) > 0 ==>
              var p := pages[|pages| - 1];
              && p.surface.x == 0 && p.surface.width == Width(pages) <= p.image.width && PageFits(p) && Valid(p.image)
              && p.surface.y + p.surface.height + TrailingRows(pages) <= p.image.height
              && Trail(pages) == Block(p.image, 0, p.surface.y + p.surface.height, Width(pages), TrailingRows(pages))
              && Trail(pages) != []
  {
    hide Block;
    var p := pages[|pages| - 1];
    assert PageFits(p);
    if TrailingRows(pages) > 0 {
      SpanSum(1, TrailingRows(pages) - 1, Width(pages));
    }
  }

  lemma JoinEnd<T>(lead: seq<T>, region: seq<T>, trail: seq<T>, before: seq<T>, after: seq<T>)
    requires Begins(before, lead + region) && |before| == |after| == |lead| + |region| + |trail|
    requires if trail == [] then after == before else after[..|before|] == before[..|lead| + |region|] + trail
    ensures after == lead + region + trail
  {
  }

  lemma RegionSize(pages: seq<Page>, seams: seq<nat>)
    requires Stitchable(pages) && SeamsFit(pages, seams)
    ensures |Region(pages, seams, |pages|)| == Span(Reached(pages, seams, |pages|), Width(pages))
  {
  }

  lemma LeadSize(pages: seq<Page>)
    requires Stitchable(pages)
    ensures pages != []
    ensures |Lead(pages)| == Span(LeadingRows(pages), Width(pages))
  {
    assert PageFits(pages[0]);
  }

  lemma TrailPosition(pages: seq<Page>, outputY: nat)
    requires Stitchable(pages)
    requires outputY == LeadingRows(pages) + Reached(pages, Seams(pages), |pages|)
    ensures var held := |Lead(pages)| + |Region(pages, Seams(pages), |pages|)|;
            && Span(outputY, Width(pages)) == held
            && (TrailingRows(pages) >= 0 ==>
                 Span(outputY + TrailingRows(pages), Width(pages)) == held + Span(TrailingRows(pages), Width(pages)))
  {
    hide *;
    LeadSize(pages);
    RegionSize(pages, Seams(pages));
    SpanSum(LeadingRows(pages), Reached(pages, Seams(pages), |pages|), Width(pages));
    if TrailingRows(pages) >= 0 {
      SpanSum(outputY, TrailingRows(pages), Width(pages));
    }
  }

  /** Fills the allocated image: the rows above the surface, the pages, the rows below. */
  method FillOutput(pages: seq<Page>, output: array<Byte>, leadingRows: nat, trailingRows: int)
    returns (image: Result<Image>)
    requires pages != [] && Captured(pages) && SameSurfaces(pages)
    requires leadingRows == LeadingRows(pages) && trailingRows == TrailingRows(pages)
    requires StitchedHeight(pages) >= 0 && output.Length == Span(StitchedHeight(pages), Width(pages))
    modifies output
    ensures image.Ok? <==> Stitchable(pages)
    ensures image.Err? ==> image.error == SizesChanged
    ensures image.Ok? ==> output[..] == Lead(pages) + Region(pages, Seams(pages), |pages|) + Trail(pages)
  {
    hide Region, Seams, Block, Progress, Copied, StitchedHeight, Valid, Span;
    var width := pages[0].surface.width;
    var lastSurface := pages[|pages| - 1].surface;
    ghost var blank, stitchable := output[..], Stitchable(pages);
    assert PageFits(pages[0]) && PageFits(pages[|pages| - 1]);
    if stitchable {
      OutputSize(pages);
    }
    if leadingRows > 0 {
      CopyImageRows(pages[0].image, output, width, 0, 0, leadingRows, 0);
    }
    ghost var top := if stitchable then Lead(pages) else [];
    if stitchable {
      LeadCopied(pages, blank, output[..]);
      NothingPlaced(pages, leadingRows, top, output[..]);
    }
    var outputY;
    image, outputY := PlacePages(pages, output, leadingRows, top);
    if image.Ok? {
      AllPlaced(pages, leadingRows, top, outputY, output[..]);
      ghost var before := output[..];
      if trailingRows > 0 {
        CopyImageRows(image.value, output, width, 0, lastSurface.y + lastSurface.height, trailingRows, outputY);
      }
      TrailCopied(pages, outputY, before, output[..]);
    }
  }

  /** Why pages cannot be stitched: there is none, their sizes differ, or the image would have a negative height. */
  function WhyNot(pages: seq<Page>): Failure {
    if pages == [] then NoViewport
    else if SameSurfaces(pages) && StitchedHeight(pages) < 0 then BadImageSize
    else SizesChanged
  }

  /**
   The stitched image: the first page's rows above the surface, the surface region with the seams the
   search picks, and the last page's rows below it. Fails exactly for no pages, or pages of different sizes, and
   says why.
   */
  method StitchSurfacePages(pages: seq<Page>) returns (r: Result<Image>)
    requires Captured(pages)
    ensures r.Ok? <==> Stitchable(pages)
    ensures r.Err? ==> r.error == WhyNot(pages)
    ensures pages == [] ==> r == Err(NoViewport)
    ensures (exists p :: p in pages && (p.surface.width, p.surface.height)
                                       != (pages[0].surface.width, pages[0].surface.height)) ==> r == Err(SizesChanged)
    ensures r.Ok? ==>
              && Valid(r.value) && r.value.width == Width(pages) && r.value.height == StitchedHeight(pages)
              && r.value.data == Lead(pages) + Region(pages, Seams(pages), |pages|) + Trail(pages)
    ensures r.Ok? ==> Framed(pages, r.value)
  {
    hide Region, Seams, Block, Framed;
    if |pages| == 0 {
      return Err(NoViewport);
    }
    if !SameSurfaces(pages) {
      return Err(SizesChanged);
    }
    var first := pages[0].image;
    var lastSurface := pages[|pages| - 1].surface;
    var isFullWidth := FullWidth(pages);
    var leadingRows := if isFullWidth then pages[0].surface.y else 0;
    var trailingRows := if isFullWidth then first.height - (lastSurface.y + lastSurface.height) else 0;
    var outputWidth := if isFullWidth then first.width else pages[0].surface.width;
    var sum := SumRevealed(pages);
    var outputHeight := leadingRows + sum + lastSurface.height + trailingRows;
    if outputHeight < 0 {
      BadSizeMeansMixed(pages);
      return Err(BadImageSize);
    }
    var output := new Byte[Span(outputHeight, outputWidth)];
    var image := FillOutput(pages, output, leadingRows, trailingRows);
    r := if image.Ok? then Ok(Image(outputWidth, outputHeight, output[..])) else image;
    if r.Ok? {
      FramedWhole(pages, r.value);
    }
  }

  /**
   What surrounds the region, on the image itself. Where every surface takes the whole width of its screenshot, the
   first screenshot's bytes above its surface come before it, and the last one's below its surface after it; otherwise
   the image is the region alone.
   */
  ghost predicate Framed(pages: seq<Page>, image: Image)
    requires Stitchable(pages)
  {
    var first, last := pages[0], pages[|pages| - 1];
    var region, rows := Region(pages, Seams(pages), |pages|), Shift(pages, |pages| - 1) + first.surface.height;
    if forall p :: p in pages ==> p.surface.x == 0 && p.surface.width == p.image.width then
      var above, below := first.surface.y, last.surface.y + last.surface.height;
      && image.width == first.image.width
      && image.height == above + rows + (last.image.height - below) && below <= last.image.height
      && above * (first.image.width * 4) <= |first.image.data|
      && 0 <= below * (last.image.width * 4) <= |last.image.data|
      && image.data == first.image.data[..above * (first.image.width * 4)] + region
                       + last.image.data[below * (last.image.width * 4)..]
    else
      image.width == first.surface.width && image.height == rows && image.data == region
  }

  lemma FramedWhole(pages: seq<Page>, image: Image)
    requires Stitchable(pages)
    requires image.width == Width(pages) && image.height == StitchedHeight(pages)
    requires image.data == Lead(pages) + Region(pages, Seams(pages), |pages|) + Trail(pages)
    ensures Framed(pages, image)
  {
    hide Region, Seams, Block, Lead, Trail, StitchedHeight, Shift, Span;
    var first, last := pages[0], pages[|pages| - 1];
    assert first in pages && last in pages;
    FullWidthIs(pages);
    StitchedHeightIs(pages);
    if FullWidth(pages) {
      LeadIs(pages);
      TrailIs(pages);
    } else {
      NoFrame(pages);
    }
  }

  lemma FullWidthIs(pages: seq<Page>)
    requires Stitchable(pages)
    ensures FullWidth(pages) <==> forall p :: p in pages ==> p.surface.x == 0 && p.surface.width == p.image.width
    ensures FullWidth(pages) ==> Width(pages) == pages[0].image.width == pages[|pages| - 1].image.width
  {
    assert pages[0] in pages && pages[|pages| - 1] in pages;
  }

  lemma StitchedHeightIs(pages: seq<Page>)
    requires Stitchable(pages)
    ensures var last, rows := pages[|pages| - 1], Shift(pages, |pages| - 1) + pages[0].surface.height;
            && last.surface.y + last.surface.height <= last.image.height
            && StitchedHeight(pages) ==
               if FullWidth(pages)
               then pages[0].surface.y + rows + (last.image.height - (last.surface.y + last.surface.height)) else rows
  {
    hide FullWidth;
    assert PageFits(pages[|pages| - 1]) && pages[|pages| - 1] in pages;
  }

  lemma LeadIs(pages: seq<Page>)
    requires Stitchable(pages) && FullWidth(pages)
    ensures var first, above := pages[0], pages[0].surface.y;
            above * (first.image.width * 4) <= |first.image.data|
            && Lead(pages) == first.image.data[..above * (first.image.width * 4)]
  {
    hide Block;
    assert PageFits(pages[0]) && pages[0] in pages;
    TopBlock(pages[0].image, pages[0].surface.y);
  }

  lemma TrailIs(pages: seq<Page>)
    requires Stitchable(pages) && FullWidth(pages)
    ensures var last := pages[|pages| - 1];
            var below := last.surface.y + last.surface.height;
            0 <= below * (last.image.width * 4) <= |last.image.data|
            && Trail(pages) == last.image.data[below * (last.image.width * 4)..]
  {
    hide Block;
    var last := pages[|pages| - 1];
    assert PageFits(last) && last in pages;
    BottomBlock(last.image, last.surface.y + last.surface.height);
  }

  lemma NoFrame(pages: seq<Page>)
    requires Stitchable(pages) && !FullWidth(pages)
    ensures Lead(pages) == [] && Trail(pages) == []
  {
    assert PageFits(pages[0]);
    NoRows(pages[0].image, pages[0].surface.x, Width(pages));
  }

  lemma NoRows(img: Image, x: nat, w: nat)
    requires Valid(img) && x + w <= img.width
    ensures Block(img, x, 0, w, 0) == []
  {
  }

  /** The rows of a whole image from row `y` on are the end of its bytes. */
  lemma BottomBlock(img: Image, y: nat)
    requires Valid(img) && y <= img.height
    ensures Span(y, img.width) <= |img.data|
    ensures Block(img, 0, y, img.width, img.height - y) == img.data[Span(y, img.width)..]
    ensures y == img.height ==> img.data[Span(y, img.width)..] == []
  {
    hide Block, Span;
    WholeBlock(img);
    TopBlock(img, y);
    BlockJoin(img, 0, 0, img.width, y, img.height - y);
  }

  /** A negative size can only come from screenshots of different heights. */
  lemma BadSizeMeansMixed(pages: seq<Page>)
    requires pages != [] && Captured(pages) && SameSurfaces(pages)
    requires StitchedHeight(pages) < 0
    ensures !SameImages(pages)
  {
    assert PageFits(pages[|pages| - 1]);
  }
}
