/** Decoded screenshots: four bytes a pixel, rows one after another. */
module SurfacePixels {
  import opened Bytes

  datatype Image = Image(width: nat, height: nat, data: seq<Byte>)

  datatype Rect = Rect(x: nat, y: nat, width: nat, height: nat)

  /** The byte offset of pixel (`x`, `y`) in an image of this width. */
  function Offset(width: nat, x: nat, y: nat): (o: nat)
    ensures o == y * (width * 4) + x * 4
  {
    OffsetLinear(width, x, y);
    (y * width + x) * 4
  }

  lemma OffsetLinear(width: nat, x: nat, y: nat)
    ensures (y * width + x) * 4 == y * (width * 4) + x * 4 >= 0
  {
  }

  /** The bytes of `rows` rows of `w` pixels. */
  function Span(rows: nat, w: nat): nat {
    rows * (w * 4)
  }

  lemma SpanSum(m: nat, n: nat, w: nat)
    ensures Span(m + n, w) == Span(m, w) + Span(n, w)
  {
  }

  predicate Valid(img: Image) {
    |img.data| == Span(img.height, img.width)
  }

  predicate Inside(r: Rect, img: Image) {
    0 < r.width && 0 < r.height && r.x + r.width <= img.width && r.y + r.height <= img.height
  }

  lemma RowsFit(stride: nat, y: nat, height: nat)
    requires y < height
    ensures (y + 1) * stride == y * stride + stride <= height * stride
  {
  }

  lemma RowFits(img: Image, x: nat, y: nat, w: nat)
    requires Valid(img) && x + w <= img.width && y < img.height
    ensures Offset(img.width, x, y) + w * 4 <= |img.data|
  {
    RowsFit(img.width * 4, y, img.height);
  }

  /** The bytes of `w` pixels of row `y`, from column `x`. */
  function Row(img: Image, x: nat, y: nat, w: nat): (bytes: seq<Byte>)
    requires Valid(img) && x + w <= img.width && y < img.height
    ensures |bytes| == w * 4
  {
    RowFits(img, x, y, w);
    img.data[Offset(img.width, x, y)..Offset(img.width, x, y) + w * 4]
  }

  /** The value of one channel of one pixel. */
  function Channel(img: Image, x: nat, y: nat, c: nat): Byte
    requires Valid(img) && x < img.width && y < img.height && c < 4
  {
    RowFits(img, x, y, 1);
    img.data[Offset(img.width, x, y) + c]
  }

  lemma ChannelInRow(img: Image, x: nat, y: nat, w: nat, i: nat, c: nat)
    requires Valid(img) && x + w <= img.width && y < img.height && i < w && c < 4
    ensures i * 4 + c < |Row(img, x, y, w)| && Row(img, x, y, w)[i * 4 + c] == Channel(img, x + i, y, c)
  {
    RowFits(img, x, y, w);
  }

  /** `rows` whole rows from row `y`, joined. */
  function Block(img: Image, x: nat, y: nat, w: nat, rows: nat): (bytes: seq<Byte>)
    requires Valid(img) && x + w <= img.width && y + rows <= img.height
    ensures |bytes| == Span(rows, w)
  {
    if rows == 0 then []
    else
      RowsFit(w * 4, rows - 1, rows);
      Block(img, x, y, w, rows - 1) + Row(img, x, y + rows - 1, w)
  }

  lemma BlockStep(img: Image, x: nat, y: nat, w: nat, rows: nat)
    requires Valid(img) && x + w <= img.width && y + rows < img.height
    ensures Block(img, x, y, w, rows + 1) == Block(img, x, y, w, rows) + Row(img, x, y + rows, w)
  {
  }

  lemma {:induction false} BlockJoin(img: Image, x: nat, y: nat, w: nat, m: nat, n: nat)
    requires Valid(img) && x + w <= img.width && y + m + n <= img.height
    ensures Block(img, x, y, w, m) + Block(img, x, y + m, w, n) == Block(img, x, y, w, m + n)
  {
    if n > 0 {
      BlockJoin(img, x, y, w, m, n - 1);
      Rejoin(Block(img, x, y, w, m), Block(img, x, y + m, w, n - 1), Row(img, x, y + m + n - 1, w));
    }
  }

  lemma BlockTake(img: Image, x: nat, y: nat, w: nat, m: nat, n: nat)
    requires Valid(img) && x + w <= img.width && y + n <= img.height && m <= n
    ensures Span(m, w) <= Span(n, w) && Block(img, x, y, w, n)[..Span(m, w)] == Block(img, x, y, w, m)
  {
    hide Block, Span;
    BlockJoin(img, x, y, w, m, n - m);
    SpanSum(m, n - m, w);
  }

  /** `k` rows below their tops, two areas of `w` pixels show the same bytes. */
  predicate SameRow(a: Image, ax: nat, ay: nat, b: Image, bx: nat, bTop: nat, w: nat, k: nat)
    requires Valid(a) && ax + w <= a.width && ay + k < a.height
    requires Valid(b) && bx + w <= b.width && bTop + k < b.height
  {
    Row(a, ax, ay + k, w) == Row(b, bx, bTop + k, w)
  }

  /** Where the rows of two areas agree, so do the blocks. */
  lemma {:induction false} SameBlock(a: Image, ax: nat, ay: nat, b: Image, bx: nat, bTop: nat, w: nat, rows: nat)
    requires Valid(a) && ax + w <= a.width && ay + rows <= a.height
    requires Valid(b) && bx + w <= b.width && bTop + rows <= b.height
    requires forall k :: 0 <= k < rows ==> SameRow(a, ax, ay, b, bx, bTop, w, k)
    ensures Block(a, ax, ay, w, rows) == Block(b, bx, bTop, w, rows)
  {
    if rows > 0 {
      SameBlock(a, ax, ay, b, bx, bTop, w, rows - 1);
      assert SameRow(a, ax, ay, b, bx, bTop, w, rows - 1);
    }
  }

  /** The rows of a whole image from its top are the beginning of its bytes. */
  lemma {:induction false} TopBlock(img: Image, rows: nat)
    requires Valid(img) && rows <= img.height
    ensures Span(rows, img.width) <= |img.data|
    ensures Block(img, 0, 0, img.width, rows) == img.data[..Span(rows, img.width)]
  {
    if rows > 0 {
      TopBlock(img, rows - 1);
      RowFits(img, 0, rows - 1, img.width);
      SpanSum(rows - 1, 1, img.width);
    }
  }

  /** All rows of an image are all its bytes. */
  lemma WholeBlock(img: Image)
    requires Valid(img)
    ensures Block(img, 0, 0, img.width, img.height) == img.data
  {
    TopBlock(img, img.height);
  }
}
