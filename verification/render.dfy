/** Rasterisation of the decoder's output (`predict`). The output is a flat
    row-major array of 28 * 28 intensities; cell (x, y) reads entry
    `y * 28 + x` and becomes one 5 x 5 filled rectangle at (5x, 5y) whose grey
    level is the entry times 255, with no clamping. */
module Render {

  /** Logical grid size, in cells. */
  const GridWidth: nat := 28
  const GridHeight: nat := 28

  /** Number of decoder outputs one image uses. */
  const CellCount: nat := GridWidth * GridHeight

  /** Side of one cell on the canvas, in pixels. */
  const PixelSize: nat := 5

  /** One `fillRect` call: position, size, and the grey level used for R, G
      and B alike. */
  datatype Rect = Rect(x: int, y: int, width: int, height: int, intensity: real)

  /** Row-major index of cell (x, y) in the decoder output. */
  function CellIndex(x: nat, y: nat): (k: nat)
  {
    y * GridWidth + x
  }

  /** The rectangle drawn for output entry `k`. */
  predicate DrawnFor(r: Rect, prediction: seq<real>, k: nat)
    requires k < |prediction|
  {
    r == Rect(PixelSize * (k % GridWidth), PixelSize * (k / GridWidth), PixelSize, PixelSize, prediction[k] * 255.0)
  }

  /** `rects` is what one render draws: entry `k` of the output, and no
      other, becomes the `k`-th rectangle. */
  predicate IsRaster(prediction: seq<real>, rects: seq<Rect>)
  {
    && |prediction| == CellCount
    && |rects| == CellCount
    && forall k :: 0 <= k < CellCount ==> DrawnFor(rects[k], prediction, k)
  }

  /** Cell indices are in range, and cells and indices correspond one to
      one: every entry of the output is read by exactly one cell. */
  lemma CellIndexBijective()
    ensures forall x: nat, y: nat :: x < GridWidth && y < GridHeight ==>
              CellIndex(x, y) < CellCount
              && CellIndex(x, y) % GridWidth == x && CellIndex(x, y) / GridWidth == y
    ensures forall k: nat :: k < CellCount ==>
              k % GridWidth < GridWidth && k / GridWidth < GridHeight
              && CellIndex(k % GridWidth, k / GridWidth) == k
  {
  }

  /** The two loops of `predict`: rows outer, columns inner, one rectangle
      per cell. */
  method Rasterise(prediction: seq<real>) returns (rects: seq<Rect>)
    requires |prediction| == CellCount
    ensures IsRaster(prediction, rects)
    ensures forall x: nat, y: nat :: x < GridWidth && y < GridHeight ==>
              rects[CellIndex(x, y)] == Rect(PixelSize * x, PixelSize * y, PixelSize, PixelSize,
                                             prediction[CellIndex(x, y)] * 255.0)
  {
    rects := [];
    var y := 0;
    while y < GridHeight
      invariant 0 <= y <= GridHeight
      invariant |rects| == y * GridWidth
      invariant forall k :: 0 <= k < |rects| ==> DrawnFor(rects[k], prediction, k)
    {
      var x := 0;
      while x < GridWidth
        invariant 0 <= x <= GridWidth
        invariant |rects| == y * GridWidth + x
        invariant forall k :: 0 <= k < |rects| ==> DrawnFor(rects[k], prediction, k)
      {
        var value := prediction[CellIndex(x, y)] * 255.0;
        assert CellIndex(x, y) % GridWidth == x && CellIndex(x, y) / GridWidth == y;
        rects := rects + [Rect(x * PixelSize, y * PixelSize, PixelSize, PixelSize, value)];
        x := x + 1;
      }
      y := y + 1;
    }
    CellIndexBijective();
  }

  /** Pixel (px, py) lies inside rectangle `r`. */
  predicate Covers(r: Rect, px: int, py: int)
  {
    r.x <= px < r.x + r.width && r.y <= py < r.y + r.height
  }

  /** Side of the whole image on the canvas: 140 pixels. */
  const ImageSide: nat := GridWidth * PixelSize

  /** The rectangles tile the 140 x 140 image: each pixel lies in the
      rectangle of cell (px / 5, py / 5) and in no other. */
  lemma RasterTilesImage(prediction: seq<real>, rects: seq<Rect>, px: nat, py: nat)
    requires IsRaster(prediction, rects)
    requires px < ImageSide && py < ImageSide
    ensures CellIndex(px / PixelSize, py / PixelSize) < CellCount
    ensures forall k :: 0 <= k < CellCount ==>
              (Covers(rects[k], px, py) <==> k == CellIndex(px / PixelSize, py / PixelSize))
  {
    var cell := CellIndex(px / PixelSize, py / PixelSize);
    forall k | 0 <= k < CellCount
      ensures Covers(rects[k], px, py) <==> k == cell
    {
      assert DrawnFor(rects[k], prediction, k);
      var cx, cy := k % GridWidth, k / GridWidth;
      assert k == cy * GridWidth + cx;
      CoversIff(cx, px);
      CoversIff(cy, py);
    }
  }

  /** Along one axis, cell `c` spans pixel `p` exactly when `p / 5 == c`. */
  lemma CoversIff(c: nat, p: nat)
    ensures PixelSize * c <= p < PixelSize * c + PixelSize <==> p / PixelSize == c
  {
  }
}
