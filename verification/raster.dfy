/**
  Images as numpy arrays see them: `height` rows of `width` pixels, each pixel
  a vector of channel values (three for BGR/HSV, one for grayscale). This
  module holds the image operations whose semantics are simple enough to
  state exactly: the `cv2.inRange` mask, `cv2.boundingRect` of a contour,
  numpy slicing (the crop) and `cv2.rotate` by 90 degrees counter-clockwise.
 */
module Raster {

  type Pixel = seq<int>

  datatype Image = Image(width: nat, height: nat, pixels: seq<seq<Pixel>>) {

    /** The pixel grid has the declared shape. */
    predicate Valid() {
      |pixels| == height && forall r :: 0 <= r < |pixels| ==> |pixels[r]| == width
    }

    /** An image with no pixels (numpy `size == 0`). */
    predicate IsEmpty() {
      width == 0 || height == 0
    }

    predicate SameShape(other: Image) {
      width == other.width && height == other.height
    }
  }

  /** A point of a contour, in pixel coordinates (`x` is the column). */
  datatype Point = Point(x: nat, y: nat)

  /** A contour as `cv2.findContours` returns it: its points in order. */
  type Contour = seq<Point>

  /** An upright rectangle `(x, y, w, h)`. */
  datatype Rect = Rect(x: nat, y: nat, w: nat, h: nat) {

    predicate Contains(p: Point) {
      x <= p.x < x + w && y <= p.y < y + h
    }

    /** The rectangle lies within a `width` by `height` image. */
    predicate FitsIn(width: nat, height: nat) {
      x + w <= width && y + h <= height
    }
  }

  // ---------------------------------------------------------------------------
  // cv2.inRange

  const MaskOn: int := 255
  const MaskOff: int := 0

  /** Every channel of `p` lies inclusively between the matching channels of `lo` and `hi`. */
  predicate InRange(p: Pixel, lo: seq<int>, hi: seq<int>) {
    |p| == |lo| == |hi| && forall c :: 0 <= c < |p| ==> lo[c] <= p[c] <= hi[c]
  }

  /** `cv2.inRange(src, lo, hi)`: a one-channel image, 255 where the pixel is in range and 0 elsewhere. */
  function InRangeMask(src: Image, lo: seq<int>, hi: seq<int>): (m: Image)
    requires src.Valid()
    ensures m.Valid() && m.SameShape(src)
    ensures forall i, j :: 0 <= i < m.height && 0 <= j < m.width ==>
              (m.pixels[i][j] == [MaskOn] <==> InRange(src.pixels[i][j], lo, hi))
              && (m.pixels[i][j] == [MaskOn] || m.pixels[i][j] == [MaskOff])
  {
    Image(src.width, src.height,
          seq(src.height, i requires 0 <= i < src.height =>
            seq(src.width, j requires 0 <= j < src.width =>
              if InRange(src.pixels[i][j], lo, hi) then [MaskOn] else [MaskOff])))
  }

  /** No pixel of a mask is set. */
  predicate Blank(m: Image)
    requires m.Valid()
  {
    forall i, j :: 0 <= i < m.height && 0 <= j < m.width ==> m.pixels[i][j] != [MaskOn]
  }

  /** The mask is blank exactly when no source pixel is in range. */
  lemma BlankMaskIffNoPixelInRange(src: Image, lo: seq<int>, hi: seq<int>)
    requires src.Valid()
    ensures Blank(InRangeMask(src, lo, hi))
            <==> forall i, j :: 0 <= i < src.height && 0 <= j < src.width ==> !InRange(src.pixels[i][j], lo, hi)
  {
  }

  // ---------------------------------------------------------------------------
  // cv2.boundingRect

  function MinX(c: Contour): (r: nat)
    requires |c| > 0
    ensures forall i :: 0 <= i < |c| ==> r <= c[i].x
    ensures exists i :: 0 <= i < |c| && c[i].x == r
  {
    if |c| == 1 then c[0].x
    else var m := MinX(c[1..]); if c[0].x <= m then c[0].x else m
  }

  function MaxX(c: Contour): (r: nat)
    requires |c| > 0
    ensures forall i :: 0 <= i < |c| ==> c[i].x <= r
    ensures exists i :: 0 <= i < |c| && c[i].x == r
  {
    if |c| == 1 then c[0].x
    else var m := MaxX(c[1..]); if c[0].x >= m then c[0].x else m
  }

  function MinY(c: Contour): (r: nat)
    requires |c| > 0
    ensures forall i :: 0 <= i < |c| ==> r <= c[i].y
    ensures exists i :: 0 <= i < |c| && c[i].y == r
  {
    if |c| == 1 then c[0].y
    else var m := MinY(c[1..]); if c[0].y <= m then c[0].y else m
  }

  function MaxY(c: Contour): (r: nat)
    requires |c| > 0
    ensures forall i :: 0 <= i < |c| ==> c[i].y <= r
    ensures exists i :: 0 <= i < |c| && c[i].y == r
  {
    if |c| == 1 then c[0].y
    else var m := MaxY(c[1..]); if c[0].y >= m then c[0].y else m
  }

  /**
    `cv2.boundingRect(c)`: the smallest upright rectangle holding every point
    of the contour. Its sides are at least one pixel long.
   */
  function BoundingRect(c: Contour): (r: Rect)
    requires |c| > 0
    ensures r.w >= 1 && r.h >= 1
    ensures forall i :: 0 <= i < |c| ==> r.Contains(c[i])
    ensures exists i :: 0 <= i < |c| && c[i].x == r.x
    ensures exists i :: 0 <= i < |c| && c[i].y == r.y
    ensures exists i :: 0 <= i < |c| && c[i].x == r.x + r.w - 1
    ensures exists i :: 0 <= i < |c| && c[i].y == r.y + r.h - 1
  {
    var x0 := MinX(c);
    var y0 := MinY(c);
    Rect(x0, y0, MaxX(c) - x0 + 1, MaxY(c) - y0 + 1)
  }

  /** A contour lying inside an image has its bounding rectangle inside that image. */
  lemma BoundingRectFits(c: Contour, width: nat, height: nat)
    requires |c| > 0
    requires forall i :: 0 <= i < |c| ==> c[i].x < width && c[i].y < height
    ensures BoundingRect(c).FitsIn(width, height)
  {
    var r := BoundingRect(c);
    var i :| 0 <= i < |c| && c[i].x == r.x + r.w - 1;
    var j :| 0 <= j < |c| && c[j].y == r.y + r.h - 1;
  }

  // ---------------------------------------------------------------------------
  // numpy slicing: image[y:y+h, x:x+w]

  /** A non-negative slice bound as Python clamps it to a length. */
  function Clamp(n: nat, len: nat): nat
  {
    if n < len then n else len
  }

  /**
    `image[y:y+h, x:x+w]`. Python clamps the slice bounds to the array, so a
    rectangle sticking out of the image gives a smaller (possibly empty) crop;
    a rectangle inside the image gives exactly its own size, pixel for pixel.
   */
  function Crop(img: Image, r: Rect): (c: Image)
    requires img.Valid()
    ensures c.Valid()
    ensures c.width <= r.w && c.height <= r.h
    ensures r.FitsIn(img.width, img.height) ==> c.width == r.w && c.height == r.h
    ensures forall i, j :: 0 <= i < c.height && 0 <= j < c.width ==>
              r.y + i < img.height && r.x + j < img.width
              && c.pixels[i][j] == img.pixels[r.y + i][r.x + j]
  {
    var y0 := Clamp(r.y, img.height);
    var y1 := Clamp(r.y + r.h, img.height);
    var x0 := Clamp(r.x, img.width);
    var x1 := Clamp(r.x + r.w, img.width);
    Image(x1 - x0, y1 - y0,
          seq(y1 - y0, i requires 0 <= i < y1 - y0 => img.pixels[y0 + i][x0..x1]))
  }

  // ---------------------------------------------------------------------------
  // cv2.rotate(img, cv2.ROTATE_90_COUNTERCLOCKWISE)

  /**
    A quarter turn counter-clockwise: the width and height swap, and the
    pixel at row `i`, column `j` of the result is the one at row `j`, column
    `width - 1 - i` of the input (the last column becomes the first row).
   */
  function RotateCcw(img: Image): (r: Image)
    requires img.Valid()
    ensures r.Valid()
    ensures r.width == img.height && r.height == img.width
    ensures forall i, j :: 0 <= i < r.height && 0 <= j < r.width ==>
              r.pixels[i][j] == img.pixels[j][img.width - 1 - i]
  {
    Image(img.height, img.width,
          seq(img.width, i requires 0 <= i < img.width =>
            seq(img.height, j requires 0 <= j < img.height => img.pixels[j][img.width - 1 - i])))
  }

  /** Two valid images with the same shape and the same pixels are equal. */
  lemma SamePixelsSameImage(a: Image, b: Image)
    requires a.Valid() && b.Valid() && a.SameShape(b)
    requires forall i, j :: 0 <= i < a.height && 0 <= j < a.width ==> a.pixels[i][j] == b.pixels[i][j]
    ensures a == b
  {
    forall i | 0 <= i < a.height
      ensures a.pixels[i] == b.pixels[i]
    {
    }
  }

  /** A half turn maps each pixel to the point-reflected position. */
  lemma HalfTurn(img: Image)
    requires img.Valid()
    ensures RotateCcw(RotateCcw(img)).SameShape(img)
    ensures forall i, j :: 0 <= i < img.height && 0 <= j < img.width ==>
              RotateCcw(RotateCcw(img)).pixels[i][j] == img.pixels[img.height - 1 - i][img.width - 1 - j]
  {
  }

  /** Four quarter turns give back the original image. */
  lemma FullTurn(img: Image)
    requires img.Valid()
    ensures RotateCcw(RotateCcw(RotateCcw(RotateCcw(img)))) == img
  {
    var half := RotateCcw(RotateCcw(img));
    HalfTurn(img);
    HalfTurn(half);
    SamePixelsSameImage(RotateCcw(RotateCcw(half)), img);
  }
}
