/**
  `ImageProcessor`: find the blue part in a photo, crop it, stretch the crop
  to a square, unwarp it into polar coordinates, and save each of the three
  results as an artifact in the scratch directory.

  Every stage catches all of its own exceptions and reports `(None, False)`,
  modelled as `Fail`; `process` stops at the first stage that fails.
 */
module ImageProcessor {
  import opened Outcome
  import opened Clock
  import opened Paths
  import opened Raster
  import opened Vision

  /** The inclusive HSV bounds of "blue" (`lower_blue`, `upper_blue`). */
  const LowerBlue: seq<int> := [100, 100, 100]
  const UpperBlue: seq<int> := [130, 255, 255]

  /** The clock reading and the write outcome one stage meets when it saves its artifact. */
  datatype StageIo = StageIo(now: DateTime, accepted: bool)

  // ---------------------------------------------------------------------------
  // detect_blue_part

  /** `cv2.inRange(hsv, lower_blue, upper_blue)`. */
  function BlueMask(hsv: Image): (m: Image)
    requires hsv.Valid()
    ensures m.Valid() && m.SameShape(hsv)
  {
    InRangeMask(hsv, LowerBlue, UpperBlue)
  }

  /** A mask pixel is set exactly when hue is in 100..130 and saturation and value are in 100..255. */
  lemma BlueMaskPixel(hsv: Image, i: nat, j: nat)
    requires hsv.Valid() && i < hsv.height && j < hsv.width
    ensures BlueMask(hsv).pixels[i][j] == [MaskOn]
            <==> |hsv.pixels[i][j]| == 3
                 && 100 <= hsv.pixels[i][j][0] <= 130
                 && 100 <= hsv.pixels[i][j][1] <= 255
                 && 100 <= hsv.pixels[i][j][2] <= 255
  {
    var p := hsv.pixels[i][j];
    if |p| == 3 && 100 <= p[0] <= 130 && 100 <= p[1] <= 255 && 100 <= p[2] <= 255 {
      assert forall c :: 0 <= c < 3 ==> LowerBlue[c] <= p[c] <= UpperBlue[c];
    }
  }

  /**
    Python's `max(xs, key=key)`: it keeps the first element and replaces it
    only by a strictly larger one, so the result is a maximum and no earlier
    element has the same key.
   */
  function FirstMaxBy<T>(xs: seq<T>, key: T -> real): (k: nat)
    requires |xs| > 0
    ensures k < |xs|
    ensures forall j :: 0 <= j < |xs| ==> key(xs[j]) <= key(xs[k])
    ensures forall j :: 0 <= j < k ==> key(xs[j]) < key(xs[k])
  {
    if |xs| == 1 then 0
    else
      var k := FirstMaxBy(xs[..|xs| - 1], key);
      if key(xs[|xs| - 1]) > key(xs[k]) then |xs| - 1 else k
  }

  /** Those two properties single out one index: the first maximum. */
  lemma FirstMaxByUnique<T>(xs: seq<T>, key: T -> real, k: nat)
    requires k < |xs|
    requires forall j :: 0 <= j < |xs| ==> key(xs[j]) <= key(xs[k])
    requires forall j :: 0 <= j < k ==> key(xs[j]) < key(xs[k])
    ensures k == FirstMaxBy(xs, key)
  {
  }

  /**
    The part's bounding box in `image`: the bounding rectangle of the blue
    contour with the largest area, or `None` when the mask has no contour.
   */
  function BlueRegion(lib: Library, image: Image): (r: Option<Rect>)
    requires lib.FiltersLawful() && lib.ContoursLawful() && image.Valid()
    ensures r.Some? ==> r.value.FitsIn(image.width, image.height) && r.value.w >= 1 && r.value.h >= 1
  {
    var contours := lib.findContours(BlueMask(lib.toHsv(image)));
    if |contours| == 0 then None
    else
      var c := contours[FirstMaxBy(contours, lib.contourArea)];
      BoundingRectFits(c, image.width, image.height);
      Some(BoundingRect(c))
  }

  /** The region found is the bounding box of the first contour of largest area. */
  lemma BlueRegionIsLargestContour(lib: Library, image: Image)
    requires lib.FiltersLawful() && lib.ContoursLawful() && image.Valid()
    ensures var contours := lib.findContours(BlueMask(lib.toHsv(image)));
            && (BlueRegion(lib, image).None? <==> |contours| == 0)
            && (BlueRegion(lib, image).Some? ==>
                  exists k :: 0 <= k < |contours|
                    && BlueRegion(lib, image).value == BoundingRect(contours[k])
                    && (forall j :: 0 <= j < |contours| ==>
                          lib.contourArea(contours[j]) <= lib.contourArea(contours[k]))
                    && (forall j :: 0 <= j < k ==>
                          lib.contourArea(contours[j]) < lib.contourArea(contours[k])))
  {
    var contours := lib.findContours(BlueMask(lib.toHsv(image)));
    if |contours| > 0 {
      var k := FirstMaxBy(contours, lib.contourArea);
      assert BlueRegion(lib, image).value == BoundingRect(contours[k]);
    }
  }

  /** A photo with no pixel in the blue range has no region. */
  lemma NoBlueNoRegion(lib: Library, image: Image)
    requires lib.FiltersLawful() && lib.ContoursLawful() && image.Valid()
    ensures BlueRegion(lib, image).None?
            <==> forall i, j :: 0 <= i < image.height && 0 <= j < image.width ==>
                   !InRange(lib.toHsv(image).pixels[i][j], LowerBlue, UpperBlue)
  {
    var hsv := lib.toHsv(image);
    BlankMaskIffNoPixelInRange(hsv, LowerBlue, UpperBlue);
    assert |lib.findContours(BlueMask(hsv))| == 0 <==> Blank(BlueMask(hsv));
  }

  /**
    `detect_blue_part(image_path)`: read and decode the photo, crop it to the
    blue region and save the crop as `cropped_<stamp>.jpg`. It fails when the
    file is missing or not an image, when no blue region is found, or when
    the crop is not saved.
   */
  function DetectBluePart(lib: Library, scratch: string, disk: Disk, imagePath: string, io: StageIo)
    : (s: Staged<string>)
    requires lib.Lawful()
    ensures s.step.Ok? ==> s.step.value == ArtifactPath(scratch, Cropped, io.now)
    ensures s.step.Fail? ==> s.disk == disk
  {
    if imagePath !in disk then Staged(Fail, disk)
    else
      match lib.decode(disk[imagePath])
      case None => Staged(Fail, disk)
      case Some(image) =>
        match BlueRegion(lib, image)
        case None => Staged(Fail, disk)
        case Some(box) =>
          SaveChecked(lib, disk, ArtifactPath(scratch, Cropped, io.now), Crop(image, box), io.accepted)
  }

  /**
    Detection succeeds exactly when the photo decodes, has a blue region and
    the crop is saved; the saved crop then reads back with the region's size.
   */
  lemma DetectOutcome(lib: Library, scratch: string, disk: Disk, imagePath: string, io: StageIo)
    requires lib.Lawful()
    ensures var s := DetectBluePart(lib, scratch, disk, imagePath, io);
            var photo := ImRead(lib, disk, imagePath);
            && (s.step.Ok? <==> photo.Some? && BlueRegion(lib, photo.value).Some? && io.accepted)
            && (s.step.Ok? ==>
                  var box := BlueRegion(lib, photo.value).value;
                  && ImRead(lib, s.disk, s.step.value).Some?
                  && ImRead(lib, s.disk, s.step.value).value.width == box.w
                  && ImRead(lib, s.disk, s.step.value).value.height == box.h)
  {
    var photo := ImRead(lib, disk, imagePath);
    if photo.Some? && BlueRegion(lib, photo.value).Some? {
      var box := BlueRegion(lib, photo.value).value;
      var cropped := Crop(photo.value, box);
      assert cropped.width == box.w && cropped.height == box.h;
    }
  }

  // ---------------------------------------------------------------------------
  // stretch_to_square

  function Max(a: nat, b: nat): (m: nat)
    ensures m >= a && m >= b && (m == a || m == b)
  {
    if a >= b then a else b
  }

  function Min(a: nat, b: nat): (m: nat)
    ensures m <= a && m <= b && (m == a || m == b)
  {
    if a <= b then a else b
  }

  /**
    `stretch_to_square(image_path)`: read the crop, resize it (area
    interpolation) to a square whose side is its longer side, and save it as
    `stretched_<stamp>.jpg`. It fails when the file cannot be read or the
    square is not saved.
   */
  function StretchToSquare(lib: Library, scratch: string, disk: Disk, imagePath: string, io: StageIo)
    : (s: Staged<string>)
    requires lib.Lawful()
    ensures s.step.Ok? ==> s.step.value == ArtifactPath(scratch, Stretched, io.now)
    ensures s.step.Fail? ==> s.disk == disk
  {
    match ImRead(lib, disk, imagePath)
    case None => Staged(Fail, disk)
    case Some(image) =>
      var side := Max(image.width, image.height);
      SaveChecked(lib, disk, ArtifactPath(scratch, Stretched, io.now),
                  lib.resizeArea(image, side, side), io.accepted)
  }

  /**
    Stretching succeeds exactly when the input reads and the square is saved;
    the saved image is square with side `max(width, height)` of the input.
   */
  lemma SquareSize(lib: Library, scratch: string, disk: Disk, imagePath: string, io: StageIo)
    requires lib.Lawful()
    ensures var s := StretchToSquare(lib, scratch, disk, imagePath, io);
            var input := ImRead(lib, disk, imagePath);
            && (s.step.Ok? <==> input.Some? && io.accepted)
            && (s.step.Ok? ==>
                  var side := Max(input.value.width, input.value.height);
                  && ImRead(lib, s.disk, s.step.value).Some?
                  && ImRead(lib, s.disk, s.step.value).value.width == side
                  && ImRead(lib, s.disk, s.step.value).value.height == side)
  {
    var input := ImRead(lib, disk, imagePath);
    if input.Some? {
      var side := Max(input.value.width, input.value.height);
      var sq := lib.resizeArea(input.value, side, side);
      assert sq.Valid() && sq.width == side && sq.height == side && !sq.IsEmpty();
    }
  }

  // ---------------------------------------------------------------------------
  // preprocess_image

  /**
    The transform chain of `preprocess_image`: grayscale, CLAHE, Gaussian
    blur, then a linear polar warp centred at `(w // 2, h // 2)` with
    `max_radius = min(w // 2, h // 2)` into a `w` wide, `8 * max_radius` high
    image (eight-fold angular oversampling), turned a quarter counter-clockwise.
    The result is therefore `8 * max_radius` wide and `w` high.
   */
  function Unwarp(lib: Library, image: Image): (r: Image)
    requires lib.FiltersLawful() && lib.GeometryLawful() && image.Valid() && !image.IsEmpty()
    ensures r.Valid()
    ensures var maxRadius := Min(image.width / 2, image.height / 2);
            maxRadius > 0 ==> r.width == 8 * maxRadius && r.height == image.width
  {
    var blurred := lib.gaussianBlur(lib.clahe(lib.toGray(image)));
    var w := blurred.width;
    var h := blurred.height;
    var center := Point(w / 2, h / 2);
    var maxRadius := Min(center.x, center.y);
    var polar := lib.warpPolar(blurred, w, maxRadius * 8, center, maxRadius);
    RotateCcw(polar)
  }

  /**
    `preprocess_image(image_path)`: read the square, unwarp it and save it as
    `processed_<stamp>.jpg`. It fails only when the input cannot be read or
    OpenCV raises; the flag `cv2.imwrite` returns is ignored.
   */
  function PreprocessImage(lib: Library, scratch: string, disk: Disk, imagePath: string, io: StageIo)
    : (s: Staged<string>)
    requires lib.Lawful()
    ensures s.step.Ok? ==> s.step.value == ArtifactPath(scratch, Processed, io.now)
    ensures s.step.Fail? ==> s.disk == disk
  {
    match ImRead(lib, disk, imagePath)
    case None => Staged(Fail, disk)
    case Some(image) =>
      var out := ArtifactPath(scratch, Processed, io.now);
      match ImWrite(lib, disk, out, Unwarp(lib, image), io.accepted)
      case Raised => Staged(Fail, disk)
      case Returned(_, d) => Staged(Ok(out), d)
  }

  /**
    Preprocessing reports success even when the write is refused: the path
    it returns then names no file written by this call.
   */
  lemma PreprocessIgnoresWrite(lib: Library, scratch: string, disk: Disk, imagePath: string, io: StageIo)
    requires lib.Lawful()
    requires ImRead(lib, disk, imagePath).Some?
    requires !Unwarp(lib, ImRead(lib, disk, imagePath).value).IsEmpty()
    ensures var s := PreprocessImage(lib, scratch, disk, imagePath, io);
            && s.step.Ok?
            && (io.accepted ==> s.step.value in s.disk)
            && (!io.accepted ==> s.disk == disk)
  {
  }

  /**
    For a readable square input of side at least 2 the saved polar image is
    `8 * (side // 2)` wide and `side` high.
   */
  lemma PolarShape(lib: Library, scratch: string, disk: Disk, imagePath: string, io: StageIo)
    requires lib.Lawful()
    requires ImRead(lib, disk, imagePath).Some?
    requires ImRead(lib, disk, imagePath).value.width == ImRead(lib, disk, imagePath).value.height >= 2
    requires io.accepted
    ensures var s := PreprocessImage(lib, scratch, disk, imagePath, io);
            var side := ImRead(lib, disk, imagePath).value.width;
            && s.step.Ok?
            && ImRead(lib, s.disk, s.step.value).Some?
            && ImRead(lib, s.disk, s.step.value).value.width == 8 * (side / 2)
            && ImRead(lib, s.disk, s.step.value).value.height == side
  {
    var image := ImRead(lib, disk, imagePath).value;
    var polar := Unwarp(lib, image);
    assert polar.width == 8 * (image.width / 2) && polar.height == image.width;
  }

  // ---------------------------------------------------------------------------
  // process

  /** The three artifact paths `process` returns: the `cropped_image`, `stretched_image` and `processed_image` keys. */
  datatype Artifacts = Artifacts(cropped: string, stretched: string, processed: string)

  /** What the three stages meet, in order. */
  datatype ProcessIo = ProcessIo(detect: StageIo, stretch: StageIo, preprocess: StageIo)

  /** `process(image_path)`: the three stages chained, stopping at the first that fails. */
  function Process(lib: Library, scratch: string, disk: Disk, imagePath: string, io: ProcessIo)
    : (s: Staged<Artifacts>)
    requires lib.Lawful()
  {
    var d := DetectBluePart(lib, scratch, disk, imagePath, io.detect);
    if d.step.Fail? then Staged(Fail, d.disk)
    else
      var st := StretchToSquare(lib, scratch, d.disk, d.step.value, io.stretch);
      if st.step.Fail? then Staged(Fail, st.disk)
      else
        var p := PreprocessImage(lib, scratch, st.disk, st.step.value, io.preprocess);
        if p.step.Fail? then Staged(Fail, p.disk)
        else Staged(Ok(Artifacts(d.step.value, st.step.value, p.step.value)), p.disk)
  }

  /**
    `process` succeeds exactly when detection, stretching and preprocessing
    all succeed, each fed the previous stage's artifact, and it then returns
    the three artifact paths, each named after its stage and clock reading.
   */
  lemma ProcessSucceedsIffAllStages(lib: Library, scratch: string, disk: Disk, imagePath: string, io: ProcessIo)
    requires lib.Lawful()
    ensures var s := Process(lib, scratch, disk, imagePath, io);
            var d := DetectBluePart(lib, scratch, disk, imagePath, io.detect);
            && (s.step.Ok? <==>
                  && d.step.Ok?
                  && StretchToSquare(lib, scratch, d.disk, d.step.value, io.stretch).step.Ok?
                  && PreprocessImage(lib, scratch,
                       StretchToSquare(lib, scratch, d.disk, d.step.value, io.stretch).disk,
                       ArtifactPath(scratch, Stretched, io.stretch.now), io.preprocess).step.Ok?)
            && (s.step.Ok? ==> s.step.value == Artifacts(ArtifactPath(scratch, Cropped, io.detect.now),
                                                         ArtifactPath(scratch, Stretched, io.stretch.now),
                                                         ArtifactPath(scratch, Processed, io.preprocess.now)))
  {
  }

  /**
    A failing stage ends the run: when detection fails nothing is written and
    the outcome does not depend on what the later stages would have met; when
    stretching fails, the same holds of preprocessing.
   */
  lemma ProcessStopsAtFirstFailure(lib: Library, scratch: string, disk: Disk, imagePath: string,
                                   io: ProcessIo, other: ProcessIo)
    requires lib.Lawful()
    ensures DetectBluePart(lib, scratch, disk, imagePath, io.detect).step.Fail? ==>
              && Process(lib, scratch, disk, imagePath, io) == Staged(Fail, disk)
              && (other.detect == io.detect ==>
                    Process(lib, scratch, disk, imagePath, other) == Process(lib, scratch, disk, imagePath, io))
    ensures var d := DetectBluePart(lib, scratch, disk, imagePath, io.detect);
            d.step.Ok? && StretchToSquare(lib, scratch, d.disk, d.step.value, io.stretch).step.Fail? ==>
              && Process(lib, scratch, disk, imagePath, io) == Staged(Fail, d.disk)
              && (other.detect == io.detect && other.stretch == io.stretch ==>
                    Process(lib, scratch, disk, imagePath, other) == Process(lib, scratch, disk, imagePath, io))
  {
  }

  /**
    The geometry of a whole run with every write accepted and a blue region
    of longer side at least 2: the run succeeds, the square has the region's
    longer side, and the saved polar image is `8 * (side // 2)` wide and
    `side` high.
   */
  lemma PipelineGeometry(lib: Library, scratch: string, disk: Disk, imagePath: string, io: ProcessIo)
    requires lib.Lawful()
    requires io.detect.accepted && io.stretch.accepted && io.preprocess.accepted
    requires ImRead(lib, disk, imagePath).Some?
    requires BlueRegion(lib, ImRead(lib, disk, imagePath).value).Some?
    requires var box := BlueRegion(lib, ImRead(lib, disk, imagePath).value).value;
             Max(box.w, box.h) >= 2
    ensures var box := BlueRegion(lib, ImRead(lib, disk, imagePath).value).value;
            var side := Max(box.w, box.h);
            var s := Process(lib, scratch, disk, imagePath, io);
            && s.step.Ok?
            && ImRead(lib, s.disk, s.step.value.processed).Some?
            && ImRead(lib, s.disk, s.step.value.processed).value.width == 8 * (side / 2)
            && ImRead(lib, s.disk, s.step.value.processed).value.height == side
  {
    var box := BlueRegion(lib, ImRead(lib, disk, imagePath).value).value;
    var side := Max(box.w, box.h);
    var d := DetectBluePart(lib, scratch, disk, imagePath, io.detect);
    DetectOutcome(lib, scratch, disk, imagePath, io.detect);
    assert d.step.Ok?;
    var st := StretchToSquare(lib, scratch, d.disk, d.step.value, io.stretch);
    SquareSize(lib, scratch, d.disk, d.step.value, io.stretch);
    assert st.step.Ok?;
    assert ImRead(lib, st.disk, st.step.value).value.width == side;
    PolarShape(lib, scratch, st.disk, st.step.value, io.preprocess);
    var p := PreprocessImage(lib, scratch, st.disk, st.step.value, io.preprocess);
    assert Process(lib, scratch, disk, imagePath, io)
           == Staged(Ok(Artifacts(d.step.value, st.step.value, p.step.value)), p.disk);
  }
}
