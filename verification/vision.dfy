/**
  The OpenCV calls the image processor makes but whose numeric work is not
  modelled. Each is a field of `Library`, an uninterpreted function, and
  `Library.Lawful` states what the pipeline relies on about it. For most
  calls that is only the shape of what they return. For `findContours` it is
  also two facts about the contours, which OpenCV 4 meets because it pads the
  mask with a zero border: there is a contour exactly when some mask pixel is
  set, and every contour point lies inside the mask (`ContoursLawful`).
  `ImageProcessor.NoBlueNoRegion` and the fit-in-the-photo guarantee of
  `ImageProcessor.BlueRegion` depend on them.

  The scratch directory is a map from path to file bytes. `cv2.imwrite`
  stores the JPEG encoding of an image there, `cv2.imread` decodes what is
  stored; a missing file reads as `None`.
 */
module Vision {
  import opened Outcome
  import opened Raster

  type Bytes = seq<bv8>

  /** The file system as the pipeline sees it: path to file contents. */
  type Disk = map<string, Bytes>

  datatype Library = Library(
    /** `cv2.imdecode(buf, cv2.IMREAD_COLOR)`; `None` when the bytes are not an image. */
    decode: Bytes -> Option<Image>,
    /** The JPEG encoder behind `cv2.imwrite(path, img)` for a `.jpg` path. */
    encodeJpeg: Image -> Bytes,
    /** `cv2.cvtColor(img, cv2.COLOR_BGR2HSV)`. */
    toHsv: Image -> Image,
    /** `cv2.findContours(mask, cv2.RETR_EXTERNAL, cv2.CHAIN_APPROX_SIMPLE)[0]`. */
    findContours: Image -> seq<Contour>,
    /** `cv2.contourArea(c)`. */
    contourArea: Contour -> real,
    /** `cv2.resize(img, (w, h), interpolation=cv2.INTER_AREA)`. */
    resizeArea: (Image, nat, nat) -> Image,
    /** `cv2.cvtColor(img, cv2.COLOR_BGR2GRAY)`. */
    toGray: Image -> Image,
    /** `cv2.createCLAHE(clipLimit=2.0, tileGridSize=(8, 8)).apply(img)`. */
    clahe: Image -> Image,
    /** `cv2.GaussianBlur(img, (3, 3), 0)`. */
    gaussianBlur: Image -> Image,
    /** `cv2.warpPolar(img, (w, h), center, maxRadius, cv2.WARP_POLAR_LINEAR)`. */
    warpPolar: (Image, nat, nat, Point, nat) -> Image
  ) {

    /** Decoding yields a well-formed, non-empty image; encoding then decoding keeps the shape. */
    ghost predicate CodecLawful() {
      && (forall b {:trigger decode(b)} :: decode(b).Some? ==> decode(b).value.Valid() && !decode(b).value.IsEmpty())
      && (forall img: Image {:trigger encodeJpeg(img)} :: img.Valid() && !img.IsEmpty() ==>
            decode(encodeJpeg(img)).Some? && decode(encodeJpeg(img)).value.SameShape(img))
    }

    /** Colour conversion, contrast enhancement and blurring keep the shape. */
    ghost predicate FiltersLawful() {
      && (forall img: Image {:trigger toHsv(img)} :: img.Valid() ==> toHsv(img).Valid() && toHsv(img).SameShape(img))
      && (forall img: Image {:trigger toGray(img)} :: img.Valid() ==> toGray(img).Valid() && toGray(img).SameShape(img))
      && (forall img: Image {:trigger clahe(img)} :: img.Valid() ==> clahe(img).Valid() && clahe(img).SameShape(img))
      && (forall img: Image {:trigger gaussianBlur(img)} :: img.Valid() ==> gaussianBlur(img).Valid() && gaussianBlur(img).SameShape(img))
    }

    /**
      External contours of a mask: each has at least one point, all inside the
      mask, and there is a contour exactly when some mask pixel is set.
     */
    ghost predicate ContoursLawful() {
      forall m: Image {:trigger findContours(m)} :: m.Valid() ==>
        && (forall k :: 0 <= k < |findContours(m)| ==>
              |findContours(m)[k]| > 0
              && forall i :: 0 <= i < |findContours(m)[k]| ==>
                   findContours(m)[k][i].x < m.width && findContours(m)[k][i].y < m.height)
        && (|findContours(m)| == 0 <==> Blank(m))
    }

    /** Resizing and the polar warp produce the requested size whenever it is positive. */
    ghost predicate GeometryLawful() {
      && (forall img: Image, w: nat, h: nat {:trigger resizeArea(img, w, h)} :: img.Valid() && !img.IsEmpty() && w > 0 && h > 0 ==>
            resizeArea(img, w, h).Valid() && resizeArea(img, w, h).width == w
            && resizeArea(img, w, h).height == h)
      && (forall img: Image, w: nat, h: nat, c: Point, r: nat {:trigger warpPolar(img, w, h, c, r)} :: img.Valid() ==>
            && warpPolar(img, w, h, c, r).Valid()
            && (!img.IsEmpty() && w > 0 && h > 0 ==>
                  warpPolar(img, w, h, c, r).width == w && warpPolar(img, w, h, c, r).height == h))
    }

    ghost predicate Lawful() {
      CodecLawful() && FiltersLawful() && ContoursLawful() && GeometryLawful()
    }
  }

  /** `cv2.imread(path)`: the decoded file, or `None` when it is missing or undecodable. */
  function ImRead(lib: Library, disk: Disk, path: string): (r: Option<Image>)
    requires lib.CodecLawful()
    ensures r.Some? ==> path in disk && r.value.Valid() && !r.value.IsEmpty()
  {
    if path in disk then lib.decode(disk[path]) else None
  }

  /** What a call to `cv2.imwrite` did: raised, or returned its flag and the new file system. */
  datatype Written = Raised | Returned(ok: bool, disk: Disk)

  /**
    `cv2.imwrite(path, img)`. An empty image makes OpenCV raise; otherwise the
    write succeeds when the file system `accepted` it, storing the JPEG
    encoding under `path` (replacing any file already there), and leaves the
    file system unchanged when it did not.
   */
  function ImWrite(lib: Library, disk: Disk, path: string, img: Image, accepted: bool): (w: Written)
    requires lib.CodecLawful() && img.Valid()
    ensures w.Raised? <==> img.IsEmpty()
    ensures w.Returned? ==> w.ok == accepted
    ensures w.Returned? && w.ok ==> path in w.disk && w.disk.Keys == disk.Keys + {path}
                                    && ImRead(lib, w.disk, path).Some?
                                    && ImRead(lib, w.disk, path).value.SameShape(img)
                                    && forall p :: p in disk && p != path ==> w.disk[p] == disk[p]
    ensures w.Returned? && !w.ok ==> w.disk == disk
  {
    if img.IsEmpty() then Raised
    else if accepted then Returned(true, disk[path := lib.encodeJpeg(img)])
    else Returned(false, disk)
  }

  /** A stage's result together with the file system it leaves behind. */
  datatype Staged<+T> = Staged(step: Step<T>, disk: Disk)

  /**
    The write-and-verify idiom of the crop and stretch stages:
    `if not cv2.imwrite(path, img) or not os.path.exists(path): raise`, with
    the exception caught by the stage. The stage succeeds exactly when the
    image is non-empty and the write was accepted; the file then reads back
    with the image's shape.
   */
  function SaveChecked(lib: Library, disk: Disk, path: string, img: Image, accepted: bool): (s: Staged<string>)
    requires lib.CodecLawful() && img.Valid()
    ensures s.step.Ok? <==> !img.IsEmpty() && accepted
    ensures s.step.Ok? ==> s.step.value == path
                           && ImRead(lib, s.disk, path).Some?
                           && ImRead(lib, s.disk, path).value.SameShape(img)
    ensures s.step.Fail? ==> s.disk == disk
  {
    match ImWrite(lib, disk, path, img, accepted)
    case Raised => Staged(Fail, disk)
    case Returned(ok, d) =>
      if !ok || path !in d then Staged(Fail, disk) else Staged(Ok(path), d)
  }
}
