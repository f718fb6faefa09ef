# Serial-number recognition pipeline: a Dafny model

This project models the recognition back end of a serial-number reader. A
photo of a blue part goes through the stages below.

1. `ImageProcessor.detect_blue_part` finds the part by an HSV colour mask and
   the largest contour, and crops the photo to that contour's bounding box.
2. `stretch_to_square` resizes the crop to a square whose side is the crop's
   longer side.
3. `preprocess_image` turns the square into grayscale, enhances and blurs it,
   and unrolls it with a linear polar warp. It then rotates the result a
   quarter turn counter-clockwise.
4. `OCRRecognizer.recognize` runs the OCR engine on the unrolled image. It
   joins the texts of the first result record into the serial number and
   averages their scores into one confidence.
5. `RecognitionService.process_image` chains these steps, builds the result
   dictionary and stores one `SerialNumber` record on success.
   `export_to_csv` writes every stored record to a CSV file, newest first.

Every stage saves its artifact as `<stage>_<YYYYmmddHHMMSS>.jpg` in a shared
scratch directory, `<BASE_DIR>/../share`.

The model uses these representations:

- An image is an abstract record of width, height and pixel rows (`Raster`).
- Each OpenCV call the code makes is a function-valued field of
  `Vision.Library`. `Library.Lawful` states the shape of each call's result.
  For `findContours` it also states that a contour exists exactly when some
  mask pixel is set, and that every contour point lies inside the mask
  (`Vision.Library.ContoursLawful`).
- The JPEG codec is also foreign, so the file system is a map from path to
  bytes. `cv2.imwrite` stores the encoding and `cv2.imread` decodes it.
- The colour mask, bounding rectangle, numpy crop slicing and the 90° rotation
  are defined concretely, because their semantics are simple.
- The OCR engine is `OcrRecognizer.Engine`. It maps file contents to result
  records.
- Clock readings, whether a write is accepted, whether the engine's save calls
  succeed, and whether the database save raises are explicit inputs of each
  call.
- A stage's `(value, True)` / `(None, False)` pair is `Outcome.Step`:
  `Ok(value)` or `Fail`.
- Confidence is a `real`.
- The record store is a list of records. `order_by('-timestamp')` is
  modelled as an insertion sort on the timestamp.

The branch at `backend/recognition/services.py:40-42` would report
`'Image processing failed'`, but no run reaches it. When image processing
fails, `process` returns `None`, and the debug print on line 37 subscripts it.
That raises a `TypeError`, which the `except` clause at lines 88-89 catches. The run
therefore always reports
`"Error occurred during processing: 'NoneType' object is not subscriptable"`
(`Services.ImageFailureIsGenericError`,
`Services.ImageProcessingFailedNeverReported`).

Modules (one file each): `Outcome`, `Text` (Python `strip`, `''.join`,
`split` and `join` on one character, and decimal numerals), `Clock`,
`Paths`, `Raster`, `Vision`, `ImageProcessor`, `OcrRecognizer`, `Models`
and `Services`.

## Model

| member | source | states |
|---|---|---|
| ImageProcessor.BlueMaskPixel | backend/recognition/image_processor.py:11-12 | A mask pixel is set exactly when the HSV pixel has three channels with hue in 100..130 and saturation and value in 100..255, bounds inclusive. |
| Raster.InRangeMask | backend/recognition/image_processor.py:38 | `cv2.inRange` gives a mask of the source's shape whose pixel is 255 exactly when every channel lies within the bounds, and 0 otherwise. |
| Raster.BlankMaskIffNoPixelInRange | backend/recognition/image_processor.py:38-44 | The mask is blank exactly when no source pixel is in range. |
| ImageProcessor.FirstMaxBy | backend/recognition/image_processor.py:47 | Python's `max` with a key returns an index of maximal key, and no earlier element has an equal key: the first maximum wins a tie. |
| ImageProcessor.FirstMaxByUnique | backend/recognition/image_processor.py:47 | Being maximal and strictly above every earlier element pins down the index `max` picks. |
| ImageProcessor.BlueRegionIsLargestContour | backend/recognition/image_processor.py:41-50 | No contour means no region. Otherwise the region is the bounding rectangle of a contour of greatest area, and every earlier contour has strictly smaller area. |
| ImageProcessor.NoBlueNoRegion | backend/recognition/image_processor.py:35-44 | Detection finds no region exactly when no pixel of the HSV image is in the blue range. |
| Raster.BoundingRect | backend/recognition/image_processor.py:50 | The bounding rectangle of a non-empty contour contains every point and touches the contour on all four sides, so it is the tightest box. Its width and height are at least 1. |
| Raster.Crop | backend/recognition/image_processor.py:53 | `image[y:y+h, x:x+w]` keeps pixel (y+i, x+j) at (i, j). It is never larger than the box and is exactly w by h when the box fits in the image. |
| ImageProcessor.BlueRegion | backend/recognition/image_processor.py:41-50 | A region found lies inside the photo and is at least 1 by 1. |
| ImageProcessor.DetectBluePart | backend/recognition/image_processor.py:18-69 | On success the path is `cropped_<stamp>.jpg` in the scratch directory. On failure nothing is written. |
| ImageProcessor.DetectOutcome | backend/recognition/image_processor.py:24-69 | Detection succeeds exactly when the photo reads and decodes, has a blue region and the crop is saved. The saved crop then reads back with the region's width and height. |
| ImageProcessor.StretchToSquare | backend/recognition/image_processor.py:72-99 | On success the path is `stretched_<stamp>.jpg`. On failure nothing is written. |
| ImageProcessor.SquareSize | backend/recognition/image_processor.py:75-96 | Stretching succeeds exactly when the input reads and the write succeeds. The saved image is square with side `max(width, height)` of the input. |
| ImageProcessor.Unwarp | backend/recognition/image_processor.py:115-139 | The unwarped image is well formed. With `max_radius = min(w//2, h//2)` positive, it is `8*max_radius` wide and `w` high. |
| Raster.RotateCcw | backend/recognition/image_processor.py:139 | A counter-clockwise quarter turn swaps width and height and moves pixel (j, W-1-i) to (i, j). |
| Raster.FullTurn | backend/recognition/image_processor.py:139 | Four counter-clockwise quarter turns give back the original image. |
| Raster.HalfTurn | backend/recognition/image_processor.py:139 | Two quarter turns keep the shape and mirror the image through its centre. |
| ImageProcessor.PreprocessImage | backend/recognition/image_processor.py:102-153 | On success the path is `processed_<stamp>.jpg`. On failure nothing is written. |
| ImageProcessor.PreprocessIgnoresWrite | backend/recognition/image_processor.py:145-149 | Preprocessing reports success even when the write is refused. The returned path then names no newly written file. |
| ImageProcessor.PolarShape | backend/recognition/image_processor.py:129-149 | A readable square of side at least 2 is saved as an image `8*(side//2)` wide and `side` high. |
| ImageProcessor.ProcessSucceedsIffAllStages | backend/recognition/image_processor.py:155-182 | `process` succeeds exactly when all three stages succeed in turn, each on the previous artifact. It then returns exactly the three artifact paths. |
| ImageProcessor.ProcessStopsAtFirstFailure | backend/recognition/image_processor.py:162-169 | When detection or stretching fails, `process` fails with the file system that stage left. Its outcome does not depend on what the later stages would have met. |
| ImageProcessor.PipelineGeometry | backend/recognition/image_processor.py:155-182 | With every write accepted and a blue region whose longer side is at least 2, the run succeeds. The processed image is then `8*(side//2)` wide and `side` high, where side is the region's longer side. |
| Vision.ImWrite | backend/recognition/image_processor.py:62 | `cv2.imwrite` raises exactly on an empty image. Otherwise its flag is whether the write was accepted. An accepted write reads back with the image's shape and changes no other file. A refused write changes nothing. |
| Vision.SaveChecked | backend/recognition/image_processor.py:62-63 | The write-then-exists check succeeds exactly when the image is non-empty and the write is accepted. The file then reads back with the image's shape. On failure nothing changes. |
| Vision.ImRead | backend/recognition/image_processor.py:75 | A successful read returns a well-formed, non-empty image of a file that exists. |
| Clock.Stamp | backend/recognition/image_processor.py:56 | A stamp is fourteen decimal digits. |
| Clock.ParseStampOfStamp | backend/recognition/image_processor.py:56 | The stamp of a valid reading reads back as that reading cut to the whole second. |
| Clock.StampCollision | backend/recognition/image_processor.py:56 | Two valid readings give the same stamp exactly when they fall in the same second. |
| Paths.ArtifactPath | backend/recognition/image_processor.py:57 | An artifact path ends in `.jpg`. |
| Paths.PathJoinInjective | backend/recognition/image_processor.py:57 | Joining different relative names onto the same directory gives different paths. |
| Paths.SameStageCollision | backend/recognition/image_processor.py:56-57 | Two same-stage artifacts get the same path exactly when their readings fall in the same second, so the later write replaces the earlier. |
| Paths.DistinctStagesNeverCollide | backend/recognition/image_processor.py:57 | Artifacts of different stages never share a path. |
| OcrRecognizer.FirstRecordTokens | backend/recognition/ocr_recognizer.py:42-46 | No records give no tokens. Otherwise text i of the first record is paired with its score i, and a score list shorter than the text list raises. |
| OcrRecognizer.Recognize | backend/recognition/ocr_recognizer.py:21-66 | A failure returns exactly `("", 0.0, "")` with `False`. A success returns the path `ocr_<stamp>.jpg` in the scratch directory. |
| OcrRecognizer.RecognizeOutcome | backend/recognition/ocr_recognizer.py:32-62 | Recognition succeeds exactly when the engine returns at least one record and its saves succeed, and the first record has a text and no fewer scores than texts. The serial is then the texts joined and stripped. The confidence is their scores' mean, which lies between the least and greatest score. |
| OcrRecognizer.WhitespaceTokensSucceedEmpty | backend/recognition/ocr_recognizer.py:53-62 | Texts that are all whitespace still give success, with an empty serial. |
| OcrRecognizer.AggregateExample | backend/recognition/ocr_recognizer.py:59-60 | The tokens "AB" (0.9) and "12" (0.7) give serial "AB12" with confidence 0.8. |
| OcrRecognizer.SumWithin | backend/recognition/ocr_recognizer.py:60 | A sum of n values within [lo, hi] lies within [n*lo, n*hi]. |
| OcrRecognizer.MeanWithin | backend/recognition/ocr_recognizer.py:60 | The mean of a non-empty list of values within [lo, hi] lies within [lo, hi]. |
| OcrRecognizer.MeanBetweenMinAndMax | backend/recognition/ocr_recognizer.py:60 | The mean of a non-empty list lies between its least and greatest element. |
| Text.StripIsTrimmedInfix | backend/recognition/ocr_recognizer.py:59 | `strip()` returns a contiguous slice whose removed prefix and suffix are all whitespace. A non-empty result starts and ends with a non-space character. |
| Text.LeadingRun | backend/recognition/ocr_recognizer.py:59 | The leading-whitespace count covers only whitespace, and the character after it is not whitespace. |
| Text.TrailingRun | backend/recognition/ocr_recognizer.py:59 | The trailing-whitespace count covers only whitespace, and the character before it is not whitespace. |
| Text.StripAllSpace | backend/recognition/ocr_recognizer.py:59 | A string strips to empty exactly when it is all whitespace. |
| Text.ConcatAppend | backend/recognition/ocr_recognizer.py:59 | `''.join` of two lists appended is the join of the first followed by the join of the second. |
| Services.ProcessImage | backend/recognition/services.py:14-94 | A failed run leaves the record store unchanged. A successful run appends exactly one record and keeps the earlier ones. |
| Services.ProcessImageSuccess | backend/recognition/services.py:36-86 | A run succeeds exactly when image processing succeeds, OCR succeeds on the processed image, and the record is saved. Serial and confidence are then OCR's, unchanged, and the four paths are the three image artifacts and OCR's image. |
| Services.RecordOnSuccess | backend/recognition/services.py:57-64 | A successful run stores one record with OCR's serial and confidence, the save time, the original image path and status `'success'`. |
| Services.ImageFailureIsGenericError | backend/recognition/services.py:36-94 | When image processing fails, the error is the generic message for subscripting `None`. Every other field keeps its default, and no record is stored. |
| Services.ErrorMessages | backend/recognition/services.py:36-94 | Every error reported is `'OCR recognition failed'` or starts with `'Error occurred during processing: '`. |
| Services.ImageProcessingFailedNeverReported | backend/recognition/services.py:40-42 | No run reports `'Image processing failed'`. |
| Services.OcrFailureKeepsDefaults | backend/recognition/services.py:21-32 | When OCR fails after image processing succeeds, the result is the default dictionary with error `'OCR recognition failed'`, and no record is stored. |
| Services.HeaderIsColumns | backend/recognition/services.py:116 | The header line is the five column names joined by commas plus a newline, and it splits back into those five names. |
| Services.CsvTarget | backend/recognition/services.py:103-108 | A non-empty `file_path` is used as given. |
| Services.DefaultCsvPath | backend/recognition/services.py:103-108 | A missing or empty `file_path` exports to `recognition_results.csv` in the module's directory. |
| Services.ExportToCsv | backend/recognition/services.py:96-125 | Export succeeds exactly when the file can be written. It then returns the target path. |
| Services.CsvLines | backend/recognition/services.py:111-119 | When no printed field holds a line break, the file's lines are the header, then one row body per record in newest-first order, then the empty piece after the final newline. The rows are a rearrangement of the stored records. |
| Models.StatusDefault | backend/recognition/models.py:9 | A record made without a status has status `"success"`. |
| Models.ToCsv | backend/recognition/models.py:24-26 | A row ends in a newline. |
| Models.CsvRowRoundTrip | backend/recognition/models.py:26 | When no field holds a comma, the row body splits back into the five fields in header order. When, in addition, no field holds a line break, the body holds none either, so the row is exactly one line of the file. |
| Models.CsvRowNoQuoting | backend/recognition/models.py:26 | With plainly printed numbers and times, a row splits into exactly five fields exactly when the serial number, image path and status hold no comma. A comma in any of them gives more than five fields. |
| Models.OrderByTimestampDesc | backend/recognition/models.py:15 | The default ordering returns the same records, as a multiset, with timestamps never increasing. |
| Models.InsertDescending | backend/recognition/models.py:15 | Inserting into a list in descending key order keeps that order and adds exactly the one element. |
| Text.SplitJoin | backend/recognition/models.py:26 | Splitting a comma join of comma-free fields gives the fields back. |
| Text.SplitJoinFieldCount | backend/recognition/models.py:26 | A join splits into as many pieces as it has fields exactly when no field holds the separator, and into more otherwise. |
| Text.SplitTerminated | backend/recognition/services.py:114-119 | Lines each followed by a newline, with no newline inside them, split on newlines into those lines plus one empty piece. |
| Text.ValueDigits | backend/recognition/image_processor.py:56 | A number below 10^k written as k zero-padded digits reads back as itself. |

## Left out

- The numeric work of OpenCV is foreign code and not modelled. This covers colour conversion, CLAHE, Gaussian blur, area resizing, the polar warp's resampling, `findContours`, `contourArea` and the JPEG codec. Each is an uninterpreted function with a shape contract. `findContours` is also assumed to find a contour exactly when some mask pixel is set, with every point inside the mask, as OpenCV 4 does because it pads the mask with a zero border. `ImageProcessor.NoBlueNoRegion` and the fit-in-the-photo guarantee of `ImageProcessor.BlueRegion` depend on that assumption.
- PaddleOCR's `predict`, `res.print`, `save_to_img` and `save_to_json` are foreign. The engine is a function from file contents to result records. Whether the saves raise is an input. The annotated image and JSON files are not written into the modelled file system.
- The debug `print` calls are output only and are not modelled.
- OcrRecognizer.Engine: `predict` is given the contents of the file at the path, or `None` when no such file exists, rather than the path itself. Its behaviour is foreign either way.
- Reading files, `datetime.now`, `timezone.now`, `time.time`, the database `save` and query, and opening the CSV file are I/O. They are inputs of each call: a reading, an accept flag, or an error message.
- The `cleanup` directory sweep (`backend/recognition/image_processor.py:184-193`) deletes files by listing a directory. That is I/O with no property of interest.
- `os.makedirs` in the constructors is not modelled. The scratch directory is assumed to exist.
- Services.ProcessImage: the `(result, bool)` pair is modelled by `result.success` alone. The second element always equals it.
- Services.ProcessImage: the processing time is `finished - started` for the two clock readings. No property is stated about it.
- Models.ToCsv: the printed forms of the timestamp (`str(datetime)`) and the confidence (`str(float)`) are foreign functions of `Models.Formatter`. `__str__` with its `:.2f` format is not modelled.
- OcrRecognizer.Mean: confidence is an exact `real`. Floating-point rounding of `sum(...) / len(...)` is not modelled.
- ImageProcessor.Unwarp: when `max_radius` is 0 (an input thinner than 2 pixels), the polar warp's output size is chosen by OpenCV. Only well-formedness is stated.
- Clock.Stamp: always pads the year to four digits, so a stamp is fourteen digits. On Linux, `%Y` does not pad a year below 1000, which gives a shorter stamp. The round-trip and collision lemmas hold only for valid readings (`Clock.DateTime.Valid`, years 1000..9999).
- Models.OrderByTimestampDesc: records with equal timestamps come in an order the database chooses. The model fixes one order and states only the newest-first order and the multiset.
- Concurrent runs sharing the scratch directory are not modelled. Only the deterministic name collision is stated (`Paths.SameStageCollision`).
- The HTTP views, URL routing and front end are outside this model.
