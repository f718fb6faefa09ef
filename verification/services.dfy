/**
  `RecognitionService`: the end-to-end run (image processing, then OCR, then
  one stored record) and the CSV export of all stored records.

  The record store is a list of `SerialNumber` records; saving appends one.
 */
module Services {
  import opened Outcome
  import opened Text
  import opened Clock
  import opened Paths
  import opened Vision
  import opened ImageProcessor
  import opened OcrRecognizer
  import opened Models

  /** The result dictionary of `process_image`. */
  datatype ServiceResult = ServiceResult(
    success: bool,
    serialNumber: string,
    confidence: real,
    processingTime: real,
    error: Option<string>,
    croppedImage: Option<string>,
    stretchedImage: Option<string>,
    processedImage: Option<string>,
    ocrImage: Option<string>)

  /** The dictionary `process_image` starts from. */
  const Initial := ServiceResult(false, "", 0.0, 0.0, None, None, None, None, None)

  /** The message of the `TypeError` raised by subscripting `None`. */
  const NoneNotSubscriptable := "'NoneType' object is not subscriptable"

  const UnexpectedPrefix := "Error occurred during processing: "

  /** The error text for any exception caught by `process_image`. */
  function Unexpected(message: string): string
  {
    UnexpectedPrefix + message
  }

  const OcrFailed := "OCR recognition failed"

  /** The error text the image-processing branch would set; no run produces it. */
  const ImageProcessingFailed := "Image processing failed"

  /**
    Everything one run meets from outside: what the image stages and the OCR
    stage meet, the time the record is stamped with, the error the store's
    `save` raises if any, and the two `time.time()` readings.
   */
  datatype ServiceIo = ServiceIo(stages: ProcessIo, ocr: OcrIo, savedAt: DateTime,
                                 saveError: Option<string>, started: real, finished: real)

  /** The result dictionary and the record store after a run. */
  datatype Handled = Handled(result: ServiceResult, records: seq<SerialNumber>)

  /**
    `process_image(image_path)`. When image processing fails, `process`
    returns `None` and the debug print subscripts it before the success check
    is reached, so the run reports the caught `TypeError`. When OCR fails the
    run reports `'OCR recognition failed'`. Otherwise one record is saved and
    the result carries the OCR serial and confidence and all four artifact
    paths. Any failure leaves every other field at its initial value and the
    store unchanged.
   */
  function ProcessImage(lib: Library, engine: Engine, baseDir: string, disk: Disk,
                        records: seq<SerialNumber>, imagePath: string, io: ServiceIo): (h: Handled)
    requires lib.Lawful()
    ensures !h.result.success ==> h.records == records
    ensures h.result.success ==> |h.records| == |records| + 1 && h.records[..|records|] == records
  {
    var scratch := ScratchDir(baseDir);
    var processed := Process(lib, scratch, disk, imagePath, io.stages);
    match processed.step
    case Fail =>
      Handled(Initial.(error := Some(Unexpected(NoneNotSubscriptable))), records)
    case Ok(paths) =>
      var ocr := Recognize(engine, scratch, processed.disk, paths.processed, io.ocr);
      if !ocr.success then
        Handled(Initial.(error := Some(OcrFailed)), records)
      else
        match io.saveError
        case Some(message) =>
          Handled(Initial.(error := Some(Unexpected(message))), records)
        case None =>
          var record := SerialNumber(ocr.serial, ocr.confidence, io.savedAt, imagePath, "success");
          var result := Initial.(success := true,
                                 serialNumber := ocr.serial,
                                 confidence := ocr.confidence,
                                 processingTime := io.finished - io.started,
                                 croppedImage := Some(paths.cropped),
                                 stretchedImage := Some(paths.stretched),
                                 processedImage := Some(paths.processed),
                                 ocrImage := Some(ocr.imagePath));
          Handled(result, records + [record])
  }

  /** The image-processing result and the OCR result a run is built from. */
  function Processed(lib: Library, baseDir: string, disk: Disk, imagePath: string, io: ServiceIo)
    : Staged<Artifacts>
    requires lib.Lawful()
  {
    Process(lib, ScratchDir(baseDir), disk, imagePath, io.stages)
  }

  /**
    A run succeeds exactly when image processing succeeds, OCR succeeds on
    the processed artifact, and the record is saved. The serial number and
    confidence are then OCR's, unchanged, and the four paths are the three
    image artifacts and OCR's rendering.
   */
  lemma ProcessImageSuccess(lib: Library, engine: Engine, baseDir: string, disk: Disk,
                            records: seq<SerialNumber>, imagePath: string, io: ServiceIo)
    requires lib.Lawful()
    ensures var h := ProcessImage(lib, engine, baseDir, disk, records, imagePath, io);
            var p := Processed(lib, baseDir, disk, imagePath, io);
            && (h.result.success <==>
                  && p.step.Ok?
                  && Recognize(engine, ScratchDir(baseDir), p.disk, p.step.value.processed, io.ocr).success
                  && io.saveError.None?)
            && (h.result.success ==>
                  var ocr := Recognize(engine, ScratchDir(baseDir), p.disk, p.step.value.processed, io.ocr);
                  && h.result.serialNumber == ocr.serial
                  && h.result.confidence == ocr.confidence
                  && h.result.error.None?
                  && h.result.croppedImage == Some(p.step.value.cropped)
                  && h.result.stretchedImage == Some(p.step.value.stretched)
                  && h.result.processedImage == Some(p.step.value.processed)
                  && h.result.ocrImage == Some(ArtifactPath(ScratchDir(baseDir), Ocr, io.ocr.now)))
  {
  }

  /**
    A successful run saves exactly one record: OCR's serial and confidence,
    the save time, the original image path and status `'success'`.
   */
  lemma RecordOnSuccess(lib: Library, engine: Engine, baseDir: string, disk: Disk,
                        records: seq<SerialNumber>, imagePath: string, io: ServiceIo)
    requires lib.Lawful()
    ensures var h := ProcessImage(lib, engine, baseDir, disk, records, imagePath, io);
            h.result.success ==>
              h.records == records + [SerialNumber(h.result.serialNumber, h.result.confidence,
                                                   io.savedAt, imagePath, "success")]
  {
  }

  /**
    When image processing fails, the error is the generic message for the
    `TypeError` from subscripting `None`, every other field keeps its initial
    value and nothing is saved.
   */
  lemma ImageFailureIsGenericError(lib: Library, engine: Engine, baseDir: string, disk: Disk,
                                   records: seq<SerialNumber>, imagePath: string, io: ServiceIo)
    requires lib.Lawful()
    requires Processed(lib, baseDir, disk, imagePath, io).step.Fail?
    ensures ProcessImage(lib, engine, baseDir, disk, records, imagePath, io)
            == Handled(Initial.(error := Some(Unexpected(NoneNotSubscriptable))), records)
  {
  }

  /**
    Every reported error is either `'OCR recognition failed'` or the generic
    message for a caught exception.
   */
  lemma {:induction false} ErrorMessages(lib: Library, engine: Engine, baseDir: string, disk: Disk,
                                         records: seq<SerialNumber>, imagePath: string, io: ServiceIo)
    requires lib.Lawful()
    ensures var e := ProcessImage(lib, engine, baseDir, disk, records, imagePath, io).result.error;
            e.Some? ==> e.value == OcrFailed
                        || (|UnexpectedPrefix| <= |e.value| && e.value[..|UnexpectedPrefix|] == UnexpectedPrefix)
  {
    var h := ProcessImage(lib, engine, baseDir, disk, records, imagePath, io);
    var p := Processed(lib, baseDir, disk, imagePath, io);
    if p.step.Fail? {
      assert h.result.error.value == Unexpected(NoneNotSubscriptable);
    } else if h.result.error.Some? && h.result.error.value != OcrFailed {
      var message := io.saveError.value;
      assert h.result.error.value == Unexpected(message);
    }
  }

  /** No run ever reports `'Image processing failed'`: that branch is unreachable. */
  lemma ImageProcessingFailedNeverReported(lib: Library, engine: Engine, baseDir: string, disk: Disk,
                                           records: seq<SerialNumber>, imagePath: string, io: ServiceIo)
    requires lib.Lawful()
    ensures ProcessImage(lib, engine, baseDir, disk, records, imagePath, io).result.error
            != Some(ImageProcessingFailed)
  {
    ErrorMessages(lib, engine, baseDir, disk, records, imagePath, io);
    assert ImageProcessingFailed[0] != UnexpectedPrefix[0];
    assert ImageProcessingFailed != OcrFailed by {
      assert ImageProcessingFailed[0] != OcrFailed[0];
    }
  }

  /**
    When image processing succeeds but OCR fails, the error is
    `'OCR recognition failed'`, every other field keeps its initial value
    (empty serial, zero confidence, no paths) and nothing is saved.
   */
  lemma OcrFailureKeepsDefaults(lib: Library, engine: Engine, baseDir: string, disk: Disk,
                                records: seq<SerialNumber>, imagePath: string, io: ServiceIo)
    requires lib.Lawful()
    ensures var p := Processed(lib, baseDir, disk, imagePath, io);
            var h := ProcessImage(lib, engine, baseDir, disk, records, imagePath, io);
            p.step.Ok? && !Recognize(engine, ScratchDir(baseDir), p.disk, p.step.value.processed, io.ocr).success
            ==> && h.records == records
                && h.result == ServiceResult(false, "", 0.0, 0.0, Some("OCR recognition failed"),
                                             None, None, None, None)
  {
  }

  // ---------------------------------------------------------------------------
  // export_to_csv

  const DefaultCsvName := "recognition_results.csv"

  /** The header names, in the order of the row fields. */
  const Columns: seq<string> := ["timestamp", "serial_number", "confidence", "image_path", "status"]

  const HeaderLine := "timestamp,serial_number,confidence,image_path,status\n"

  /**
    The header text is the five column names with commas between. The
    comparison of the 52-character literal is done in two halves
    (`HeaderFront`, `HeaderBack`, `HeaderHalves`), because one comparison of
    the whole literal costs the solver too much.
   */
  lemma JoinColumns()
    ensures Join(Columns, ',') == "timestamp,serial_number,confidence,image_path,status"
  {
    var c4: seq<string> := ["status"];
    var c3: seq<string> := ["image_path"] + c4;
    var c2: seq<string> := ["confidence"] + c3;
    var c1: seq<string> := ["serial_number"] + c2;
    assert Join(c2, ',') == "confidence,image_path,status" by {
      JoinCons("image_path", c4, ',');
      JoinCons("confidence", c3, ',');
      HeaderBack();
    }
    assert Join(Columns, ',') == "timestamp,serial_number," + Join(c2, ',') by {
      JoinCons("serial_number", c2, ',');
      JoinCons("timestamp", c1, ',');
      assert Columns == ["timestamp"] + c1;
      HeaderFront();
    }
    HeaderHalves();
  }

  lemma HeaderFront()
    ensures "timestamp,serial_number," == "timestamp" + [','] + "serial_number" + [',']
  {
  }

  lemma HeaderBack()
    ensures "confidence,image_path,status" == "confidence" + [','] + "image_path" + [','] + "status"
  {
  }

  lemma HeaderHalves()
    ensures "timestamp,serial_number,confidence,image_path,status"
            == "timestamp,serial_number," + "confidence,image_path,status"
  {
  }

  /** No column name holds a comma or a line break. */
  lemma ColumnsPlain()
    ensures forall i :: 0 <= i < |Columns| ==> ',' !in Columns[i] && '\n' !in Columns[i]
  {
    assert ',' !in "timestamp" && ',' !in "serial_number" && ',' !in "confidence";
    assert ',' !in "image_path" && ',' !in "status";
    assert '\n' !in "timestamp" && '\n' !in "serial_number" && '\n' !in "confidence";
    assert '\n' !in "image_path" && '\n' !in "status";
  }

  /** The header line is the column names joined by commas, and splits back into them. */
  lemma HeaderIsColumns()
    ensures HeaderLine == Join(Columns, ',') + "\n"
    ensures Split(Join(Columns, ','), ',') == Columns
  {
    JoinColumns();
    assert HeaderLine == "timestamp,serial_number,confidence,image_path,status" + "\n";
    ColumnsPlain();
    SplitJoin(Columns, ',');
  }

  /** The file written: a falsy path means `recognition_results.csv` beside the module. */
  function CsvTarget(filePath: Option<string>, moduleDir: string): (p: string)
    ensures filePath.Some? && filePath.value != "" ==> p == filePath.value
  {
    match filePath
    case Some(path) => if path == "" then PathJoin(moduleDir, DefaultCsvName) else path
    case None => PathJoin(moduleDir, DefaultCsvName)
  }

  /** The row bodies of the records, newest first. */
  function CsvBodies(records: seq<SerialNumber>, fmt: Formatter): (bodies: seq<string>)
    ensures |bodies| == |records| == |OrderByTimestampDesc(records)|
    ensures forall i :: 0 <= i < |bodies| ==> bodies[i] == RowBody(OrderByTimestampDesc(records)[i], fmt)
  {
    var ordered := OrderByTimestampDesc(records);
    assert |multiset(ordered)| == |multiset(records)|;
    seq(|ordered|, i requires 0 <= i < |ordered| => RowBody(ordered[i], fmt))
  }

  /** The rows written after the header: every record's `to_csv()`, newest first. */
  function CsvRows(records: seq<SerialNumber>, fmt: Formatter): (rows: seq<string>)
    ensures |rows| == |records| == |OrderByTimestampDesc(records)|
    ensures forall i :: 0 <= i < |rows| ==> rows[i] == ToCsv(OrderByTimestampDesc(records)[i], fmt)
  {
    Terminated(CsvBodies(records, fmt), '\n')
  }

  /** What `export_to_csv` writes and where. */
  datatype Exported = Exported(path: string, contents: string)

  /**
    `export_to_csv(file_path)`: the header line followed by one row per
    record, written to the target file. `fileOk` says whether opening and
    writing the file succeeded; when it did not, the call reports failure.
   */
  function ExportToCsv(records: seq<SerialNumber>, filePath: Option<string>, moduleDir: string,
                       fmt: Formatter, fileOk: bool): (r: Step<Exported>)
    ensures r.Ok? <==> fileOk
    ensures r.Ok? ==> r.value.path == CsvTarget(filePath, moduleDir)
  {
    if !fileOk then Fail
    else Ok(Exported(CsvTarget(filePath, moduleDir), HeaderLine + Concat(CsvRows(records, fmt))))
  }

  /** A falsy `file_path` (None or empty) exports to `recognition_results.csv` in the module's directory. */
  lemma DefaultCsvPath(records: seq<SerialNumber>, filePath: Option<string>, moduleDir: string,
                       fmt: Formatter)
    requires filePath.None? || filePath.value == ""
    ensures ExportToCsv(records, filePath, moduleDir, fmt, true)
            == Ok(Exported(PathJoin(moduleDir, "recognition_results.csv"),
                           HeaderLine + Concat(CsvRows(records, fmt))))
  {
  }

  /** The exported document is the header and the row bodies, each followed by a newline. */
  lemma DocumentIsTerminated(records: seq<SerialNumber>, fmt: Formatter)
    ensures HeaderLine + Concat(CsvRows(records, fmt))
            == Concat(Terminated([Join(Columns, ',')] + CsvBodies(records, fmt), '\n'))
  {
    HeaderIsColumns();
    var rows := CsvRows(records, fmt);
    var lines := [Join(Columns, ',')] + CsvBodies(records, fmt);
    var t := Terminated(lines, '\n');
    assert t == [HeaderLine] + rows by {
      assert |t| == |[HeaderLine] + rows|;
      forall i | 0 <= i < |t|
        ensures t[i] == ([HeaderLine] + rows)[i]
      {
        if i > 0 {
          assert t[i] == lines[i] + "\n";
        }
      }
    }
    ConcatCons(HeaderLine, rows);
  }

  /** When no stored record prints a line break, no line of the document holds one. */
  lemma {:induction false} LinesWithoutBreak(records: seq<SerialNumber>, fmt: Formatter)
    requires forall r :: r in records ==> forall i :: 0 <= i < 5 ==> '\n' !in Fields(r, fmt)[i]
    ensures var lines := [Join(Columns, ',')] + CsvBodies(records, fmt);
            forall i :: 0 <= i < |lines| ==> '\n' !in lines[i]
  {
    var ordered := OrderByTimestampDesc(records);
    var bodies := CsvBodies(records, fmt);
    var lines := [Join(Columns, ',')] + bodies;
    ColumnsPlain();
    JoinWithout(Columns, ',', '\n');
    forall i | 0 <= i < |lines|
      ensures '\n' !in lines[i]
    {
      if i > 0 {
        assert ordered[i - 1] in multiset(records);
        BodyWithoutBreak(ordered[i - 1], fmt);
        assert lines[i] == bodies[i - 1];
      }
    }
  }

  /**
    When no printed field holds a line break, the exported file splits into
    lines as: the header, then each record's row body newest first, then
    the empty piece after the final newline. Every record appears exactly as
    often as it is stored.
   */
  lemma CsvLines(records: seq<SerialNumber>, filePath: Option<string>, moduleDir: string,
                 fmt: Formatter)
    requires forall r :: r in records ==> forall i :: 0 <= i < 5 ==> '\n' !in Fields(r, fmt)[i]
    ensures var e := ExportToCsv(records, filePath, moduleDir, fmt, true);
            && e.Ok?
            && Split(e.value.contents, '\n') == [Join(Columns, ',')] + CsvBodies(records, fmt) + [""]
            && NewestFirst(OrderByTimestampDesc(records))
            && multiset(OrderByTimestampDesc(records)) == multiset(records)
  {
    var lines := [Join(Columns, ',')] + CsvBodies(records, fmt);
    LinesWithoutBreak(records, fmt);
    DocumentIsTerminated(records, fmt);
    SplitTerminated(lines, '\n');
  }
}
