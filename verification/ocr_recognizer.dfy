/**
  `OCRRecognizer.recognize`: run the OCR engine on the unwarped image, take
  the recognised texts and scores of the first result record, join the texts
  into the serial number and average the scores into one confidence.

  The engine is foreign: `Engine.predict` stands for PaddleOCR's `predict`
  (`None` when it raises), and whether its `save_to_img` / `save_to_json`
  calls raise is an input of each call.
 */
module OcrRecognizer {
  import opened Outcome
  import opened Text
  import opened Clock
  import opened Paths
  import opened Vision

  /** One result record of the engine: its `rec_texts` and `rec_scores` lists. */
  datatype OcrRecord = OcrRecord(recTexts: seq<string>, recScores: seq<real>)

  /** The OCR engine: the records it predicts for the file contents at a path (missing file: `None`). */
  datatype Engine = Engine(predict: Option<Bytes> -> Option<seq<OcrRecord>>)

  /** The clock reading and whether the engine's own `save_to_img`/`save_to_json` calls succeed. */
  datatype OcrIo = OcrIo(now: DateTime, savesOk: bool)

  /** A recognised token: its text and its score. */
  datatype Token = Token(text: string, score: real)

  /** `((serial_number, avg_confidence, ocr_image_path), success)`. */
  datatype OcrResult = OcrResult(serial: string, confidence: real, imagePath: string, success: bool)

  /** The failure tuple `(("", 0.0, ""), False)`. */
  const NotRecognized := OcrResult("", 0.0, "", false)

  function Texts(tokens: seq<Token>): (r: seq<string>)
    ensures |r| == |tokens| && forall i :: 0 <= i < |r| ==> r[i] == tokens[i].text
  {
    seq(|tokens|, i requires 0 <= i < |tokens| => tokens[i].text)
  }

  function Scores(tokens: seq<Token>): (r: seq<real>)
    ensures |r| == |tokens| && forall i :: 0 <= i < |r| ==> r[i] == tokens[i].score
  {
    seq(|tokens|, i requires 0 <= i < |tokens| => tokens[i].score)
  }

  /**
    The extraction loop over `range(len(data[0]['rec_texts']))`: text `i` is
    paired with score `i` of the first record only. No records give no
    tokens; a score list shorter than the text list makes `rec_scores[i]`
    raise, modelled as `None`; extra scores are never read.
   */
  function FirstRecordTokens(data: seq<OcrRecord>): (r: Option<seq<Token>>)
    ensures |data| == 0 ==> r == Some([])
    ensures |data| > 0 ==> (r.Some? <==> |data[0].recScores| >= |data[0].recTexts|)
    ensures r.Some? && |data| > 0 ==>
              Texts(r.value) == data[0].recTexts
              && Scores(r.value) == data[0].recScores[..|data[0].recTexts|]
  {
    if |data| == 0 then Some([])
    else
      var texts := data[0].recTexts;
      var scores := data[0].recScores;
      if |scores| < |texts| then None
      else Some(seq(|texts|, i requires 0 <= i < |texts| => Token(texts[i], scores[i])))
  }

  // ---------------------------------------------------------------------------
  // Aggregation

  function Sum(xs: seq<real>): real
  {
    if |xs| == 0 then 0.0 else Sum(xs[..|xs| - 1]) + xs[|xs| - 1]
  }

  /** `sum(xs) / len(xs) if xs else 0`. */
  function Mean(xs: seq<real>): real
  {
    if |xs| == 0 then 0.0 else Sum(xs) / (|xs| as real)
  }

  /** A sum of values within `[lo, hi]` lies within `[n * lo, n * hi]`. */
  lemma {:induction false} SumWithin(xs: seq<real>, lo: real, hi: real)
    requires forall i :: 0 <= i < |xs| ==> lo <= xs[i] <= hi
    ensures (|xs| as real) * lo <= Sum(xs) <= (|xs| as real) * hi
  {
    if |xs| > 0 {
      SumWithin(xs[..|xs| - 1], lo, hi);
    }
  }

  /** The mean of values within `[lo, hi]` lies within `[lo, hi]`. */
  lemma MeanWithin(xs: seq<real>, lo: real, hi: real)
    requires |xs| > 0
    requires forall i :: 0 <= i < |xs| ==> lo <= xs[i] <= hi
    ensures lo <= Mean(xs) <= hi
  {
    SumWithin(xs, lo, hi);
    var n := |xs| as real;
    assert n * lo <= Sum(xs) <= n * hi;
    assert Sum(xs) / n >= lo by {
      assert (n * lo) / n == lo;
    }
    assert Sum(xs) / n <= hi by {
      assert (n * hi) / n == hi;
    }
  }

  function MinOf(xs: seq<real>): (m: real)
    requires |xs| > 0
    ensures forall i :: 0 <= i < |xs| ==> m <= xs[i]
    ensures exists i :: 0 <= i < |xs| && xs[i] == m
  {
    if |xs| == 1 then xs[0]
    else var m := MinOf(xs[1..]); if xs[0] <= m then xs[0] else m
  }

  function MaxOf(xs: seq<real>): (m: real)
    requires |xs| > 0
    ensures forall i :: 0 <= i < |xs| ==> xs[i] <= m
    ensures exists i :: 0 <= i < |xs| && xs[i] == m
  {
    if |xs| == 1 then xs[0]
    else var m := MaxOf(xs[1..]); if xs[0] >= m then xs[0] else m
  }

  /** The mean of a non-empty list lies between its smallest and largest element. */
  lemma MeanBetweenMinAndMax(xs: seq<real>)
    requires |xs| > 0
    ensures MinOf(xs) <= Mean(xs) <= MaxOf(xs)
  {
    MeanWithin(xs, MinOf(xs), MaxOf(xs));
  }

  /**
    The aggregation policy: the token texts joined in order with no
    separator and stripped, and the arithmetic mean of the scores.
   */
  function Aggregate(tokens: seq<Token>): (r: (string, real))
  {
    (Strip(Concat(Texts(tokens))), Mean(Scores(tokens)))
  }

  /** The worked example: `[("AB", 0.9), ("12", 0.7)]` gives `"AB12"` with confidence 0.8. */
  lemma AggregateExample()
    ensures Aggregate([Token("AB", 0.9), Token("12", 0.7)]) == ("AB12", 0.8)
  {
    var tokens := [Token("AB", 0.9), Token("12", 0.7)];
    var texts: seq<string> := ["AB", "12"];
    var scores: seq<real> := [0.9, 0.7];
    assert Texts(tokens) == texts;
    assert Scores(tokens) == scores;
    ExampleSerial();
    ExampleMean();
  }

  /** The example's texts join and strip to `"AB12"`. */
  lemma ExampleSerial()
    ensures Strip(Concat(["AB", "12"])) == "AB12"
  {
    var texts: seq<string> := ["AB", "12"];
    assert texts[..1] == ["AB"];
    assert Concat(texts[..1]) == "AB";
    assert Concat(texts) == "AB12";
    assert Leading("AB12") == 0 by {
      assert !IsSpace('A');
    }
    assert Trailing("AB12") == 0 by {
      assert !IsSpace('2');
    }
  }

  /** The example's scores average to 0.8. */
  lemma ExampleMean()
    ensures Mean([0.9, 0.7]) == 0.8
  {
    var scores: seq<real> := [0.9, 0.7];
    assert scores[..1] == [0.9];
    assert Sum(scores) == 1.6;
  }

  // ---------------------------------------------------------------------------
  // recognize

  /** The records the engine returns for the image at `imagePath`. */
  function Predicted(engine: Engine, disk: Disk, imagePath: string): Option<seq<OcrRecord>>
  {
    engine.predict(if imagePath in disk then Some(disk[imagePath]) else None)
  }

  /**
    `recognize(image_path)`. The annotated rendering goes to
    `ocr_<stamp>.jpg` in the scratch directory. The call fails, returning the
    failure tuple, when the engine raises, when its save calls raise, when
    the score list is too short, or when the first record has no text.
    Otherwise it succeeds, whatever the joined text strips to.
   */
  function Recognize(engine: Engine, scratch: string, disk: Disk, imagePath: string, io: OcrIo)
    : (r: OcrResult)
    ensures !r.success ==> r == NotRecognized
    ensures r.success ==> r.imagePath == ArtifactPath(scratch, Ocr, io.now)
  {
    var ocrImagePath := ArtifactPath(scratch, Ocr, io.now);
    match Predicted(engine, disk, imagePath)
    case None => NotRecognized
    case Some(data) =>
      if |data| > 0 && !io.savesOk then NotRecognized
      else
        match FirstRecordTokens(data)
        case None => NotRecognized
        case Some(tokens) =>
          if |tokens| == 0 then NotRecognized
          else
            var (serial, confidence) := Aggregate(tokens);
            OcrResult(serial, confidence, ocrImagePath, true)
  }

  /**
    Recognition succeeds exactly when the engine returns at least one record,
    its saves succeed, and the first record has at least one text and no
    fewer scores than texts. The serial is then the first record's texts
    joined in order and stripped, and the confidence is the mean of the
    scores paired with them, which lies between their least and greatest.
   */
  lemma RecognizeOutcome(engine: Engine, scratch: string, disk: Disk, imagePath: string, io: OcrIo)
    ensures var r := Recognize(engine, scratch, disk, imagePath, io);
            var data := Predicted(engine, disk, imagePath);
            && (r.success <==>
                  && data.Some? && |data.value| > 0 && io.savesOk
                  && |data.value[0].recTexts| > 0
                  && |data.value[0].recScores| >= |data.value[0].recTexts|)
            && (r.success ==>
                  var texts := data.value[0].recTexts;
                  var scores := data.value[0].recScores[..|texts|];
                  && r.serial == Strip(Concat(texts))
                  && r.confidence == Mean(scores)
                  && MinOf(scores) <= r.confidence <= MaxOf(scores))
  {
    var r := Recognize(engine, scratch, disk, imagePath, io);
    var data := Predicted(engine, disk, imagePath);
    if r.success {
      var texts := data.value[0].recTexts;
      MeanBetweenMinAndMax(data.value[0].recScores[..|texts|]);
    }
  }

  /**
    Success is decided on the token list, not on the serial: a first record
    whose texts are all whitespace still succeeds, with an empty serial.
   */
  lemma WhitespaceTokensSucceedEmpty(engine: Engine, scratch: string, disk: Disk, imagePath: string,
                                     io: OcrIo)
    requires Predicted(engine, disk, imagePath).Some?
    requires var data := Predicted(engine, disk, imagePath).value;
             && |data| > 0 && io.savesOk
             && |data[0].recTexts| > 0 && |data[0].recScores| >= |data[0].recTexts|
             && AllSpace(Concat(data[0].recTexts))
    ensures Recognize(engine, scratch, disk, imagePath, io).success
    ensures Recognize(engine, scratch, disk, imagePath, io).serial == ""
  {
    RecognizeOutcome(engine, scratch, disk, imagePath, io);
    StripAllSpace(Concat(Predicted(engine, disk, imagePath).value[0].recTexts));
  }
}
