/** `run_ocr` of ocr-service/main.py (lines 54-164): open the image, run the
    orientation search, and report the confident detections of the winner. */
module OcrService {
  import opened OcrTypes
  import opened Scorer
  import opened OrientationSearch
  import opened ResultFilter

  /** Outcome of opening the image file, decided outside the model. */
  datatype ImageSource = Opened | OpenFailed(reason: string)

  /** What the service prints: an error object or the list of detections. */
  datatype Response = Failure(error: string) | Success(detections: seq<Detection>)

  const OPEN_ERROR_PREFIX: string := "Failed to open image: "

  /** Reference definition of the service's answer. */
  function Outcome(image: ImageSource, engine: Engine, exhaustive: bool): Response
  {
    match image
    case OpenFailed(reason) => Failure(OPEN_ERROR_PREFIX + reason)
    case Opened => Success(Formatted(engine(Select(engine, exhaustive).angle)))
  }

  /** The angles the engine is called with, in order. */
  function Calls(image: ImageSource, engine: Engine, exhaustive: bool): seq<int>
  {
    if image.OpenFailed? then [] else SearchTrace(engine, exhaustive)
  }

  /** The service: an image that cannot be opened is reported before the
      engine is ever called; otherwise the search picks the winning
      rotation and its confident detections are returned. `calls` lists the
      angles handed to the engine. */
  method RunOcr(image: ImageSource, engine: Engine, exhaustive: bool)
    returns (response: Response, calls: seq<int>)
    ensures response == Outcome(image, engine, exhaustive)
    ensures calls == Calls(image, engine, exhaustive)
  {
    if image.OpenFailed? {
      return Failure(OPEN_ERROR_PREFIX + image.reason), [];
    }
    var sel, bestResult := Search(engine, exhaustive);
    var out := FormatOutput(bestResult);
    response, calls := Success(out), sel.trace;
  }

  /** An image-open failure yields the error object and no engine call. */
  lemma OpenFailureMakesNoCall(reason: string, engine: Engine, exhaustive: bool)
    ensures Outcome(OpenFailed(reason), engine, exhaustive) == Failure("Failed to open image: " + reason)
    ensures Calls(OpenFailed(reason), engine, exhaustive) == []
  {
  }

  /** Once the image is open, the run answers with a detection list (the
      engine being a total function here, it cannot raise) holding exactly
      the confident detections of the winning rotation's result. */
  lemma SuccessReportsWinner(engine: Engine, exhaustive: bool, d: Detection)
    ensures Outcome(Opened, engine, exhaustive).Success?
    ensures var best := engine(Select(engine, exhaustive).angle);
      d in Outcome(Opened, engine, exhaustive).detections <==>
        best.Some? && d in best.value && d.confidence >= MIN_CONFIDENCE
  {
    var best := engine(Select(engine, exhaustive).angle);
    if best.Some? {
      ConfidentOnlyMembership(best.value, d);
    }
  }

  /** The engine is called at most four times, and at least once once the
      image is open. */
  lemma CallCountBounds(image: ImageSource, engine: Engine, exhaustive: bool)
    ensures |Calls(image, engine, exhaustive)| <= 4
    ensures image.Opened? ==> |Calls(image, engine, exhaustive)| >= 1
    ensures exhaustive && image.Opened? ==> |Calls(image, engine, exhaustive)| == 2
  {
    if image.Opened? {
      var t := SearchTrace(engine, exhaustive);
      var p := PhaseTrace(engine, PRIMARY_ANGLES, !exhaustive);
      var f := PhaseTrace(engine, FALLBACK_ANGLES, true);
      assert |t| <= |p| + |f|;
    }
  }
}
