/** Values and configuration shared by the scorer, the orientation search and
    the output stage of the OCR service (ocr-service/main.py). */
module OcrTypes {

  datatype Option<+T> = None | Some(value: T)

  /** One text fragment reported by the recognition engine: the text and the
      engine's confidence in it. */
  datatype Detection = Detection(text: string, confidence: real)

  /** What one engine pass yields for the first page of the image. `None`
      stands for every reply the service treats as "nothing recognised" (no
      result at all, or a first page that is `None`); `Some(ds)` is the
      ordered list of detections, possibly empty. */
  type EngineOutput = Option<seq<Detection>>

  /** The recognition engine, seen from the search: the rotation angle in
      degrees determines the rotated image and hence what the engine returns. */
  type Engine = int -> EngineOutput

  /** Keyword vocabulary, in the order the scorer visits it. */
  const KEYWORDS: seq<string> :=
    ["student", "id", "name", "nickname", "school", "course", "mobile", "date of birth", "teacher"]

  /** Keywords that weigh double. */
  const CRITICAL_KEYWORDS: seq<string> := ["student", "id"]

  /** Detections below this confidence are dropped from the output. */
  const MIN_CONFIDENCE: real := 0.4

  /** A score of at least this much is a "good" orientation: the search stops. */
  const MIN_KEYWORD_MATCHES: int := 2

  /** Orientations tried first, most likely first. */
  const PRIMARY_ANGLES: seq<int> := [0, 270]

  /** Orientations tried only when no primary orientation was good. */
  const FALLBACK_ANGLES: seq<int> := [90, 180]
}
