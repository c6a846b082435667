# OCR orientation search — a Dafny model

The OCR service `ocr-service/main.py` reads the text on a photographed
student ID card whose rotation is unknown. `run_ocr` does three things:

1. It hands the image to an OCR engine at several rotations.
2. It scores each reading by the ID-card keywords it contains.
3. It keeps the best reading and prints its confident detections.

This project models that decision procedure and proves what it promises.
The engine and the image library are outside the model.

- **Constants and data** (`ocr_types.dfy`, module `OcrTypes`):
  - The keyword vocabulary, its two critical keywords ("student", "id"),
    the confidence threshold 0.4 and the "good result" threshold 2.
  - The primary angles `[0, 270]` and the fallback angles `[90, 180]`.
  - A detection is a text with a `real` confidence.
  - The engine is a function `int -> Option<seq<Detection>>` from the
    rotation angle to its reading. `None` stands for no result at all
    (`result` is `None` or empty) or a first page that is `None`;
    `Some([])` stands for a first page that is an empty list.
- **Text** (`text.dfy`, module `Text`):
  - ASCII lower-casing.
  - The substring test behind `k in joined_text`. It is written
    position by position, and proved equivalent to "some slice of the text
    equals `k`".
- **Keyword scorer** (`scorer.dfy`, `score_properties.dfy`):
  - The joined lower-case text; `JoinedText` mirrors the `" ".join`
    comprehension.
  - The score as a function, `Score`.
  - The scoring loop as a method, `ScoreResult`, proved equal to `Score`.
  - Properties of the score: bounds, the weighted-count formula, and the
    substring quirks ("nickname" also matches "name"; "valid" matches "id").
- **Orientation search** (`search.dfy`, `search_properties.dfy`):
  - A reference definition: `SearchTrace` lists the angles the policy
    evaluates, and `Select` takes the first best-scoring one.
  - The two phase loops as one method, `RunPhase`. It has the same
    early-stop `break` and the same strict-greater update from an initial
    best score of -1.
  - The method `Search` runs both phases and is proved equal to `Select`.
  - Lemmas on call counts, ordering, early stopping, fallback and
    tie-breaking.
- **Confidence filter** (`result_filter.dfy`): the formatting loop
  `FormatOutput`, proved equal to the pure filter `ConfidentOnly`, with
  membership, order, boundary, length and idempotence lemmas.
- **Service** (`service.dfy`): `RunOcr` takes the image-open outcome and
  answers with the error object or the filtered winner. Its `calls` output
  lists the angles handed to the engine.
- **Scenarios** (`scenarios.dfy`): a worked case. The upright reading is
  noise and the card text appears at 270 degrees.

Two consequences of the code are worth spelling out:

- **Ties.** The best-so-far updates use strict `>` starting from -1, so on
  equal scores the first evaluated angle is kept; when every reading is
  empty that is angle 0. See `SearchProperties.AllEmptyKeepsFirstAngle`
  and `SearchProperties.ExhaustivePicksStrictlyBetter`.
- **Substring matching.** The card text "student id: 1234 name: x school: y"
  scores 6: "student" 2, "id" 2, "name" 1, "school" 1. See
  `Scenarios.CardScoresSix`.

## Model

| member | source | states |
|---|---|---|
| Text.LowerChar | ocr-service/main.py:83 | an upper-case ASCII letter becomes its lower-case letter (32 code points up, 'A' to 'a'); every other character is unchanged |
| Text.Lower | ocr-service/main.py:83 | lower-casing keeps the length and maps every character through `LowerChar`, so each upper-case ASCII letter becomes lower case and nothing else changes; `LowerIdempotent` and `LowerOfLowercase` state its fixed points |
| Text.LowerOfLowercase | ocr-service/main.py:83 | a text without upper-case ASCII letters is unchanged by lower-casing |
| Text.Contains | ocr-service/main.py:86 | the substring test as a scan over start positions; `ContainsIffOccurs` proves it equal to "some slice equals `k`" |
| Text.ContainsIffOccurs | ocr-service/main.py:86 | the substring test `k in joined_text` holds exactly when some slice of the text equals `k` |
| Text.LowerIdempotent | ocr-service/main.py:83 | lower-casing an already lower-cased text changes nothing |
| Scorer.Weight | ocr-service/main.py:88-91 | 2 for a critical keyword, 1 for any other; over the vocabulary the weights sum to 11 (`TotalWeightOfKeywords`) |
| Scorer.JoinedText | ocr-service/main.py:83 | the lower-cased detection texts joined by single spaces; `DetectionWithinJoined` proves every detection's lower-cased text is a slice of it |
| Scorer.Score | ocr-service/main.py:81-91 | the reference score of one reading, computed by the loop `ScoreResult`; `ScoreBounds` and `ScoreIsWeightedCount` state its range and its weighted-count formula |
| Scorer.ScoreResult | ocr-service/main.py:81-91 | the scoring loop's total is `Score(r)`: 0 for a missing or empty reading, else the weights (2 critical, 1 other) of the vocabulary keywords found in the joined lower-case text |
| Scorer.WeightedMatchesAtMost | ocr-service/main.py:85-91 | the loop never adds more than the total weight of the keywords it visits |
| Scorer.WeightedMatchesAtLeast | ocr-service/main.py:85-91 | a keyword of the list found in the text contributes at least its weight |
| Scorer.WeightedMatchesAtLeastTwo | ocr-service/main.py:85-91 | two different keywords found in the text contribute at least the sum of their weights |
| Scorer.WeightedMatchesIsCount | ocr-service/main.py:85-91 | over a duplicate-free keyword list, the total is twice the number of critical keywords found plus the number of other keywords found |
| Scorer.DetectionWithinJoined | ocr-service/main.py:83 | each detection's lower-cased text is a slice of the space-joined text, so a keyword in one detection is found |
| ScoreProperties.ScoreBounds | ocr-service/main.py:25-29 | every reading scores between 0 and 11; a missing or empty reading scores 0 |
| ScoreProperties.TotalWeightOfKeywords | ocr-service/main.py:25-27 | the vocabulary's weights sum to 11 (seven keywords of weight 1, two of weight 2) |
| ScoreProperties.KeywordsDistinct | ocr-service/main.py:25 | the vocabulary has no repeated keyword |
| ScoreProperties.ScoreIsWeightedCount | ocr-service/main.py:81-91 | the score of a non-empty reading is 2 times the critical keywords found plus the other keywords found |
| ScoreProperties.KeywordInOneDetectionCounts | ocr-service/main.py:83-91 | a keyword inside any single detection adds its weight to the score |
| ScoreProperties.IdAloneIsAHit | ocr-service/main.py:86-89 | a joined text that merely contains "id" reaches the threshold 2 |
| ScoreProperties.NicknameAndNameScoreTwo | ocr-service/main.py:85-91 | a text with "nickname" and "name" scores at least 2 |
| ScoreProperties.NicknameContainsName | ocr-service/main.py:86 | a text that contains "nickname" also contains "name" |
| ScoreProperties.NicknameAlsoMatchesName | ocr-service/main.py:85-91 | since matching is by substring, "nickname" also matches "name", and a reading containing "nickname" reaches the threshold |
| ScoreProperties.IdIsCritical | ocr-service/main.py:25-27 | "id" is in the vocabulary with weight 2 |
| ScoreProperties.NameWithinNickname | ocr-service/main.py:25 | "name" and "nickname" are two distinct keywords of weight 1, and "nickname" contains "name" |
| ScoreProperties.ValidScoresForId | ocr-service/main.py:83-91 | the single reading "valid" scores exactly 2, for the "id" inside it |
| ScoreProperties.ValidMatchesOnlyId | ocr-service/main.py:85-91 | of the whole vocabulary, only "id" occurs in "valid" |
| ScoreProperties.ValidMisses | ocr-service/main.py:86 | "valid" contains "id" and no other keyword |
| ScoreProperties.ScoreOfOne | ocr-service/main.py:82-83 | a one-detection reading is scored on that detection's lower-cased text |
| ScoreProperties.UpperCaseIdIsAHit | ocr-service/main.py:83-89 | keywords match case-insensitively: the reading "ID" is lower-cased before matching and reaches the threshold 2 |
| ScoreProperties.NoKeywordScoresZero | ocr-service/main.py:85-91 | a text with no keyword scores 0 |
| ScoreProperties.StudentIdNameSchoolScoreSix | ocr-service/main.py:85-91 | a text with "student", "id", "name" and "school" and no other keyword scores exactly 6 |
| OrientationSearch.PhaseTrace | ocr-service/main.py:70-103 | one phase evaluates a prefix of its angles, in order. It evaluates all of them unless it stops early. When it stops early, the last angle evaluated is the first hit and none before it is a hit |
| OrientationSearch.SearchTrace | ocr-service/main.py:113 | at least one angle is evaluated |
| OrientationSearch.FirstMaxIndex | ocr-service/main.py:105-108 | the selected position holds the maximum score and every earlier position scores strictly less |
| OrientationSearch.FirstMaxIndexUnique | ocr-service/main.py:105-108 | a position holding the maximum with only smaller scores before it is the one selected |
| OrientationSearch.TracksStep | ocr-service/main.py:105-108 | a strict-greater update keeps "best so far = first maximum over the evaluated angles" |
| OrientationSearch.TracksNoHit | ocr-service/main.py:113 | the best score so far is below 2 exactly when no evaluated angle was a hit |
| OrientationSearch.PhaseTraceStopsAt | ocr-service/main.py:98-103 | a phase that meets its first hit at position i evaluates exactly the first i+1 angles |
| OrientationSearch.PhaseTraceAll | ocr-service/main.py:70 | a phase without a hit evaluates all of its angles |
| OrientationSearch.RunPhase | ocr-service/main.py:70-108 | one phase loop evaluates exactly `PhaseTrace` after the angles before it and keeps the first best angle, its score and its reading |
| OrientationSearch.Search | ocr-service/main.py:54-150 | the two phases together produce `Select`: the trace `SearchTrace`, and its first best-scoring angle with that angle's score and reading |
| OrientationSearch.Select | ocr-service/main.py:57-150 | the reference outcome of the search: the evaluated angles and their first best-scoring one; `Search` computes it, and `SelectIsEarliestMaximum` and `SearchTraceCases` characterise it |
| SearchProperties.PrimaryPhase | ocr-service/main.py:54 | the primary phase evaluates just 0 when it stops on a hit at 0, and 0 then 270 otherwise |
| SearchProperties.FallbackPhase | ocr-service/main.py:55 | the fallback phase evaluates just 90 on a hit at 90, and 90 then 180 otherwise |
| SearchProperties.SearchTraceCases | ocr-service/main.py:98-145 | the complete case analysis of the angles evaluated: [0,270] in exhaustive mode; otherwise [0], [0,270], [0,270,90] or [0,270,90,180] by the first hit |
| SearchProperties.TraceIsPrefixOfAllAngles | ocr-service/main.py:54-55 | between 1 and 4 engine calls, always a prefix of 0, 270, 90, 180 |
| SearchProperties.ExhaustiveTriesPrimaryOnly | ocr-service/main.py:113 | exhaustive mode calls the engine exactly at 0 then 270 and never at 90 or 180 |
| SearchProperties.EarlyStopAtZero | ocr-service/main.py:98-103 | in normal mode a hit at 0 means one engine call, with angle 0 and its score selected |
| SearchProperties.FallbackOnlyAfterPrimaryMisses | ocr-service/main.py:113-117 | more than two calls happen exactly in normal mode with both primary angles short of 2; the third call is at 90, and a fourth happens exactly when 90 misses |
| SearchProperties.NormalModeStopsAtFirstHit | ocr-service/main.py:141-145 | in normal mode, every angle before the last one evaluated misses, and the last is a hit unless all four were tried |
| SearchProperties.SelectIsEarliestMaximum | ocr-service/main.py:105-108 | the selected score is its angle's score, no evaluated angle scores more, and no earlier evaluated angle scores as much |
| SearchProperties.NormalModeHitWins | ocr-service/main.py:141-150 | in normal mode a selected hit is the last angle evaluated, and the selected score reaches 2 exactly when some evaluated angle was a hit |
| SearchProperties.AllEmptyKeepsFirstAngle | ocr-service/main.py:57-59 | when every reading scores 0, angle 0 is kept with score 0, and normal mode tries all four angles |
| SearchProperties.HitAtSecondPrimary | ocr-service/main.py:98-103 | a miss at 0 and a hit at 270 mean two calls, and 270 wins with its score |
| SearchProperties.ExhaustivePicksStrictlyBetter | ocr-service/main.py:105-108 | exhaustive mode takes 270 only when it scores strictly more than 0, so a tie keeps 0 |
| ResultFilter.ConfidentOnly | ocr-service/main.py:156-164 | the confident detections of a reading; `ConfidentOnlyMembership`, `ConfidentOnlyAppend` and `ConfidentOnlySingle` prove it keeps exactly those with confidence at least 0.4, in order and unchanged |
| ResultFilter.Formatted | ocr-service/main.py:153-164 | the output for the winning reading: empty for a missing reading (`FormattedEmpty`), else its confident detections; the loop `FormatOutput` computes it |
| ResultFilter.FormatOutput | ocr-service/main.py:153-164 | the formatting loop outputs the confident detections of the winning reading, or nothing for a missing reading |
| ResultFilter.ConfidentOnlyMembership | ocr-service/main.py:156-164 | a detection is output exactly when it is in the reading and its confidence is at least 0.4 |
| ResultFilter.ConfidentOnlyAppend | ocr-service/main.py:156-164 | filtering keeps the original order: the filter of a concatenation is the concatenation of the filters |
| ResultFilter.ConfidentOnlySingle | ocr-service/main.py:160 | one detection is kept, with text and confidence unchanged, exactly when its confidence is at least 0.4 (the boundary is kept) |
| ResultFilter.ConfidentOnlyLength | ocr-service/main.py:156-164 | the output is never longer than the reading, and is as long exactly when every detection is confident |
| ResultFilter.ConfidentOnlyIdempotent | ocr-service/main.py:160 | filtering a filtered list changes nothing |
| ResultFilter.FormattedEmpty | ocr-service/main.py:153-155 | a missing or empty winning reading gives an empty list, not an error |
| OcrService.Outcome | ocr-service/main.py:61-164 | the reference answer: the open-error object, or the confident detections of the winning rotation's reading (`OpenFailureMakesNoCall`, `SuccessReportsWinner`) |
| OcrService.Calls | ocr-service/main.py:61-145 | the angles handed to the engine: none when the image does not open, else the search trace; `CallCountBounds` bounds their number |
| OcrService.RunOcr | ocr-service/main.py:61-164 | the service answers `Outcome` and calls the engine at exactly `Calls`: no call and the error object when the image cannot be opened, else the search trace and the filtered winner |
| OcrService.OpenFailureMakesNoCall | ocr-service/main.py:61-66 | an image-open failure answers "Failed to open image: " followed by the reason, with no engine call |
| OcrService.SuccessReportsWinner | ocr-service/main.py:155-164 | once the image opens, the answer is a detection list holding exactly the confident detections of the winning rotation's reading |
| OcrService.CallCountBounds | ocr-service/main.py:54-55 | at most four engine calls; at least one once the image is open; exactly two in exhaustive mode |
| Scenarios.NoiseMisses | ocr-service/main.py:86 | no keyword occurs in the noise reading "blurry scan" |
| Scenarios.NoiseScoresZero | ocr-service/main.py:81-91 | the noise reading scores 0 |
| Scenarios.CardMatches | ocr-service/main.py:86 | the card text contains "student", "id", "name" and "school" |
| Scenarios.CardMisses | ocr-service/main.py:86 | the card text contains none of "nickname", "course", "mobile", "date of birth", "teacher" |
| Scenarios.CardScoresSix | ocr-service/main.py:81-91 | the card reading "student id: 1234 name: x school: y" scores exactly 6 |
| Scenarios.CardFoundAt270 | ocr-service/main.py:98-103 | with noise upright and the card at 270, normal mode evaluates 0 and 270 and selects 270 with score 6 |
| Scenarios.CardCalls | ocr-service/main.py:54-55 | in that case the engine is called at 0 and 270 only |
| Scenarios.CardReported | ocr-service/main.py:153-164 | in that case the service reports the card detection unchanged |

## Left out

- OCR engine, image rotation and array conversion (`PaddleOCR`, `PIL`,
  `numpy`). These are foreign library calls. The engine is a function
  parameter from the angle to its reading, so the model assumes the same
  angle always gives the same reading.
- The engine singleton `get_ocr` and its global instance. It is lazy
  initialisation with no decision logic.
- Environment flags, logging, stdout/stderr redirection and the debug
  writes of each angle's score. These are process I/O.
- JSON printing. The answer is the `Response` datatype instead of the
  serialised text.
- `sys.argv` parsing and the `__main__` guard, including the "No image
  path provided" error. `exhaustive` and the image-open outcome are plain
  inputs, and the exception text of a failed open is the `reason` string.
- Text.Lower: lower-cases ASCII letters only, because Python's Unicode
  `str.lower()` (case mappings, length-changing characters) is not
  modelled.
- Float confidences are `real`. They are only ever compared with 0.4, so
  no float arithmetic is involved.
- The inner structure of an engine line (`line[1][0]`, `line[1][1]`) is
  flattened into `Detection(text, confidence)`. The falsy readings
  `None`, `[]` and `[None]` become `None`, and `[[]]` becomes `Some([])`;
  both score 0 and format to `[]` alike.
- OcrService.RunOcr: assumes that constructing the engine (main.py line
  49), rotating the image, converting it and calling the engine never
  raise. In the source these calls (lines 49, 72-78 and 118-122) are
  outside any `try`. An exception there ends `run_ocr` without printing a
  result. Examples are an engine that cannot be built, which fails even
  for a file that cannot be opened, or a corrupt file whose header
  `Image.open` accepted lazily. The model has no such
  outcome: once the image opens, `RunOcr` always answers with a detection
  list.
