/** Concrete runs of the service on a scanned ID card whose upright reading
    is noise and whose 270-degree reading is the card text. */
module Scenarios {
  import opened OcrTypes
  import opened Text
  import opened Scorer
  import opened OrientationSearch
  import opened ResultFilter
  import opened OcrService
  import SearchProperties
  import ScoreProperties

  const NOISE: string := "blurry scan"
  const CARD: string := "student id: 1234 name: x school: y"

  /** An engine that reads noise upright, the card text at 270 degrees and
      nothing at the other rotations. */
  function CardEngine(angle: int): EngineOutput
  {
    if angle == 0 then Some([Detection(NOISE, 0.9)])
    else if angle == 270 then Some([Detection(CARD, 0.95)])
    else None
  }

  lemma NoiseLacksVowels()
    ensures forall i :: 0 <= i < |NOISE| ==> NOISE[i] != 'e' && NOISE[i] != 'i' && NOISE[i] != 'o'
    ensures forall i :: 0 <= i < |NOISE| ==> !('A' <= NOISE[i] <= 'Z')
  {
  }

  /** Every keyword has an "e", an "i" or an "o", so none occurs in the noise. */
  lemma NoiseMisses()
    ensures forall k :: k in KEYWORDS ==> !Contains(NOISE, k)
  {
    NoiseLacksVowels();
    MissingCharNotContained(NOISE, "student", 'e');
    MissingCharNotContained(NOISE, "id", 'i');
    MissingCharNotContained(NOISE, "name", 'e');
    MissingCharNotContained(NOISE, "nickname", 'e');
    MissingCharNotContained(NOISE, "school", 'o');
    MissingCharNotContained(NOISE, "course", 'o');
    MissingCharNotContained(NOISE, "mobile", 'o');
    MissingCharNotContained(NOISE, "date of birth", 'e');
    MissingCharNotContained(NOISE, "teacher", 'e');
  }

  /** No keyword occurs in the noise. */
  lemma NoiseScoresZero()
    ensures Score(CardEngine(0)) == 0
  {
    NoiseLacksVowels();
    LowerOfLowercase(NOISE);
    NoiseMisses();
    ScoreProperties.ScoreOfOne(Detection(NOISE, 0.9));
    ScoreProperties.NoKeywordScoresZero(NOISE);
  }

  lemma CardIsLowercase()
    ensures forall i :: 0 <= i < |CARD| ==> !('A' <= CARD[i] <= 'Z')
  {
  }

  lemma CardLacksLetters()
    ensures forall i :: 0 <= i < |CARD| ==> CARD[i] != 'k' && CARD[i] != 'r' && CARD[i] != 'b'
  {
  }

  /** "nickname" has a "k", "course" and "teacher" an "r", "mobile" and
      "date of birth" a "b": none occurs in the card. */
  lemma CardMisses()
    ensures !Contains(CARD, "nickname") && !Contains(CARD, "course") && !Contains(CARD, "mobile")
    ensures !Contains(CARD, "date of birth") && !Contains(CARD, "teacher")
  {
    CardLacksLetters();
    MissingCharNotContained(CARD, "nickname", 'k');
    MissingCharNotContained(CARD, "course", 'r');
    MissingCharNotContained(CARD, "mobile", 'b');
    MissingCharNotContained(CARD, "date of birth", 'b');
    MissingCharNotContained(CARD, "teacher", 'r');
  }

  lemma CardMatches()
    ensures Contains(CARD, "student") && Contains(CARD, "id")
    ensures Contains(CARD, "name") && Contains(CARD, "school")
  {
    assert SliceAt(CARD, "student", 0);
    assert CARD[8] == 'i' && CARD[9] == 'd';
    assert SliceAt(CARD, "id", 8);
    assert SliceAt(CARD, "name", 17);
    assert SliceAt(CARD, "school", 25);
    ContainsIffOccurs(CARD, "student");
    ContainsIffOccurs(CARD, "id");
    ContainsIffOccurs(CARD, "name");
    ContainsIffOccurs(CARD, "school");
  }

  /** The card scores 6: "student" and "id" count 2 each, "name" and
      "school" 1 each. */
  lemma CardScoresSix()
    ensures Score(CardEngine(270)) == 6
  {
    CardLowered();
    CardScoresSixOnText();
    ScoreProperties.ScoreOfOne(Detection(CARD, 0.95));
  }

  lemma CardLowered()
    ensures Lower(CARD) == CARD
  {
    CardIsLowercase();
    LowerOfLowercase(CARD);
  }

  lemma CardScoresSixOnText()
    ensures WeightedMatches(KEYWORDS, CARD) == 6
  {
    CardMatches();
    CardMisses();
    ScoreProperties.StudentIdNameSchoolScoreSix(CARD);
  }

  /** Normal mode: the noise falls short and the card is a hit at 270, so
      the search stops there without trying the fallback angles. */
  lemma CardFoundAt270()
    ensures Select(CardEngine, false).angle == 270 && Select(CardEngine, false).trace == [0, 270]
    ensures Select(CardEngine, false).score == 6
  {
    NoiseScoresZero();
    CardScoresSix();
    SearchProperties.HitAtSecondPrimary(CardEngine);
  }

  /** The service calls the engine at 0 and 270 only. */
  lemma CardCalls()
    ensures Calls(Opened, CardEngine, false) == [0, 270]
  {
    CardFoundAt270();
  }

  /** The service reports the card detection unchanged. */
  lemma CardReported()
    ensures Outcome(Opened, CardEngine, false) == Success([Detection(CARD, 0.95)])
  {
    CardFoundAt270();
    ConfidentOnlySingle(Detection(CARD, 0.95));
  }
}
