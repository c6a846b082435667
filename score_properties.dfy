/** Properties of the keyword score (ocr-service/main.py lines 25-27,
    81-91): its range, its reading as a weighted count of matched keywords,
    and what substring matching over the joined text lets through. */
module ScoreProperties {
  import opened OcrTypes
  import opened Text
  import opened Scorer

  /** Every score lies between 0 and 11 (seven ordinary keywords at 1, two
      critical ones at 2); a missing or empty result scores 0. */
  lemma ScoreBounds(r: EngineOutput)
    ensures 0 <= Score(r) <= 11
    ensures r.None? || r.value == [] ==> Score(r) == 0
  {
    if r.Some? && |r.value| > 0 {
      WeightedMatchesAtMost(KEYWORDS, JoinedText(r.value));
      TotalWeightOfKeywords();
    }
  }

  lemma TotalWeightOfKeywords()
    ensures TotalWeight(KEYWORDS) == 11
  {
    assert KEYWORDS[0] in CRITICAL_KEYWORDS && KEYWORDS[1] in CRITICAL_KEYWORDS;
    assert forall i :: 2 <= i < |KEYWORDS| ==> KEYWORDS[i] !in CRITICAL_KEYWORDS;
    for i := 0 to |KEYWORDS|
      invariant TotalWeight(KEYWORDS[..i]) == i + (if i >= 2 then 2 else i)
    {
      assert KEYWORDS[..i + 1][..i] == KEYWORDS[..i];
    }
    assert KEYWORDS[..|KEYWORDS|] == KEYWORDS;
  }


  /** The score of a non-empty result is twice the number of critical keywords
      plus the number of other keywords that are substrings of its joined text. */
  lemma ScoreIsWeightedCount(ds: seq<Detection>)
    requires |ds| > 0
    ensures Score(Some(ds)) ==
      2 * |CriticalFound(KEYWORDS, JoinedText(ds))| + |OrdinaryFound(KEYWORDS, JoinedText(ds))|
  {
    KeywordsDistinct();
    WeightedMatchesIsCount(KEYWORDS, JoinedText(ds));
  }

  lemma KeywordsDistinct()
    ensures Distinct(KEYWORDS)
  {
  }


  /** A keyword found in any single detection of a result counts towards
      the result's score with its full weight. */
  lemma KeywordInOneDetectionCounts(ds: seq<Detection>, i: nat, k: string)
    requires i < |ds| && k in KEYWORDS
    requires Contains(Lower(ds[i].text), k)
    ensures Score(Some(ds)) >= Weight(k)
  {
    var t := JoinedText(ds);
    DetectionWithinJoined(ds, i);
    ContainsTransitive(t, Lower(ds[i].text), k);
    WeightedMatchesAtLeast(KEYWORDS, t, k);
  }

  /** "id" is critical, so any result whose joined text merely contains the
      two letters "id" (as in "valid") reaches the early-stop threshold. */
  lemma IdAloneIsAHit(ds: seq<Detection>)
    requires |ds| > 0 && Contains(JoinedText(ds), "id")
    ensures Score(Some(ds)) >= MIN_KEYWORD_MATCHES
  {
    IdIsCritical();
    WeightedMatchesAtLeast(KEYWORDS, JoinedText(ds), "id");
  }

  lemma NicknameAndNameScoreTwo(t: string)
    requires Contains(t, "nickname") && Contains(t, "name")
    ensures WeightedMatches(KEYWORDS, t) >= 2
  {
    NameWithinNickname();
    WeightedMatchesAtLeastTwo(KEYWORDS, t, "nickname", "name");
  }

  lemma NicknameContainsName(t: string)
    requires Contains(t, "nickname")
    ensures Contains(t, "name")
  {
    NameWithinNickname();
    ContainsTransitive(t, "nickname", "name");
  }

  lemma IdIsCritical()
    ensures "id" in KEYWORDS && Weight("id") == 2
  {
  }

  lemma NameWithinNickname()
    ensures "name" in KEYWORDS && "nickname" in KEYWORDS && "name" != "nickname"
    ensures Contains("nickname", "name")
    ensures Weight("name") == 1 && Weight("nickname") == 1
  {
  }

  /** Matching is by substring: "valid" scores 2, for the "id" inside it. */
  lemma ValidScoresForId()
    ensures Score(Some([Detection("valid", 0.9)])) == 2
  {
    LowerOfLowercase("valid");
    assert JoinedText([Detection("valid", 0.9)]) == "valid";
    ValidMatchesOnlyId();
  }

  lemma ValidMatchesOnlyId()
    ensures WeightedMatches(KEYWORDS, "valid") == 2
  {
    ValidMisses();
    IdIsCritical();
    assert KEYWORDS[1] == "id";
    assert forall i :: 0 <= i < |KEYWORDS| && i != 1 ==> !Contains("valid", KEYWORDS[i]);
    for i := 0 to |KEYWORDS|
      invariant WeightedMatches(KEYWORDS[..i], "valid") == if i >= 2 then 2 else 0
    {
      assert KEYWORDS[..i + 1][..i] == KEYWORDS[..i];
    }
    assert KEYWORDS[..|KEYWORDS|] == KEYWORDS;
  }

  /** The keywords "valid" does not contain. */
  lemma ValidMisses()
    ensures !Contains("valid", "student") && Contains("valid", "id") && !Contains("valid", "name")
    ensures !Contains("valid", "nickname") && !Contains("valid", "school") && !Contains("valid", "course")
    ensures !Contains("valid", "mobile") && !Contains("valid", "date of birth") && !Contains("valid", "teacher")
  {
    if Contains("valid", "date of birth") {
      ContainsNeedsRoom("valid", "date of birth");
    }
  }
  /** "name" is a slice of "nickname", so a text that contains "nickname"
      scores for both keywords and reaches the early-stop threshold. */
  lemma NicknameAlsoMatchesName(ds: seq<Detection>)
    requires |ds| > 0 && Contains(JoinedText(ds), "nickname")
    ensures Contains(JoinedText(ds), "name")
    ensures Score(Some(ds)) >= MIN_KEYWORD_MATCHES
  {
    var t := JoinedText(ds);
    NicknameContainsName(t);
    NicknameAndNameScoreTwo(t);
    assert WeightedMatches(KEYWORDS, t) >= 2;
    assert Score(Some(ds)) == WeightedMatches(KEYWORDS, t);
  }

  /** A one-detection result is scored on its lower-cased text. */
  lemma ScoreOfOne(d: Detection)
    ensures Score(Some([d])) == WeightedMatches(KEYWORDS, Lower(d.text))
  {
  }

  /** A text without any keyword scores 0. */
  lemma NoKeywordScoresZero(t: string)
    requires forall k :: k in KEYWORDS ==> !Contains(t, k)
    ensures WeightedMatches(KEYWORDS, t) == 0
  {
    for i := 0 to |KEYWORDS|
      invariant WeightedMatches(KEYWORDS[..i], t) == 0
    {
      assert KEYWORDS[..i + 1][..i] == KEYWORDS[..i];
      assert !Contains(t, KEYWORDS[i]);
    }
    assert KEYWORDS[..|KEYWORDS|] == KEYWORDS;
  }

  /** A text with both critical keywords plus "name" and "school", and no
      other keyword, scores exactly 6. */
  lemma StudentIdNameSchoolScoreSix(t: string)
    requires Contains(t, "student") && Contains(t, "id") && Contains(t, "name") && Contains(t, "school")
    requires !Contains(t, "nickname") && !Contains(t, "course") && !Contains(t, "mobile")
    requires !Contains(t, "date of birth") && !Contains(t, "teacher")
    ensures WeightedMatches(KEYWORDS, t) == 6
  {
    var total: seq<nat> := [0, 2, 4, 5, 5, 6, 6, 6, 6, 6];
    for i := 0 to |KEYWORDS|
      invariant WeightedMatches(KEYWORDS[..i], t) == total[i]
    {
      assert KEYWORDS[..i + 1][..i] == KEYWORDS[..i];
    }
    assert KEYWORDS[..|KEYWORDS|] == KEYWORDS;
  }

  /** Keywords match case-insensitively: the upper-case reading "ID" is
      lower-cased before matching and reaches the threshold. */
  lemma UpperCaseIdIsAHit()
    ensures Score(Some([Detection("ID", 0.9)])) >= MIN_KEYWORD_MATCHES
  {
    assert Lower("ID") == "id";
    ContainsSelf("id");
    IdIsCritical();
    WeightedMatchesAtLeast(KEYWORDS, "id", "id");
  }
}
