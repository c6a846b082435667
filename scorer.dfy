/** The keyword scorer of ocr-service/main.py (lines 81-91, repeated at
    125-135): how plausible one engine result is as an upright reading. */
module Scorer {
  import opened OcrTypes
  import opened Text

  /** Weight of a keyword: critical keywords count double. */
  function Weight(k: string): nat
  {
    if k in CRITICAL_KEYWORDS then 2 else 1
  }

  /** The searchable text of a result: every detection's text lower-cased,
      joined by single spaces, so that a keyword may also span two adjacent
      detections. */
  function JoinedText(ds: seq<Detection>): string
  {
    if |ds| == 0 then ""
    else if |ds| == 1 then Lower(ds[0].text)
    else Lower(ds[0].text) + " " + JoinedText(ds[1..])
  }

  /** The total the scoring loop reaches after visiting the keywords `ks`
      in order: the weights of those that occur in `text`. */
  function WeightedMatches(ks: seq<string>, text: string): nat
  {
    if ks == [] then 0
    else
      var k := ks[|ks| - 1];
      WeightedMatches(ks[..|ks| - 1], text) + (if Contains(text, k) then Weight(k) else 0)
  }

  /** Sum of all weights of `ks`: the most `ks` can score. */
  function TotalWeight(ks: seq<string>): nat
  {
    if ks == [] then 0 else TotalWeight(ks[..|ks| - 1]) + Weight(ks[|ks| - 1])
  }

  /** Score of one engine pass. A missing or empty result scores 0 without
      looking at the vocabulary. */
  function Score(r: EngineOutput): nat
  {
    if r.Some? && |r.value| > 0 then WeightedMatches(KEYWORDS, JoinedText(r.value)) else 0
  }

  /** The scoring loop: visits the vocabulary in order and adds 2 for a
      critical keyword found in the joined text, 1 for any other. */
  method ScoreResult(r: EngineOutput) returns (score: int)
    ensures score == Score(r)
  {
    score := 0;
    if r.Some? && |r.value| > 0 {
      var joined := JoinedText(r.value);
      for i := 0 to |KEYWORDS|
        invariant score == WeightedMatches(KEYWORDS[..i], joined)
      {
        var k := KEYWORDS[i];
        assert KEYWORDS[..i + 1][..i] == KEYWORDS[..i];
        if Contains(joined, k) {
          if k in CRITICAL_KEYWORDS {
            score := score + 2;
          } else {
            score := score + 1;
          }
        }
      }
      assert KEYWORDS[..|KEYWORDS|] == KEYWORDS;
    }
  }

  lemma {:induction false} WeightedMatchesAtMost(ks: seq<string>, text: string)
    ensures WeightedMatches(ks, text) <= TotalWeight(ks)
  {
    if ks != [] {
      WeightedMatchesAtMost(ks[..|ks| - 1], text);
    }
  }

  lemma {:induction false} WeightedMatchesAtLeast(ks: seq<string>, text: string, k: string)
    requires k in ks && Contains(text, k)
    ensures WeightedMatches(ks, text) >= Weight(k)
  {
    if ks[|ks| - 1] != k {
      assert k in ks[..|ks| - 1] by {
        var i :| 0 <= i < |ks| && ks[i] == k;
        assert ks[..|ks| - 1][i] == k;
      }
      WeightedMatchesAtLeast(ks[..|ks| - 1], text, k);
    }
  }

  lemma {:induction false} WeightedMatchesAtLeastTwo(ks: seq<string>, text: string, k1: string, k2: string)
    requires k1 != k2 && k1 in ks && k2 in ks && Contains(text, k1) && Contains(text, k2)
    ensures WeightedMatches(ks, text) >= Weight(k1) + Weight(k2)
  {
    var init, last := ks[..|ks| - 1], ks[|ks| - 1];
    assert ks == init + [last];
    assert k1 == last || k1 in init;
    assert k2 == last || k2 in init;
    if last == k1 {
      WeightedMatchesAtLeast(init, text, k2);
    } else if last == k2 {
      WeightedMatchesAtLeast(init, text, k1);
    } else {
      WeightedMatchesAtLeastTwo(init, text, k1, k2);
    }
  }

  // ---- the score as a weighted count of matched keywords -------------------

  ghost predicate Distinct(ks: seq<string>)
  {
    forall i, j :: 0 <= i < j < |ks| ==> ks[i] != ks[j]
  }

  /** Keywords of `ks` found in `text` that are critical. */
  ghost function CriticalFound(ks: seq<string>, text: string): set<string>
  {
    set k | k in ks && k in CRITICAL_KEYWORDS && Contains(text, k)
  }

  /** Keywords of `ks` found in `text` that are not critical. */
  ghost function OrdinaryFound(ks: seq<string>, text: string): set<string>
  {
    set k | k in ks && k !in CRITICAL_KEYWORDS && Contains(text, k)
  }

  lemma {:induction false} WeightedMatchesIsCount(ks: seq<string>, text: string)
    requires Distinct(ks)
    ensures WeightedMatches(ks, text) == 2 * |CriticalFound(ks, text)| + |OrdinaryFound(ks, text)|
  {
    if ks == [] {
      assert CriticalFound(ks, text) == {};
      assert OrdinaryFound(ks, text) == {};
    } else {
      var init := ks[..|ks| - 1];
      assert Distinct(init);
      WeightedMatchesIsCount(init, text);
      CountStep(ks, text);
    }
  }

  lemma CountStep(ks: seq<string>, text: string)
    requires ks != [] && Distinct(ks)
    ensures CriticalFound(ks, text) == CriticalFound(ks[..|ks| - 1], text) +
      (if ks[|ks| - 1] in CRITICAL_KEYWORDS && Contains(text, ks[|ks| - 1]) then {ks[|ks| - 1]} else {})
    ensures OrdinaryFound(ks, text) == OrdinaryFound(ks[..|ks| - 1], text) +
      (if ks[|ks| - 1] !in CRITICAL_KEYWORDS && Contains(text, ks[|ks| - 1]) then {ks[|ks| - 1]} else {})
    ensures ks[|ks| - 1] !in CriticalFound(ks[..|ks| - 1], text)
    ensures ks[|ks| - 1] !in OrdinaryFound(ks[..|ks| - 1], text)
  {
    var init, last := ks[..|ks| - 1], ks[|ks| - 1];
    assert ks == init + [last];
    assert forall x :: x in ks <==> x == last || x in init;
    forall i | 0 <= i < |init|
      ensures init[i] != last
    {
      assert init[i] == ks[i];
    }
  }

  /** Each detection's lower-cased text is a slice of the joined text. */
  lemma {:induction false} DetectionWithinJoined(ds: seq<Detection>, i: nat)
    requires i < |ds|
    ensures Contains(JoinedText(ds), Lower(ds[i].text))
  {
    if |ds| == 1 {
      ContainsSelf(Lower(ds[0].text));
    } else if i == 0 {
      ContainsSelf(Lower(ds[0].text));
      ContainsInfix([], Lower(ds[0].text), " " + JoinedText(ds[1..]), Lower(ds[0].text));
      assert [] + Lower(ds[0].text) + (" " + JoinedText(ds[1..])) == JoinedText(ds);
    } else {
      DetectionWithinJoined(ds[1..], i - 1);
      ContainsInfix(Lower(ds[0].text) + " ", JoinedText(ds[1..]), [], Lower(ds[i].text));
      assert Lower(ds[0].text) + " " + JoinedText(ds[1..]) + [] == JoinedText(ds);
    }
  }
}
