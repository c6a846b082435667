/** What the orientation search of ocr-service/main.py (lines 54-150)
    promises: which angles reach the engine, in which order, how many, and
    which one wins. */
module SearchProperties {
  import opened OcrTypes
  import opened Scorer
  import opened OrientationSearch

  /** All candidate rotations in the order the search may try them. */
  const ALL_ANGLES: seq<int> := PRIMARY_ANGLES + FALLBACK_ANGLES

  lemma PrimaryPhase(engine: Engine, stopOnHit: bool)
    ensures PhaseTrace(engine, PRIMARY_ANGLES, stopOnHit) ==
      if stopOnHit && IsHit(engine, 0) then [0] else [0, 270]
  {
    assert PRIMARY_ANGLES[1..] == [270];
    assert PRIMARY_ANGLES[1..][1..] == [];
  }

  lemma FallbackPhase(engine: Engine)
    ensures PhaseTrace(engine, FALLBACK_ANGLES, true) ==
      if IsHit(engine, 90) then [90] else [90, 180]
  {
    assert FALLBACK_ANGLES[1..] == [180];
    assert FALLBACK_ANGLES[1..][1..] == [];
  }

  /** The complete case analysis of the angles handed to the engine. */
  lemma SearchTraceCases(engine: Engine, exhaustive: bool)
    ensures exhaustive ==> SearchTrace(engine, exhaustive) == [0, 270]
    ensures !exhaustive && IsHit(engine, 0) ==> SearchTrace(engine, exhaustive) == [0]
    ensures !exhaustive && !IsHit(engine, 0) && IsHit(engine, 270) ==>
      SearchTrace(engine, exhaustive) == [0, 270]
    ensures !exhaustive && !IsHit(engine, 0) && !IsHit(engine, 270) && IsHit(engine, 90) ==>
      SearchTrace(engine, exhaustive) == [0, 270, 90]
    ensures !exhaustive && !IsHit(engine, 0) && !IsHit(engine, 270) && !IsHit(engine, 90) ==>
      SearchTrace(engine, exhaustive) == [0, 270, 90, 180]
  {
    PrimaryPhase(engine, !exhaustive);
    FallbackPhase(engine);
    if !exhaustive && !IsHit(engine, 0) {
      var primary := PhaseTrace(engine, PRIMARY_ANGLES, true);
      assert primary == [0, 270];
      if !IsHit(engine, 270) {
        assert NoHit(engine, primary);
      } else {
        assert !NoHit(engine, primary) by { assert IsHit(engine, primary[1]); }
      }
    } else if !exhaustive {
      assert !NoHit(engine, [0]) by { assert IsHit(engine, [0][0]); }
    }
  }

  /** At most four engine calls, in the fixed order 0, 270, 90, 180, and
      always at least one. */
  lemma TraceIsPrefixOfAllAngles(engine: Engine, exhaustive: bool)
    ensures var t := SearchTrace(engine, exhaustive);
      1 <= |t| <= 4 && t == ALL_ANGLES[..|t|]
  {
    SearchTraceCases(engine, exhaustive);
  }

  /** Exhaustive mode calls the engine exactly twice, at 0 then 270, whatever
      the scores; 90 and 180 are never tried. */
  lemma ExhaustiveTriesPrimaryOnly(engine: Engine)
    ensures SearchTrace(engine, true) == [0, 270]
    ensures 90 !in SearchTrace(engine, true) && 180 !in SearchTrace(engine, true)
  {
    SearchTraceCases(engine, true);
  }

  /** A good upright reading ends the search after one engine call, with
      angle 0 and its score. */
  lemma EarlyStopAtZero(engine: Engine)
    requires IsHit(engine, 0)
    ensures Select(engine, false) == Selection(0, Score(engine(0)), [0])
  {
    SearchTraceCases(engine, false);
    assert Scores(engine, [0]) == [Score(engine(0))];
  }

  /** The fallback angles are tried only in normal mode and only when both
      primary angles fell short, and then 90 before 180. */
  lemma FallbackOnlyAfterPrimaryMisses(engine: Engine, exhaustive: bool)
    ensures var t := SearchTrace(engine, exhaustive);
      |t| > 2 <==> !exhaustive && !IsHit(engine, 0) && !IsHit(engine, 270)
    ensures var t := SearchTrace(engine, exhaustive);
      |t| > 2 ==> t[2] == 90 && (|t| == 4 <==> !IsHit(engine, 90))
  {
    SearchTraceCases(engine, exhaustive);
  }

  /** Normal mode stops at the first hit: every angle before the last one
      evaluated fell short, and the last one is a hit unless all four
      angles were tried. */
  lemma NormalModeStopsAtFirstHit(engine: Engine)
    ensures var t := SearchTrace(engine, false);
      NoHit(engine, t[..|t| - 1]) && (IsHit(engine, t[|t| - 1]) || |t| == 4)
  {
    SearchTraceCases(engine, false);
    var t := SearchTrace(engine, false);
    if |t| == 2 {
      assert t[..1] == [0];
    } else if |t| == 3 {
      assert t[..2] == [0, 270];
    } else if |t| == 4 {
      assert t[..3] == [0, 270, 90];
    }
  }

  /** The selected score is the maximum over the evaluated angles, it belongs
      to the selected angle, and the selected angle is the earliest one with
      that score. */
  lemma SelectIsEarliestMaximum(engine: Engine, exhaustive: bool)
    ensures var sel := Select(engine, exhaustive);
      && sel.trace == SearchTrace(engine, exhaustive)
      && sel.score == Score(engine(sel.angle))
      && (forall j :: 0 <= j < |sel.trace| ==> Score(engine(sel.trace[j])) <= sel.score)
      && (exists k :: 0 <= k < |sel.trace| && sel.trace[k] == sel.angle &&
            forall j :: 0 <= j < k ==> Score(engine(sel.trace[j])) < sel.score)
  {
    var sel := Select(engine, exhaustive);
    var t := sel.trace;
    var k := FirstMaxIndex(Scores(engine, t));
    assert t[k] == sel.angle;
  }

  /** In normal mode a hit, when there is one, wins; otherwise the winning
      score is below the threshold. */
  lemma NormalModeHitWins(engine: Engine)
    ensures var sel := Select(engine, false);
      IsHit(engine, sel.angle) ==> sel.angle == sel.trace[|sel.trace| - 1]
    ensures var sel := Select(engine, false);
      (exists j :: 0 <= j < |sel.trace| && IsHit(engine, sel.trace[j])) <==> sel.score >= MIN_KEYWORD_MATCHES
  {
    var sel := Select(engine, false);
    var t := sel.trace;
    NormalModeStopsAtFirstHit(engine);
    SelectIsEarliestMaximum(engine, false);
    var k := FirstMaxIndex(Scores(engine, t));
    if k < |t| - 1 {
      assert t[..|t| - 1][k] == t[k];
      assert !IsHit(engine, sel.angle);
    }
    if exists j :: 0 <= j < |t| && IsHit(engine, t[j]) {
      var j :| 0 <= j < |t| && IsHit(engine, t[j]);
      assert Score(engine(t[j])) <= sel.score;
    }
  }

  /** When every rotation yields nothing, normal mode tries all four angles
      and keeps the first one, 0, with score 0. */
  lemma AllEmptyKeepsFirstAngle(engine: Engine, exhaustive: bool)
    requires forall a :: Score(engine(a)) == 0
    ensures Select(engine, exhaustive).angle == 0 && Select(engine, exhaustive).score == 0
    ensures !exhaustive ==> Select(engine, exhaustive).trace == [0, 270, 90, 180]
  {
    SearchTraceCases(engine, exhaustive);
    SelectIsEarliestMaximum(engine, exhaustive);
    var sel := Select(engine, exhaustive);
    var k :| 0 <= k < |sel.trace| && sel.trace[k] == sel.angle &&
      forall j :: 0 <= j < k ==> Score(engine(sel.trace[j])) < sel.score;
    assert k == 0;
  }

  /** Normal mode with a miss at 0 and a hit at 270: two engine calls, and
      270 wins with its score. */
  lemma HitAtSecondPrimary(engine: Engine)
    requires !IsHit(engine, 0) && IsHit(engine, 270)
    ensures Select(engine, false) == Selection(270, Score(engine(270)), [0, 270])
  {
    SearchTraceCases(engine, false);
    assert Scores(engine, [0, 270]) == [Score(engine(0)), Score(engine(270))];
  }

  /** Exhaustive mode keeps 270 only when it scores strictly more than 0;
      a tie keeps the upright reading. */
  lemma ExhaustivePicksStrictlyBetter(engine: Engine)
    ensures Select(engine, true).angle == if Score(engine(270)) > Score(engine(0)) then 270 else 0
    ensures Select(engine, true).score ==
      if Score(engine(270)) > Score(engine(0)) then Score(engine(270)) else Score(engine(0))
  {
    SearchTraceCases(engine, true);
    assert Scores(engine, [0, 270]) == [Score(engine(0)), Score(engine(270))];
  }
}
