/** The two-phase orientation search of ocr-service/main.py (lines 54-150):
    which rotations are handed to the engine, in which order, when the search
    stops, and which rotation wins. */
module OrientationSearch {
  import opened OcrTypes
  import opened Scorer

  /** A rotation whose result reaches the "good result" threshold. */
  predicate IsHit(engine: Engine, angle: int)
  {
    Score(engine(angle)) >= MIN_KEYWORD_MATCHES
  }

  /** None of `angles` is a hit. */
  predicate NoHit(engine: Engine, angles: seq<int>)
  {
    forall i :: 0 <= i < |angles| ==> !IsHit(engine, angles[i])
  }

  /** The angles one phase hands to the engine: its candidates in order,
      ending after the first hit when the phase stops early. */
  function PhaseTrace(engine: Engine, angles: seq<int>, stopOnHit: bool): (r: seq<int>)
    ensures |r| <= |angles| && r == angles[..|r|]
    ensures angles != [] ==> r != []
    ensures !stopOnHit ==> r == angles
    ensures stopOnHit && r != [] ==> NoHit(engine, r[..|r| - 1])
    ensures |r| < |angles| ==> stopOnHit && r != [] && IsHit(engine, r[|r| - 1])
  {
    if angles == [] then []
    else if stopOnHit && IsHit(engine, angles[0]) then [angles[0]]
    else [angles[0]] + PhaseTrace(engine, angles[1..], stopOnHit)
  }

  /** The angles the whole search hands to the engine, in order: the primary
      phase (stopping at a hit unless exhaustive), then, only when not
      exhaustive and no primary angle was a hit, the fallback phase. */
  function SearchTrace(engine: Engine, exhaustive: bool): (r: seq<int>)
    ensures r != []
  {
    var primary := PhaseTrace(engine, PRIMARY_ANGLES, !exhaustive);
    if !exhaustive && NoHit(engine, primary)
    then primary + PhaseTrace(engine, FALLBACK_ANGLES, true)
    else primary
  }

  /** The score of each evaluated angle. */
  function Scores(engine: Engine, angles: seq<int>): (r: seq<int>)
    ensures |r| == |angles|
    ensures forall i :: 0 <= i < |angles| ==> r[i] == Score(engine(angles[i]))
  {
    seq(|angles|, i requires 0 <= i < |angles| => Score(engine(angles[i])))
  }

  /** Position of the first maximum of `s`. */
  function FirstMaxIndex(s: seq<int>): (k: nat)
    requires |s| > 0
    ensures k < |s|
    ensures forall j :: 0 <= j < |s| ==> s[j] <= s[k]
    ensures forall j :: 0 <= j < k ==> s[j] < s[k]
  {
    if |s| == 1 then 0
    else
      var k := FirstMaxIndex(s[..|s| - 1]);
      if s[|s| - 1] > s[k] then |s| - 1 else k
  }

  /** The outcome of a search: the winning angle, its score, and every angle
      evaluated, in order. */
  datatype Selection = Selection(angle: int, score: int, trace: seq<int>)

  /** Reference definition of the search: the first best-scoring angle among
      those the policy evaluates. */
  function Select(engine: Engine, exhaustive: bool): Selection
  {
    var trace := SearchTrace(engine, exhaustive);
    var k := FirstMaxIndex(Scores(engine, trace));
    Selection(trace[k], Score(engine(trace[k])), trace)
  }

  // ---- the search as the service runs it ---------------------------------

  /** The best-so-far state after evaluating `trace`: nothing yet (score -1),
      or the first best-scoring evaluated angle (at `index`) with its score
      and its engine result. */
  ghost predicate Tracks(engine: Engine, trace: seq<int>, index: nat, angle: int, score: int, result: EngineOutput)
  {
    if trace == [] then score == -1
    else
      && index < |trace|
      && angle == trace[index]
      && score == Score(engine(angle))
      && result == engine(angle)
      && (forall j :: 0 <= j < |trace| ==> Score(engine(trace[j])) <= score)
      && (forall j :: 0 <= j < index ==> Score(engine(trace[j])) < score)
  }

  /** The first maximum is unique: any position that is a maximum with only
      smaller scores before it is `FirstMaxIndex`. */
  lemma FirstMaxIndexUnique(s: seq<int>, k: nat)
    requires k < |s|
    requires forall j :: 0 <= j < |s| ==> s[j] <= s[k]
    requires forall j :: 0 <= j < k ==> s[j] < s[k]
    ensures FirstMaxIndex(s) == k
  {
    var m := FirstMaxIndex(s);
    assert !(m < k) && !(k < m);
  }

  /** What `Tracks` says about a non-empty trace, in terms of `Select`'s pieces. */
  lemma TracksIsFirstMax(engine: Engine, trace: seq<int>, index: nat, angle: int, score: int, result: EngineOutput)
    requires trace != [] && Tracks(engine, trace, index, angle, score, result)
    ensures index == FirstMaxIndex(Scores(engine, trace))
  {
    FirstMaxIndexUnique(Scores(engine, trace), index);
  }

  /** One strict-greater update of the best-so-far state. */
  lemma TracksStep(engine: Engine, trace: seq<int>, index: nat, angle: int, score: int, result: EngineOutput, a: int)
    requires Tracks(engine, trace, index, angle, score, result)
    ensures Score(engine(a)) > score ==>
      Tracks(engine, trace + [a], |trace|, a, Score(engine(a)), engine(a))
    ensures Score(engine(a)) <= score ==>
      Tracks(engine, trace + [a], index, angle, score, result)
  {
    var t := trace + [a];
    assert forall j :: 0 <= j < |trace| ==> t[j] == trace[j];
  }

  /** The best score so far is below the threshold exactly when no evaluated
      angle was a hit. */
  lemma TracksNoHit(engine: Engine, trace: seq<int>, index: nat, angle: int, score: int, result: EngineOutput)
    requires trace != [] && Tracks(engine, trace, index, angle, score, result)
    ensures score < MIN_KEYWORD_MATCHES <==> NoHit(engine, trace)
  {
  }

  /** A phase that went through `angles[..i]` without stopping and stops at `angles[i]`. */
  lemma {:induction false} PhaseTraceStopsAt(engine: Engine, angles: seq<int>, i: nat)
    requires i < |angles| && NoHit(engine, angles[..i]) && IsHit(engine, angles[i])
    ensures PhaseTrace(engine, angles, true) == angles[..i + 1]
  {
    if i > 0 {
      assert !IsHit(engine, angles[..i][0]);
      assert angles[1..][..i - 1] == angles[..i][1..];
      PhaseTraceStopsAt(engine, angles[1..], i - 1);
      assert [angles[0]] + angles[1..][..i] == angles[..i + 1];
    }
  }

  /** A phase none of whose candidates is a hit evaluates all of them. */
  lemma {:induction false} PhaseTraceAll(engine: Engine, angles: seq<int>, stopOnHit: bool)
    requires NoHit(engine, angles)
    ensures PhaseTrace(engine, angles, stopOnHit) == angles
  {
    if angles != [] {
      assert !IsHit(engine, angles[0]);
      PhaseTraceAll(engine, angles[1..], stopOnHit);
    }
  }

  /** The phase so far has evaluated `angles[..i]` after `trace0` without a
      hit, and `angles[i]` is a hit: the phase ends there. */
  lemma PhaseEndsAtHit(engine: Engine, angles: seq<int>, i: nat, trace0: seq<int>, trace: seq<int>)
    requires i < |angles| && trace == trace0 + angles[..i]
    requires NoHit(engine, trace) && IsHit(engine, angles[i])
    ensures trace + [angles[i]] == trace0 + PhaseTrace(engine, angles, true)
  {
    NoHitSuffix(engine, trace0, angles[..i]);
    PhaseTraceStopsAt(engine, angles, i);
    PrefixSnoc(angles, i);
    assert trace0 + (angles[..i] + [angles[i]]) == trace + [angles[i]];
  }

  lemma NoHitSuffix(engine: Engine, xs: seq<int>, ys: seq<int>)
    requires NoHit(engine, xs + ys)
    ensures NoHit(engine, ys)
  {
    forall j | 0 <= j < |ys|
      ensures !IsHit(engine, ys[j])
    {
      assert (xs + ys)[|xs| + j] == ys[j];
    }
  }

  lemma PrefixSnoc(s: seq<int>, i: nat)
    requires i < |s|
    ensures s[..i + 1] == s[..i] + [s[i]]
  {
  }

  /** The phase evaluated all of `angles` after `trace0`, without a hit when
      it stops on one: that is the whole phase. */
  lemma PhaseEndsAtLast(engine: Engine, angles: seq<int>, stopOnHit: bool, trace0: seq<int>, trace: seq<int>)
    requires trace == trace0 + angles[..|angles|]
    requires stopOnHit ==> NoHit(engine, trace)
    ensures trace == trace0 + PhaseTrace(engine, angles, stopOnHit)
  {
    assert angles[..|angles|] == angles;
    if stopOnHit {
      NoHitSuffix(engine, trace0, angles);
      PhaseTraceAll(engine, angles, true);
    }
  }

  /** One phase of the search: hands `angles` to the engine in order,
      scores each result, keeps the first best-scoring angle with a
      strict-greater update, and, when `stopOnHit`, takes the first hit as
      the winner and ends the phase. */
  method RunPhase(engine: Engine, angles: seq<int>, stopOnHit: bool,
                  trace0: seq<int>, ghost index0: nat, angle0: int, score0: int, result0: EngineOutput)
    returns (trace: seq<int>, ghost index: nat, bestAngle: int, bestScore: int, bestResult: EngineOutput)
    requires Tracks(engine, trace0, index0, angle0, score0, result0)
    requires stopOnHit ==> NoHit(engine, trace0)
    ensures trace == trace0 + PhaseTrace(engine, angles, stopOnHit)
    ensures Tracks(engine, trace, index, bestAngle, bestScore, bestResult)
  {
    trace, index, bestAngle, bestScore, bestResult := trace0, index0, angle0, score0, result0;
    ghost var stopped := false;
    for i := 0 to |angles|
      invariant trace == trace0 + angles[..i]
      invariant stopOnHit ==> NoHit(engine, trace)
      invariant Tracks(engine, trace, index, bestAngle, bestScore, bestResult)
      invariant !stopped
    {
      var angle := angles[i];
      var result := engine(angle);
      TracksStep(engine, trace, index, bestAngle, bestScore, bestResult, angle);
      if trace != [] {
        TracksNoHit(engine, trace, index, bestAngle, bestScore, bestResult);
      }
      var currentScore := ScoreResult(result);
      if stopOnHit && currentScore >= MIN_KEYWORD_MATCHES {
        PhaseEndsAtHit(engine, angles, i, trace0, trace);
        index := |trace|;
        trace := trace + [angle];
        bestScore, bestResult, bestAngle := currentScore, result, angle;
        stopped := true;
        break;
      }
      if currentScore > bestScore {
        index := |trace|;
        bestScore, bestResult, bestAngle := currentScore, result, angle;
      }
      trace := trace + [angle];
    }
    if !stopped {
      PhaseEndsAtLast(engine, angles, stopOnHit, trace0, trace);
    }
  }

  /** Runs the search: the primary angles, then the fallback angles when the
      primary phase found no good result and the mode is not exhaustive.
      Returns the winning selection and the engine result of the winner. */
  method Search(engine: Engine, exhaustive: bool) returns (sel: Selection, bestResult: EngineOutput)
    ensures sel == Select(engine, exhaustive)
    ensures bestResult == engine(sel.angle)
  {
    var trace, bestAngle, bestScore;
    ghost var bestIndex;
    trace, bestIndex, bestAngle, bestScore, bestResult :=
      RunPhase(engine, PRIMARY_ANGLES, !exhaustive, [], 0, 0, -1, None);
    ghost var primary := trace;
    assert primary == PhaseTrace(engine, PRIMARY_ANGLES, !exhaustive);
    TracksNoHit(engine, trace, bestIndex, bestAngle, bestScore, bestResult);
    if !exhaustive && bestScore < MIN_KEYWORD_MATCHES && bestScore >= 0 {
      trace, bestIndex, bestAngle, bestScore, bestResult :=
        RunPhase(engine, FALLBACK_ANGLES, true, trace, bestIndex, bestAngle, bestScore, bestResult);
    }
    assert trace == SearchTrace(engine, exhaustive);
    TracksIsFirstMax(engine, trace, bestIndex, bestAngle, bestScore, bestResult);
    sel := Selection(bestAngle, bestScore, trace);
  }
}
