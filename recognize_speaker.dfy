/** `RecognizeSpeaker` as the object the app holds: the constructor arguments as constants,
    the working variables as fields, and `processLatestResults` as a method that updates them
    step by step. Every call is proved to do exactly what `Smoothing.Step` describes, so the
    lemmas about `Step` in smoothing.dfy hold of the object. */
module RecognizeSpeakerClass {
  import opened KotlinTypes
  import opened Smoothing

  /** The averaging loop: a zero-filled array, then for every stored sample from head to
      tail, `score[i] / howManyResults` added to slot `i` for each `i` of the sample. */
  method AverageScores(samples: seq<Sample>, labelsCount: nat) returns (avg: seq<real>)
    requires |samples| > 0 && HasWidth(samples, labelsCount)
    ensures avg == Average(samples, labelsCount)
  {
    var howManyResults := |samples|;
    var n := howManyResults as real;
    var averageScores := new real[labelsCount](_ => 0.0);
    var k := 0;
    while k < |samples|
      invariant 0 <= k <= |samples|
      invariant forall j :: 0 <= j < labelsCount ==> averageScores[j] == Share(samples[..k], j, n)
    {
      var scoresTensor := samples[k].scores;
      var i := 0;
      assert samples[..k + 1][..k] == samples[..k];
      while i < |scoresTensor|
        invariant 0 <= i <= |scoresTensor|
        invariant forall j :: 0 <= j < i ==> averageScores[j] == Share(samples[..k + 1], j, n)
        invariant forall j :: i <= j < labelsCount ==> averageScores[j] == Share(samples[..k], j, n)
      {
        averageScores[i] := averageScores[i] + scoresTensor[i] / n;
        i := i + 1;
      }
      k := k + 1;
    }
    assert samples[..|samples|] == samples;
    avg := averageScores[..];
  }

  /** The ranking: every `ScoreForSorting(averageScores[i], i)` is compared with the best so
      far under `compareTo`, and replaces it only when it sorts strictly before it. This picks
      the element a stable ascending sort puts first (`StableSortHeadIsArgMax`). */
  method SelectTop(averageScores: seq<real>) returns (top: ScoreForSorting)
    requires |averageScores| > 0
    ensures top == ScoreForSorting(averageScores[ArgMax(averageScores)], ArgMax(averageScores))
  {
    top := ScoreForSorting(averageScores[0], 0);
    assert averageScores[..1] == [averageScores[0]];
    var i := 1;
    while i < |averageScores|
      invariant 1 <= i <= |averageScores|
      invariant top.index == ArgMax(averageScores[..i]) && top.score == averageScores[top.index]
    {
      var candidate := ScoreForSorting(averageScores[i], i);
      assert averageScores[..i + 1][..i] == averageScores[..i];
      if CompareTo(candidate, top) < 0 {
        top := candidate;
      }
      i := i + 1;
    }
    assert averageScores[..|averageScores|] == averageScores;
  }

  class RecognizeSpeaker {
    const labels: seq<string>
    const labelsCount: nat
    const minimumTimeBetweenSamplesMs: Long
    const averageWindowDurationMs: Long
    const minimumCount: Int
    const detectionThreshold: real
    const suppressionMs: Int

    /** The deque of past results, head (newest) at index 0. */
    var previousResults: seq<Sample>
    var previousTopLabel: string
    var previousTopLabelScore: real
    var previousTopLabelTime: Long

    /** The constructor arguments. */
    function Settings(): Config {
      Config(labels, averageWindowDurationMs, detectionThreshold, suppressionMs, minimumCount,
             minimumTimeBetweenSamplesMs)
    }

    /** The working variables. */
    function Current(): State
      reads this
    {
      State(previousResults, previousTopLabel, previousTopLabelScore, previousTopLabelTime)
    }

    ghost predicate Valid()
      reads this
    {
      labelsCount == |labels| && ValidState(Settings(), Current())
    }

    constructor (inLabels: seq<string>, inAverageWindowDurationMs: Long, inDetectionThreshold: real,
                 inSuppressionMs: Int, inMinimumCount: Int, inMinimumTimeBetweenSamplesMs: Long)
      ensures Valid()
      ensures Settings() == Config(inLabels, inAverageWindowDurationMs, inDetectionThreshold,
                                   inSuppressionMs, inMinimumCount, inMinimumTimeBetweenSamplesMs)
      ensures Current() == Initial()
    {
      labels := inLabels;
      labelsCount := |inLabels|;
      minimumTimeBetweenSamplesMs := inMinimumTimeBetweenSamplesMs;
      averageWindowDurationMs := inAverageWindowDurationMs;
      minimumCount := inMinimumCount;
      detectionThreshold := inDetectionThreshold;
      suppressionMs := inSuppressionMs;
      previousResults := [];
      previousTopLabel := AUDIENCE_LABEL;
      previousTopLabelScore := 0.0;
      previousTopLabelTime := LONG_MIN;
    }

    /** `processLatestResults`: the new working variables and the outcome are those of
        `Step` on the old ones; a thrown exception is a `Fail` outcome. */
    method ProcessLatestResults(currentResults: seq<real>, currentTimeMs: Long) returns (r: Outcome)
      requires Valid()
      modifies this
      ensures Valid()
      ensures (Current(), r) == Step(Settings(), old(Current()), currentResults, currentTimeMs)
    {
      ghost var s := Current();
      StepPreservesValid(Settings(), s, currentResults, currentTimeMs);
      if |currentResults| != labelsCount {
        WrongLengthRejected(Settings(), s, currentResults, currentTimeMs);
        return Fail(InvalidInput);
      }
      if |previousResults| > 0 && currentTimeMs < previousResults[0].time {
        OutOfOrderRejected(Settings(), s, currentResults, currentTimeMs);
        return Fail(OutOfOrderInput);
      }
      var howManyResults := |previousResults|;
      if howManyResults > 1 {
        var timeSinceMostRecent := Sub(currentTimeMs, previousResults[|previousResults| - 1].time);
        if timeSinceMostRecent < minimumTimeBetweenSamplesMs {
          RateLimitRepeatsDecision(Settings(), s, currentResults, currentTimeMs);
          return Ok(RecognitionResult(previousTopLabel, previousTopLabelScore, false));
        }
      }
      assert PassesGuards(Settings(), s, currentResults, currentTimeMs);
      r := Admit(currentResults, currentTimeMs);
    }

    /** The part of `processLatestResults` after the guards: `addFirst`, the prune loop, and
        `Decide` on what is left. */
    method Admit(currentResults: seq<real>, currentTimeMs: Long) returns (r: Outcome)
      requires Valid() && PassesGuards(Settings(), Current(), currentResults, currentTimeMs)
      modifies this
      ensures (Current(), r) == Admitted(Settings(), old(Current()), currentResults, currentTimeMs)
    {
      ghost var s := Current();
      ghost var window := Ingested(Settings(), s, currentResults, currentTimeMs);
      previousResults := [Sample(currentTimeMs, currentResults)] + previousResults;
      var timeLimit := Sub(currentTimeMs, averageWindowDurationMs);
      Prune(timeLimit);
      assert previousResults == window;
      if |previousResults| == 0 {
        return Fail(NoSuchElement);
      }
      EvaluateReadsOnlyDetection(Settings(), s, window, currentTimeMs);
      r := Decide(currentTimeMs);
    }

    /** The prune loop: `removeFirst` while the head is older than `timeLimit`; the
        detection fields are left alone. */
    method Prune(timeLimit: int)
      modifies this
      ensures previousResults == Pruned(old(previousResults), timeLimit)
      ensures previousTopLabel == old(previousTopLabel)
      ensures previousTopLabelScore == old(previousTopLabelScore)
      ensures previousTopLabelTime == old(previousTopLabelTime)
    {
      while |previousResults| > 0 && previousResults[0].time < timeLimit
        invariant Pruned(previousResults, timeLimit) == Pruned(old(previousResults), timeLimit)
        invariant previousTopLabel == old(previousTopLabel)
        invariant previousTopLabelScore == old(previousTopLabelScore)
        invariant previousTopLabelTime == old(previousTopLabelTime)
        decreases |previousResults|
      {
        previousResults := previousResults[1..];
      }
    }

    /** The rest of `processLatestResults` once the deque holds the pruned window: the
        minimum-count guard, averaging, ranking and the detection decision. */
    method Decide(currentTimeMs: Long) returns (r: Outcome)
      requires labelsCount == |labels| && previousResults != [] && HasWidth(previousResults, labelsCount)
      modifies this
      ensures (Current(), r) == Evaluate(Settings(), old(Current()), old(previousResults), currentTimeMs)
    {
      var howManyResults := |previousResults|;
      if howManyResults < minimumCount {
        return Ok(RecognitionResult(previousTopLabel, 0.0, false));
      }
      var averageScores := AverageScores(previousResults, labelsCount);
      if labelsCount == 0 {
        return Fail(IndexOutOfBounds);
      }
      var top := SelectTop(averageScores);
      var currentTopLabel := labels[top.index];
      var currentTopScore := top.score;
      var timeSinceLastTop: Long :=
        if previousTopLabel == AUDIENCE_LABEL || previousTopLabelTime == LONG_MIN then LONG_MAX
        else Sub(currentTimeMs, previousTopLabelTime);
      var isNewSpeaker: bool;
      if currentTopScore > detectionThreshold && timeSinceLastTop > suppressionMs {
        previousTopLabel := currentTopLabel;
        previousTopLabelScore := currentTopScore;
        previousTopLabelTime := currentTimeMs;
        isNewSpeaker := true;
      } else {
        isNewSpeaker := false;
      }
      return Ok(RecognitionResult(currentTopLabel, currentTopScore, isNewSpeaker));
    }
  }
}
