/** The temporal smoother of the speaker recogniser, as a state-transition function.

    `Step` is one call of `processLatestResults`: it takes the configuration, the smoother's
    state (the deque of stored samples, newest at index 0, and the last confirmed detection)
    and one score vector with its timestamp, and yields the new state and the outcome.
    The class in recognize_speaker.dfy is proved to compute exactly this; the lemmas below
    state what the function does, guard by guard. */
module Smoothing {
  import opened KotlinTypes

  /** Label that stands for "nobody is speaking"; a detection of it never suppresses the next. */
  const AUDIENCE_LABEL: string := "_Audience_Applause"

  /** One classifier output with the time it was produced (`Pair<Long, FloatArray>`). */
  datatype Sample = Sample(time: Long, scores: seq<real>)

  datatype RecognitionResult = RecognitionResult(foundSpeaker: string, score: real, isNewSpeaker: bool)

  /** The exceptions a call can end with: the two `RuntimeException`s the method throws
      itself, `NoSuchElementException` from `first` on an emptied deque, and
      `ArrayIndexOutOfBoundsException` from `sortedAverageScores[0]` when there are no labels. */
  datatype Error = InvalidInput | OutOfOrderInput | NoSuchElement | IndexOutOfBounds

  datatype Outcome = Ok(result: RecognitionResult) | Fail(error: Error)

  /** The constructor arguments of `RecognizeSpeaker`, which never change afterwards. */
  datatype Config = Config(
    labels: seq<string>,
    averageWindowDurationMs: Long,
    detectionThreshold: real,
    suppressionMs: Int,
    minimumCount: Int,
    minimumTimeBetweenSamplesMs: Long)

  /** The working variables: the deque (head = index 0) and the last confirmed detection. */
  datatype State = State(
    previousResults: seq<Sample>,
    previousTopLabel: string,
    previousTopLabelScore: real,
    previousTopLabelTime: Long)

  /** The state of a freshly constructed recogniser: `Long.MIN_VALUE` means "never detected". */
  function Initial(): (s: State)
    ensures s.previousResults == [] && s.previousTopLabel == AUDIENCE_LABEL
    ensures s.previousTopLabelScore == 0.0 && s.previousTopLabelTime == LONG_MIN
  {
    State([], AUDIENCE_LABEL, 0.0, LONG_MIN)
  }

  /** Every stored score vector has one entry per label. */
  ghost predicate HasWidth(samples: seq<Sample>, width: nat) {
    forall k :: 0 <= k < |samples| ==> |samples[k].scores| == width
  }

  /** Timestamps never increase from the head (newest) to the tail (oldest). */
  ghost predicate NewestFirst(samples: seq<Sample>) {
    forall i, j :: 0 <= i < j < |samples| ==> samples[j].time <= samples[i].time
  }

  /** What every reachable state satisfies. */
  ghost predicate ValidState(c: Config, s: State) {
    HasWidth(s.previousResults, |c.labels|) && NewestFirst(s.previousResults)
  }

  function Last(samples: seq<Sample>): Sample
    requires |samples| > 0
  {
    samples[|samples| - 1]
  }

  // ---------------------------------------------------------------------------------------
  // Pruning

  /** The prune loop: drop the head while its timestamp is below `timeLimit`. The result is
      the suffix left when the loop stops, and everything dropped was below the limit. */
  function Pruned(samples: seq<Sample>, timeLimit: int): (r: seq<Sample>)
    ensures |r| <= |samples| && r == samples[|samples| - |r|..]
    ensures r == [] || timeLimit <= r[0].time
    ensures forall k :: 0 <= k < |samples| - |r| ==> samples[k].time < timeLimit
    decreases |samples|
  {
    if |samples| > 0 && samples[0].time < timeLimit then Pruned(samples[1..], timeLimit) else samples
  }

  /** Because the newest sample sits at the head, the prune loop either stops at once or,
      when the head is already too old, empties the whole deque. */
  lemma {:induction false} PruneAllOrNothing(samples: seq<Sample>, timeLimit: int)
    requires |samples| > 0 && NewestFirst(samples)
    ensures samples[0].time >= timeLimit ==> Pruned(samples, timeLimit) == samples
    ensures samples[0].time < timeLimit ==> Pruned(samples, timeLimit) == []
  {
    if samples[0].time < timeLimit && |samples| > 1 {
      var rest := samples[1..];
      assert rest[0].time <= samples[0].time;
      assert NewestFirst(rest) by {
        forall i, j | 0 <= i < j < |rest| ensures rest[j].time <= rest[i].time {
          assert rest[i] == samples[i + 1] && rest[j] == samples[j + 1];
        }
      }
      PruneAllOrNothing(rest, timeLimit);
    }
  }

  // ---------------------------------------------------------------------------------------
  // Averaging

  /** Sum of the `i`-th score over the samples, added up head to tail. */
  function Total(samples: seq<Sample>, i: nat): real
    requires forall k :: 0 <= k < |samples| ==> i < |samples[k].scores|
  {
    if |samples| == 0 then 0.0
    else Total(samples[..|samples| - 1], i) + samples[|samples| - 1].scores[i]
  }

  /** Adding a sample at the head (as `addFirst` does) adds its score to the total. */
  lemma {:induction false} TotalCons(x: Sample, samples: seq<Sample>, i: nat)
    requires i < |x.scores| && forall k :: 0 <= k < |samples| ==> i < |samples[k].scores|
    ensures Total([x] + samples, i) == x.scores[i] + Total(samples, i)
  {
    if |samples| > 0 {
      var init := samples[..|samples| - 1];
      assert ([x] + samples)[..|samples|] == [x] + init;
      TotalCons(x, init, i);
    } else {
      assert ([x] + samples)[..0] == [];
    }
  }

  /** What the averaging loop accumulates for label `i`: each sample adds `score[i] / n`. */
  function Share(samples: seq<Sample>, i: nat, n: real): real
    requires n != 0.0
    requires forall k :: 0 <= k < |samples| ==> i < |samples[k].scores|
  {
    if |samples| == 0 then 0.0
    else Share(samples[..|samples| - 1], i, n) + samples[|samples| - 1].scores[i] / n
  }

  /** Adding `score[i] / n` sample by sample gives the arithmetic mean when `n` is the count. */
  lemma {:induction false} ShareIsTotalOver(samples: seq<Sample>, i: nat, n: real)
    requires n != 0.0
    requires forall k :: 0 <= k < |samples| ==> i < |samples[k].scores|
    ensures Share(samples, i, n) == Total(samples, i) / n
  {
    if |samples| > 0 {
      var init := samples[..|samples| - 1];
      var x := samples[|samples| - 1].scores[i];
      ShareIsTotalOver(init, i, n);
      assert Share(init, i, n) + x / n == (Total(init, i) + x) / n;
    }
  }

  /** The per-label average over the window, as the averaging loop computes it; it is the
      unweighted mean of each label's scores. */
  function Average(samples: seq<Sample>, width: nat): (avg: seq<real>)
    requires |samples| > 0 && HasWidth(samples, width)
    ensures |avg| == width
    ensures forall i :: 0 <= i < width ==> avg[i] == Total(samples, i) / (|samples| as real)
  {
    var n := |samples| as real;
    var avg := seq(width, i requires 0 <= i < width => Share(samples, i, n));
    assert forall i :: 0 <= i < width ==> avg[i] == Total(samples, i) / n by {
      forall i | 0 <= i < width ensures avg[i] == Total(samples, i) / n {
        ShareIsTotalOver(samples, i, n);
      }
    }
    avg
  }

  /** If every stored score for label `i` lies in [lo, hi], so does its average. */
  lemma {:induction false} AverageWithinBounds(samples: seq<Sample>, width: nat, i: nat, lo: real, hi: real)
    requires |samples| > 0 && HasWidth(samples, width) && i < width
    requires forall k :: 0 <= k < |samples| ==> lo <= samples[k].scores[i] <= hi
    ensures lo <= Average(samples, width)[i] <= hi
  {
    TotalWithinBounds(samples, i, lo, hi);
    var n := |samples| as real;
    var a := Average(samples, width)[i];
    assert a == Total(samples, i) / n;
    assert a * n == Total(samples, i);
    assert (a - lo) * n >= 0.0 && (hi - a) * n >= 0.0;
  }

  lemma {:induction false} TotalWithinBounds(samples: seq<Sample>, i: nat, lo: real, hi: real)
    requires forall k :: 0 <= k < |samples| ==> i < |samples[k].scores|
    requires forall k :: 0 <= k < |samples| ==> lo <= samples[k].scores[i] <= hi
    ensures lo * (|samples| as real) <= Total(samples, i) <= hi * (|samples| as real)
  {
    if |samples| > 0 {
      var init := samples[..|samples| - 1];
      assert forall k :: 0 <= k < |init| ==> init[k] == samples[k];
      TotalWithinBounds(init, i, lo, hi);
    }
  }

  // ---------------------------------------------------------------------------------------
  // Ranking

  /** An averaged score together with its label index, ordered by `compareTo`. */
  datatype ScoreForSorting = ScoreForSorting(score: real, index: int)

  /** `ScoreForSorting.compareTo`: negative when `a` has the higher score, so that an
      ascending sort puts the highest score first. */
  function CompareTo(a: ScoreForSorting, b: ScoreForSorting): int {
    if a.score > b.score then -1
    else if a.score < b.score then 1
    else 0
  }

  /** `compareTo` is a total preorder: sign-antisymmetric, transitive, zero exactly on equal scores. */
  lemma CompareToIsTotalPreorder(a: ScoreForSorting, b: ScoreForSorting, c: ScoreForSorting)
    ensures CompareTo(a, b) == -CompareTo(b, a)
    ensures CompareTo(a, b) <= 0 && CompareTo(b, c) <= 0 ==> CompareTo(a, c) <= 0
    ensures CompareTo(a, b) == 0 <==> a.score == b.score
  {
  }

  /** The first index holding the largest entry; later entries replace the current best
      only when strictly greater. */
  function ArgMax(a: seq<real>): (k: nat)
    requires |a| > 0
    ensures k < |a|
    ensures forall j :: 0 <= j < |a| ==> a[j] <= a[k]
    ensures forall j :: 0 <= j < k ==> a[j] < a[k]
  {
    if |a| == 1 then 0
    else
      var k := ArgMax(a[..|a| - 1]);
      if a[|a| - 1] > a[k] then |a| - 1 else k
  }

  /** The two properties of `ArgMax` determine it. */
  lemma ArgMaxUnique(a: seq<real>, k: nat)
    requires k < |a|
    requires forall j :: 0 <= j < |a| ==> a[j] <= a[k]
    requires forall j :: 0 <= j < k ==> a[j] < a[k]
    ensures k == ArgMax(a)
  {
    var m := ArgMax(a);
    assert !(m < k) && !(k < m);
  }

  /** `s` holds exactly the pairs `(avg[j], j)`: what `sortedAverageScores` holds
      before and after `Arrays.sort`. */
  ghost predicate IndexedScores(avg: seq<real>, s: seq<ScoreForSorting>) {
    && |s| == |avg|
    && (forall j :: 0 <= j < |avg| ==> ScoreForSorting(avg[j], j) in s)
    && (forall x :: x in s ==> 0 <= x.index < |avg| && x.score == avg[x.index])
  }

  /** `s` is in ascending order under `compareTo`, and equal elements keep their index order,
      as `Arrays.sort` on objects (a stable merge sort) leaves them. */
  ghost predicate StablySorted(s: seq<ScoreForSorting>) {
    && (forall p, q :: 0 <= p < q < |s| ==> CompareTo(s[p], s[q]) <= 0)
    && (forall p, q :: 0 <= p < q < |s| && CompareTo(s[p], s[q]) == 0 ==> s[p].index < s[q].index)
  }

  /** Whatever arrangement the stable sort produces, its first element is the highest average
      with the lowest label index among equal ones, i.e. `ArgMax`. */
  lemma StableSortHeadIsArgMax(avg: seq<real>, sorted: seq<ScoreForSorting>)
    requires |avg| > 0 && IndexedScores(avg, sorted) && StablySorted(sorted)
    ensures sorted[0] == ScoreForSorting(avg[ArgMax(avg)], ArgMax(avg))
  {
    var k := ArgMax(avg);
    var best := ScoreForSorting(avg[k], k);
    assert best in sorted;
    var p :| 0 <= p < |sorted| && sorted[p] == best;
    assert sorted[0] in sorted;
    assert p == 0;
  }

  // ---------------------------------------------------------------------------------------
  // Suppression

  /** `timeSinceLastTop`: `Long.MAX_VALUE` when nothing (or only the audience label) was
      detected, otherwise the wrapped difference to the last detection. */
  function TimeSinceLastTop(s: State, t: Long): Long {
    if s.previousTopLabel == AUDIENCE_LABEL || s.previousTopLabelTime == LONG_MIN then LONG_MAX
    else Sub(t, s.previousTopLabelTime)
  }

  /** The suppression gap is open: no real detection yet, or the last one is old enough. */
  predicate GapOpen(c: Config, s: State, t: Long) {
    || s.previousTopLabel == AUDIENCE_LABEL
    || s.previousTopLabelTime == LONG_MIN
    || Sub(t, s.previousTopLabelTime) > c.suppressionMs
  }

  /** The `Long.MAX_VALUE` sentinel exceeds every `Int` suppression period, so the source's
      comparison is exactly `GapOpen`. */
  lemma TimeSinceLastTopOpensGap(c: Config, s: State, t: Long)
    ensures TimeSinceLastTop(s, t) > c.suppressionMs <==> GapOpen(c, s, t)
  {
  }

  // ---------------------------------------------------------------------------------------
  // One call of processLatestResults

  /** The rate-limit guard: more than one stored sample, and the time since the OLDEST one
      (`previousResults.last`) is below the minimum spacing. */
  predicate RateLimited(c: Config, s: State, t: Long) {
    |s.previousResults| > 1 && Sub(t, Last(s.previousResults).time) < c.minimumTimeBetweenSamplesMs
  }

  /** The samples a call that got past the guards leaves in the deque: the new sample added
      at the head, then the prune loop. */
  function Ingested(c: Config, s: State, scores: seq<real>, t: Long): (window: seq<Sample>)
    requires ValidState(c, s) && |scores| == |c.labels|
    requires |s.previousResults| > 0 ==> s.previousResults[0].time <= t
    ensures HasWidth(window, |c.labels|) && NewestFirst(window)
  {
    var inserted := [Sample(t, scores)] + s.previousResults;
    InsertKeepsValid(c, s, scores, t);
    var window := Pruned(inserted, Sub(t, c.averageWindowDurationMs));
    SuffixKeepsValid(inserted, |inserted| - |window|, |c.labels|);
    window
  }

  /** Dropping samples from the head keeps the state invariant. */
  lemma SuffixKeepsValid(samples: seq<Sample>, m: nat, width: nat)
    requires m <= |samples| && HasWidth(samples, width) && NewestFirst(samples)
    ensures HasWidth(samples[m..], width) && NewestFirst(samples[m..])
  {
    var r := samples[m..];
    forall i, j | 0 <= i < j < |r| ensures r[j].time <= r[i].time {
      assert r[i] == samples[m + i] && r[j] == samples[m + j];
    }
  }

  /** Adding a well-sized sample no older than the head keeps the deque newest-first. */
  lemma InsertKeepsValid(c: Config, s: State, scores: seq<real>, t: Long)
    requires ValidState(c, s) && |scores| == |c.labels|
    requires |s.previousResults| > 0 ==> s.previousResults[0].time <= t
    ensures HasWidth([Sample(t, scores)] + s.previousResults, |c.labels|)
    ensures NewestFirst([Sample(t, scores)] + s.previousResults)
  {
    var inserted := [Sample(t, scores)] + s.previousResults;
    forall i, j | 0 <= i < j < |inserted| ensures inserted[j].time <= inserted[i].time {
      assert inserted[j] == s.previousResults[j - 1];
      if i > 0 {
        assert inserted[i] == s.previousResults[i - 1];
      }
    }
  }

  /** The part of a call after pruning: the minimum-count guard, averaging, ranking and the
      threshold/suppression decision, on a non-empty window. */
  function Evaluate(c: Config, s: State, window: seq<Sample>, t: Long): (State, Outcome)
    requires window != [] && HasWidth(window, |c.labels|)
  {
    if |window| < c.minimumCount then
      (s.(previousResults := window), Ok(RecognitionResult(s.previousTopLabel, 0.0, false)))
    else if |c.labels| == 0 then (s.(previousResults := window), Fail(IndexOutOfBounds))
    else
      var avg := Average(window, |c.labels|);
      var top := ArgMax(avg);
      if avg[top] > c.detectionThreshold && TimeSinceLastTop(s, t) > c.suppressionMs then
        (State(window, c.labels[top], avg[top], t), Ok(RecognitionResult(c.labels[top], avg[top], true)))
      else
        (s.(previousResults := window), Ok(RecognitionResult(c.labels[top], avg[top], false)))
  }

  /** `Evaluate` looks at the old deque only through the window it is given. */
  lemma EvaluateReadsOnlyDetection(c: Config, s: State, window: seq<Sample>, t: Long)
    requires window != [] && HasWidth(window, |c.labels|)
    ensures Evaluate(c, s, window, t) == Evaluate(c, s.(previousResults := window), window, t)
  {
  }

  /** A call that gets past the three guards. */
  predicate PassesGuards(c: Config, s: State, scores: seq<real>, t: Long) {
    && |scores| == |c.labels|
    && !(|s.previousResults| > 0 && t < s.previousResults[0].time)
    && !RateLimited(c, s, t)
  }

  /** The rest of a call that got past the guards: ingestion, then `first` on the pruned
      deque, which throws when the loop emptied it, then `Evaluate`. */
  function Admitted(c: Config, s: State, scores: seq<real>, t: Long): (State, Outcome)
    requires ValidState(c, s) && PassesGuards(c, s, scores, t)
  {
    var window := Ingested(c, s, scores, t);
    if window == [] then (s.(previousResults := []), Fail(NoSuchElement))
    else Evaluate(c, s, window, t)
  }

  /** Past the guards, the only failures left are the two exceptions of the prune loop
      and of the ranking. */
  lemma AdmittedNeverRejects(c: Config, s: State, scores: seq<real>, t: Long)
    requires ValidState(c, s) && PassesGuards(c, s, scores, t)
    ensures Admitted(c, s, scores, t).1.Fail? ==>
              Admitted(c, s, scores, t).1.error in {NoSuchElement, IndexOutOfBounds}
  {
    var window := Ingested(c, s, scores, t);
    if window != [] {
      assert Admitted(c, s, scores, t) == Evaluate(c, s, window, t);
    }
  }

  /** One call of `processLatestResults`: the new state and the outcome. */
  function Step(c: Config, s: State, scores: seq<real>, t: Long): (State, Outcome)
    requires ValidState(c, s)
  {
    if |scores| != |c.labels| then (s, Fail(InvalidInput))
    else if |s.previousResults| > 0 && t < s.previousResults[0].time then (s, Fail(OutOfOrderInput))
    else if RateLimited(c, s, t) then
      (s, Ok(RecognitionResult(s.previousTopLabel, s.previousTopLabelScore, false)))
    else Admitted(c, s, scores, t)
  }

  /** Every call keeps the state invariant. */
  lemma StepPreservesValid(c: Config, s: State, scores: seq<real>, t: Long)
    requires ValidState(c, s)
    ensures ValidState(c, Step(c, s, scores, t).0)
  {
    if PassesGuards(c, s, scores, t) && Ingested(c, s, scores, t) != [] {
      var window := Ingested(c, s, scores, t);
      StepEvaluates(c, s, scores, t);
      assert Evaluate(c, s, window, t).0.previousResults == window;
    }
  }

  /** A score vector of the wrong length is rejected, and only such a vector; nothing changes. */
  lemma WrongLengthRejected(c: Config, s: State, scores: seq<real>, t: Long)
    requires ValidState(c, s)
    ensures Step(c, s, scores, t).1 == Fail(InvalidInput) <==> |scores| != |c.labels|
    ensures |scores| != |c.labels| ==> Step(c, s, scores, t).0 == s
  {
    if PassesGuards(c, s, scores, t) {
      AdmittedNeverRejects(c, s, scores, t);
    }
  }

  /** A timestamp earlier than the head of the deque (the newest stored sample) is rejected,
      and only such a timestamp (of a well-sized vector); nothing changes. */
  lemma OutOfOrderRejected(c: Config, s: State, scores: seq<real>, t: Long)
    requires ValidState(c, s)
    ensures Step(c, s, scores, t).1 == Fail(OutOfOrderInput)
        <==> |scores| == |c.labels| && |s.previousResults| > 0 && t < s.previousResults[0].time
    ensures Step(c, s, scores, t).1 == Fail(OutOfOrderInput) ==> Step(c, s, scores, t).0 == s
  {
    if PassesGuards(c, s, scores, t) {
      AdmittedNeverRejects(c, s, scores, t);
    }
  }

  /** Under the rate limit the previous decision is repeated with `isNewSpeaker = false`
      and the state, deque included, is left as it was. */
  lemma RateLimitRepeatsDecision(c: Config, s: State, scores: seq<real>, t: Long)
    requires ValidState(c, s)
    requires |scores| == |c.labels| && !(|s.previousResults| > 0 && t < s.previousResults[0].time)
    requires RateLimited(c, s, t)
    ensures Step(c, s, scores, t)
         == (s, Ok(RecognitionResult(s.previousTopLabel, s.previousTopLabelScore, false)))
  {
  }

  /** The prune loop is all or nothing: a call past the guards either keeps every stored
      sample and adds the new one at the head, or (when `currentTime - window` lies above
      `currentTime`) empties the deque and fails with `NoSuchElement`. */
  lemma IngestAllOrNothing(c: Config, s: State, scores: seq<real>, t: Long)
    requires ValidState(c, s) && PassesGuards(c, s, scores, t)
    ensures t >= Sub(t, c.averageWindowDurationMs) ==>
              Ingested(c, s, scores, t) == [Sample(t, scores)] + s.previousResults
    ensures t < Sub(t, c.averageWindowDurationMs) ==>
              Step(c, s, scores, t) == (s.(previousResults := []), Fail(NoSuchElement))
  {
    InsertKeepsValid(c, s, scores, t);
    PruneAllOrNothing([Sample(t, scores)] + s.previousResults, Sub(t, c.averageWindowDurationMs));
  }

  /** A call past the guards whose prune loop empties the deque ends in `NoSuchElement`. */
  lemma StepThrowsOnEmptyWindow(c: Config, s: State, scores: seq<real>, t: Long)
    requires ValidState(c, s) && PassesGuards(c, s, scores, t)
    requires Ingested(c, s, scores, t) == []
    ensures Step(c, s, scores, t) == (s.(previousResults := []), Fail(NoSuchElement))
  {
  }

  /** A call past the guards that does not fail in the prune loop is `Evaluate` on the
      ingested window. */
  lemma StepEvaluates(c: Config, s: State, scores: seq<real>, t: Long)
    requires ValidState(c, s) && PassesGuards(c, s, scores, t)
    requires Ingested(c, s, scores, t) != []
    ensures Step(c, s, scores, t) == Evaluate(c, s, Ingested(c, s, scores, t), t)
  {
  }

  /** With a non-negative averaging window and no underflow of `currentTime - window`,
      pruning removes nothing: the deque grows by exactly one, with the new sample at the
      head, and the call does not fail in the prune loop. So the window is NOT bounded in
      time: samples older than `currentTime - window` stay. */
  lemma PruningRemovesNothing(c: Config, s: State, scores: seq<real>, t: Long)
    requires ValidState(c, s) && PassesGuards(c, s, scores, t)
    requires c.averageWindowDurationMs >= 0 && t - c.averageWindowDurationMs >= LONG_MIN
    ensures Ingested(c, s, scores, t) == [Sample(t, scores)] + s.previousResults
    ensures Step(c, s, scores, t).0.previousResults == [Sample(t, scores)] + s.previousResults
    ensures |Step(c, s, scores, t).0.previousResults| == |s.previousResults| + 1
    ensures Step(c, s, scores, t).1 != Fail(NoSuchElement)
  {
    IngestAllOrNothing(c, s, scores, t);
    StepEvaluates(c, s, scores, t);
  }

  /** Once a sample is stored, no call with a non-negative window and no underflow ever
      drops the oldest stored sample. */
  lemma OldestSampleStays(c: Config, s: State, scores: seq<real>, t: Long)
    requires ValidState(c, s) && |s.previousResults| > 0
    requires c.averageWindowDurationMs >= 0 && t - c.averageWindowDurationMs >= LONG_MIN
    ensures |Step(c, s, scores, t).0.previousResults| > 0
    ensures Last(Step(c, s, scores, t).0.previousResults) == Last(s.previousResults)
  {
    if PassesGuards(c, s, scores, t) {
      PruningRemovesNothing(c, s, scores, t);
    }
  }

  /** Too few samples in the window: the previous label with score 0 and no detection;
      the detection fields keep their values. */
  lemma TooFewSamples(c: Config, s: State, scores: seq<real>, t: Long)
    requires ValidState(c, s) && PassesGuards(c, s, scores, t)
    requires Ingested(c, s, scores, t) != [] && |Ingested(c, s, scores, t)| < c.minimumCount
    ensures Step(c, s, scores, t).1 == Ok(RecognitionResult(s.previousTopLabel, 0.0, false))
    ensures Step(c, s, scores, t).0 == s.(previousResults := Ingested(c, s, scores, t))
  {
    StepEvaluates(c, s, scores, t);
  }

  /** The decision on a window with enough samples: the label with the highest average
      (lowest index on ties) and that average are returned whatever `isNewSpeaker` is;
      `isNewSpeaker` holds exactly when the average beats the threshold and the
      suppression gap is open, and only then are the detection fields overwritten. */
  lemma EvaluateDecides(c: Config, s: State, window: seq<Sample>, t: Long)
    requires window != [] && HasWidth(window, |c.labels|)
    requires |window| >= c.minimumCount && |c.labels| > 0
    ensures
      var avg := Average(window, |c.labels|);
      var (s', out) := Evaluate(c, s, window, t);
      && out.Ok?
      && (forall i :: 0 <= i < |avg| ==> avg[i] <= out.result.score)
      && (exists k :: 0 <= k < |avg| && out.result.foundSpeaker == c.labels[k]
            && out.result.score == avg[k] && forall j :: 0 <= j < k ==> avg[j] < avg[k])
      && (out.result.isNewSpeaker <==> out.result.score > c.detectionThreshold && GapOpen(c, s, t))
      && s'.previousResults == window
      && (out.result.isNewSpeaker ==>
            s' == State(window, out.result.foundSpeaker, out.result.score, t))
      && (!out.result.isNewSpeaker ==>
            s'.previousTopLabel == s.previousTopLabel
            && s'.previousTopLabelScore == s.previousTopLabelScore
            && s'.previousTopLabelTime == s.previousTopLabelTime)
  {
    var avg := Average(window, |c.labels|);
    var k := ArgMax(avg);
    TimeSinceLastTopOpensGap(c, s, t);
    assert Evaluate(c, s, window, t).1.result.foundSpeaker == c.labels[k];
  }

  /** Suppression is global: after a real detection at time T, no call within
      `suppressionMs` of T reports a new speaker, whichever label wins, and the detection
      fields stay as they are. */
  lemma SuppressionIsGlobal(c: Config, s: State, scores: seq<real>, t: Long)
    requires ValidState(c, s)
    requires s.previousTopLabel != AUDIENCE_LABEL && s.previousTopLabelTime != LONG_MIN
    requires s.previousTopLabelTime <= t <= s.previousTopLabelTime + c.suppressionMs
    ensures !(Step(c, s, scores, t).1.Ok? && Step(c, s, scores, t).1.result.isNewSpeaker)
    ensures Step(c, s, scores, t).0.previousTopLabel == s.previousTopLabel
    ensures Step(c, s, scores, t).0.previousTopLabelTime == s.previousTopLabelTime
    ensures Step(c, s, scores, t).0.previousTopLabelScore == s.previousTopLabelScore
  {
    assert !GapOpen(c, s, t);
    TimeSinceLastTopOpensGap(c, s, t);
    if PassesGuards(c, s, scores, t) && Ingested(c, s, scores, t) != [] {
      var window := Ingested(c, s, scores, t);
      StepEvaluates(c, s, scores, t);
      if |window| >= c.minimumCount && |c.labels| > 0 {
        EvaluateDecides(c, s, window, t);
      }
    }
  }

  /** Until something other than the audience label has been detected, the gap is always
      open: a recogniser never suppresses its first real detection. */
  lemma FirstDetectionNeverSuppressed(c: Config, s: State, t: Long)
    requires s.previousTopLabel == AUDIENCE_LABEL || s.previousTopLabelTime == LONG_MIN
    ensures TimeSinceLastTop(s, t) > c.suppressionMs
  {
  }
}
