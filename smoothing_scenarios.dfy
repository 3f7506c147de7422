/** Concrete runs of the smoother with the constants MainActivity passes to it
    (window 1000 ms, threshold 0.5, suppression 1500 ms, minimum count 3, minimum spacing
    30 ms) and three labels, worked out call by call. */
module SmoothingScenarios {
  import opened KotlinTypes
  import opened Smoothing

  const DEMO_LABELS: seq<string> := [AUDIENCE_LABEL, "Alice", "Bob"]

  function DemoConfig(): Config {
    Config(DEMO_LABELS, 1000, 0.5, 1500, 3, 30)
  }

  /** The state after the three Alice calls below. */
  function AfterAlice(): State {
    State([Sample(200, [0.05, 0.8, 0.15]), Sample(100, [0.1, 0.85, 0.05]), Sample(0, [0.1, 0.9, 0.0])],
          "Alice", 0.85, 200)
  }

  /** The label totals over the three Alice frames. */
  lemma AliceTotals()
    ensures Total(AfterAlice().previousResults, 0) == 0.25
    ensures Total(AfterAlice().previousResults, 1) == 2.55
    ensures Total(AfterAlice().previousResults, 2) == 0.2
  {
    var w := AfterAlice().previousResults;
    forall i | 0 <= i < 3 ensures Total(w, i) == w[0].scores[i] + w[1].scores[i] + w[2].scores[i] {
      TotalCons(w[0], w[1..], i);
      TotalCons(w[1], w[2..], i);
      TotalCons(w[2], [], i);
      assert [w[2]] + [] == w[2..] && [w[1]] + w[2..] == w[1..] && [w[0]] + w[1..] == w;
    }
  }

  /** Three frames favouring Alice: the first two are too few to average, the third makes
      Alice the new speaker with the mean 0.85. */
  lemma AliceDetected()
    ensures var c, s0 := DemoConfig(), Initial();
            var s1 := State([Sample(0, [0.1, 0.9, 0.0])], AUDIENCE_LABEL, 0.0, LONG_MIN);
            var s2 := State([Sample(100, [0.1, 0.85, 0.05]), Sample(0, [0.1, 0.9, 0.0])], AUDIENCE_LABEL, 0.0, LONG_MIN);
            && ValidState(c, s1) && ValidState(c, s2)
            && Step(c, s0, [0.1, 0.9, 0.0], 0) == (s1, Ok(RecognitionResult(AUDIENCE_LABEL, 0.0, false)))
            && Step(c, s1, [0.1, 0.85, 0.05], 100) == (s2, Ok(RecognitionResult(AUDIENCE_LABEL, 0.0, false)))
            && Step(c, s2, [0.05, 0.8, 0.15], 200) == (AfterAlice(), Ok(RecognitionResult("Alice", 0.85, true)))
  {
    var s0 := Initial();
    var s1 := State([Sample(0, [0.1, 0.9, 0.0])], AUDIENCE_LABEL, 0.0, LONG_MIN);
    var s2 := State([Sample(100, [0.1, 0.85, 0.05]), Sample(0, [0.1, 0.9, 0.0])], AUDIENCE_LABEL, 0.0, LONG_MIN);
    FirstCall(s0, s1);
    SecondCall(s1, s2);
    AliceWins(s2);
  }

  lemma FirstCall(s0: State, s1: State)
    requires s0 == Initial()
    requires s1 == State([Sample(0, [0.1, 0.9, 0.0])], AUDIENCE_LABEL, 0.0, LONG_MIN)
    ensures ValidState(DemoConfig(), s1)
    ensures Step(DemoConfig(), s0, [0.1, 0.9, 0.0], 0) == (s1, Ok(RecognitionResult(AUDIENCE_LABEL, 0.0, false)))
  {
    var c := DemoConfig();
    assert c.minimumCount == 3;
    PruningRemovesNothing(c, s0, [0.1, 0.9, 0.0], 0);
    assert Ingested(c, s0, [0.1, 0.9, 0.0], 0) == s1.previousResults;
    TooFewSamples(c, s0, [0.1, 0.9, 0.0], 0);
    StepPreservesValid(c, s0, [0.1, 0.9, 0.0], 0);
    assert Step(c, s0, [0.1, 0.9, 0.0], 0).1 == Ok(RecognitionResult(AUDIENCE_LABEL, 0.0, false));
    assert Step(c, s0, [0.1, 0.9, 0.0], 0).0 == s1;
  }

  lemma SecondCall(s1: State, s2: State)
    requires s1 == State([Sample(0, [0.1, 0.9, 0.0])], AUDIENCE_LABEL, 0.0, LONG_MIN)
    requires s2 == State([Sample(100, [0.1, 0.85, 0.05]), Sample(0, [0.1, 0.9, 0.0])], AUDIENCE_LABEL, 0.0, LONG_MIN)
    requires ValidState(DemoConfig(), s1)
    ensures ValidState(DemoConfig(), s2)
    ensures Step(DemoConfig(), s1, [0.1, 0.85, 0.05], 100) == (s2, Ok(RecognitionResult(AUDIENCE_LABEL, 0.0, false)))
  {
    var c := DemoConfig();
    assert c.minimumCount == 3;
    PruningRemovesNothing(c, s1, [0.1, 0.85, 0.05], 100);
    assert Ingested(c, s1, [0.1, 0.85, 0.05], 100) == s2.previousResults;
    TooFewSamples(c, s1, [0.1, 0.85, 0.05], 100);
    StepPreservesValid(c, s1, [0.1, 0.85, 0.05], 100);
    assert Step(c, s1, [0.1, 0.85, 0.05], 100).1 == Ok(RecognitionResult(AUDIENCE_LABEL, 0.0, false));
    assert Step(c, s1, [0.1, 0.85, 0.05], 100).0 == s2;
  }

  lemma AliceWins(s2: State)
    requires s2 == State([Sample(100, [0.1, 0.85, 0.05]), Sample(0, [0.1, 0.9, 0.0])], AUDIENCE_LABEL, 0.0, LONG_MIN)
    requires ValidState(DemoConfig(), s2)
    ensures Step(DemoConfig(), s2, [0.05, 0.8, 0.15], 200) == (AfterAlice(), Ok(RecognitionResult("Alice", 0.85, true)))
  {
    var c := DemoConfig();
    assert c.minimumCount == 3 && c.labels == DEMO_LABELS && c.detectionThreshold == 0.5;
    var w := AfterAlice().previousResults;
    PruningRemovesNothing(c, s2, [0.05, 0.8, 0.15], 200);
    assert Ingested(c, s2, [0.05, 0.8, 0.15], 200) == w;
    StepEvaluates(c, s2, [0.05, 0.8, 0.15], 200);
    AliceTotals();
    var avg := Average(w, 3);
    assert avg[0] == 0.25 / 3.0 && avg[1] == 0.85 && avg[2] == 0.2 / 3.0;
    ArgMaxUnique(avg, 1);
    assert TimeSinceLastTop(s2, 200) == LONG_MAX;
    assert Evaluate(c, s2, w, 200) == (AfterAlice(), Ok(RecognitionResult("Alice", 0.85, true)));
  }

  /** A frame 10 ms after the newest stored one is NOT rate limited, because the guard
      measures the time since the oldest stored sample (t = 0); it is taken into the
      window like any other. */
  lemma RateLimitMeasuresFromOldest()
    ensures !RateLimited(DemoConfig(), AfterAlice(), 210)
    ensures 210 - AfterAlice().previousResults[0].time < DemoConfig().minimumTimeBetweenSamplesMs
    ensures Step(DemoConfig(), AfterAlice(), [0.0, 0.0, 1.0], 210).0.previousResults
         == [Sample(210, [0.0, 0.0, 1.0])] + AfterAlice().previousResults
  {
    PruningRemovesNothing(DemoConfig(), AfterAlice(), [0.0, 0.0, 1.0], 210);
  }

  /** A frame long after the averaging window has passed still averages over the frame
      at t = 0: pruning keeps it although 0 < 5000 - 1000. */
  lemma WindowKeepsStaleSamples()
    ensures var w := Step(DemoConfig(), AfterAlice(), [1.0, 0.0, 0.0], 5000).0.previousResults;
            |w| == 4 && Last(w) == Sample(0, [0.1, 0.9, 0.0])
            && Last(w).time < 5000 - DemoConfig().averageWindowDurationMs
  {
    PruningRemovesNothing(DemoConfig(), AfterAlice(), [1.0, 0.0, 0.0], 5000);
  }

  /** One call while Alice's detection at t = 200 still suppresses: given the label totals
      of the window it produces, the winner is `top` with its mean, and nothing is detected. */
  lemma SuppressedCall(s: State, scores: seq<real>, t: Long, totals: seq<real>, top: nat,
                       next: State, winner: string, mean: real)
    requires |scores| == 3 && |totals| == 3 && top < 3
    requires ValidState(DemoConfig(), s) && |s.previousResults| >= 2
    requires s.previousTopLabel == "Alice" && s.previousTopLabelTime == 200
    requires s.previousResults[0].time <= t && 200 <= t <= 1700 && Last(s.previousResults).time == 0
    requires forall i :: 0 <= i < 3 ==> Total(s.previousResults, i) + scores[i] == totals[i]
    requires forall i :: 0 <= i < 3 ==> totals[i] <= totals[top]
    requires forall i :: 0 <= i < top ==> totals[i] < totals[top]
    requires next == s.(previousResults := [Sample(t, scores)] + s.previousResults)
    requires winner == DEMO_LABELS[top] && mean == totals[top] / ((|s.previousResults| + 1) as real)
    ensures ValidState(DemoConfig(), next)
    ensures forall i :: 0 <= i < 3 ==> Total(next.previousResults, i) == totals[i]
    ensures Step(DemoConfig(), s, scores, t) == (next, Ok(RecognitionResult(winner, mean, false)))
  {
    var c := DemoConfig();
    assert c.minimumCount == 3 && c.labels == DEMO_LABELS && c.suppressionMs == 1500;
    assert s.previousTopLabel != AUDIENCE_LABEL by { assert |AUDIENCE_LABEL| == 18; }
    var n := (|s.previousResults| + 1) as real;
    var w := [Sample(t, scores)] + s.previousResults;
    PruningRemovesNothing(c, s, scores, t);
    StepEvaluates(c, s, scores, t);
    StepPreservesValid(c, s, scores, t);
    var avg := Average(w, 3);
    forall i | 0 <= i < 3 ensures Total(w, i) == totals[i] && avg[i] == totals[i] / n {
      TotalCons(Sample(t, scores), s.previousResults, i);
    }
    forall i | 0 <= i < 3 ensures avg[i] <= avg[top] && (i < top ==> avg[i] < avg[top]) {
      DivideMonotone(totals[i], totals[top], n);
    }
    ArgMaxUnique(avg, top);
    assert TimeSinceLastTop(s, t) == t - 200;
  }

  /** Dividing by a positive number keeps the order. */
  lemma DivideMonotone(a: real, b: real, n: real)
    requires n > 0.0
    ensures a <= b ==> a / n <= b / n
    ensures a < b ==> a / n < b / n
  {
    assert b / n - a / n == (b - a) / n;
  }

  /** Bob's first frame, and the three that follow it. */
  const BOB_ONSET: seq<real> := [0.1, 0.1, 0.8]
  const BOB_CLEAR: seq<real> := [0.0, 0.0, 1.0]

  /** The states after each of the four frames that follow Alice's detection: Bob's frames
      go ahead of Alice's three, and the last detection stays Alice's. */
  function BobState1(): (s: State)
    ensures |s.previousResults| == 4 && s.previousResults[0].time == 250 && Last(s.previousResults).time == 0
    ensures s.previousTopLabel == "Alice" && s.previousTopLabelTime == 200
  {
    AfterAlice().(previousResults := [Sample(250, BOB_ONSET)] + AfterAlice().previousResults)
  }

  function BobState2(): (s: State)
    ensures |s.previousResults| == 5 && s.previousResults[0].time == 300 && Last(s.previousResults).time == 0
    ensures s.previousTopLabel == "Alice" && s.previousTopLabelTime == 200
  {
    BobState1().(previousResults := [Sample(300, BOB_CLEAR)] + BobState1().previousResults)
  }

  function BobState3(): (s: State)
    ensures |s.previousResults| == 6 && s.previousResults[0].time == 350 && Last(s.previousResults).time == 0
    ensures s.previousTopLabel == "Alice" && s.previousTopLabelTime == 200
  {
    BobState2().(previousResults := [Sample(350, BOB_CLEAR)] + BobState2().previousResults)
  }

  function BobState4(): (s: State)
    ensures |s.previousResults| == 7 && s.previousResults[0].time == 400 && Last(s.previousResults).time == 0
    ensures s.previousTopLabel == "Alice" && s.previousTopLabelTime == 200
  {
    BobState3().(previousResults := [Sample(400, BOB_CLEAR)] + BobState3().previousResults)
  }

  /** The window sums after each frame, and that each state is well formed. */
  lemma BobTotals1()
    ensures ValidState(DemoConfig(), BobState1())
    ensures forall i :: 0 <= i < 3 ==> Total(BobState1().previousResults, i) == [0.35, 2.65, 1.0][i]
  {
    AliceTotals();
    SuppressedCall(AfterAlice(), BOB_ONSET, 250, [0.35, 2.65, 1.0], 1, BobState1(), "Alice", 2.65 / 4.0);
  }

  lemma BobTotals2()
    ensures ValidState(DemoConfig(), BobState2())
    ensures forall i :: 0 <= i < 3 ==> Total(BobState2().previousResults, i) == [0.35, 2.65, 2.0][i]
  {
    BobTotals1();
    SuppressedCall(BobState1(), BOB_CLEAR, 300, [0.35, 2.65, 2.0], 1, BobState2(), "Alice", 2.65 / 5.0);
  }

  lemma BobTotals3()
    ensures ValidState(DemoConfig(), BobState3())
    ensures forall i :: 0 <= i < 3 ==> Total(BobState3().previousResults, i) == [0.35, 2.65, 3.0][i]
  {
    BobTotals2();
    SuppressedCall(BobState2(), BOB_CLEAR, 350, [0.35, 2.65, 3.0], 2, BobState3(), "Bob", 3.0 / 6.0);
  }

  /** Frame at t = 250: Alice still leads, with 2.65 / 4. */
  lemma BobFrame1()
    ensures Step(DemoConfig(), AfterAlice(), BOB_ONSET, 250)
         == (BobState1(), Ok(RecognitionResult("Alice", 2.65 / 4.0, false)))
  {
    AliceTotals();
    SuppressedCall(AfterAlice(), BOB_ONSET, 250, [0.35, 2.65, 1.0], 1, BobState1(), "Alice", 2.65 / 4.0);
  }

  /** Frame at t = 300: Alice still leads, with 2.65 / 5. */
  lemma BobFrame2()
    ensures ValidState(DemoConfig(), BobState1())
    ensures Step(DemoConfig(), BobState1(), BOB_CLEAR, 300)
         == (BobState2(), Ok(RecognitionResult("Alice", 2.65 / 5.0, false)))
  {
    BobTotals1();
    SuppressedCall(BobState1(), BOB_CLEAR, 300, [0.35, 2.65, 2.0], 1, BobState2(), "Alice", 2.65 / 5.0);
  }

  /** Frame at t = 350: Bob now leads, with 3 / 6, which equals the threshold. */
  lemma BobFrame3()
    ensures ValidState(DemoConfig(), BobState2())
    ensures Step(DemoConfig(), BobState2(), BOB_CLEAR, 350)
         == (BobState3(), Ok(RecognitionResult("Bob", 3.0 / 6.0, false)))
  {
    BobTotals2();
    SuppressedCall(BobState2(), BOB_CLEAR, 350, [0.35, 2.65, 3.0], 2, BobState3(), "Bob", 3.0 / 6.0);
  }

  /** Suppression is global: at t = 400 Bob leads with 4 / 7, above the threshold, yet
      400 - 200 <= 1500 so `isNewSpeaker` is false and Alice stays the last detection. */
  lemma BobSuppressedAfterAlice()
    ensures ValidState(DemoConfig(), BobState3())
    ensures 4.0 / 7.0 > DemoConfig().detectionThreshold
    ensures Step(DemoConfig(), BobState3(), BOB_CLEAR, 400)
         == (BobState4(), Ok(RecognitionResult("Bob", 4.0 / 7.0, false)))
  {
    BobTotals3();
    SuppressedCall(BobState3(), BOB_CLEAR, 400, [0.35, 2.65, 4.0], 2, BobState4(), "Bob", 4.0 / 7.0);
  }

  /** A vector with a missing label score fails with `InvalidInput`. */
  lemma ShortVectorRejected()
    ensures Step(DemoConfig(), AfterAlice(), [0.5, 0.5], 300) == (AfterAlice(), Fail(InvalidInput))
  {
  }

  /** A timestamp before the newest stored one fails with `OutOfOrderInput`. */
  lemma EarlierTimestampRejected()
    ensures Step(DemoConfig(), AfterAlice(), [0.1, 0.1, 0.8], 100) == (AfterAlice(), Fail(OutOfOrderInput))
  {
  }
}
