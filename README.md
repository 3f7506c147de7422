# Speaker recognition: temporal smoother and audio ring buffer

This Dafny project models and proves two small sequential cores of an Android
speaker-recognition app.

1. **`RecognizeSpeaker.processLatestResults`** is the temporal smoother. It turns a stream
   of timestamped classifier score vectors (one score per speaker label) into a decision:
   a label, a score, and whether this is a new speaker. Its state is a deque of past
   samples, newest at the head, plus the last confirmed detection: label, score and time.
   `Long.MIN_VALUE` and the audience label serve as the "nothing detected yet" sentinels.
2. **The circular audio buffer of `MainActivity`**. `record()` copies each chunk read from
   the microphone into a ring at a moving offset, in two pieces when the chunk wraps.
   `recognize()` copies the ring out, oldest sample first, for the model.

Files:

- `kotlin_types.dfy` defines Kotlin's `Long`, `Int` and `Short`, and `Long` subtraction
  with two's-complement wrap-around.
- `smoothing.dfy` gives one call of `processLatestResults` as a state-transition function,
  `Step`. It is built from `Ingested` (`addFirst` plus the prune loop), `Admitted` and
  `Evaluate` (minimum count, averaging, ranking, decision). The lemmas state what each
  guard and step does.
- `recognize_speaker.dfy` holds the class `RecognizeSpeaker`. Its method
  `ProcessLatestResults` updates the fields in place, with the while-loop prune, the
  averaging loop over an array, and the ranking loop. It is proved to leave exactly the
  state and return exactly the outcome that `Step` gives. Every lemma about `Step`
  therefore holds of the object.
- `smoothing_scenarios.dfy` replays concrete call sequences under the app's constants
  (window 1000 ms, threshold 0.5, suppression 1500 ms, minimum count 3, minimum spacing
  30 ms).
- `recording_buffer.dfy` holds the class `RecordingBuffer`: an `array<Short>` of
  `RECORDING_LENGTH` = 16000 * 2000 / 1000 = 32000 samples, an offset, and a ghost history
  of every sample written. Its invariant is that the linearised ring equals the last
  32000 samples written, zero-padded in front before the first wrap.

Exceptions thrown by the Kotlin code are modelled as `Fail` outcomes:

- `InvalidInput` for a vector of the wrong length;
- `OutOfOrderInput` for a timestamp earlier than the head;
- `NoSuchElement` when the prune loop empties the deque and `first` is then called on it;
- `IndexOutOfBounds` when there are no labels and `sortedAverageScores[0]` is read.

## Code and comments

The model follows the code. In three places the code does something other than what
its own comments and names say, and the model proves what the code does:

- **Pruning does not bound the window.** The comment at `RecognizeSpeaker.kt:75` says the
  loop prunes "earlier results that are too old for the averaging window". But the new
  sample goes in with `addFirst` (line 74), and the loop at lines 77-79 inspects
  `previousResults.first`, which is that new sample. With a non-negative window the new
  sample is never older than the limit, so the loop removes nothing
  (`PruningRemovesNothing`, `OldestSampleStays`, `WindowKeepsStaleSamples`). It empties
  the whole deque only when the head itself is too old (`PruneAllOrNothing`,
  `IngestAllOrNothing`). That happens only for a negative window or a `Long` underflow,
  and the call then throws `NoSuchElementException` at line 77. So the average is taken
  over every sample stored since the first call, not over the last 1000 ms. Samples of
  rate-limited and rejected calls are never stored.
- **The rate limit measures from the oldest sample.** The comment at line 66 says the
  guard ignores results "coming in too fast", and line 68 names the difference
  `timeSinceMostRecent`. But it is taken against `previousResults.last`, the tail of a
  deque filled with `addFirst`, which is the oldest sample. A call 10 ms after the
  newest sample is therefore not rate limited once the oldest sample is old enough
  (`RateLimitMeasuresFromOldest`).
- **What a rate-limited call returns.** Line 70 returns `previousTopLabel` and
  `previousTopLabelScore` with `false`. That is the last confirmed detection: the
  audience label with score 0 before any detection, and Alice with 0.85 after
  `AliceDetected`. It is not the result of the previous call: a call below the count
  guard returns score 0, and a call whose winner was not new returns that winner. The
  state is left untouched and the sample is not stored (`RateLimitRepeatsDecision`).

Two consequences for a concrete stream under the app's constants
(`MainActivity.kt:274-278`):

- **The frames after Alice's detection.** These hold for a caller that passes a fresh
  score array on every call. The app passes the same `outputScores[0]` every time
  (`MainActivity.kt:129,157`); see "## Left out". Averages are exact reals here.
  - The frame at t = 250 with scores [0.1, 0.1, 0.8] returns Alice with 2.65 / 4, not
    Bob, because the average still includes Alice's three frames (`BobFrame1`).
  - Bob first leads at t = 350 (`BobFrame3`). His real-valued mean there is exactly
    3 / 6 = 0.5, which does not exceed the threshold. The `Float` accumulation at
    `RecognizeSpeaker.kt:95` adds 1.0/6, 1.0/6, 0.8/6, 0.15/6, 0.05/6 and 0.0/6 from head
    to tail, rounding each step to single precision. That ends one unit in the last
    place above it, at 0.50000006f, so in the app Bob beats the threshold already at
    t = 350.
  - That call still returns `false`, because it is within 1500 ms of Alice's detection
    at t = 200. So t = 350 is the first suppressed Bob frame in the app.
  - At t = 400 Bob leads with 4 / 7, above the threshold under either arithmetic. He is
    suppressed again, because suppression does not depend on the label
    (`BobSuppressedAfterAlice`, `SuppressionIsGlobal`).
  - Label and flag agree at every one of these calls under both arithmetics. Only the
    reason for `false` at t = 350 differs.
- **Chunk size.** A single write cannot exceed the ring's capacity. `audioRecord.read` at
  `MainActivity.kt:98` is asked for at most `audioBuffer.size` samples, and that array
  (line 94) has the ring's size (`RecordingBuffer.Write` requires
  `numberRead <= audioBuffer.Length`).

## Model

The ring-buffer table below cites lines of
`Production/SpeakerRecognition/app/src/main/java/com/example/speakerrecognition/MainActivity.kt`;
the rest cite `.../RecognizeSpeaker.kt` in the same directory, or lines in both files
where a row says so.

| member | source | states |
|---|---|---|
| KotlinTypes.Wrap64 | Production/SpeakerRecognition/app/src/main/java/com/example/speakerrecognition/RecognizeSpeaker.kt:76 | A mathematical integer reduced to the `Long` range keeps its value modulo 2^64. |
| KotlinTypes.Sub | Production/SpeakerRecognition/app/src/main/java/com/example/speakerrecognition/RecognizeSpeaker.kt:68 | `Long` subtraction is exact when the difference fits, otherwise off by exactly 2^64 (overflow and underflow). |
| Smoothing.Initial | Production/SpeakerRecognition/app/src/main/java/com/example/speakerrecognition/RecognizeSpeaker.kt:23-26 | A fresh recogniser has an empty deque, the audience label, score 0 and time `Long.MIN_VALUE`. |
| Smoothing.Total | Production/SpeakerRecognition/app/src/main/java/com/example/speakerrecognition/RecognizeSpeaker.kt:91-98 | The sum of label `i`'s scores over the stored samples. Its promises are stated by `ShareIsTotalOver` and `AverageWithinBounds`. |
| Smoothing.Share | Production/SpeakerRecognition/app/src/main/java/com/example/speakerrecognition/RecognizeSpeaker.kt:91-98 | What slot `i` of `averageScores` holds after the loop has passed some of the samples. `ShareIsTotalOver` equates it with `Total / n`. |
| Smoothing.Pruned | Production/SpeakerRecognition/app/src/main/java/com/example/speakerrecognition/RecognizeSpeaker.kt:77-79 | The prune loop leaves a suffix of the deque whose head is not below the limit, and everything it dropped was below the limit. |
| Smoothing.PruneAllOrNothing | Production/SpeakerRecognition/app/src/main/java/com/example/speakerrecognition/RecognizeSpeaker.kt:74-79 | On a newest-first deque the loop keeps everything when the head is within the limit and empties the deque otherwise. |
| Smoothing.Ingested | Production/SpeakerRecognition/app/src/main/java/com/example/speakerrecognition/RecognizeSpeaker.kt:74-79 | After `addFirst` and pruning, every stored vector has one score per label and timestamps never increase from head to tail. |
| Smoothing.InsertKeepsValid | Production/SpeakerRecognition/app/src/main/java/com/example/speakerrecognition/RecognizeSpeaker.kt:55-62 | Because earlier timestamps are rejected, inserting at the head keeps the deque newest-first. |
| Smoothing.ShareIsTotalOver | Production/SpeakerRecognition/app/src/main/java/com/example/speakerrecognition/RecognizeSpeaker.kt:91-98 | Accumulating `score[i] / n` sample by sample equals the total of label `i` divided by `n`. |
| Smoothing.Average | Production/SpeakerRecognition/app/src/main/java/com/example/speakerrecognition/RecognizeSpeaker.kt:89-98 | The averaged vector has one entry per label, each the arithmetic mean of that label's stored scores. |
| Smoothing.AverageWithinBounds | Production/SpeakerRecognition/app/src/main/java/com/example/speakerrecognition/RecognizeSpeaker.kt:89-98 | If every stored score of a label lies in [lo, hi], so does its average. |
| Smoothing.CompareTo | Production/SpeakerRecognition/app/src/main/java/com/example/speakerrecognition/RecognizeSpeaker.kt:31-43 | `ScoreForSorting.compareTo`: -1 for the higher score, 1 for the lower one, 0 for equal scores. Its order properties are stated by `CompareToIsTotalPreorder`. |
| Smoothing.CompareToIsTotalPreorder | Production/SpeakerRecognition/app/src/main/java/com/example/speakerrecognition/RecognizeSpeaker.kt:30-44 | `compareTo` is sign-antisymmetric and transitive, and it is zero exactly on equal scores. |
| Smoothing.ArgMax | Production/SpeakerRecognition/app/src/main/java/com/example/speakerrecognition/RecognizeSpeaker.kt:100-109 | The chosen index holds the highest average, and every lower index holds a strictly smaller one. |
| Smoothing.StableSortHeadIsArgMax | Production/SpeakerRecognition/app/src/main/java/com/example/speakerrecognition/RecognizeSpeaker.kt:100-109 | Any arrangement of `(avg[i], i)` sorted ascending by `compareTo` with ties in index order has `(avg[ArgMax], ArgMax)` first. |
| Smoothing.TimeSinceLastTop | Production/SpeakerRecognition/app/src/main/java/com/example/speakerrecognition/RecognizeSpeaker.kt:113-118 | `Long.MAX_VALUE` when the last label is the audience label or no detection time is set; otherwise the wrapped time since the detection. `TimeSinceLastTopOpensGap` relates it to `GapOpen`. |
| Smoothing.GapOpen | Production/SpeakerRecognition/app/src/main/java/com/example/speakerrecognition/RecognizeSpeaker.kt:113-120 | The suppression test of line 120 without the sentinel value. `TimeSinceLastTopOpensGap` proves it is equivalent to the source's comparison. |
| Smoothing.TimeSinceLastTopOpensGap | Production/SpeakerRecognition/app/src/main/java/com/example/speakerrecognition/RecognizeSpeaker.kt:113-120 | `timeSinceLastTop > suppressionMS` holds iff the last label is the audience label, or nothing was detected, or the wrapped time since the detection exceeds the suppression period. |
| Smoothing.RateLimited | Production/SpeakerRecognition/app/src/main/java/com/example/speakerrecognition/RecognizeSpeaker.kt:67-69 | More than one sample stored, and less than the minimum spacing since the OLDEST one. `RateLimitRepeatsDecision` states what such a call does. |
| Smoothing.Evaluate | Production/SpeakerRecognition/app/src/main/java/com/example/speakerrecognition/RecognizeSpeaker.kt:80-128 | The rest of a call after pruning. `EvaluateDecides` states the decision; its count and empty-label cases are stated by `TooFewSamples` and `AdmittedNeverRejects`. |
| Smoothing.Admitted | Production/SpeakerRecognition/app/src/main/java/com/example/speakerrecognition/RecognizeSpeaker.kt:74-128 | A call past the three guards: ingestion, then the `first` throw on an emptied deque, then `Evaluate`. Its promises are stated by `IngestAllOrNothing`, `StepThrowsOnEmptyWindow`, `PruningRemovesNothing` and `AdmittedNeverRejects`. |
| Smoothing.Step | Production/SpeakerRecognition/app/src/main/java/com/example/speakerrecognition/RecognizeSpeaker.kt:46-129 | One whole call of `processLatestResults`. Its promises are stated by the lemmas below: `StepPreservesValid`, `WrongLengthRejected`, `OutOfOrderRejected`, `RateLimitRepeatsDecision`, `IngestAllOrNothing`, `PruningRemovesNothing`, `TooFewSamples`, `StepEvaluates` with `EvaluateDecides`, and `SuppressionIsGlobal`. |
| Smoothing.StepEvaluates | Production/SpeakerRecognition/app/src/main/java/com/example/speakerrecognition/RecognizeSpeaker.kt:80-128 | A call that passes the guards and keeps a non-empty deque ends exactly as `Evaluate` on the ingested window. |
| Smoothing.StepPreservesValid | Production/SpeakerRecognition/app/src/main/java/com/example/speakerrecognition/RecognizeSpeaker.kt:46-129 | Every call keeps every stored vector label-sized and the deque newest-first. |
| Smoothing.WrongLengthRejected | Production/SpeakerRecognition/app/src/main/java/com/example/speakerrecognition/RecognizeSpeaker.kt:47-54 | A call fails with `InvalidInput` iff the vector length differs from the label count; the state is then unchanged. |
| Smoothing.OutOfOrderRejected | Production/SpeakerRecognition/app/src/main/java/com/example/speakerrecognition/RecognizeSpeaker.kt:55-62 | A call fails with `OutOfOrderInput` iff a well-sized vector comes with a time earlier than the head (the newest sample); the state is then unchanged. |
| Smoothing.AdmittedNeverRejects | Production/SpeakerRecognition/app/src/main/java/com/example/speakerrecognition/RecognizeSpeaker.kt:74-109 | Past the guards, the only possible failures are `NoSuchElement` from the prune loop and `IndexOutOfBounds` from the ranking. |
| Smoothing.RateLimitRepeatsDecision | Production/SpeakerRecognition/app/src/main/java/com/example/speakerrecognition/RecognizeSpeaker.kt:64-72 | With more than one sample stored and the time since the oldest one below the minimum spacing, the call returns the previous label and score with `false` and changes nothing. |
| Smoothing.IngestAllOrNothing | Production/SpeakerRecognition/app/src/main/java/com/example/speakerrecognition/RecognizeSpeaker.kt:74-79 | Past the guards, ingestion either keeps every old sample behind the new head, or empties the deque and the call fails with `NoSuchElement`. |
| Smoothing.StepThrowsOnEmptyWindow | Production/SpeakerRecognition/app/src/main/java/com/example/speakerrecognition/RecognizeSpeaker.kt:77 | When the prune loop empties the deque, the call fails with `NoSuchElement` and leaves the deque empty. |
| Smoothing.PruningRemovesNothing | Production/SpeakerRecognition/app/src/main/java/com/example/speakerrecognition/RecognizeSpeaker.kt:74-80 | With a non-negative window and no underflow, the new deque is the new sample followed by all old ones, so it grows by one. |
| Smoothing.OldestSampleStays | Production/SpeakerRecognition/app/src/main/java/com/example/speakerrecognition/RecognizeSpeaker.kt:64-80 | With a non-negative window and no underflow, the oldest stored sample is never dropped. |
| Smoothing.TooFewSamples | Production/SpeakerRecognition/app/src/main/java/com/example/speakerrecognition/RecognizeSpeaker.kt:80-87 | Below the minimum count, the call returns the previous label with score 0 and `false`; only the deque changes. |
| Smoothing.EvaluateDecides | Production/SpeakerRecognition/app/src/main/java/com/example/speakerrecognition/RecognizeSpeaker.kt:89-128 | On the full path, the result is the label and mean of the highest average, with ties going to the lowest index. `isNewSpeaker` holds iff the mean exceeds the threshold and the gap is open. Only then is the detection replaced by (label, mean, time). |
| Smoothing.SuppressionIsGlobal | Production/SpeakerRecognition/app/src/main/java/com/example/speakerrecognition/RecognizeSpeaker.kt:113-128 | Within the suppression period after a real detection, no call of any label reports a new speaker, and the detection is kept. |
| Smoothing.FirstDetectionNeverSuppressed | Production/SpeakerRecognition/app/src/main/java/com/example/speakerrecognition/RecognizeSpeaker.kt:24-26 | From the initial state, the gap is open at every time. |
| RecognizeSpeakerClass.AverageScores | Production/SpeakerRecognition/app/src/main/java/com/example/speakerrecognition/RecognizeSpeaker.kt:89-98 | The nested accumulation loops over the array produce exactly `Average`. |
| RecognizeSpeakerClass.SelectTop | Production/SpeakerRecognition/app/src/main/java/com/example/speakerrecognition/RecognizeSpeaker.kt:100-109 | Scanning `ScoreForSorting(avg[i], i)` with `compareTo` yields the pair at `ArgMax`, the element the stable sort puts first. |
| RecognizeSpeakerClass.RecognizeSpeaker.constructor | Production/SpeakerRecognition/app/src/main/java/com/example/speakerrecognition/RecognizeSpeaker.kt:6-26 | The object holds the constructor arguments and starts in `Initial()`. |
| RecognizeSpeakerClass.RecognizeSpeaker.ProcessLatestResults | Production/SpeakerRecognition/app/src/main/java/com/example/speakerrecognition/RecognizeSpeaker.kt:46-129 | The new fields and the outcome are those of `Step` on the old fields, and the invariant holds afterwards. |
| RecognizeSpeakerClass.RecognizeSpeaker.Admit | Production/SpeakerRecognition/app/src/main/java/com/example/speakerrecognition/RecognizeSpeaker.kt:73-80 | `addFirst` and the while-loop prune leave the deque `Ingested` describes; the call then ends as `Admitted` says. |
| RecognizeSpeakerClass.RecognizeSpeaker.Prune | Production/SpeakerRecognition/app/src/main/java/com/example/speakerrecognition/RecognizeSpeaker.kt:77-79 | The `removeFirst` loop leaves the deque `Pruned` describes and does not touch the detection fields. |
| RecognizeSpeakerClass.RecognizeSpeaker.Decide | Production/SpeakerRecognition/app/src/main/java/com/example/speakerrecognition/RecognizeSpeaker.kt:80-128 | The count guard, averaging, ranking and decision on the pruned deque give the fields and outcome of `Evaluate`. |
| SmoothingScenarios.AliceDetected | Production/SpeakerRecognition/app/src/main/java/com/example/speakerrecognition/RecognizeSpeaker.kt:46-128 | With the app's constants, three Alice frames at t = 0, 100, 200 give two count-guard results and then ("Alice", 0.85, true). |
| SmoothingScenarios.RateLimitMeasuresFromOldest | Production/SpeakerRecognition/app/src/main/java/com/example/speakerrecognition/RecognizeSpeaker.kt:64-72 | A frame 10 ms after the newest sample is not rate limited and is stored. |
| SmoothingScenarios.WindowKeepsStaleSamples | Production/SpeakerRecognition/app/src/main/java/com/example/speakerrecognition/RecognizeSpeaker.kt:74-80 | At t = 5000 the sample from t = 0 is still stored, although it is older than t minus the window. |
| SmoothingScenarios.BobFrame1 | Production/SpeakerRecognition/app/src/main/java/com/example/speakerrecognition/RecognizeSpeaker.kt:89-128 | The first Bob frame after Alice's detection returns ("Alice", 2.65 / 4, false). |
| SmoothingScenarios.BobFrame2 | Production/SpeakerRecognition/app/src/main/java/com/example/speakerrecognition/RecognizeSpeaker.kt:89-128 | The second returns ("Alice", 2.65 / 5, false). |
| SmoothingScenarios.BobFrame3 | Production/SpeakerRecognition/app/src/main/java/com/example/speakerrecognition/RecognizeSpeaker.kt:89-128 | The third returns ("Bob", 3 / 6, false). Over the reals, 0.5 does not exceed the threshold; in `Float` the mean rounds to 0.50000006f and the call is false only through suppression. |
| SmoothingScenarios.BobSuppressedAfterAlice | Production/SpeakerRecognition/app/src/main/java/com/example/speakerrecognition/RecognizeSpeaker.kt:113-128 | The fourth returns ("Bob", 4 / 7, false): above the threshold but suppressed, and Alice stays the detection. |
| SmoothingScenarios.ShortVectorRejected | Production/SpeakerRecognition/app/src/main/java/com/example/speakerrecognition/RecognizeSpeaker.kt:47-54 | A two-score vector fails with `InvalidInput` and changes nothing. |
| SmoothingScenarios.EarlierTimestampRejected | Production/SpeakerRecognition/app/src/main/java/com/example/speakerrecognition/RecognizeSpeaker.kt:55-62 | t = 100 after t = 200 fails with `OutOfOrderInput` and changes nothing. |
| Recording.CopyLengths | Production/SpeakerRecognition/app/src/main/java/com/example/speakerrecognition/MainActivity.kt:99-102 | Both copy lengths are non-negative and add up to `numberRead`; the first ends by the capacity and the second by the offset; the second is positive iff the chunk wraps. |
| Recording.Overwritten | Production/SpeakerRecognition/app/src/main/java/com/example/speakerrecognition/MainActivity.kt:99-115 | The ring after the two `arraycopy` calls of `record()`, which keeps the ring's length. Its placement is stated by `OverwrittenPlacesChunk`. |
| Recording.OverwrittenPlacesChunk | Production/SpeakerRecognition/app/src/main/java/com/example/speakerrecognition/MainActivity.kt:107-115 | After the two copies, sample `k` of the chunk sits at `(offset + k) % cap` and every position not covered keeps its value. |
| Recording.CopiesOverwrite | Production/SpeakerRecognition/app/src/main/java/com/example/speakerrecognition/MainActivity.kt:108-115 | The two `arraycopy` results compose to `Overwritten`. |
| Recording.Rotate | Production/SpeakerRecognition/app/src/main/java/com/example/speakerrecognition/MainActivity.kt:135-141 | The copy `recognize()` makes: `ring[offset..]` then `ring[..offset]`, which keeps the ring's length. Its pointwise form is stated by `RotateIndex`. |
| Recording.RotateIndex | Production/SpeakerRecognition/app/src/main/java/com/example/speakerrecognition/MainActivity.kt:135-141 | Position `i` of the linear copy is ring position `(offset + i) % cap`. |
| Recording.CopiesRotate | Production/SpeakerRecognition/app/src/main/java/com/example/speakerrecognition/MainActivity.kt:135-141 | The two `arraycopy` results of the snapshot compose to `Rotate`. |
| Recording.Window | Production/SpeakerRecognition/app/src/main/java/com/example/speakerrecognition/MainActivity.kt:24-25 | The `cap` most recent samples, counting the ring's initial zeros as written before everything else; it always has length `cap`. Its contents are stated by `WindowHoldsLatest`. |
| Recording.WindowHoldsLatest | Production/SpeakerRecognition/app/src/main/java/com/example/speakerrecognition/MainActivity.kt:24-25 | The window ends with the last `min(T, cap)` samples written, in order, and is zero before them while T < cap. |
| Recording.WindowAppend | Production/SpeakerRecognition/app/src/main/java/com/example/speakerrecognition/MainActivity.kt:98-116 | Appending a chunk of at most `cap` samples shifts the window left by the chunk's length. |
| Recording.RotateAfterWrite | Production/SpeakerRecognition/app/src/main/java/com/example/speakerrecognition/MainActivity.kt:99-116 | Seen through the rotation at the new offset, a write drops the oldest `n` samples and appends the chunk. |
| Recording.WriteKeepsWindow | Production/SpeakerRecognition/app/src/main/java/com/example/speakerrecognition/MainActivity.kt:99-116 | A write keeps the linear view equal to the zero-padded last `cap` samples written. |
| Recording.ArrayCopy | Production/SpeakerRecognition/app/src/main/java/com/example/speakerrecognition/MainActivity.kt:108-115 | `System.arraycopy` between distinct arrays replaces exactly the destination range with the source range. |
| Recording.RecordingBuffer.constructor | Production/SpeakerRecognition/app/src/main/java/com/example/speakerrecognition/MainActivity.kt:24-25 | The ring starts zero-filled with 32000 samples and offset 0 (`RECORDING_LENGTH`, line 273). |
| Recording.RecordingBuffer.Write | Production/SpeakerRecognition/app/src/main/java/com/example/speakerrecognition/MainActivity.kt:98-116 | The ring becomes `Overwritten` of the old ring, the offset becomes `(offset + n) % cap`, the history grows by the chunk, and the invariant holds. |
| Recording.RecordingBuffer.CopyChunk | Production/SpeakerRecognition/app/src/main/java/com/example/speakerrecognition/MainActivity.kt:100-115 | The two copies with the computed lengths turn the ring into `Overwritten`. |
| Recording.RecordingBuffer.Snapshot | Production/SpeakerRecognition/app/src/main/java/com/example/speakerrecognition/MainActivity.kt:135-141 | The copy is the ring rotated to the offset, which is the zero-padded last `cap` samples written; only the destination changes. |

## Left out

- Threads, the `ReentrantLock` and the stop flags. The buffer is modelled sequentially: one `Write` or `Snapshot` at a time.
- `AudioRecord` I/O. The chunk and its length are parameters.
- RecordingBuffer.Write: requires `0 <= numberRead`. A negative error code from `read` is not handled by the app, so that call would fail inside `System.arraycopy`.
- TFLite inference and model/label loading. The score vector is a parameter.
- The clock. `currentTimeMs` is a parameter.
- Floating point. Scores and averages are `real`, so float rounding, NaN ordering and the `/ 32767.0f` normalisation are not modelled. A mean whose real value sits exactly on the threshold can round above it in `Float` (Bob at t = 350 in the scenarios, 0.50000006f > 0.50f).
- UI dispatch, the `"_"` prefix filter and permission handling.
- `Development/time_stacked.py` is not part of this model. It is the offline Keras definition of the classifier network, not app code.
- `MINIMUM_TIME_FRACTION` is declared and never used.
- Array aliasing of score vectors. The deque stores `FloatArray` references, and the app passes the same output array on every call. The model stores vector values, so it does not capture later inferences overwriting stored samples.
- `Arrays.sort` itself. `SelectTop` scans with `compareTo` instead. `StableSortHeadIsArgMax` proves that the first element of any stable sort is the same one.
- Exception messages. Only the kind of failure is kept.
- Reading and writing within one array. `ArrayCopy` requires distinct arrays, as every call site here has.
