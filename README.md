# Tapper tap-pattern detector

Tapper is an Android app whose background service listens to the accelerometer
and launches a fake incoming call when the phone is tapped in a fixed rhythm:
tap, a pause of 1 to 2 seconds, tap, a pause of 2 to 3 seconds, tap. This
project models the detector inside `BgService.onSensorChanged` and proves what
it computes.

Each accelerometer callback runs three stages in order:

1. **Smoothing ring** (`Smoothing`). Every sample after the first writes its
   scaled delta magnitude into a five-slot ring whose write index wraps. Once
   more than five samples have arrived, the five slots are averaged.
2. **Segmenter** (`Segmenter`). An Idle / InEvent machine runs on the average.
   A rising crossing of the threshold 0.05 opens an excursion and records its
   start time. A falling crossing closes it, and it is a tap only if it lasted
   less than 500 ms.
3. **Pattern matcher** (`PatternMatcher`). Each tap's completion time goes
   into a three-slot ring, and taps are counted. After every tap, once more
   than two exist, a sorted copy of the ring gives two pauses. The pattern
   matches when the first lies strictly between 1000 and 2000 ms and the
   second strictly between 2000 and 3000 ms.

The project has two layers:

- **The functional pipeline.** `Detector.Step` chains the three stages on a
  value `Detector.State`. `Detector.Run` replays a whole history of samples
  from the initial state. The lemmas say what the state and the outputs are
  after any history:
  - the smoothing ring holds the last five magnitudes;
  - the average is their mean;
  - the tap ring holds the last three tap times;
  - the pattern matches exactly on the trailing three taps.
- **The service itself.** `Service.BgService` is a class with the source's
  fields and its two fixed-size arrays. `OnSensorChanged` updates them in
  place, block by block as the source does. It is proved to leave the object
  in exactly the state `Detector.Step` computes. Its result is proved to be
  whether `Detector.Matched` holds of the samples seen so far.

Modules: `Wrappers` (the optional value), `Ring` (circular-buffer indices and the "holds the last n values"
invariant), `Smoothing`, `Segmenter`, `PatternMatcher`, `Detector` and
`Service`.

## Model

| member | source | states |
|---|---|---|
| Ring.Advance | Tapper/src/com/stephendnicholas/tapper/BgService.java:377-382 | Advancing an index and wrapping it to 0 past the last slot gives the successor modulo the capacity, which is always a valid slot |
| Ring.HoldsLastPush | Tapper/src/com/stephendnicholas/tapper/BgService.java:248 | Writing a value at the write index and advancing the index turns a ring holding the last n values of a history into one holding the last n values of the history extended by that value, oldest at the index |
| Smoothing.Initial | Tapper/src/com/stephendnicholas/tapper/BgService.java:62-72 | Before the first sample there is no previous reading and the count and the index are 0, so the ring invariant holds from the start |
| Smoothing.Smooth | Tapper/src/com/stephendnicholas/tapper/BgService.java:231-263 | Every sample adds one to the count and keeps the index equal to the count modulo 5. The first sample writes nothing. Each later sample writes its magnitude at the index and nowhere else. An average exists exactly when more than five samples have arrived, and it is the mean of the five slots as just written |
| Smoothing.RingSum | Tapper/src/com/stephendnicholas/tapper/BgService.java:257-263 | Summing the five slots in slot order gives the sum of the last five magnitudes, wherever the write index is |
| Smoothing.MeanOfFive | Tapper/src/com/stephendnicholas/tapper/BgService.java:257-263 | The moving average (the five-slot sum divided by 5.0) is the arithmetic mean of the five slots, term by term |
| Smoothing.SumBounds | Tapper/src/com/stephendnicholas/tapper/BgService.java:259-261 | A sum of terms all at most t is at most n·t; a non-empty sum of terms all above t is above n·t |
| Smoothing.MeanBounds | Tapper/src/com/stephendnicholas/tapper/BgService.java:263-269 | Five slots all above a threshold average above it; five at or below it average at or below it |
| Segmenter.Initial | Tapper/src/com/stephendnicholas/tapper/BgService.java:56-60 | The segmenter starts idle, so the first above-threshold average is a rising edge |
| Segmenter.Segment | Tapper/src/com/stephendnicholas/tapper/BgService.java:269-301 | The edge table. Above the threshold the segmenter is in an event and there is no tap: an open event keeps its state, an idle segmenter records `now` as the start. At or below the threshold it is idle afterwards whatever the duration: an idle segmenter is unchanged and no tap results, a closing one reports a tap exactly when `now - start < 500` and keeps the recorded start |
| Segmenter.AboveThresholdRun | Tapper/src/com/stephendnicholas/tapper/BgService.java:269-283 | A run of above-threshold averages yields no tap and leaves an open event whose start is the first rising edge's time, not a later one |
| Segmenter.Excursion | Tapper/src/com/stephendnicholas/tapper/BgService.java:269-301 | A run of above-threshold averages followed by one drop yields at most one tap, at the drop. There is exactly one when the excursion lasted under 500 ms from its rising edge, and the segmenter is idle afterwards |
| PatternMatcher.Order | Tapper/src/com/stephendnicholas/tapper/BgService.java:321 | A compare-exchange leaves the two slots in order, holding the same two values, permutes the sequence and leaves every other slot alone |
| PatternMatcher.Sort3 | Tapper/src/com/stephendnicholas/tapper/BgService.java:319-321 | The sorted copy of the three tap times is ascending and a permutation of them |
| PatternMatcher.SortedUnique | Tapper/src/com/stephendnicholas/tapper/BgService.java:321 | Two ascending sequences with the same multiset of elements are equal, so the sorted copy is determined by the times alone |
| PatternMatcher.Sort3Permutation | Tapper/src/com/stephendnicholas/tapper/BgService.java:319-321 | Any two arrangements of the same three times sort to the same copy |
| PatternMatcher.Gaps | Tapper/src/com/stephendnicholas/tapper/BgService.java:328-331 | Both pauses taken from the sorted copy are non-negative, and together they bound every difference between two of the three times |
| PatternMatcher.GapsMatch | Tapper/src/com/stephendnicholas/tapper/BgService.java:342-348 | The window test: the first pause strictly inside (1000, 2000) and the second strictly inside (2000, 3000). The four bound values never match, and a matching first pause is always positive and shorter than the second |
| PatternMatcher.SortedDistinct | Tapper/src/com/stephendnicholas/tapper/BgService.java:319-331 | When the sorted copy strictly increases, the three times are pairwise different |
| PatternMatcher.PatternMatches | Tapper/src/com/stephendnicholas/tapper/BgService.java:319-348 | The pattern test: sort a copy of the three times, take its two successive pauses and apply the window test. A match needs three pairwise different times |
| PatternMatcher.PatternMatchesInOrder | Tapper/src/com/stephendnicholas/tapper/BgService.java:328-348 | For any ascending arrangement of the three times, the pattern test holds iff that arrangement's first pause is in (1000, 2000) and its second in (2000, 3000) |
| PatternMatcher.LastThreeInOrder | Tapper/src/com/stephendnicholas/tapper/BgService.java:328-348 | When the last three of a series of times are chronological, the test on them is that of their two successive pauses |
| PatternMatcher.PatternMatchesPermutation | Tapper/src/com/stephendnicholas/tapper/BgService.java:305-321 | The outcome of the test does not depend on which slots the times sit in |
| PatternMatcher.RingHoldsLastThree | Tapper/src/com/stephendnicholas/tapper/BgService.java:308 | A three-slot ring holding the last three values of a history holds exactly those three values, as a multiset |
| PatternMatcher.Initial | Tapper/src/com/stephendnicholas/tapper/BgService.java:75-81 | The matcher starts with no taps counted and index 0, so the ring invariant holds from the start |
| PatternMatcher.RecordTap | Tapper/src/com/stephendnicholas/tapper/BgService.java:303-369 | A tap adds one to the count, writes its time at the index and nowhere else, and keeps the index equal to the count modulo 3. It matches exactly when the count now exceeds two and the ring as just written passes the pattern test |
| PatternMatcher.WindowBoundaries | Tapper/src/com/stephendnicholas/tapper/BgService.java:342-348 | The first window's lower bound is strict: pauses of 1000 ms and 2500 ms do not match, while 1001 ms and 2500 ms do |
| PatternMatcher.FirstPauseUpperBound | Tapper/src/com/stephendnicholas/tapper/BgService.java:342-345 | The first window's upper bound is strict: pauses of 2000 ms and 2500 ms do not match, while 1999 ms and 2501 ms do |
| PatternMatcher.SecondPauseBounds | Tapper/src/com/stephendnicholas/tapper/BgService.java:347-348 | Both bounds of the second window are strict: after a 1500 ms first pause, a second pause of exactly 2000 ms or exactly 3000 ms does not match |
| PatternMatcher.FirstThreeTaps | Tapper/src/com/stephendnicholas/tapper/BgService.java:303-369 | From the initial state, taps at 0, 1500 and 4000 ms fill the ring in order; only the third matches (pauses 1500 and 2500 ms) |
| PatternMatcher.OverwriteOldest | Tapper/src/com/stephendnicholas/tapper/BgService.java:303-369 | A fourth tap at 5400 ms on the full ring [0, 1500, 4000] overwrites slot 0, and 1500, 4000, 5400 does not match |
| PatternMatcher.SlidingWindow | Tapper/src/com/stephendnicholas/tapper/BgService.java:303-369 | Taps at 0, 1500 and 4000 ms match on the third tap. A fourth at 5400 ms overwrites the oldest slot, giving the ring [5400, 1500, 4000], and does not match |
| Detector.Initial | Tapper/src/com/stephendnicholas/tapper/BgService.java:56-81 | The state before any sample is made of the three stages' initial states, and both ring invariants hold in it |
| Detector.Step | Tapper/src/com/stephendnicholas/tapper/BgService.java:227-387 | One callback. The reading count rises by one and both ring invariants are kept. Within the first five samples the segmenter and the tap state do not change and there is no tap. A tap adds exactly one to the tap count and leaves the segmenter idle. Without a tap the tap state is unchanged. A match implies a tap and more than two taps |
| Detector.Run | Tapper/src/com/stephendnicholas/tapper/BgService.java:56-81 | From the initial field values, every history reaches a state in which both write indices are their counters modulo the ring sizes |
| Detector.DeltasAreMagnitudes | Tapper/src/com/stephendnicholas/tapper/BgService.java:234-248 | The magnitudes written to the smoothing ring are those of every sample but the first, in arrival order |
| Detector.RunCounters | Tapper/src/com/stephendnicholas/tapper/BgService.java:231 | `readingCount` equals the number of samples ever seen and `eventCount` the number of taps ever produced |
| Detector.WarmUp | Tapper/src/com/stephendnicholas/tapper/BgService.java:252 | During the first five samples no tap occurs and no match is reported, and the segmenter and tap state keep their initial values |
| Detector.StepMatched | Tapper/src/com/stephendnicholas/tapper/BgService.java:303-348 | A step reports a match iff it completes a tap, the tap count then exceeds two, and the tap ring passes the pattern test |
| Detector.ReadingRing | Tapper/src/com/stephendnicholas/tapper/BgService.java:248 | After any history, the smoothing ring holds the last five delta magnitudes in arrival order, oldest at the write index |
| Detector.AverageOfLastFive | Tapper/src/com/stephendnicholas/tapper/BgService.java:252-263 | Once more than five samples have arrived, the average the segmenter sees is the mean of the last five delta magnitudes |
| Detector.LevelAfter | Tapper/src/com/stephendnicholas/tapper/BgService.java:250-283 | Once more than five samples have arrived, the detector is in an event exactly when the latest average (the mean of the last five delta magnitudes) is above 0.05 |
| Detector.SustainedLevels | Tapper/src/com/stephendnicholas/tapper/BgService.java:257-290 | If the last five magnitudes are all above the threshold, the detector is in an event afterwards; if they are all at or below it, it is not |
| Detector.TapRing | Tapper/src/com/stephendnicholas/tapper/BgService.java:303-308 | After any history, the tap ring holds the completion times of the last three taps in completion order, oldest at the write index |
| Detector.LastThreeTaps | Tapper/src/com/stephendnicholas/tapper/BgService.java:315-321 | Once three taps exist, the tap ring holds exactly the last three completion times, as a multiset |
| Detector.MatchedIffLastThreeTaps | Tapper/src/com/stephendnicholas/tapper/BgService.java:315-348 | A sample reports a match iff it completed a tap, at least three taps exist, and the last three pass the pattern test |
| Detector.TapsChronological | Tapper/src/com/stephendnicholas/tapper/BgService.java:308 | With a clock that never goes backwards, tap completion times are ascending and none is later than the latest sample |
| Detector.MatchedChronological | Tapper/src/com/stephendnicholas/tapper/BgService.java:328-348 | With a clock that never goes backwards, a sample reports a match iff it completed a tap, at least three exist, the third-last to second-last pause is in (1000, 2000) ms and the second-last to last pause is in (2000, 3000) ms |
| Detector.RisingEdgeStep | Tapper/src/com/stephendnicholas/tapper/BgService.java:250-283 | One step from a quiet ring with twenty samples seen: a delta of 0.3 lifts the average to 0.06, above 0.05, so an event opens at this sample's time, with no tap and no match |
| Detector.MatchingTapStep | Tapper/src/com/stephendnicholas/tapper/BgService.java:286-348 | One step closing an event opened at 3700 ms at 4050 ms: 350 ms is a tap, and with earlier taps at 110 and 1650 ms the pauses 1540 and 2400 ms match; the tap ring becomes [110, 1650, 4050] |
| Detector.LateTapStep | Tapper/src/com/stephendnicholas/tapper/BgService.java:286-369 | One step closing an event at 4650 ms after taps at 110, 1650 and 4050 ms: the tap overwrites the oldest slot, and the ring [4650, 1650, 4050] (pauses 2400 and 600 ms) does not match |
| Detector.LongExcursionStep | Tapper/src/com/stephendnicholas/tapper/BgService.java:286-301 | One step closing an event opened at 3000 ms at 3600 ms: 600 ms is no tap, so the segmenter goes idle and the tap state is untouched |
| Service.SortAscending | Tapper/src/com/stephendnicholas/tapper/BgService.java:321 | Sorting the three-slot clone in place leaves the ascending permutation `Sort3` gives |
| Service.BgService.constructor | Tapper/src/com/stephendnicholas/tapper/BgService.java:56-81 | The initial field values are the pipeline's state after no samples |
| Service.BgService.SmoothedAverage | Tapper/src/com/stephendnicholas/tapper/BgService.java:257-263 | The loop's sum of the five slots, divided by five, is their mean |
| Service.BgService.SegmentLevel | Tapper/src/com/stephendnicholas/tapper/BgService.java:269-301 | The segmenting block moves `inEvent` and `eventStart` as `Segment` does, reports its tap, and touches no other field |
| Service.BgService.MatchesPattern | Tapper/src/com/stephendnicholas/tapper/BgService.java:315-348 | Sorting a clone and testing its two pauses gives the pattern test on the live ring, and the live ring is not modified |
| Service.BgService.RecordTap | Tapper/src/com/stephendnicholas/tapper/BgService.java:303-369 | The tap block moves the count, the tap ring and its index as `RecordTap` does, and leaves the other fields alone |
| Service.BgService.ProcessLevel | Tapper/src/com/stephendnicholas/tapper/BgService.java:269-372 | Segmenting and, on a tap, recording it. Without a tap the tap state is untouched and nothing matches |
| Service.BgService.AdvanceReadingIndex | Tapper/src/com/stephendnicholas/tapper/BgService.java:377-382 | The reading index moves to its successor modulo 5, and nothing else changes |
| Service.BgService.Update | Tapper/src/com/stephendnicholas/tapper/BgService.java:231-385 | The callback's body leaves the fields in the state `Detector.Step` computes from the old one, and returns its match report |
| Service.BgService.OnSensorChanged | Tapper/src/com/stephendnicholas/tapper/BgService.java:227-387 | After every callback the fields hold the pipeline's state on the samples seen so far, and the result is whether the pattern matched at this sample |

## Left out

- The magnitude computation is not modelled: the `ALPHA` scaling, the per-axis differences and `Math.sqrt` (BgService.java:238-244). Each callback receives the delta magnitude as a `real`. `lastReading` is reduced to whether a previous reading exists. The magnitude passed with the first sample is ignored, as the source ignores the first sample.
- Floating-point arithmetic is not modelled. Magnitudes, sums and averages are exact reals, so rounding in the five-term sum and the division is not captured.
- Comparisons between `long` durations and `double` constants are modelled as exact integer comparisons. They are exact for any duration below 2^53 ms.
- Java `int`/`long` overflow is not modelled. `readingCount` and `eventCount` are unbounded naturals, and clock differences are unbounded integers. In the source `readingCount` wraps to the most negative `int` on callback number 2^31; it then counts up through the negative values, no average is formed while it is at most 5, and averaging resumes once it exceeds 5 again. The model does not capture this.
- The clock is not modelled. Each callback receives one clock reading `now`. The source calls `System.currentTimeMillis()` separately for the excursion start (line 278), the duration (line 293) and the completion time (line 308), so within one callback the duration and the stored completion time may differ by a millisecond or so. The model uses the same `now` for both.
- Service.SortAscending: `Arrays.sort` is a library call. It is modelled by three compare-exchanges with the same result (the ascending permutation), not by the library's algorithm.
- Service.BgService.OnSensorChanged: the source's single nested block is split into the helper methods `SmoothedAverage`, `SegmentLevel`, `RecordTap`, `MatchesPattern`, `ProcessLevel`, `AdvanceReadingIndex` and `Update`. Their statements and their order are the source's.
- Logging (`Log.*`) and the toast showing the two pauses (lines 333-340) are left out. Neither affects detection.
- Launching `FakeCallActivity` (lines 355-358) is modelled only as the `matched` result.
- `synchronized (this)` (line 230) only serialises callbacks, and the model is sequential.
- NaN magnitudes are not representable with reals. In the source a NaN average fails the `> THRESHOLD` test, so it closes an open event and may count a tap; the model cannot express that input.
- Clocks that go backwards are inside the model: `Detector.Step` accepts any `now`, and a negative excursion duration counts as a tap, as in the source. Only the lemmas that need chronological taps (`Detector.TapsChronological`, `Detector.MatchedChronological`, `Detector.LastTapsOrdered`) assume a non-decreasing clock (`Detector.NonDecreasing`).
- The Android service lifecycle is not part of this model: `onCreate`, `onStartCommand`, `onDestroy`, `onBind`, the `STARTED` flag, the wake lock, the notification and the screen-off receiver.
- MainActivity.java and FakeCallActivity.java are not part of this model; they are user-interface glue.
