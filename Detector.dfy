/**
 * The whole per-sample pipeline of the tap detector as a function of its
 * state: smoother, then segmenter, then pattern matcher. `Run` replays a
 * history of samples from the initial state; the lemmas below say what the
 * state and the outputs are after any history.
 */
module Detector {
  import opened Ring
  import opened Wrappers
  import Smoothing
  import Segmenter
  import PatternMatcher

  /**
   * One accelerometer callback: the scaled delta magnitude between this
   * sample and the previous one (ignored for the very first sample), and the
   * clock reading in milliseconds.
   */
  datatype Sample = Sample(mag: real, now: int)

  /** All the detector's state, grouped by stage. */
  datatype State = State(
    smoother: Smoothing.Smoother,
    segmenter: Segmenter.Segmenter,
    matcher: PatternMatcher.Matcher)
  {
    predicate Valid()
    {
      smoother.Valid() && matcher.Valid()
    }
  }

  /** The state before any sample: each stage in its initial state. */
  function Initial(): (s: State)
    ensures s.Valid()
  {
    State(Smoothing.Initial(), Segmenter.Initial(), PatternMatcher.Initial())
  }

  /** The state after a sample, whether a tap completed, and whether the pattern matched. */
  datatype Outcome = Outcome(next: State, tapped: bool, matched: bool)

  /**
   * Processes one sample. The segmenter runs only when the smoother produced
   * an average (more than five samples seen), and the matcher only when the
   * segmenter reported a tap.
   */
  function Step(s: State, x: Sample): (r: Outcome)
    requires s.Valid()
    ensures r.next.Valid()
    ensures r.next.smoother.readingCount == s.smoother.readingCount + 1
    // While at most five samples have arrived nothing past the smoother moves.
    ensures r.next.smoother.readingCount <= Smoothing.Window ==>
              r.next.segmenter == s.segmenter && r.next.matcher == s.matcher && !r.tapped
    // A tap is counted exactly when one completes; nothing else touches the matcher.
    ensures r.tapped ==> r.next.matcher.eventCount == s.matcher.eventCount + 1 && !r.next.segmenter.inEvent
    ensures !r.tapped ==> r.next.matcher == s.matcher
    ensures r.matched ==> r.tapped && r.next.matcher.eventCount > 2
  {
    var sm := Smoothing.Smooth(s.smoother, x.mag);
    match sm.average
    case None =>
      Outcome(s.(smoother := sm.next), false, false)
    case Some(average) =>
      var seg := Segmenter.Segment(s.segmenter, average, x.now);
      if !seg.tap then
        Outcome(State(sm.next, seg.next, s.matcher), false, false)
      else
        var rec := PatternMatcher.RecordTap(s.matcher, x.now);
        Outcome(State(sm.next, seg.next, rec.next), true, rec.matched)
  }

  /** The state after processing a history of samples in order. */
  function Run(samples: seq<Sample>): (s: State)
    ensures s.Valid()
  {
    if samples == [] then Initial()
    else Step(Run(samples[..|samples| - 1]), samples[|samples| - 1]).next
  }

  /** The outcome of the last sample of a non-empty history. */
  function LastStep(samples: seq<Sample>): Outcome
    requires samples != []
  {
    Step(Run(samples[..|samples| - 1]), samples[|samples| - 1])
  }

  /** Completion times of the taps a history produced, oldest first. */
  function Taps(samples: seq<Sample>): seq<int>
  {
    if samples == [] then []
    else
      Taps(samples[..|samples| - 1]) +
      (if LastStep(samples).tapped then [samples[|samples| - 1].now] else [])
  }

  /** Whether the last sample of the history completed the pattern. */
  predicate Matched(samples: seq<Sample>)
  {
    samples != [] && LastStep(samples).matched
  }

  /** Appending a sample to a history takes one more step from the state it reached. */
  lemma RunAppend(samples: seq<Sample>, x: Sample)
    ensures Run(samples + [x]) == Step(Run(samples), x).next
    ensures Matched(samples + [x]) == Step(Run(samples), x).matched
  {
    assert (samples + [x])[..|samples|] == samples;
  }

  /**
   * The delta magnitudes a history wrote into the smoothing ring, oldest
   * first: those of every sample but the first, which has no predecessor.
   */
  function Deltas(samples: seq<Sample>): (d: seq<real>)
    ensures |d| == if samples == [] then 0 else |samples| - 1
  {
    if |samples| <= 1 then []
    else Deltas(samples[..|samples| - 1]) + [samples[|samples| - 1].mag]
  }

  /** Sample times never go backwards: each is at least its predecessor's. */
  predicate NonDecreasing(samples: seq<Sample>)
  {
    |samples| <= 1 ||
    (NonDecreasing(samples[..|samples| - 1]) &&
     samples[|samples| - 2].now <= samples[|samples| - 1].now)
  }

  /** Delta i is the magnitude that arrived with sample i + 1. */
  lemma {:induction false} DeltasAreMagnitudes(samples: seq<Sample>)
    ensures forall i :: 0 <= i < |Deltas(samples)| ==> Deltas(samples)[i] == samples[i + 1].mag
  {
    if |samples| > 1 {
      var init := samples[..|samples| - 1];
      DeltasAreMagnitudes(init);
      assert forall i :: 0 <= i < |init| ==> init[i] == samples[i];
    }
  }

  /**
   * `readingCount` is the number of samples ever seen, and `eventCount` the
   * number of taps ever produced; neither is reset.
   */
  lemma {:induction false} RunCounters(samples: seq<Sample>)
    ensures Run(samples).smoother.readingCount == |samples|
    ensures Run(samples).matcher.eventCount == |Taps(samples)|
  {
    if samples != [] {
      RunCounters(samples[..|samples| - 1]);
    }
  }

  /**
   * Warm-up: during the first five samples no average is formed, so the
   * segmenter stays idle, no tap is produced and the matcher is untouched.
   */
  lemma {:induction false} WarmUp(samples: seq<Sample>)
    requires |samples| <= Smoothing.Window
    ensures Taps(samples) == []
    ensures Run(samples).segmenter == Segmenter.Initial()
    ensures Run(samples).matcher == PatternMatcher.Initial()
    ensures !Matched(samples)
  {
    if samples != [] {
      var init := samples[..|samples| - 1];
      WarmUp(init);
      RunCounters(init);
    }
  }

  /** The smoother's part of a step does not depend on the later stages. */
  lemma StepSmoother(s: State, x: Sample)
    requires s.Valid()
    ensures Step(s, x).next.smoother == Smoothing.Smooth(s.smoother, x.mag).next
  {
  }

  /** When a step completes a tap, the matcher's part is the recording of that tap. */
  lemma StepMatcher(s: State, x: Sample)
    requires s.Valid()
    ensures Step(s, x).tapped ==>
              Step(s, x).next.matcher == PatternMatcher.RecordTap(s.matcher, x.now).next &&
              Step(s, x).matched == PatternMatcher.RecordTap(s.matcher, x.now).matched
  {
  }

  /**
   * A step reports a match exactly when it completes a tap that brings the
   * count past two and the tap ring then passes the pattern test.
   */
  lemma StepMatched(s: State, x: Sample)
    requires s.Valid()
    ensures var r := Step(s, x);
            r.matched <==>
              r.tapped && r.next.matcher.eventCount > 2 && PatternMatcher.PatternMatches(r.next.matcher.tapTimes)
  {
    StepMatcher(s, x);
  }

  /**
   * The smoothing ring holds the last five delta magnitudes, in the order
   * they arrived, oldest at the write index.
   */
  lemma {:induction false} ReadingRing(samples: seq<Sample>)
    ensures var sm := Run(samples).smoother;
            HoldsLast(sm.readings, sm.readingIndex, Deltas(samples))
  {
    if samples != [] {
      var n := |samples|;
      var init := samples[..n - 1];
      var before := Run(init).smoother;
      ReadingRing(init);
      StepSmoother(Run(init), samples[n - 1]);
      if n == 1 {
        HoldsLastSkip(before.readings, before.readingIndex);
      } else {
        HoldsLastPush(before.readings, before.readingIndex, Deltas(init), samples[n - 1].mag);
      }
    }
  }

  /**
   * Once more than five samples have arrived, the average the segmenter sees
   * is the mean of the last five delta magnitudes.
   */
  lemma AverageOfLastFive(samples: seq<Sample>)
    requires |samples| > Smoothing.Window
    ensures Smoothing.Smooth(Run(samples[..|samples| - 1]).smoother, samples[|samples| - 1].mag).average ==
              Some(Smoothing.Mean(Deltas(samples)[|Deltas(samples)| - Smoothing.Window..]))
  {
    var n := |samples|;
    var init := samples[..n - 1];
    var sm := Smoothing.Smooth(Run(init).smoother, samples[n - 1].mag);
    StepSmoother(Run(init), samples[n - 1]);
    RunCounters(init);
    ReadingRing(samples);
    Smoothing.RingSum(sm.next.readings, sm.next.readingIndex, Deltas(samples));
  }

  /**
   * Once more than five samples have arrived, the detector is in an event
   * exactly when the latest average, the mean of the last five delta
   * magnitudes, is above the threshold.
   */
  lemma LevelAfter(samples: seq<Sample>)
    requires |samples| > Smoothing.Window
    ensures Run(samples).segmenter.inEvent <==>
              Smoothing.Mean(Deltas(samples)[|Deltas(samples)| - Smoothing.Window..]) > Segmenter.Threshold
  {
    AverageOfLastFive(samples);
  }

  /**
   * Sustained motion opens an event and sustained stillness closes it: if the
   * last five delta magnitudes are all above the threshold the detector is in
   * an event afterwards, and if they are all at or below it, it is not.
   */
  lemma SustainedLevels(samples: seq<Sample>)
    requires |samples| > Smoothing.Window
    ensures var deltas := Deltas(samples);
            (forall i :: |deltas| - Smoothing.Window <= i < |deltas| ==> deltas[i] > Segmenter.Threshold) ==>
              Run(samples).segmenter.inEvent
    ensures var deltas := Deltas(samples);
            (forall i :: |deltas| - Smoothing.Window <= i < |deltas| ==> deltas[i] <= Segmenter.Threshold) ==>
              !Run(samples).segmenter.inEvent
  {
    var deltas := Deltas(samples);
    LevelAfter(samples);
    Smoothing.MeanBounds(deltas[|deltas| - Smoothing.Window..], Segmenter.Threshold);
  }

  /**
   * The tap ring holds the completion times of the last three taps, in the
   * order they completed, oldest at the write index.
   */
  lemma {:induction false} TapRing(samples: seq<Sample>)
    ensures var m := Run(samples).matcher;
            HoldsLast(m.tapTimes, m.tapIndex, Taps(samples))
  {
    if samples != [] {
      var n := |samples|;
      var init := samples[..n - 1];
      var before := Run(init).matcher;
      TapRing(init);
      StepMatcher(Run(init), samples[n - 1]);
      if LastStep(samples).tapped {
        HoldsLastPush(before.tapTimes, before.tapIndex, Taps(init), samples[n - 1].now);
      }
    }
  }

  /** Once three taps exist, the tap ring holds exactly the last three completion times. */
  lemma LastThreeTaps(samples: seq<Sample>)
    requires |Taps(samples)| >= PatternMatcher.TapSlots
    ensures multiset(Run(samples).matcher.tapTimes) == multiset(Taps(samples)[|Taps(samples)| - 3..])
  {
    var m := Run(samples).matcher;
    TapRing(samples);
    PatternMatcher.RingHoldsLastThree(m.tapTimes, m.tapIndex, Taps(samples));
  }

  /**
   * The pattern matches at a sample exactly when that sample completed a
   * tap, at least three taps exist, and the last three taps (in whatever
   * order their times sort to) have both pauses inside their windows.
   */
  lemma MatchedIffLastThreeTaps(samples: seq<Sample>)
    requires samples != []
    ensures Matched(samples) <==>
              LastStep(samples).tapped && |Taps(samples)| >= PatternMatcher.TapSlots &&
              PatternMatcher.PatternMatches(Taps(samples)[|Taps(samples)| - 3..])
  {
    var n := |samples|;
    var r := LastStep(samples);
    StepMatched(Run(samples[..n - 1]), samples[n - 1]);
    assert Run(samples) == r.next;
    RunCounters(samples);
    if r.tapped && |Taps(samples)| >= PatternMatcher.TapSlots {
      LastThreeTaps(samples);
      PatternMatcher.PatternMatchesPermutation(r.next.matcher.tapTimes, Taps(samples)[|Taps(samples)| - 3..]);
    }
  }

  /**
   * With a clock that never goes backwards, the taps come out in
   * chronological order and none is later than the last sample.
   */
  lemma {:induction false} TapsChronological(samples: seq<Sample>)
    requires NonDecreasing(samples)
    ensures PatternMatcher.Ascending(Taps(samples))
    ensures forall k :: 0 <= k < |Taps(samples)| ==> Taps(samples)[k] <= samples[|samples| - 1].now
  {
    if samples != [] {
      var init := samples[..|samples| - 1];
      TapsChronological(init);
      if init != [] {
        assert init[|init| - 1] == samples[|samples| - 2];
      }
    }
  }

  /**
   * With a clock that never goes backwards, the pattern matches exactly
   * when a tap completes, at least three exist, and the pause from the
   * third-last to the second-last tap is in (1000, 2000) ms and the pause
   * from the second-last to the last tap is in (2000, 3000) ms.
   */
  lemma MatchedChronological(samples: seq<Sample>)
    requires samples != [] && NonDecreasing(samples)
    ensures Matched(samples) <==> LastStep(samples).tapped && PatternMatcher.LastPausesMatch(Taps(samples))
  {
    MatchedIffLastThreeTaps(samples);
    if |Taps(samples)| >= PatternMatcher.TapSlots {
      LastTapsOrdered(samples);
      PatternMatcher.LastThreeInOrder(Taps(samples));
    }
  }

  /** With a clock that never goes backwards, the last three taps are in chronological order. */
  lemma LastTapsOrdered(samples: seq<Sample>)
    requires NonDecreasing(samples) && |Taps(samples)| >= PatternMatcher.TapSlots
    ensures PatternMatcher.LastThreeOrdered(Taps(samples))
  {
    TapsChronological(samples);
  }

  /**
   * A rising edge: with twenty samples seen and a quiet ring, a delta of 0.3
   * lifts the average to 0.06, above the threshold, so an event opens at
   * this sample's time and no tap completes.
   */
  lemma RisingEdgeStep()
    ensures var s := State(Smoothing.Smoother(true, 20, [0.0, 0.0, 0.0, 0.0, 0.0], 0),
                           Segmenter.Segmenter(false, 3000),
                           PatternMatcher.Matcher(2, [110, 1650, 0], 2));
            s.Valid() &&
            var r := Step(s, Sample(0.3, 3700));
            r.next.segmenter == Segmenter.Segmenter(true, 3700) && !r.tapped && !r.matched
  {
    var quiet := [0.0, 0.0, 0.0, 0.0, 0.0];
    assert quiet[0 := 0.3] == [0.3, 0.0, 0.0, 0.0, 0.0];
    Smoothing.MeanOfFive([0.3, 0.0, 0.0, 0.0, 0.0]);
  }

  /**
   * A short excursion completing the pattern: the event opened at 3700 ms
   * closes at 4050 ms (350 ms, a tap), and with earlier taps at 110 ms and
   * 1650 ms the pauses are 1540 ms and 2400 ms, so the pattern matches.
   */
  lemma MatchingTapStep()
    ensures var s := State(Smoothing.Smoother(true, 22, [0.0, 0.0, 0.0, 0.0, 0.0], 2),
                           Segmenter.Segmenter(true, 3700),
                           PatternMatcher.Matcher(2, [110, 1650, 0], 2));
            s.Valid() &&
            var r := Step(s, Sample(0.0, 4050));
            r.tapped && r.matched && r.next.matcher.tapTimes == [110, 1650, 4050]
  {
    var quiet := [0.0, 0.0, 0.0, 0.0, 0.0];
    assert quiet[2 := 0.0] == quiet;
    Smoothing.MeanOfFive(quiet);
    PatternMatcher.PatternMatchesInOrder([110, 1650, 4050], [110, 1650, 4050]);
  }

  /**
   * A fourth tap, at 4650 ms, overwrites the oldest slot: the ring then holds
   * 1650, 4050 and 4650, whose pauses (2400 ms, 600 ms) do not match.
   */
  lemma LateTapStep()
    ensures var s := State(Smoothing.Smoother(true, 27, [0.0, 0.0, 0.0, 0.0, 0.0], 2),
                           Segmenter.Segmenter(true, 4400),
                           PatternMatcher.Matcher(3, [110, 1650, 4050], 0));
            s.Valid() &&
            var r := Step(s, Sample(0.0, 4650));
            r.tapped && !r.matched && r.next.matcher.tapTimes == [4650, 1650, 4050]
  {
    var quiet := [0.0, 0.0, 0.0, 0.0, 0.0];
    assert quiet[2 := 0.0] == quiet;
    Smoothing.MeanOfFive(quiet);
    assert [110, 1650, 4050][0 := 4650] == [4650, 1650, 4050];
    assert PatternMatcher.Sort3([4650, 1650, 4050]) == [1650, 4050, 4650];
  }

  /**
   * A long excursion is no tap: the event opened at 3000 ms closes at
   * 3600 ms, 600 ms later, so the segmenter goes idle and the matcher is
   * untouched.
   */
  lemma LongExcursionStep()
    ensures var s := State(Smoothing.Smoother(true, 22, [0.0, 0.0, 0.0, 0.0, 0.0], 2),
                           Segmenter.Segmenter(true, 3000),
                           PatternMatcher.Matcher(2, [110, 1650, 0], 2));
            s.Valid() &&
            var r := Step(s, Sample(0.0, 3600));
            !r.next.segmenter.inEvent && !r.tapped && r.next.matcher == s.matcher
  {
    var quiet := [0.0, 0.0, 0.0, 0.0, 0.0];
    assert quiet[2 := 0.0] == quiet;
    Smoothing.MeanOfFive(quiet);
  }
}
