/**
 * The background service's sensor callback as the object it is: the detector
 * state lives in fields and two fixed-size arrays that each callback updates
 * in place. Every callback is proved to leave the object in exactly the state
 * the functional pipeline (`Detector.Step`) computes, and to report a match
 * exactly when `Detector.Matched` holds of the samples seen so far.
 */
module Service {
  import Ring
  import Wrappers
  import Smoothing
  import Segmenter
  import PatternMatcher
  import Detector

  /**
   * Sorts a three-slot array in place by three compare-exchanges; the result
   * is the ascending arrangement `PatternMatcher.Sort3` gives.
   */
  method SortAscending(c: array<int>)
    requires c.Length == PatternMatcher.TapSlots
    modifies c
    ensures c[..] == PatternMatcher.Sort3(old(c[..]))
  {
    if c[1] < c[0] {
      c[0], c[1] := c[1], c[0];
    }
    if c[2] < c[1] {
      c[1], c[2] := c[2], c[1];
    }
    if c[1] < c[0] {
      c[0], c[1] := c[1], c[0];
    }
  }

  class BgService {
    /** Whether the smoothed level is currently above the threshold. */
    var inEvent: bool
    /** Clock reading at the start of the current excursion (-1 before the first). */
    var eventStart: int
    /** Whether a previous reading exists (`lastReading != null`). */
    var hasLastReading: bool
    /** Callbacks received so far. */
    var readingCount: nat
    /** Ring of the last five delta magnitudes. */
    const lastFiveReadings: array<real>
    /** Write index of the magnitude ring. */
    var currentReadingIndex: nat
    /** Taps completed so far. */
    var eventCount: nat
    /** Ring of the completion times of the last three taps. */
    const previousEventsCompleteTimes: array<int>
    /** Write index of the tap ring. */
    var currentLastEventIndex: nat
    /** The samples received so far, oldest first. */
    ghost var samples: seq<Detector.Sample>

    /** The smoothing fields, read as the smoother's state. */
    function SmootherState(): Smoothing.Smoother
      reads this, lastFiveReadings
    {
      Smoothing.Smoother(hasLastReading, readingCount, lastFiveReadings[..], currentReadingIndex)
    }

    /** The segmenting fields, read as the segmenter's state. */
    function SegmenterState(): Segmenter.Segmenter
      reads this
    {
      Segmenter.Segmenter(inEvent, eventStart)
    }

    /** The tap fields, read as the matcher's state. */
    function MatcherState(): PatternMatcher.Matcher
      reads this, previousEventsCompleteTimes
    {
      PatternMatcher.Matcher(eventCount, previousEventsCompleteTimes[..], currentLastEventIndex)
    }

    /** The fields, read as the functional detector state. */
    function State(): Detector.State
      reads this, lastFiveReadings, previousEventsCompleteTimes
    {
      Detector.State(SmootherState(), SegmenterState(), MatcherState())
    }

    /** The fields hold exactly the state the pipeline reaches on `samples`. */
    ghost predicate Valid()
      reads this, lastFiveReadings, previousEventsCompleteTimes
    {
      lastFiveReadings.Length == Smoothing.Window &&
      previousEventsCompleteTimes.Length == PatternMatcher.TapSlots &&
      State() == Detector.Run(samples)
    }

    constructor()
      ensures Valid() && samples == []
    {
      inEvent := false;
      eventStart := -1;
      hasLastReading := false;
      readingCount := 0;
      lastFiveReadings := new real[5](_ => 0.0);
      currentReadingIndex := 0;
      eventCount := 0;
      previousEventsCompleteTimes := new int[3](_ => 0);
      currentLastEventIndex := 0;
      samples := [];
    }

    /** The five-point average: the ring's readings summed in slot order, over five. */
    method SmoothedAverage() returns (average: real)
      requires lastFiveReadings.Length == Smoothing.Window
      ensures average == Smoothing.Mean(lastFiveReadings[..])
    {
      average := 0.0;
      for i := 0 to 5
        invariant average == Smoothing.Sum(lastFiveReadings[..i])
      {
        assert lastFiveReadings[..i + 1][..i] == lastFiveReadings[..i];
        average := average + lastFiveReadings[i];
      }
      assert lastFiveReadings[..5] == lastFiveReadings[..];
      average := average / 5.0;
    }

    /**
     * The segmenting block for one smoothed level: opens an excursion on a
     * rising edge, closes it on a falling edge, and reports a tap when the
     * excursion was short enough.
     */
    method SegmentLevel(average: real, now: int) returns (tap: bool)
      modifies this
      ensures SegmenterState() == Segmenter.Segment(old(SegmenterState()), average, now).next
      ensures tap == Segmenter.Segment(old(SegmenterState()), average, now).tap
      ensures hasLastReading == old(hasLastReading) && readingCount == old(readingCount)
      ensures currentReadingIndex == old(currentReadingIndex) && samples == old(samples)
      ensures MatcherState() == old(MatcherState())
    {
      tap := false;
      if average > Segmenter.Threshold {
        if !inEvent {
          eventStart := now;
          inEvent := true;
        }
      } else if inEvent {
        inEvent := false;
        var eventDuration := now - eventStart;
        tap := eventDuration < Segmenter.MaxTapDuration;
      }
    }

    /**
     * The pattern check on the tap ring: a sorted copy of the ring gives the
     * two pauses, and each must lie strictly inside its window.
     */
    method MatchesPattern() returns (matched: bool)
      requires previousEventsCompleteTimes.Length == PatternMatcher.TapSlots
      ensures matched == PatternMatcher.PatternMatches(previousEventsCompleteTimes[..])
    {
      var cloned := new int[3];
      cloned[0], cloned[1], cloned[2] :=
        previousEventsCompleteTimes[0], previousEventsCompleteTimes[1], previousEventsCompleteTimes[2];
      assert cloned[..] == previousEventsCompleteTimes[..];
      SortAscending(cloned);
      var event2Duration := cloned[2] - cloned[1];
      var event1Duration := cloned[1] - cloned[0];
      matched := false;
      if event1Duration > PatternMatcher.Pause1Min && event1Duration < PatternMatcher.Pause1Max {
        if event2Duration > PatternMatcher.Pause2Min && event2Duration < PatternMatcher.Pause2Max {
          matched := true;
        }
      }
    }

    /**
     * The block run for a tap completed at `now`: counts it, stores its time
     * in the tap ring, checks the pattern once more than two taps exist, then
     * advances the ring index.
     */
    method RecordTap(now: int) returns (matched: bool)
      requires previousEventsCompleteTimes.Length == PatternMatcher.TapSlots
      requires MatcherState().Valid()
      modifies this, previousEventsCompleteTimes
      ensures MatcherState() == PatternMatcher.RecordTap(old(MatcherState()), now).next
      ensures matched == PatternMatcher.RecordTap(old(MatcherState()), now).matched
      ensures hasLastReading == old(hasLastReading) && readingCount == old(readingCount)
      ensures currentReadingIndex == old(currentReadingIndex) && samples == old(samples)
      ensures SegmenterState() == old(SegmenterState())
    {
      matched := false;
      eventCount := eventCount + 1;
      previousEventsCompleteTimes[currentLastEventIndex] := now;
      if eventCount > 2 {
        matched := MatchesPattern();
      }
      currentLastEventIndex := currentLastEventIndex + 1;
      if currentLastEventIndex > 2 {
        currentLastEventIndex := 0;
      }
    }

    /**
     * Everything done with a smoothed level: the segmenting block and, when
     * it reports a tap, the tap block.
     */
    method ProcessLevel(average: real, now: int) returns (matched: bool)
      requires previousEventsCompleteTimes.Length == PatternMatcher.TapSlots
      requires MatcherState().Valid()
      modifies this, previousEventsCompleteTimes
      ensures SegmenterState() == Segmenter.Segment(old(SegmenterState()), average, now).next
      ensures Segmenter.Segment(old(SegmenterState()), average, now).tap ==>
                MatcherState() == PatternMatcher.RecordTap(old(MatcherState()), now).next &&
                matched == PatternMatcher.RecordTap(old(MatcherState()), now).matched
      ensures !Segmenter.Segment(old(SegmenterState()), average, now).tap ==>
                MatcherState() == old(MatcherState()) && !matched
      ensures hasLastReading == old(hasLastReading) && readingCount == old(readingCount)
      ensures currentReadingIndex == old(currentReadingIndex) && samples == old(samples)
    {
      matched := false;
      var tap := SegmentLevel(average, now);
      if tap {
        matched := RecordTap(now);
      }
    }

    /** Moves the magnitude ring's write index one slot on, wrapping after slot four. */
    method AdvanceReadingIndex()
      requires currentReadingIndex < Smoothing.Window
      modifies this
      ensures currentReadingIndex == Ring.Advance(old(currentReadingIndex), Smoothing.Window)
      ensures hasLastReading == old(hasLastReading) && readingCount == old(readingCount)
      ensures SegmenterState() == old(SegmenterState()) && samples == old(samples)
      ensures eventCount == old(eventCount) && currentLastEventIndex == old(currentLastEventIndex)
    {
      currentReadingIndex := currentReadingIndex + 1;
      if currentReadingIndex > 4 {
        currentReadingIndex := 0;
      }
    }

    /**
     * The body of the callback on the detector fields: the new fields are
     * those `Detector.Step` computes, and the result is its match report.
     */
    method Update(mag: real, now: int) returns (matched: bool)
      requires lastFiveReadings.Length == Smoothing.Window
      requires previousEventsCompleteTimes.Length == PatternMatcher.TapSlots
      requires State().Valid()
      modifies this, lastFiveReadings, previousEventsCompleteTimes
      ensures State() == Detector.Step(old(State()), Detector.Sample(mag, now)).next
      ensures matched == Detector.Step(old(State()), Detector.Sample(mag, now)).matched
      ensures samples == old(samples)
    {
      ghost var sm := Smoothing.Smooth(SmootherState(), mag);
      matched := false;
      readingCount := readingCount + 1;
      if hasLastReading {
        lastFiveReadings[currentReadingIndex] := mag;
        if readingCount > 5 {
          var average := SmoothedAverage();
          assert sm.average == Wrappers.Some(average);
          matched := ProcessLevel(average, now);
        }
      }
      AdvanceReadingIndex();
      hasLastReading := true;
      assert SmootherState() == sm.next;
    }

    /**
     * One accelerometer callback, given the delta magnitude against the
     * previous reading and the clock reading: the fields move on by one step
     * of the pipeline, and the result is whether the pattern matched.
     */
    method OnSensorChanged(mag: real, now: int) returns (matched: bool)
      requires Valid()
      modifies this, lastFiveReadings, previousEventsCompleteTimes
      ensures Valid()
      ensures samples == old(samples) + [Detector.Sample(mag, now)]
      ensures matched == Detector.Matched(samples)
    {
      ghost var x := Detector.Sample(mag, now);
      matched := Update(mag, now);
      Detector.RunAppend(samples, x);
      samples := samples + [x];
    }
  }
}
