/**
 * The segmentation stage: an Idle / InEvent state machine over the smoothed
 * average. A rising crossing of the threshold opens an excursion and records
 * its start; a falling crossing closes it and reports a tap only if the
 * excursion was shorter than the maximum tap duration.
 */
module Segmenter {

  /** Threshold on the smoothed average (`THRESHOLD`). */
  const Threshold: real := 0.05

  /** Excursions shorter than this many milliseconds are taps (`EVENT_DURATION_THRESHOLD`). */
  const MaxTapDuration: int := 500

  /** `inEvent` and `eventStart`; the start is meaningful only while in an event. */
  datatype Segmenter = Segmenter(inEvent: bool, eventStart: int)

  /** Idle, with the start time the service initialises to -1. */
  function Initial(): (g: Segmenter)
    ensures !g.inEvent
  {
    Segmenter(false, -1)
  }

  /** The new segmenter state and whether a tap completed at this sample. */
  datatype Segmented = Segmented(next: Segmenter, tap: bool)

  /** Feeds one smoothed average, observed at time `now`, to the segmenter. */
  function Segment(g: Segmenter, average: real, now: int): (r: Segmented)
    // Above the threshold: in an event afterwards, and never a tap.
    ensures average > Threshold ==> r.next.inEvent && !r.tap
    // Edge-triggered: only the rising edge records a start time.
    ensures average > Threshold && g.inEvent ==> r.next == g
    ensures average > Threshold && !g.inEvent ==> r.next.eventStart == now
    // At or below the threshold: idle afterwards, whatever the duration.
    ensures average <= Threshold ==> !r.next.inEvent
    ensures average <= Threshold && !g.inEvent ==> r.next == g && !r.tap
    // The falling edge is a tap exactly when the excursion was short enough.
    ensures average <= Threshold && g.inEvent ==>
              (r.tap <==> now - g.eventStart < MaxTapDuration)
    ensures average <= Threshold && g.inEvent ==> r.next.eventStart == g.eventStart
  {
    if average > Threshold then
      if !g.inEvent then Segmented(Segmenter(true, now), false)
      else Segmented(g, false)
    else if g.inEvent then
      Segmented(g.(inEvent := false), now - g.eventStart < MaxTapDuration)
    else
      Segmented(g, false)
  }

  /** One smoothed average and the time it was observed at. */
  datatype Level = Level(average: real, now: int)

  /** Runs the segmenter over a sequence of averages; yields the final state and the tap times. */
  function SegmentAll(g: Segmenter, levels: seq<Level>): (Segmenter, seq<int>)
  {
    if levels == [] then (g, [])
    else
      var (g', taps) := SegmentAll(g, levels[..|levels| - 1]);
      var x := levels[|levels| - 1];
      var r := Segment(g', x.average, x.now);
      (r.next, if r.tap then taps + [x.now] else taps)
  }

  /**
   * A run of averages that all stay above the threshold produces no tap, and
   * leaves the segmenter in an event whose start is that of the first rising
   * edge: the one before the run if it was already in an event, else the
   * first average's time.
   */
  lemma {:induction false} AboveThresholdRun(g: Segmenter, levels: seq<Level>)
    requires |levels| > 0
    requires forall i :: 0 <= i < |levels| ==> levels[i].average > Threshold
    ensures SegmentAll(g, levels).1 == []
    ensures SegmentAll(g, levels).0.inEvent
    ensures SegmentAll(g, levels).0.eventStart ==
              if g.inEvent then g.eventStart else levels[0].now
  {
    if |levels| > 1 {
      var init := levels[..|levels| - 1];
      assert init[0] == levels[0];
      AboveThresholdRun(g, init);
    }
  }

  /**
   * One excursion: averages above the threshold followed by one at or below
   * it yield at most one tap, at the falling edge, and exactly one when the
   * excursion (measured from the rising edge) lasted less than the maximum
   * tap duration. The segmenter is idle afterwards.
   */
  lemma Excursion(g: Segmenter, levels: seq<Level>)
    requires |levels| > 0
    requires forall i :: 0 <= i < |levels| - 1 ==> levels[i].average > Threshold
    requires levels[|levels| - 1].average <= Threshold
    ensures !SegmentAll(g, levels).0.inEvent
    ensures var taps := SegmentAll(g, levels).1;
            var last := levels[|levels| - 1].now;
            var start := if g.inEvent then g.eventStart else levels[0].now;
            (taps == [] || taps == [last]) &&
            (taps == [last] <==> (g.inEvent || |levels| > 1) && last - start < MaxTapDuration)
  {
    if |levels| > 1 {
      var init := levels[..|levels| - 1];
      assert forall i :: 0 <= i < |init| ==> init[i] == levels[i];
      AboveThresholdRun(g, init);
    }
  }
}
