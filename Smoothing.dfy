/**
 * The smoothing stage of the tap detector: every sample after the first
 * writes its scaled delta magnitude into a ring of five slots, and once more
 * than five samples have arrived, the mean of the five slots is the value the
 * segmenter thresholds.
 */
module Smoothing {
  import opened Ring
  import opened Wrappers

  /** Number of slots of the smoothing ring (`lastFiveReadings`). */
  const Window: nat := 5

  /** Sum of the readings, accumulated left to right. */
  function Sum(s: seq<real>): real
  {
    if s == [] then 0.0 else Sum(s[..|s| - 1]) + s[|s| - 1]
  }

  /** The 5-point moving average: the sum of all five slots divided by five. */
  function Mean(s: seq<real>): real
    requires |s| == Window
  {
    Sum(s) / Window as real
  }

  /**
   * What the smoother keeps between samples: whether a previous sample exists
   * (`lastReading != null`), the number of samples seen (`readingCount`, never
   * reset), the ring of the last five magnitudes and its write index.
   */
  datatype Smoother = Smoother(
    hasLastReading: bool,
    readingCount: nat,
    readings: seq<real>,
    readingIndex: nat)
  {
    /**
     * The ring has five slots, its index is the number of samples seen modulo
     * five (so it stays in 0..4), and a previous sample exists once one arrived.
     */
    predicate Valid()
    {
      |readings| == Window &&
      readingIndex == readingCount % Window &&
      hasLastReading == (readingCount > 0)
    }
  }

  /** The state before the first sample: no previous reading, a zeroed ring. */
  function Initial(): (sm: Smoother)
    ensures sm.Valid() && sm.readingCount == 0
  {
    Smoother(false, 0, [0.0, 0.0, 0.0, 0.0, 0.0], 0)
  }

  /** The new smoother state and, once the ring has been filled, the average. */
  datatype Smoothed = Smoothed(next: Smoother, average: Option<real>)

  /**
   * Feeds one sample, of delta magnitude `mag`, to the smoother. The first
   * sample has no predecessor: it writes nothing but still moves the index.
   */
  function Smooth(sm: Smoother, mag: real): (r: Smoothed)
    requires sm.Valid()
    ensures r.next.Valid()
    ensures r.next.readingCount == sm.readingCount + 1 && r.next.hasLastReading
    ensures !sm.hasLastReading ==> r.next.readings == sm.readings
    ensures sm.hasLastReading ==> r.next.readings == sm.readings[sm.readingIndex := mag]
    ensures r.average.Some? <==> r.next.readingCount > Window
    ensures r.average.Some? ==> r.average.value == Mean(r.next.readings)
  {
    var count := sm.readingCount + 1;
    var index := Advance(sm.readingIndex, Window);
    if !sm.hasLastReading then
      Smoothed(Smoother(true, count, sm.readings, index), None)
    else
      var readings := sm.readings[sm.readingIndex := mag];
      Smoothed(Smoother(true, count, readings, index),
               if count > Window then Some(Mean(readings)) else None)
  }

  /** The sum of five readings, written out term by term. */
  lemma SumOfFive(s: seq<real>)
    requires |s| == Window
    ensures Sum(s) == s[0] + s[1] + s[2] + s[3] + s[4]
  {
    assert s[..4][..3] == s[..3] && s[..3][..2] == s[..2];
    assert s[..2][..1] == s[..1] && s[..1][..0] == [];
    assert s[..5] == s;
    assert Sum(s[..1]) == s[0];
    assert Sum(s[..2]) == Sum(s[..1]) + s[1];
    assert Sum(s[..3]) == Sum(s[..2]) + s[2];
    assert Sum(s[..4]) == Sum(s[..3]) + s[3];
  }

  /** The moving average is the arithmetic mean of the five readings, term by term. */
  lemma MeanOfFive(s: seq<real>)
    requires |s| == Window
    ensures Mean(s) == (s[0] + s[1] + s[2] + s[3] + s[4]) / 5.0
  {
    SumOfFive(s);
  }

  /**
   * A ring holding the last five values of a history sums to the same as
   * those five values, whatever slot the write index is at.
   */
  lemma RingSum(ring: seq<real>, index: nat, history: seq<real>)
    requires |ring| == Window && |history| >= Window
    requires HoldsLast(ring, index, history)
    ensures Sum(ring) == Sum(history[|history| - Window..])
  {
    var last := history[|history| - Window..];
    forall k | 0 <= k < Window
      ensures KthOldest(ring, index, k) == last[k]
    {
    }
    assert KthOldest(ring, index, 0) == last[0] && KthOldest(ring, index, 1) == last[1];
    assert KthOldest(ring, index, 2) == last[2] && KthOldest(ring, index, 3) == last[3];
    assert KthOldest(ring, index, 4) == last[4];
    SumOfFive(ring);
    SumOfFive(last);
  }

  /** Bounds on a sum from bounds on every term. */
  lemma {:induction false} SumBounds(s: seq<real>, t: real)
    ensures (forall i :: 0 <= i < |s| ==> s[i] <= t) ==> Sum(s) <= |s| as real * t
    ensures |s| > 0 && (forall i :: 0 <= i < |s| ==> s[i] > t) ==> Sum(s) > |s| as real * t
  {
    if s != [] {
      var init := s[..|s| - 1];
      SumBounds(init, t);
      assert forall i :: 0 <= i < |init| ==> init[i] == s[i];
    }
  }

  /**
   * The average crosses a threshold when all five slots do: five magnitudes
   * above it give an average above it, five at or below it an average at or
   * below it.
   */
  lemma MeanBounds(s: seq<real>, t: real)
    requires |s| == Window
    ensures (forall i :: 0 <= i < |s| ==> s[i] > t) ==> Mean(s) > t
    ensures (forall i :: 0 <= i < |s| ==> s[i] <= t) ==> Mean(s) <= t
  {
    SumBounds(s, t);
  }
}
