/**
 * The pattern stage: the completion times of the last three taps are kept in
 * a three-slot ring; after every tap, once more than two taps exist, a sorted
 * copy of the ring gives two pauses, and the pattern matches when both fall
 * strictly inside their windows (tap, pause of 1-2 s, tap, pause of 2-3 s, tap).
 */
module PatternMatcher {
  import opened Ring

  /** Number of slots of the tap ring (`previousEventsCompleteTimes`). */
  const TapSlots: nat := 3

  /** Exclusive bounds of the first pause, in milliseconds. */
  const Pause1Min: int := 1000
  const Pause1Max: int := 2000

  /** Exclusive bounds of the second pause, in milliseconds. */
  const Pause2Min: int := 2000
  const Pause2Max: int := 3000

  predicate Ascending(s: seq<int>)
  {
    forall i, j :: 0 <= i < j < |s| ==> s[i] <= s[j]
  }

  /**
   * One compare-exchange: the elements at `i` and `j` put in order, every
   * other element left where it is.
   */
  function Order(s: seq<int>, i: nat, j: nat): (r: seq<int>)
    requires i < j < |s|
    ensures |r| == |s| && multiset(r) == multiset(s)
    ensures r[i] <= r[j]
    ensures (r[i] == s[i] && r[j] == s[j]) || (r[i] == s[j] && r[j] == s[i])
    ensures forall k :: 0 <= k < |s| && k != i && k != j ==> r[k] == s[k]
  {
    if s[i] <= s[j] then s else s[i := s[j]][j := s[i]]
  }

  /** The three times in ascending order (what `Arrays.sort` leaves in the copy). */
  function Sort3(t: seq<int>): (r: seq<int>)
    requires |t| == TapSlots
    ensures |r| == TapSlots
    ensures Ascending(r)
    ensures multiset(r) == multiset(t)
  {
    Order(Order(Order(t, 0, 1), 1, 2), 0, 1)
  }

  /** The head of an ascending sequence is its least element. */
  lemma AscendingHead(s: seq<int>, x: int)
    requires Ascending(s) && x in multiset(s)
    ensures s != [] && s[0] <= x
  {
    assert x in s;
  }

  /** Dropping the head keeps a sequence ascending and removes one copy of it. */
  lemma AscendingTail(s: seq<int>)
    requires Ascending(s) && s != []
    ensures Ascending(s[1..])
    ensures multiset(s[1..]) == multiset(s) - multiset{s[0]}
  {
    assert s == [s[0]] + s[1..];
  }

  /** Two ascending sequences holding the same elements are the same sequence. */
  lemma {:induction false} SortedUnique(a: seq<int>, b: seq<int>)
    requires Ascending(a) && Ascending(b)
    requires multiset(a) == multiset(b)
    ensures a == b
  {
    assert |a| == |multiset(a)| == |multiset(b)| == |b|;
    if a != [] {
      var x, y := a[0], b[0];
      assert x in multiset(a) && y in multiset(b);
      AscendingHead(b, x);
      AscendingHead(a, y);
      assert x == y;
      AscendingTail(a);
      AscendingTail(b);
      SortedUnique(a[1..], b[1..]);
      assert a == [x] + a[1..] && b == [y] + b[1..];
    }
  }

  /** Sorting only depends on which times are present, not on their slots. */
  lemma Sort3Permutation(t: seq<int>, u: seq<int>)
    requires |t| == TapSlots && |u| == TapSlots
    requires multiset(t) == multiset(u)
    ensures Sort3(t) == Sort3(u)
  {
    SortedUnique(Sort3(t), Sort3(u));
  }

  /**
   * Both pauses strictly inside their windows: the bound values never match,
   * and a matching first pause is always shorter than the second.
   */
  predicate GapsMatch(gap1: int, gap2: int)
    ensures GapsMatch(gap1, gap2) ==> gap1 != Pause1Min && gap1 != Pause1Max
    ensures GapsMatch(gap1, gap2) ==> gap2 != Pause2Min && gap2 != Pause2Max
    ensures GapsMatch(gap1, gap2) ==> 0 < gap1 < gap2
  {
    Pause1Min < gap1 < Pause1Max && Pause2Min < gap2 < Pause2Max
  }

  /**
   * The two pauses between the three times once sorted: never negative, and
   * together they span every difference between two of the times.
   */
  function Gaps(times: seq<int>): (g: (int, int))
    requires |times| == TapSlots
    ensures g.0 >= 0 && g.1 >= 0
    ensures forall i, j :: 0 <= i < TapSlots && 0 <= j < TapSlots ==> times[i] - times[j] <= g.0 + g.1
  {
    var s := Sort3(times);
    forall i | 0 <= i < TapSlots
      ensures s[0] <= times[i] <= s[2]
    {
      assert times[i] in multiset(s);
    }
    (s[1] - s[0], s[2] - s[1])
  }

  /** No two of the three times are equal. */
  predicate Distinct(t: seq<int>)
    requires |t| == TapSlots
  {
    t[0] != t[1] && t[0] != t[2] && t[1] != t[2]
  }

  /** A compare-exchange neither creates nor removes a repeated time. */
  lemma OrderDistinct(t: seq<int>, i: nat, j: nat)
    requires |t| == TapSlots && i < j < TapSlots
    ensures Distinct(Order(t, i, j)) <==> Distinct(t)
  {
    var r := Order(t, i, j);
    assert forall k :: 0 <= k < TapSlots && k != i && k != j ==> r[k] == t[k];
  }

  /** Three times whose sorted copy strictly increases are pairwise different. */
  lemma SortedDistinct(t: seq<int>)
    requires |t| == TapSlots
    ensures Sort3(t)[0] < Sort3(t)[1] < Sort3(t)[2] ==> Distinct(t)
  {
    var a := Order(t, 0, 1);
    var b := Order(a, 1, 2);
    OrderDistinct(t, 0, 1);
    OrderDistinct(a, 1, 2);
    OrderDistinct(b, 0, 1);
  }

  /**
   * The pattern test the service applies to its tap ring. A match needs three
   * pairwise different times.
   */
  predicate PatternMatches(times: seq<int>)
    requires |times| == TapSlots
    ensures PatternMatches(times) ==> Distinct(times)
  {
    var (gap1, gap2) := Gaps(times);
    SortedDistinct(times);
    GapsMatch(gap1, gap2)
  }

  /**
   * The test is that of the times in chronological order: for any ascending
   * arrangement of the three times, it holds iff that arrangement's two
   * successive pauses lie in their windows.
   */
  lemma PatternMatchesInOrder(times: seq<int>, order: seq<int>)
    requires |times| == TapSlots
    requires Ascending(order) && multiset(order) == multiset(times)
    ensures |order| == TapSlots
    ensures PatternMatches(times) <==> GapsMatch(order[1] - order[0], order[2] - order[1])
  {
    SortedUnique(order, Sort3(times));
  }

  /** The last three of a sequence of times exist and are in chronological order. */
  predicate LastThreeOrdered(times: seq<int>)
  {
    |times| >= TapSlots && times[|times| - 3] <= times[|times| - 2] <= times[|times| - 1]
  }

  /**
   * At least three times exist, the pause from the third-last to the
   * second-last is in the first window and the pause from the second-last
   * to the last is in the second.
   */
  predicate LastPausesMatch(times: seq<int>)
  {
    |times| >= TapSlots &&
    GapsMatch(times[|times| - 2] - times[|times| - 3], times[|times| - 1] - times[|times| - 2])
  }

  /**
   * When the last three of a sequence of times are in chronological order,
   * the test on them is that of their two successive pauses.
   */
  lemma LastThreeInOrder(times: seq<int>)
    requires LastThreeOrdered(times)
    ensures PatternMatches(times[|times| - 3..]) <==> LastPausesMatch(times)
  {
    var n := |times|;
    var last := times[n - 3..];
    assert last == [times[n - 3], times[n - 2], times[n - 1]];
    PatternMatchesInOrder(last, last);
    assert last[1] - last[0] == times[n - 2] - times[n - 3];
    assert last[2] - last[1] == times[n - 1] - times[n - 2];
  }

  /** Whether the three times match does not depend on the slots they sit in. */
  lemma PatternMatchesPermutation(t: seq<int>, u: seq<int>)
    requires |t| == TapSlots && |u| == TapSlots
    requires multiset(t) == multiset(u)
    ensures PatternMatches(t) <==> PatternMatches(u)
  {
    Sort3Permutation(t, u);
  }

  /** A ring holding the last three times of a history holds exactly those three. */
  lemma RingHoldsLastThree(ring: seq<int>, index: nat, times: seq<int>)
    requires |ring| == TapSlots && |times| >= TapSlots
    requires HoldsLast(ring, index, times)
    ensures multiset(ring) == multiset(times[|times| - 3..])
  {
    var last := times[|times| - 3..];
    assert last == [last[0], last[1], last[2]];
    RotatedThree(ring, index, last[0], last[1], last[2]);
  }

  /** Three slots read from any write index, oldest first, are the ring's three values. */
  lemma RotatedThree(ring: seq<int>, index: nat, a: int, b: int, c: int)
    requires |ring| == TapSlots && index < TapSlots
    requires KthOldest(ring, index, 0) == a
    requires KthOldest(ring, index, 1) == b
    requires KthOldest(ring, index, 2) == c
    ensures multiset(ring) == multiset([a, b, c])
  {
    assert ring == [ring[0], ring[1], ring[2]];
    if index == 0 {
      assert ring == [a, b, c];
    } else if index == 1 {
      assert ring == [c, a, b];
    } else {
      assert ring == [b, c, a];
    }
  }

  /**
   * The tap counter (`eventCount`, never reset), the ring of completion times
   * and its write index.
   */
  datatype Matcher = Matcher(eventCount: nat, tapTimes: seq<int>, tapIndex: nat)
  {
    /** Three slots; the index is the tap count modulo three, so it stays in 0..2. */
    predicate Valid()
    {
      |tapTimes| == TapSlots && tapIndex == eventCount % TapSlots
    }

    /** Advancing the index keeps it the tap count modulo three. */
    lemma AdvanceCounts()
      requires Valid()
      ensures Advance(tapIndex, TapSlots) == (eventCount + 1) % TapSlots
    {
    }
  }

  /** No taps yet: a zeroed ring, index 0. */
  function Initial(): (m: Matcher)
    ensures m.Valid() && m.eventCount == 0
  {
    Matcher(0, [0, 0, 0], 0)
  }

  /** The new matcher state and whether the pattern matched at this tap. */
  datatype Recorded = Recorded(next: Matcher, matched: bool)

  /**
   * Records a tap completed at `now`: counts it, writes its time at the
   * current index, checks the pattern on the ring as just written, and only
   * then advances the index.
   */
  function RecordTap(m: Matcher, now: int): (r: Recorded)
    requires m.Valid()
    ensures r.next.Valid()
    ensures r.next.eventCount == m.eventCount + 1
    ensures r.next.tapTimes == m.tapTimes[m.tapIndex := now]
    ensures r.matched <==> r.next.eventCount > 2 && PatternMatches(r.next.tapTimes)
  {
    var count := m.eventCount + 1;
    var times := m.tapTimes[m.tapIndex := now];
    var matched := count > 2 && PatternMatches(times);
    m.AdvanceCounts();
    Recorded(Matcher(count, times, Advance(m.tapIndex, TapSlots)), matched)
  }

  /**
   * The window bounds are strict: a first pause of exactly 1000 ms does not
   * match, while 1001 ms followed by 2500 ms does.
   */
  lemma WindowBoundaries()
    ensures !PatternMatches([0, 1000, 3500])
    ensures PatternMatches([0, 1001, 3501])
  {
    PatternMatchesInOrder([0, 1000, 3500], [0, 1000, 3500]);
    PatternMatchesInOrder([0, 1001, 3501], [0, 1001, 3501]);
  }

  /**
   * The first window's upper bound is strict too: a first pause of exactly
   * 2000 ms does not match, while 1999 ms followed by 2501 ms does.
   */
  lemma FirstPauseUpperBound()
    ensures !PatternMatches([0, 2000, 4500])
    ensures PatternMatches([0, 1999, 4500])
  {
    PatternMatchesInOrder([0, 2000, 4500], [0, 2000, 4500]);
    PatternMatchesInOrder([0, 1999, 4500], [0, 1999, 4500]);
  }

  /**
   * Both bounds of the second window are strict: after a first pause of
   * 1500 ms, a second pause of exactly 2000 ms or exactly 3000 ms does not
   * match.
   */
  lemma SecondPauseBounds()
    ensures !PatternMatches([0, 1500, 3500])
    ensures !PatternMatches([0, 1500, 4500])
  {
    PatternMatchesInOrder([0, 1500, 3500], [0, 1500, 3500]);
    PatternMatchesInOrder([0, 1500, 4500], [0, 1500, 4500]);
  }

  /**
   * From the initial state, taps at 0, 1500 and 4000 fill the ring; the
   * third tap matches (pauses 1500 and 2500), the first two do not.
   */
  lemma FirstThreeTaps()
    ensures var r1 := RecordTap(Initial(), 0);
            var r2 := RecordTap(r1.next, 1500);
            var r3 := RecordTap(r2.next, 4000);
            !r1.matched && !r2.matched && r3.matched && r3.next == Matcher(3, [0, 1500, 4000], 0)
  {
    var r1 := RecordTap(Initial(), 0);
    assert r1.next == Matcher(1, [0, 0, 0], 1);
    var r2 := RecordTap(r1.next, 1500);
    assert r2.next == Matcher(2, [0, 1500, 0], 2);
    assert Sort3([0, 1500, 4000]) == [0, 1500, 4000];
  }

  /**
   * A fourth tap, at 5400, overwrites the oldest slot; 1500, 4000, 5400
   * (first pause 2500) does not match.
   */
  lemma OverwriteOldest()
    ensures var r4 := RecordTap(Matcher(3, [0, 1500, 4000], 0), 5400);
            !r4.matched && r4.next.tapTimes == [5400, 1500, 4000]
  {
    assert [0, 1500, 4000][0 := 5400] == [5400, 1500, 4000];
    assert Sort3([5400, 1500, 4000]) == [1500, 4000, 5400];
  }

  /**
   * The window slides: taps at 0, 1500 and 4000 match on the third tap; a
   * fourth at 5400 overwrites the oldest slot, and 1500, 4000, 5400 (first
   * pause 2500) does not match.
   */
  lemma SlidingWindow()
    ensures var r1 := RecordTap(Initial(), 0);
            var r2 := RecordTap(r1.next, 1500);
            var r3 := RecordTap(r2.next, 4000);
            var r4 := RecordTap(r3.next, 5400);
            !r1.matched && !r2.matched && r3.matched && !r4.matched &&
            r4.next.tapTimes == [5400, 1500, 4000]
  {
    FirstThreeTaps();
    OverwriteOldest();
  }
}
