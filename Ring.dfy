/**
 * Fixed-capacity circular buffers, as the detector uses them twice: a write
 * index that moves forward one slot per write and wraps to slot 0, so that
 * each write replaces the oldest value.
 */
module Ring {

  /**
   * Moves a circular-buffer index forward by one slot, going back to slot 0
   * once it runs past the last slot. The result is the successor modulo the
   * capacity.
   */
  function Advance(i: nat, n: nat): (r: nat)
    requires i < n
    ensures r < n
    ensures r == (i + 1) % n
  {
    if i + 1 > n - 1 then 0 else i + 1
  }

  /** Slot `i` of a ring of `n` slots, for an `i` that has gone at most once around. */
  function Wrap(i: nat, n: nat): (r: nat)
    requires i < 2 * n
    ensures r < n
  {
    if i >= n then i - n else i
  }

  /**
   * The value k slots after the write index: the slot the index reaches
   * k + 1 writes from now, so k = 0 is the oldest value and k = |ring| - 1
   * the newest.
   */
  function KthOldest<T>(ring: seq<T>, index: nat, k: nat): T
    requires index < |ring| && k < |ring|
  {
    ring[Wrap(index + k, |ring|)]
  }

  /**
   * The ring holds the most recent values of `history` in the order they
   * were written: the k-th oldest slot holds the k-th of the last |ring|
   * values, for every one of them that exists.
   */
  predicate HoldsLast<T(==)>(ring: seq<T>, index: nat, history: seq<T>)
  {
    index < |ring| &&
    forall k :: 0 <= k < |ring| && |ring| <= |history| + k ==>
      KthOldest(ring, index, k) == history[|history| - |ring| + k]
  }

  /**
   * Writing a value at the write index and advancing the index keeps the
   * ring holding the last values: the new value replaces the oldest one.
   */
  lemma HoldsLastPush<T>(ring: seq<T>, index: nat, history: seq<T>, x: T)
    requires HoldsLast(ring, index, history)
    ensures HoldsLast(ring[index := x], Advance(index, |ring|), history + [x])
  {
    var n := |ring|;
    var ring', index', history' := ring[index := x], Advance(index, n), history + [x];
    forall k | 0 <= k < n && n <= |history'| + k
      ensures KthOldest(ring', index', k) == history'[|history'| - n + k]
    {
      if k == n - 1 {
        assert Wrap(index' + k, n) == index;
      } else {
        assert Wrap(index' + k, n) == Wrap(index + (k + 1), n) != index;
        assert KthOldest(ring', index', k) == KthOldest(ring, index, k + 1);
        assert history'[|history'| - n + k] == history[|history| - n + (k + 1)];
      }
    }
  }

  /** Writing nothing and advancing the index keeps a ring of an empty history valid. */
  lemma HoldsLastSkip<T>(ring: seq<T>, index: nat)
    requires index < |ring|
    ensures HoldsLast(ring, Advance(index, |ring|), [])
  {
  }
}
