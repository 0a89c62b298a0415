/** Positions, segment numbers and the number of segments of an HLS playlist. */
module HlsTime {
  import opened Machine

  const TIME_BASE := 1_000_000

  /** Playing time at the end of a file that does not open a segment of its own. */
  const TAIL := 200_000

  /** `VIRTUALFILE::get_segment_count`. */
  function SegmentCount(duration: int, segmentDuration: nat): nat
  {
    if duration != 0 && segmentDuration != 0 then
      ToU32(ToU32(TruncDiv(duration - TAIL, segmentDuration)) + 1)
    else
      0
  }

  /** `get_next_segment`: the number of the segment a position belongs to. */
  function SegmentAt(pos: int, segmentDuration: int): nat
    requires segmentDuration > 0
  {
    ToU32(TruncDiv(pos, segmentDuration) + 1)
  }

  /** `goto_next_segment`, with the wrap-around of the 32-bit segment number. */
  predicate GotoNext(current: nat, next: nat, count: nat)
  {
    next == ToU32(current + 1) && next <= count
  }

  /** Every position outside the tail lies in one of the counted segments, every counted
      segment starts at such a position, and a tail position does so exactly when it does
      not reach the next multiple of the segment duration. */
  lemma CountCoversPositions(duration: int, d: int, pos: int)
    requires d > 0 && duration >= TAIL
    requires (duration - TAIL) / d + 1 < U32
    requires 0 <= pos
    ensures pos <= duration - TAIL ==> 1 <= SegmentAt(pos, d) <= SegmentCount(duration, d)
    ensures pos / d + 1 < U32 ==>
              (SegmentAt(pos, d) <= SegmentCount(duration, d) <==> pos / d <= (duration - TAIL) / d)
  {
    var last := (duration - TAIL) / d;
    assert last >= 0 by {
      DivMonotone(0, duration - TAIL, d);
      DivUnique(0, d, 0);
    }
    assert SegmentCount(duration, d) == last + 1;
    if pos <= duration - TAIL {
      DivMonotone(pos, duration - TAIL, d);
    }
    assert pos / d >= 0 by {
      DivMonotone(0, pos, d);
      DivUnique(0, d, 0);
    }
  }

  lemma EveryCountedSegmentHasAPosition(duration: int, d: int, k: nat)
    requires d > 0 && duration >= TAIL
    requires (duration - TAIL) / d + 1 < U32
    requires 1 <= k <= SegmentCount(duration, d)
    ensures 0 <= (k - 1) * d <= duration - TAIL
    ensures SegmentAt((k - 1) * d, d) == k
  {
    var last := (duration - TAIL) / d;
    assert 0 <= last by {
      DivMonotone(0, duration - TAIL, d);
      DivUnique(0, d, 0);
    }
    DivBounds(duration - TAIL, d);
    MulMonotone(k - 1, last, d);
    MulMonotone(0, k - 1, d);
    DivUnique((k - 1) * d, d, k - 1);
  }

  /** A file shorter than the tail has one segment iff the segments are longer than what is
      missing; otherwise the count wraps to 0 or to almost 2^32. */
  lemma ShortFiles(duration: int, d: int)
    requires d > 0 && 0 < duration < TAIL
    ensures SegmentCount(duration, d) == 1 <==> TAIL - duration < d
    ensures var m := (TAIL - duration) / d;
            SegmentCount(duration, d) == if m == 0 then 1 else if m == 1 then 0 else U32 + 1 - m
  {
    var m := (TAIL - duration) / d;
    DivBounds(TAIL - duration, d);
    assert 0 <= m < TAIL by {
      DivMonotone(0, TAIL - duration, d);
      DivUnique(0, d, 0);
      if m >= TAIL {
        MulMonotone(1, d, m);
      }
    }
    if TAIL - duration < d {
      DivUnique(TAIL - duration, d, 0);
    }
    assert TruncDiv(duration - TAIL, d) == -m;
  }

  /** With fewer than 2^32 - 1 segments the test means what its name says. */
  lemma GotoNextIsSuccessor(current: nat, next: nat, count: nat)
    requires 1 <= current <= count < U32 - 1
    ensures GotoNext(current, next, count) <==> next == current + 1 && next <= count
  {
  }

  /** The successor of segment 2^32 - 1 wraps to 0 and passes the test, so the test is exact
      for the current segment iff that is not the current one. */
  lemma GotoNextWraps(current: nat, count: nat)
    requires 1 <= current <= count < U32
    ensures (forall n: nat :: GotoNext(current, n, count) ==> n == current + 1)
       <==> current < U32 - 1
  {
    if current == U32 - 1 {
      assert GotoNext(current, 0, count);
    }
  }

  lemma SegmentsAreMonotone(p: int, q: int, d: int)
    requires d > 0 && 0 <= p <= q && q / d + 1 < U32
    ensures 1 <= SegmentAt(p, d) <= SegmentAt(q, d)
  {
    DivMonotone(p, q, d);
    DivMonotone(0, p, d);
    DivUnique(0, d, 0);
  }
}
