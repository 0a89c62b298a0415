/** How often, and by how much, the buffer grows when it is written to. */
module BufferGrowth {
  import opened Machine
  import opened SegmentStore

  /** A write that has to grow the buffer leaves at most five mean write lengths of slack. */
  lemma GrowthSlack(s: Seg, d: seq<byte>)
    requires s.open && s.pos <= |s.data| && |WriteIo(s, d).data| > |s.data|
    ensures var r := WriteIo(s, d);
            var slack := |r.data| - r.pos;
            if s.writes == 0 then slack == 0
            else slack <= PREALLOC_FACTOR * (s.writeSize / s.writes)
  {
  }

  /** The number of growths among `n` writes of `d`. */
  ghost function Growths(s: Seg, d: seq<byte>, n: nat): nat
    decreases n
  {
    if n == 0 then 0
    else (if |WriteIo(s, d).data| > |s.data| then 1 else 0) + Growths(WriteIo(s, d), d, n - 1)
  }

  /** The statistics after writes of one length only. */
  ghost predicate Uniform(s: Seg, length: nat) {
    s.open && s.pos <= |s.data| && s.writes > 0 && s.writeSize == s.writes * length
  }

  lemma UniformWrite(s: Seg, d: seq<byte>)
    requires Uniform(s, |d|) && |d| > 0 && s.writes + 1 < U32
    ensures var r := WriteIo(s, d);
            && Uniform(r, |d|) && r.writes == s.writes + 1 && r.pos == s.pos + |d|
            && |r.data| == if s.pos + |d| <= |s.data| then |s.data| else |s.data| + 5 * |d|
  {
    var r := WriteIo(s, d);
    assert s.writeSize / s.writes == |d| by {
      assert |d| * s.writes == s.writeSize;
      DivUnique(s.writeSize, s.writes, |d|);
    }
    assert (s.writes + 1) * |d| == s.writes * |d| + |d|;
  }

  lemma PaidStep(length: int, g: int, n: int, slack: int, left: int)
    requires length > 0 && n > 0 && slack >= 0
    requires left == if slack >= length then slack - length else slack + 4 * length
    requires g > 0 ==> 5 * length * g < (n - 1) * length - left + 5 * length
    requires g >= 0
    ensures slack >= length && g > 0 ==> 5 * length * g < n * length - slack + 5 * length
    ensures slack < length ==> 5 * length * (1 + g) < n * length - slack + 5 * length
  {
    assert (n - 1) * length == n * length - length;
    assert n * length >= length by { MulMonotone(1, n, length); }
    assert 5 * length * (1 + g) == 5 * length + 5 * length * g;
  }

  /** Amortisation: five writes' worth of bytes pay for every growth but the last. */
  lemma {:induction false} GrowthsArePaid(s: Seg, d: seq<byte>, n: nat)
    requires Uniform(s, |d|) && |d| > 0 && s.writes + n < U32
    ensures Growths(s, d, n) > 0 ==>
              5 * |d| * Growths(s, d, n) < n * |d| - (|s.data| - s.pos) + 5 * |d|
    decreases n
  {
    if n > 0 {
      var r := WriteIo(s, d);
      UniformWrite(s, d);
      GrowthsArePaid(r, d, n - 1);
      var g := Growths(r, d, n - 1);
      assert Growths(s, d, n) == (if s.pos + |d| > |s.data| then 1 else 0) + g;
      PaidStep(|d|, g, n, |s.data| - s.pos, |r.data| - r.pos);
    }
  }

  lemma PaidBound(length: int, g: int, n: int)
    requires length > 0 && 5 * length * g < n * length + 5 * length
    ensures 5 * g < n + 5
  {
    assert (n + 5) * length == n * length + 5 * length;
    assert 5 * g * length == 5 * length * g;
    if 5 * g >= n + 5 {
      MulMonotone(n + 5, 5 * g, length);
    }
  }

  lemma {:induction false} EmptyWritesNeverGrow(s: Seg, d: seq<byte>, n: nat)
    requires s.open && s.pos <= |s.data| && d == []
    ensures Growths(s, d, n) == 0
    decreases n
  {
    if n > 0 {
      EmptyWritesNeverGrow(WriteIo(s, d), d, n - 1);
    }
  }

  /** `n` appends of equal length to a buffer just opened grow it at most 1 + ceil((n-1)/5)
      times, as long as the 32-bit write counter does not wrap. */
  lemma AppendsRarelyGrow(s: Seg, d: seq<byte>, n: nat)
    requires s.open && s.pos <= |s.data| && s.writes == 0 && s.writeSize == 0
    requires 0 < n < U32
    ensures Growths(s, d, n) <= 1 + (n - 1 + 4) / 5
  {
    var r := WriteIo(s, d);
    if |d| == 0 {
      EmptyWritesNeverGrow(s, d, n);
    } else {
      var g := Growths(r, d, n - 1);
      assert Uniform(r, |d|);
      GrowthsArePaid(r, d, n - 1);
      if g > 0 {
        PaidBound(|d|, g, n - 1);
      }
    }
  }

  /** The counter after 2^32 writes reads "no writes yet", and a growth then preallocates
      nothing. */
  lemma WrappedCounterForgets(s: Seg, d: seq<byte>, e: seq<byte>)
    requires s.open && s.pos <= |s.data| && s.writes == U32 - 1
    ensures var r := WriteIo(s, d);
            r.writes == 0 && (r.pos + |e| > |r.data| ==> |WriteIo(r, e).data| == r.pos + |e|)
  {
  }
}
