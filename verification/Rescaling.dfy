/** FFmpeg's rounding of time stamps, and when a conversion there and back is exact. */
module Rescaling {
  import opened Machine
  import opened Options

  /** `av_rescale`: a * b / c rounded to nearest, halves away from zero. */
  function Rescale(a: int, b: int, c: int): int
    requires c > 0
  {
    if a * b >= 0 then (a * b + c / 2) / c else -((-(a * b) + c / 2) / c)
  }

  function StartTime(start: Option<int>): int {
    if start.Some? then start.value else 0
  }

  /** `pts_to_frame`; `num / den` is the frame rate times the time base. */
  function PtsToFrame(pts: Option<int>, start: Option<int>, num: int, den: int): nat
    requires den > 0
  {
    if pts.None? then 0
    else ToU32(Rescale(pts.value - StartTime(start), num, den) + 1)
  }

  /** `frame_to_pts` */
  function FrameToPts(frameNo: nat, start: Option<int>, num: int, den: int): int
    requires num > 0
  {
    ToU32(Rescale(ToU32(frameNo - 1), den, num) + StartTime(start))
  }

  /** Rescaling rounds to the nearest whole number, and halves away from zero. */
  lemma RescaleIsNearest(a: int, b: int, c: int)
    requires c > 0
    ensures var x, y := a * b, Rescale(a, b, c) * c;
            && -c <= 2 * (x - y) <= c
            && (2 * (x - y) == c ==> x < 0) && (2 * (y - x) == c ==> x > 0)
  {
    var x := a * b;
    if x >= 0 {
      DivBounds(x + c / 2, c);
    } else {
      DivBounds(-x + c / 2, c);
      var q := (-x + c / 2) / c;
      assert (-q) * c == -(q * c);
    }
  }

  /** The first frame is shown at the start of the stream, and the time stamp of frame n is the
      one nearest to n - 1 frame durations later. */
  lemma FrameTimes(frameNo: nat, start: Option<int>, num: int, den: int)
    requires 1 <= frameNo < U32 && num > 0 && den > 0
    requires 0 <= Rescale(frameNo - 1, den, num) + StartTime(start) < U32
    ensures var late := FrameToPts(frameNo, start, num, den) - (if start.Some? then start.value else 0);
            && (frameNo == 1 ==> late == 0)
            && -num <= 2 * ((frameNo - 1) * den - late * num) <= num
  {
    RescaleIsNearest(frameNo - 1, den, num);
    if frameNo == 1 {
      DivUnique(num / 2, num, 0);
    }
  }

  /** A packet without time stamp has frame number 0; any other the nearest frame's. */
  lemma FrameNumbers(pts: int, start: Option<int>, num: int, den: int)
    requires num > 0 && den > 0
    requires 0 <= Rescale(pts - StartTime(start), num, den) < U32 - 1
    ensures PtsToFrame(None, start, num, den) == 0
    ensures var n := PtsToFrame(Some(pts), start, num, den);
            var late := pts - (if start.Some? then start.value else 0);
            n >= 1 && -den <= 2 * (late * num - (n - 1) * den) <= den
  {
    RescaleIsNearest(pts - StartTime(start), num, den);
  }

  // ----- Rounding there and back

  lemma Nearest(x: int, c: int)
    requires c > 0 && x >= 0
    ensures var r := (x + c / 2) / c;
            r >= 0 && x - r * c >= -(c / 2) && x - r * c < c - c / 2
  {
    var r := (x + c / 2) / c;
    DivBounds(x + c / 2, c);
    if r < 0 {
      MulMonotone(r, -1, c);
    }
  }

  lemma NearestIs(x: int, c: int, k: int)
    requires c > 0 && x >= 0
    requires -(c / 2) <= x - k * c < c - c / 2
    ensures (x + c / 2) / c == k
  {
    DivUnique(x + c / 2, c, k);
  }

  /** Scaling up and down again loses nothing if the first scale is the finer one. */
  lemma RoundTrip(k: nat, n: int, d: int)
    requires 0 < n <= d
    ensures Rescale(k, d, n) >= 0 && Rescale(Rescale(k, d, n), n, d) == k
  {
    MulMonotone(0, k, d);
    Nearest(k * d, n);
    var r := Rescale(k, d, n);
    assert r == (k * d + n / 2) / n;
    MulMonotone(0, r, n);
    if n == d {
      NearestIs(k * d, n, k);
      assert r == k;
      NearestIs(r * n, d, k);
    } else {
      assert n / 2 < d - d / 2 && n - n / 2 - 1 <= d / 2;
      NearestIs(r * n, d, k);
    }
  }

  lemma RescaleMonotone(j: nat, k: nat, d: int, n: int)
    requires 0 < n && 0 < d && j <= k
    ensures Rescale(j, d, n) <= Rescale(k, d, n)
  {
    MulMonotone(0, j, d);
    MulMonotone(j, k, d);
    DivMonotone(j * d + n / 2, k * d + n / 2, n);
  }

  lemma RescaleFull(d: int, n: int)
    requires 0 < n && 0 < d
    ensures Rescale(n, d, n) == d
  {
    MulMonotone(0, n, d);
    assert d * n == n * d;
    NearestIs(n * d, n, d);
  }

  /** Values that all come back are spread out at least one apart. */
  lemma {:induction false} ExactMeansSpread(m: nat, d: int, n: int)
    requires 0 < n && 0 < d
    requires forall k: nat | k <= m :: Rescale(Rescale(k, d, n), n, d) == k
    ensures Rescale(m, d, n) >= m
  {
    if m == 0 {
      MulMonotone(0, 0, d);
      Nearest(0, n);
    } else {
      ExactMeansSpread(m - 1, d, n);
      RescaleMonotone(m - 1, m, d, n);
      assert Rescale(Rescale(m, d, n), n, d) == m;
      assert Rescale(Rescale(m - 1, d, n), n, d) == m - 1;
    }
  }

  /** The exact condition, for all values at once. */
  lemma RoundTripIff(n: int, d: int)
    requires 0 < n && 0 < d
    ensures (forall k: nat :: Rescale(Rescale(k, d, n), n, d) == k) <==> n <= d
  {
    if n <= d {
      forall k: nat ensures Rescale(Rescale(k, d, n), n, d) == k {
        RoundTrip(k, n, d);
      }
    } else if forall k: nat :: Rescale(Rescale(k, d, n), n, d) == k {
      ExactMeansSpread(n, d, n);
      RescaleFull(d, n);
      assert false;
    }
  }

  // ----- Frames

  /** A frame number survives the conversion to a time stamp and back. */
  lemma FrameRoundTrip(frameNo: nat, start: Option<int>, num: int, den: int)
    requires 1 <= frameNo < U32 && 0 < num <= den
    requires 0 <= Rescale(frameNo - 1, den, num) + StartTime(start) < U32
    ensures PtsToFrame(Some(FrameToPts(frameNo, start, num, den)), start, num, den) == frameNo
  {
    RoundTrip(frameNo - 1, num, den);
  }

  lemma CollisionBreaks(num: int, den: int, k: nat)
    requires 0 < den < num < U32 - 1
    requires k < num && Rescale(k, den, num) == Rescale(k + 1, den, num) <= den
    ensures exists n: nat :: 1 <= n < U32 && Rescale(n - 1, den, num) < U32 &&
              PtsToFrame(Some(FrameToPts(n, None, num, den)), None, num, den) != n
  {
    var a, b := k + 1, k + 2;
    assert FrameToPts(a, None, num, den) == FrameToPts(b, None, num, den);
    var f := PtsToFrame(Some(FrameToPts(a, None, num, den)), None, num, den);
    if f == a {
      assert PtsToFrame(Some(FrameToPts(b, None, num, den)), None, num, den) != b;
    }
  }

  /** With more frames than ticks two neighbouring frames share a time stamp. */
  lemma FirstCollision(num: int, den: int) returns (k: nat)
    requires 0 < den < num
    ensures k < num && Rescale(k, den, num) == Rescale(k + 1, den, num) <= den
  {
    k := 0;
    RescaleMonotone(0, 1, den, num);
    RescaleFull(den, num);
    Nearest(0, num);
    while Rescale(k, den, num) != Rescale(k + 1, den, num)
      invariant k < num && Rescale(k, den, num) >= k
      decreases num - k
    {
      RescaleMonotone(k, k + 1, den, num);
      if k + 1 == num {
        assert false;
      }
      k := k + 1;
    }
    RescaleMonotone(k + 1, num, den, num);
  }

  /** All frames whose time stamps fit 32 bits survive iff there is at most one frame per tick
      of the time base. */
  lemma FrameRoundTripIff(num: int, den: int)
    requires 0 < num < U32 - 1 && 0 < den
    ensures (forall n: nat | 1 <= n < U32 && Rescale(n - 1, den, num) < U32 ::
               PtsToFrame(Some(FrameToPts(n, None, num, den)), None, num, den) == n)
       <==> num <= den
  {
    if num <= den {
      forall n: nat | 1 <= n < U32 && Rescale(n - 1, den, num) < U32
        ensures PtsToFrame(Some(FrameToPts(n, None, num, den)), None, num, den) == n
      {
        RoundTrip(n - 1, num, den);
        FrameRoundTrip(n, None, num, den);
      }
    } else {
      RescaleFull(den, num);
      var k := FirstCollision(num, den);
      CollisionBreaks(num, den, k);
    }
  }

  // ----- Audio

  const MICROSECONDS := 1_000_000

  /** How far `create_audio_frame` advances the audio time stamp for `samples` samples, in a
      time base of 1/rate: through microseconds and back. */
  function SampleDuration(samples: nat, rate: int): int
    requires rate > 0
  {
    Rescale(Rescale(MICROSECONDS, samples, rate), rate, MICROSECONDS)
  }

  /** No drift iff a sample lasts at least a microsecond. */
  lemma SampleDurationIsExact(rate: int)
    requires rate > 0
    ensures (forall samples: nat :: SampleDuration(samples, rate) == samples) <==> rate <= 1_000_000
  {
    forall samples: nat
      ensures Rescale(MICROSECONDS, samples, rate) == Rescale(samples, MICROSECONDS, rate)
    {
    }
    RoundTripIff(rate, MICROSECONDS);
    if forall samples: nat :: SampleDuration(samples, rate) == samples {
      forall k: nat ensures Rescale(Rescale(k, MICROSECONDS, rate), rate, MICROSECONDS) == k {
        assert SampleDuration(k, rate) == k;
      }
    }
  }
}
