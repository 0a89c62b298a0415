/** Decoded audio is cut into frames of the size the encoder asks for. */
module AudioFraming {
  import opened Rescaling

  type Sample = int

  /** One decoder call: what it appends to the FIFO, whether the input ended, its code. */
  datatype Decoded = Decoded(samples: seq<Sample>, finished: bool, ret: int)

  /** An output frame and its time stamp in the output time base of 1/rate. */
  datatype Frame = Frame(samples: seq<Sample>, pts: int)

  function Samples(fs: seq<Frame>): seq<Sample> {
    if fs == [] then [] else Samples(fs[..|fs| - 1]) + fs[|fs| - 1].samples
  }

  function AllDecoded(ds: seq<Decoded>): seq<Sample> {
    if ds == [] then [] else AllDecoded(ds[..|ds| - 1]) + ds[|ds| - 1].samples
  }

  lemma SamplesGrow(fs: seq<Frame>, f: Frame)
    ensures Samples(fs + [f]) == Samples(fs) + f.samples
  {
    assert (fs + [f])[..|fs|] == fs;
  }

  lemma DecodedGrow(ds: seq<Decoded>, d: Decoded)
    ensures AllDecoded(ds + [d]) == AllDecoded(ds) + d.samples
  {
    assert (ds + [d])[..|ds|] == ds;
  }

  /** Every frame carries the time of its first sample, counted from `start`. */
  ghost predicate Timed(fs: seq<Frame>, start: int) {
    forall i | 0 <= i < |fs| :: fs[i].pts == start + |Samples(fs[..i])|
  }

  /** The frames from `from` on have the encoder's size; only the last may be shorter, if
      `short` permits it, and none is empty. */
  ghost predicate Framed(fs: seq<Frame>, from: nat, size: nat, short: bool) {
    forall i | from <= i < |fs| ::
      0 < |fs[i].samples| <= size && (|fs[i].samples| < size ==> short && i == |fs| - 1)
  }

  lemma FramedGrows(fs: seq<Frame>, gs: seq<Frame>, from: nat, size: nat, short: bool)
    requires Framed(fs, from, size, false)
    requires gs != [] && gs[..|gs| - 1] == fs && 0 < |gs[|gs| - 1].samples| <= size
    requires |gs[|gs| - 1].samples| < size ==> short
    ensures Framed(gs, from, size, short)
  {
    assert forall i | from <= i < |fs| :: gs[i] == fs[i];
  }

  /** No sample is lost, doubled or reordered, and the clock never drifts. */
  ghost predicate Conserved(
    rate: int, fifo: seq<Sample>, pts: int, consumed: seq<Decoded>, emitted: seq<Frame>, origin: int)
  {
    && Samples(emitted) + fifo == AllDecoded(consumed)
    && (rate <= MICROSECONDS ==> Timed(emitted, origin) && pts == origin + |Samples(emitted)|)
  }

  lemma DecodeConserves(
    rate: int, fifo: seq<Sample>, pts: int, consumed: seq<Decoded>, emitted: seq<Frame>, origin: int, d: Decoded)
    requires Conserved(rate, fifo, pts, consumed, emitted, origin)
    ensures Conserved(rate, fifo + d.samples, pts, consumed + [d], emitted, origin)
  {
    DecodedGrow(consumed, d);
    assert Samples(emitted) + (fifo + d.samples) == (Samples(emitted) + fifo) + d.samples;
  }

  lemma TimedGrows(fs: seq<Frame>, f: Frame, start: int)
    requires Timed(fs, start) && f.pts == start + |Samples(fs)|
    ensures Timed(fs + [f], start)
  {
    var r := fs + [f];
    forall i | 0 <= i < |r| ensures r[i].pts == start + |Samples(r[..i])| {
      if i < |fs| {
        assert r[..i] == fs[..i];
      } else {
        assert r[..i] == fs;
      }
    }
  }

  /** Cutting a frame off the FIFO moves its samples to the output. */
  lemma CutConserves(
    rate: int, fifo: seq<Sample>, pts: int, consumed: seq<Decoded>, emitted: seq<Frame>, origin: int, n: nat)
    requires 0 < rate && n <= |fifo| && Conserved(rate, fifo, pts, consumed, emitted, origin)
    ensures Conserved(rate, fifo[n..], pts + SampleDuration(n, rate), consumed,
                      emitted + [Frame(fifo[..n], pts)], origin)
  {
    var f := Frame(fifo[..n], pts);
    SamplesGrow(emitted, f);
    assert fifo == fifo[..n] + fifo[n..];
    if rate <= MICROSECONDS {
      SampleDurationIsExact(rate);
      TimedGrows(emitted, f, origin);
    }
  }

  /** The first `n` decoder calls are all used: before each the FIFO, of `have` samples at the
      start, was short of a frame, and none but the last failed or ended the input. */
  ghost predicate CallsUsed(have: nat, input: seq<Decoded>, size: nat, n: int) {
    && 0 <= n <= |input|
    && (forall i | 0 <= i < n :: have + |AllDecoded(input[..i])| < size)
    && (forall i | 0 <= i < n - 1 :: input[i].ret >= 0 && !input[i].finished)
  }

  /** What these calls did: they moved from the input behind `before`, and their samples to the
      FIFO, which has `length` now. */
  ghost predicate DecodedSo(
    have: nat, input: seq<Decoded>, before: seq<Decoded>, size: nat, n: int,
    after: seq<Decoded>, left: seq<Decoded>, length: nat)
  {
    && CallsUsed(have, input, size, n)
    && after == before + input[..n] && left == input[n..]
    && length == have + |AllDecoded(input[..n])|
  }

  lemma NoCallYet(have: nat, input: seq<Decoded>, before: seq<Decoded>, size: nat)
    ensures DecodedSo(have, input, before, size, 0, before, input, have)
  {
    assert input[..0] == [] && before + [] == before;
  }

  lemma OneMoreCall(
    have: nat, input: seq<Decoded>, before: seq<Decoded>, size: nat, n: nat,
    after: seq<Decoded>, left: seq<Decoded>, length: nat)
    requires DecodedSo(have, input, before, size, n, after, left, length) && left != []
    requires length < size && (n > 0 ==> input[n - 1].ret >= 0 && !input[n - 1].finished)
    ensures n < |input| && left[0] == input[n]
    ensures DecodedSo(have, input, before, size, n + 1, after + [left[0]], left[1..],
                      length + |left[0].samples|)
  {
    assert input[..n + 1] == input[..n] + [input[n]];
    DecodedGrow(input[..n], input[n]);
  }

  /** The input has ended: the last call used said so, or none is left and a frame is not there. */
  ghost predicate Ended(have: nat, input: seq<Decoded>, size: nat, n: int)
    requires 0 <= n <= |input|
  {
    || (n > 0 && input[n - 1].finished)
    || (n == |input| && have + |AllDecoded(input[..n])| < size)
  }

  class Framer {
    const rate: int
    var fifo: seq<Sample>
    var pts: int
    var input: seq<Decoded>

    /** What was decoded and emitted since the start, and the first time stamp. */
    ghost var consumed: seq<Decoded>
    ghost var emitted: seq<Frame>
    ghost const origin: int

    ghost predicate Valid()
      reads this
    {
      0 < rate && Conserved(rate, fifo, pts, consumed, emitted, origin)
    }

    constructor (rate: int, start: int, input: seq<Decoded>)
      requires rate > 0
      ensures Valid() && fifo == [] && emitted == [] && this.input == input && consumed == []
      ensures this.rate == rate && origin == start
    {
      this.rate, fifo, pts, this.input := rate, [], start, input;
      consumed, emitted, origin := [], [], start;
    }

    /** `read_decode_convert_and_store`; an exhausted input has ended. */
    method Decode() returns (ret: int, finished: bool)
      requires Valid()
      modifies this
      ensures Valid() && emitted == old(emitted) && pts == old(pts)
      ensures if old(input) == [] then ret == 0 && finished && input == [] && consumed == old(consumed)
              else ret == old(input)[0].ret && finished == old(input)[0].finished
                   && input == old(input)[1..] && consumed == old(consumed) + [old(input)[0]]
      ensures fifo == old(fifo) + if old(input) == [] then [] else old(input)[0].samples
    {
      if input == [] {
        return 0, true;
      }
      var d := input[0];
      DecodeConserves(rate, fifo, pts, consumed, emitted, origin, d);
      fifo := fifo + d.samples;
      consumed := consumed + [d];
      input := input[1..];
      return d.ret, d.finished;
    }

    /** `create_audio_frame` */
    method CreateFrame(frameSize: nat)
      requires Valid()
      modifies this
      ensures Valid() && consumed == old(consumed) && input == old(input)
      ensures var n := if |old(fifo)| < frameSize then |old(fifo)| else frameSize;
              && fifo == old(fifo)[n..]
              && emitted == old(emitted) + [Frame(old(fifo)[..n], old(pts))]
    {
      var n := if |fifo| < frameSize then |fifo| else frameSize;
      CutConserves(rate, fifo, pts, consumed, emitted, origin, n);
      emitted := emitted + [Frame(fifo[..n], pts)];
      pts := pts + SampleDuration(n, rate);
      fifo := fifo[n..];
    }

    /** The first loop of `copy_audio_to_frame_buffer`. */
    method DecodeFrame(frameSize: nat) returns (ret: int, finished: bool)
      requires Valid()
      modifies this
      ensures Valid() && emitted == old(emitted) && old(consumed) <= consumed
      ensures var n := |consumed| - |old(consumed)|;
              && DecodedSo(|old(fifo)|, old(input), old(consumed), frameSize, n, consumed, input, |fifo|)
              && (ret < 0 <==> n > 0 && old(input)[n - 1].ret < 0)
              && (ret >= 0 ==> (finished <==> Ended(|old(fifo)|, old(input), frameSize, n)))
      ensures ret >= 0 && !finished ==> |fifo| >= frameSize
    {
      ret, finished := 0, false;
      ghost var have, start, before := |fifo|, input, consumed;
      ghost var n: nat := 0;
      NoCallYet(have, start, before, frameSize);
      while |fifo| < frameSize
        invariant Valid() && emitted == old(emitted) && ret == 0 && !finished
        invariant DecodedSo(have, start, before, frameSize, n, consumed, input, |fifo|)
        invariant n > 0 ==> start[n - 1].ret >= 0 && !start[n - 1].finished
        decreases |input|
      {
        if input != [] {
          OneMoreCall(have, start, before, frameSize, n, consumed, input, |fifo|);
          n := n + 1;
        }
        ret, finished := Decode();
        if ret < 0 {
          return;
        }
        ret := 0;
        if finished {
          break;
        }
      }
    }

    /** `copy_audio_to_frame_buffer`: decodes until there are enough samples for a frame, or the
        input ends, and makes frames of all that is there. It fails iff a decoder call it needs
        does. */
    method CopyToFrameBuffer(frameSize: nat) returns (ret: int, finished: bool)
      requires Valid() && frameSize > 0
      modifies this
      ensures Valid() && old(emitted) <= emitted && old(consumed) <= consumed
      ensures var n := |consumed| - |old(consumed)|;
              && CallsUsed(|old(fifo)|, old(input), frameSize, n)
              && consumed == old(consumed) + old(input)[..n] && input == old(input)[n..]
              && (ret < 0 <==> n > 0 && old(input)[n - 1].ret < 0)
              && (ret >= 0 ==> (finished <==> Ended(|old(fifo)|, old(input), frameSize, n)))
      ensures ret >= 0 ==> |fifo| < frameSize && (finished ==> fifo == [])
      ensures ret >= 0 && !finished ==> |emitted| > |old(emitted)|
      ensures ret >= 0 ==> Framed(emitted, |old(emitted)|, frameSize, finished)
      ensures ret < 0 ==> emitted == old(emitted)
    {
      ret, finished := DecodeFrame(frameSize);
      if ret < 0 {
        return;
      }
      ret := 0;
      ghost var used := consumed;
      ghost var left := input;
      while |fifo| >= frameSize || (finished && |fifo| > 0)
        invariant Valid() && old(emitted) <= emitted && consumed == used && input == left
        invariant |emitted| > |old(emitted)| || finished || |fifo| >= frameSize
        invariant Framed(emitted, |old(emitted)|, frameSize, finished && fifo == [])
        decreases |fifo|
      {
        ghost var was := emitted;
        CreateFrame(frameSize);
        FramedGrows(was, emitted, |old(emitted)|, frameSize, finished && fifo == []);
      }
    }
  }
}
