/** What the plan of a configuration computes, in microseconds and segment numbers: which
    segment a packet or frame belongs to, which seek requests are dropped, and how long frames
    wait. */
module SegmenterPlan {
  import opened Machine
  import opened Options
  import opened HlsTime
  import opened Segmenter
  import opened SegmenterRuns

  // ----- Packets

  /** `k` is the clock of the packet's own stream. */
  ghost predicate HasClock(c: Config, p: Packet, k: Clock) {
    || (p.kind == AudioPacket && k == c.audio)
    || (p.kind == VideoPacket && k == c.video)
    || (p.kind == SubtitlePacket && p.stream in c.subtitles && k == c.subtitles[p.stream])
  }

  /** `pos` is the first whole microsecond, from 0 on, that is not before the time stamp. */
  ghost predicate IsPosition(k: Clock, pts: int, pos: int) {
    var scaled := (pts - k.start) * k.num * 1_000_000;
    && pos >= 0 && scaled <= pos * k.den
    && (pos > 0 ==> (pos - 1) * k.den < scaled)
  }

  /** A position lies in the segment `n` of length `d`; they count from 1. */
  ghost predicate Within(pos: int, d: int, n: int) {
    (n - 1) * d <= pos < n * d
  }

  /** The clock of a packet is that of the stream it is stored for. */
  lemma ClockIs(c: Config, p: Packet, k: Clock)
    requires c.Valid() && HasClock(c, p, k)
    ensures StreamClock(c, p) == Some(k)
  {
  }

  lemma PositionIs(k: Clock, pts: int, pos: int)
    requires k.den > 0 && IsPosition(k, pts, pos)
    ensures Position(k, pts) == pos
  {
    var x := (pts - k.start) * k.num * TIME_BASE;
    if pos > 0 {
      assert (-pos) * k.den == -(pos * k.den) && (pos - 1) * k.den == pos * k.den - k.den;
      DivUnique(-x, k.den, -pos);
    } else {
      DivMonotone(0, -x, k.den);
      DivUnique(0, k.den, 0);
    }
  }

  lemma SegmentAtIs(pos: int, d: int)
    requires d > 0 && -d < pos && pos / d + 1 < U32
    ensures SegmentAt(pos, d) >= 1
    ensures if pos >= 0 then Within(pos, d, SegmentAt(pos, d)) else SegmentAt(pos, d) == 1
  {
    if pos >= 0 {
      DivBounds(pos, d);
      DivMonotone(0, pos, d);
      DivUnique(0, d, 0);
    } else {
      DivUnique(-pos, d, 0);
    }
  }

  /** The own segment of a timed packet is the one its position, by the clock of its own
      stream, lies in. */
  lemma OwnSegmentIs(c: Config, p: Packet, k: Clock, pos: int)
    requires c.Valid() && HasClock(c, p, k) && p.pts.Some? && IsPosition(k, p.pts.value, pos)
    requires pos / c.segmentDuration + 1 < U32
    ensures MakePlan(c).Own(p).Some? && Within(pos, c.segmentDuration, MakePlan(c).Own(p).value)
  {
    ClockIs(c, p, k);
    PositionIs(k, p.pts.value, pos);
    DivMonotone(0, pos, c.segmentDuration);
    SegmentAtIs(pos, c.segmentDuration);
  }

  /** A packet without time stamp or timed stream has no own segment, and no others have none. */
  lemma NoOwnSegmentIff(c: Config, p: Packet)
    requires c.Valid()
    ensures MakePlan(c).Own(p).None? <==>
              || p.pts.None? || p.kind == AttachmentPacket
              || (p.kind == SubtitlePacket && p.stream !in c.subtitles)
  {
  }

  /** Every time stamp has a position. */
  lemma PositionExists(k: Clock, pts: int)
    requires k.den > 0
    ensures IsPosition(k, pts, Position(k, pts))
  {
    var x := (pts - k.start) * k.num * TIME_BASE;
    var up := CeilDiv(x, k.den);
    DivBounds(-x, k.den);
    assert (-up) * k.den == -(up * k.den);
    assert (up - 1) * k.den == up * k.den - k.den;
    if up < 0 {
      MulMonotone(up, 0, k.den);
    }
  }

  /** Which streams a packet kind inhibits. */
  lemma InhibitedBy(k: Kind)
    ensures Audio in Bit(k) <==> k == AudioPacket
    ensures Video in Bit(k) <==> k == VideoPacket
  {
  }

  /** Placement in time: whatever is written to segment `n` of a transcoder in a good state
      belongs there by its time stamp if it was held back, and is not due behind segment `n`,
      unless that is the last one, if no packet arrives more than one segment ahead. */
  lemma WrittenInTime(c: Config, s: State, n: nat, p: Packet, k: Clock, pos: int)
    requires c.Valid() && MakePlan(c).Valid() && Good(MakePlan(c), s) && p in Output(s.written, n)
    requires HasClock(c, p, k) && p.pts.Some? && IsPosition(k, p.pts.value, pos)
    requires pos / c.segmentDuration + 1 < U32
    ensures exists at: nat :: Stored(p, at) in s.trace
                              && (at == n || (at + 1 == n && Within(pos, c.segmentDuration, n)))
    ensures NoJump(MakePlan(c), s.trace) ==> pos < n * c.segmentDuration || n >= MakePlan(c).count
  {
    var plan := MakePlan(c);
    OwnSegmentIs(c, p, k, pos);
    PacketPlacement(plan, s, n, p);
    if plan.Own(p).value <= n {
      MulMonotone(plan.Own(p).value, n, c.segmentDuration);
    }
  }

  // ----- Frames and settings

  /** A frame belongs to the segment its key lies in, the first one if that is a little early. */
  lemma FrameSegmentIs(c: Config, f: Frame)
    requires c.Valid() && -c.segmentDuration < f.key && f.key / c.segmentDuration + 1 < U32
    ensures if f.key >= 0 then Within(f.key, c.segmentDuration, MakePlan(c).At(f)) else MakePlan(c).At(f) == 1
  {
    SegmentAtIs(f.key, c.segmentDuration);
  }

  /** The last segment is the one that ends behind the point 200 ms before the end. */
  lemma CountIs(c: Config)
    requires c.Valid() && c.duration >= 200_000
    requires (c.duration - 200_000) / c.segmentDuration + 1 < U32
    ensures Within(c.duration - 200_000, c.segmentDuration, MakePlan(c).count)
  {
    var d := c.segmentDuration;
    var m := (c.duration - TAIL) / d;
    DivBounds(c.duration - TAIL, d);
    DivMonotone(0, c.duration - TAIL, d);
    DivUnique(0, d, 0);
    assert MakePlan(c).count == m + 1;
    assert (m + 1) * d == m * d + d;
  }

  /** The seek limits are whole segments, rounded down; the prebuffer time is in seconds. */
  lemma SeekLimitsAre(c: Config)
    requires c.Valid() && 0 <= c.minSeekTime && c.minSeekTime / c.segmentDuration < U32
    requires 0 <= c.prebufferTime && c.prebufferTime * 1_000_000 / c.segmentDuration < U32
    ensures Within(c.minSeekTime, c.segmentDuration, MakePlan(c).minSeek + 1)
    ensures Within(c.prebufferTime * 1_000_000, c.segmentDuration, MakePlan(c).prebuffer + 1)
  {
    var d := c.segmentDuration;
    DivBounds(c.minSeekTime, d);
    DivBounds(c.prebufferTime * 1_000_000, d);
    DivUnique(0, d, 0);
    DivMonotone(0, c.minSeekTime, d);
    DivMonotone(0, c.prebufferTime * 1_000_000, d);
  }

  /** Before the end of the input, the drain waits, leaving everything alone, exactly until the
      map spans 75 percent of a segment (in whole microseconds); then it makes one pass. */
  lemma DrainWaitsIff(c: Config, e: Calls, s: State)
    requires c.Valid() && MakePlan(c).Valid() && s.current <= MakePlan(c).count
    ensures var waits := s.frames != [] &&
                         100 * (s.frames[|s.frames| - 1].key - s.frames[0].key + 1) <= 75 * c.segmentDuration;
            && (TooEarly(MakePlan(c), s, false) <==> waits)
            && Drain(MakePlan(c), e, s, false) == if waits then s else DrainOnce(MakePlan(c), e, s)
  {
    DivBounds(c.segmentDuration * 75, 100);
  }

  /** At the end of the input it never waits. */
  lemma DrainNeverWaitsAtEnd(c: Plan, s: State)
    ensures !TooEarly(c, s, true)
  {
  }

  // ----- Seek requests

  /** A request too near the beginning for a seek to pay: it is dropped wherever encoding is. */
  ghost predicate NearStart(c: Plan, no: nat) {
    c.minSeek > 0 && no <= c.minSeek + c.prebuffer + 1
  }

  /** When a rollover to `next` drops a request: near the beginning, at most the minimum seek
      distance ahead, or with data already in its cache file. */
  lemma DiscardedIff(c: Plan, k: RollCalls, next: nat, no: nat)
    requires c.minSeek + c.prebuffer + 1 < U32 && next + c.minSeek < U32
    ensures Discarded(c, k, next, no) <==>
              || NearStart(c, no)
              || (c.minSeek > 0 && next <= no && no - next <= c.minSeek)
              || k.hasData(no)
  {
  }

  lemma FirstSeekCons(c: Plan, seeks: seq<nat>, i: nat)
    requires i + 1 < |seeks| && (seeks[0] <= 1 || NearStart(c, seeks[0]))
    requires forall j | 0 <= j < i :: seeks[1..][j] <= 1 || NearStart(c, seeks[1..][j])
    ensures seeks[1..][i] == seeks[i + 1] && seeks[1..][i + 1..] == seeks[i + 2..]
    ensures forall j | 0 <= j < i + 1 :: seeks[j] <= 1 || NearStart(c, seeks[j])
  {
    forall j | 0 <= j < i + 1 ensures seeks[j] <= 1 || NearStart(c, seeks[j]) {
      assert j > 0 ==> seeks[1..][j - 1] == seeks[j];
    }
  }

  /** The initial seek goes to the first request behind segment 1 that is not near the start;
      requests before it are dropped, those behind it stay queued. */
  lemma {:induction false} FirstSeekIsFirst(c: Plan, seeks: seq<nat>)
    requires c.minSeek + c.prebuffer + 1 < U32
    ensures var (found, rest) := FirstSeek(c, seeks);
            && (found.None? ==> rest == [] && forall no | no in seeks :: no <= 1 || NearStart(c, no))
            && (found.Some? ==>
                  exists i | 0 <= i < |seeks| ::
                    && seeks[i] == found.value && rest == seeks[i + 1..]
                    && seeks[i] > 1 && !NearStart(c, seeks[i])
                    && forall j | 0 <= j < i :: seeks[j] <= 1 || NearStart(c, seeks[j]))
    decreases |seeks|
  {
    if seeks != [] {
      if seeks[0] <= 1 || NearStart(c, seeks[0]) {
        var rest := seeks[1..];
        FirstSeekIsFirst(c, rest);
        assert forall no | no in seeks :: no == seeks[0] || no in rest;
        if FirstSeek(c, rest).0.Some? {
          var i :| 0 <= i < |rest| && rest[i] == FirstSeek(c, rest).0.value && FirstSeek(c, rest).1 == rest[i + 1..]
                   && rest[i] > 1 && !NearStart(c, rest[i])
                   && forall j | 0 <= j < i :: rest[j] <= 1 || NearStart(c, rest[j]);
          FirstSeekCons(c, seeks, i);
        }
      } else {
        assert seeks[1..] == seeks[0 + 1..];
      }
    }
  }

  /** A request for an existing segment goes to the end of the queue; others leave no trace. */
  lemma StackSeekQueues(c: Plan, s: State, no: nat)
    ensures StackSeek(c, s, no).seeks == s.seeks + if 1 <= no && no <= c.count then [no] else []
    ensures StackSeek(c, s, no) == s.(seeks := StackSeek(c, s, no).seeks)
  {
  }

  // ----- Opening the output

  /** A nonzero video PTS skips everything. Else a preset segment stays, and only a preset
      segment keeps the queue; an initial seek that succeeds drops what is held back, and
      without one the output starts at segment 1. Exactly the calls that are made can fail. */
  lemma InitialiseIs(c: Plan, k: RollCalls, s: State, videoPts: int)
    requires c.Valid() && s.current <= c.count && forall no | no in s.seeks :: no <= c.count
    ensures videoPts != 0 ==> Initialise(c, k, s, videoPts) == s.(ret := 0)
    ensures videoPts == 0 ==>
              var r := Initialise(c, k, s, 0);
              var seek := FirstSeek(c, s.seeks).0;
              && (r.ret >= 0 ==> r.ret == 0)
              && if s.current > 1 then
                   r == s.(ret := r.ret) && (r.ret < 0 <==> k.setSegment < 0)
                 else
                   && (r.ret < 0 <==> (seek.Some? && k.seek < 0) || k.setSegment < 0)
                   && r.seeks == FirstSeek(c, s.seeks).1 && r.frames == s.frames
                   && (if seek.Some? && k.seek >= 0
                       then r.current == seek.value && r.fifo == [] && r.lost == s.lost + s.fifo
                       else r.current == 1 && r.fifo == s.fifo && r.lost == s.lost)
  {
    FirstSeekTakes(c, s.seeks);
  }
}
