/** The HLS segmenter of `FFmpeg_Transcoder`: what each operation does to the segment
    counter, the stream masks, the packet FIFO, the frame map and the seek queue. */
module Segmenter {
  import opened Machine
  import opened Options
  import opened HlsTime

  /** `FFMPEGFS_AUDIO` and `FFMPEGFS_VIDEO`, the bits of the stream masks. */
  datatype Media = Audio | Video

  /** The media type an output packet is stored with. */
  datatype Kind = AudioPacket | VideoPacket | SubtitlePacket | AttachmentPacket

  /** Start time and time base of an output stream. */
  datatype Clock = Clock(start: int, num: int, den: int)

  /** An encoded packet; `id` tells packets apart that agree in everything else. */
  datatype Packet = Packet(id: int, kind: Kind, pts: Option<int>, stream: int)

  /** A decoded frame or subtitle waiting in the frame map under its position. `known` is
      false when its stream does not exist, which makes the encoder skip it. */
  datatype Frame = Frame(id: int, key: int, known: bool)

  /** The settings and stream clocks of a transcoder. */
  datatype Config = Config(
    segmentDuration: int, duration: int,
    audio: Clock, video: Clock, subtitles: map<int, Clock>,
    minSeekTime: int, prebufferTime: int)
  {
    ghost predicate Valid() {
      && segmentDuration > 0
      && audio.den > 0 && video.den > 0
      && forall i | i in subtitles :: subtitles[i].den > 0
    }
  }

  /** What the segmenter needs to know of the configuration: the number of segments, the own
      segment of a packet (none if it is not timed) and of a buffered frame, the two seek
      limits in segments, and the span of the frame map to wait for. The operations below are
      stated, and proved right, for every plan; `MakePlan` is the one the code follows. */
  datatype Plan = Plan(
    count: nat, own: Packet -> Option<nat>, at: Frame -> nat,
    minSeek: nat, prebuffer: nat, delay: int)
  {
    ghost predicate Valid() {
      1 <= count < U32 - 1
    }

    function Own(p: Packet): Option<nat> { own(p) }

    function At(f: Frame): nat { at(f) }
  }

  datatype Encoded = Encoded(packets: seq<Packet>, ret: int)

  /** What the foreign calls of one rollover answer. `hasData(n)`: the cache file of segment
      n exists and its read/write position is not 0. */
  datatype RollCalls = RollCalls(hasData: nat -> bool, seek: int, open: int, setSegment: int, header: int)
  {
    predicate HasData(no: nat) { hasData(no) }
  }

  /** The foreign calls: every packet is cloned or written at most once, every frame is
      encoded at most once, and rollovers are numbered, so functions lose no behaviour. What an
      encoder keeps to itself when a store fails may be part of a later answer. */
  datatype Calls = Calls(
    clone: Packet -> int, write: Packet -> int,
    encode: Frame -> Encoded, roll: nat -> RollCalls)
  {
    function Clone(p: Packet): int { clone(p) }

    function Put(p: Packet): int { write(p) }

    function Encode(f: Frame): Encoded { encode(f) }

    function Roll(n: nat): RollCalls { roll(n) }
  }

  const AGAIN := -11
  const INVALID := -22

  datatype Event = Stored(packet: Packet, at: nat) | Rolled | Sought(at: nat)
  datatype Write = Write(segment: nat, packet: Packet)
  datatype Taken = Taken(frame: Frame, segment: nat)

  /** The transcoder's fields, the code of its last call, and logs of what became of
      packets and frames. */
  datatype State = State(
    current: nat, active: set<Media>, inhibit: set<Media>,
    fifo: seq<Packet>, frames: seq<Frame>, seeks: seq<nat>, ret: int,
    written: seq<Write>, lost: seq<Packet>, taken: seq<Taken>, dropped: seq<Frame>,
    rolls: nat, sought: nat, trace: seq<Event>)

  // ----- Which segment a packet or frame belongs to

  function StreamClock(c: Config, p: Packet): (r: Option<Clock>)
    requires c.Valid()
    ensures r.Some? ==> r.value.den > 0
  {
    match p.kind
    case AudioPacket => Some(c.audio)
    case VideoPacket => Some(c.video)
    case SubtitlePacket => if p.stream in c.subtitles then Some(c.subtitles[p.stream]) else None
    case AttachmentPacket => None
  }

  /** Position in microseconds, rounded up and never negative. */
  function Position(k: Clock, pts: int): (pos: int)
    requires k.den > 0
    ensures pos >= 0
  {
    var pos := CeilDiv((pts - k.start) * k.num * TIME_BASE, k.den);
    if pos < 0 then 0 else pos
  }

  /** A packet's own segment; none if it has no time stamp or no timed stream. */
  function OwnSegment(c: Config, p: Packet): Option<nat>
    requires c.Valid()
  {
    match (p.pts, StreamClock(c, p))
    case (Some(pts), Some(k)) => Some(SegmentAt(Position(k, pts), c.segmentDuration))
    case _ => None
  }

  function MakePlan(c: Config): Plan
    requires c.Valid()
  {
    Plan(
      SegmentCount(c.duration, c.segmentDuration),
      (p: Packet) => OwnSegment(c, p),
      (f: Frame) => SegmentAt(f.key, c.segmentDuration),
      ToU32(TruncDiv(c.minSeekTime, c.segmentDuration)),
      ToU32(TruncDiv(c.prebufferTime * TIME_BASE, c.segmentDuration)),
      TruncDiv(c.segmentDuration * 75, 100))
  }

  /** True if a packet that arrives while `current` is encoded is kept for the next one. */
  predicate Ahead(c: Plan, current: nat, p: Packet)
  {
    c.Own(p).Some? && GotoNext(current, c.Own(p).value, c.count)
  }

  function Bit(k: Kind): set<Media> {
    match k
    case AudioPacket => {Audio}
    case VideoPacket => {Video}
    case _ => {}
  }

  // ----- store_packet

  function Store(c: Plan, e: Calls, s: State, p: Packet): (r: State)
    ensures r.frames == s.frames && r.seeks == s.seeks && r.current == s.current
    ensures r.taken == s.taken && r.active == s.active && r.rolls == s.rolls
    ensures r.dropped == s.dropped
    ensures r.sought == s.sought && (r.ret >= 0 ==> |r.lost| == |s.lost|)
  {
    var t := s.(trace := s.trace + [Stored(p, s.current)]);
    if Ahead(c, s.current, p) then
      var u := t.(inhibit := s.inhibit + Bit(p.kind));
      if e.Clone(p) < 0 then
        u.(lost := s.lost + [p], ret := e.Clone(p))
      else
        u.(fifo := s.fifo + [p], ret := 0)
    else if e.Put(p) < 0 then
      t.(lost := s.lost + [p], ret := e.Put(p))
    else
      t.(written := s.written + [Write(s.current, p)], ret := e.Put(p))
  }

  /** The packets one encoder call delivers, stored one after the other. */
  function StoreAll(c: Plan, e: Calls, s: State, ps: seq<Packet>): (r: State)
    ensures r.frames == s.frames && r.seeks == s.seeks && r.current == s.current
    ensures r.taken == s.taken && r.active == s.active && r.rolls == s.rolls
    ensures r.dropped == s.dropped
    ensures r.sought == s.sought && (r.ret >= 0 ==> |r.lost| == |s.lost|)
    decreases |ps|
  {
    if ps == [] || s.ret < 0 then s
    else StoreAll(c, e, Store(c, e, s, ps[0]), ps[1..])
  }

  // ----- The seek queue

  /** `discard_hls_seek_near_beginning` */
  predicate NearBeginning(c: Plan, no: nat)
  {
    c.minSeek != 0 && no <= ToU32(c.minSeek + c.prebuffer + 1)
  }

  /** A seek request that `start_new_segment` drops, `next` being the segment due. */
  predicate Discarded(c: Plan, r: RollCalls, next: nat, no: nat)
  {
    || NearBeginning(c, no)
    || (c.minSeek != 0 && next <= no <= ToU32(next + c.minSeek))
    || r.HasData(no)
  }

  /** The first request that is not dropped, and the queue after it. */
  function FindSeek(c: Plan, r: RollCalls, next: nat, seeks: seq<nat>): (res: (Option<nat>, seq<nat>))
    ensures |res.1| <= |seeks| && (res.0.Some? ==> |res.1| < |seeks|)
  {
    if seeks == [] then (None, [])
    else if Discarded(c, r, next, seeks[0]) then FindSeek(c, r, next, seeks[1..])
    else (Some(seeks[0]), seeks[1..])
  }

  /** The request found is the first of the queue that is not dropped; without one, every
      request is dropped. */
  lemma {:induction false} FindSeekIsFirst(c: Plan, r: RollCalls, next: nat, seeks: seq<nat>)
    ensures var (found, rest) := FindSeek(c, r, next, seeks);
            && (found.None? ==> rest == [] && forall no | no in seeks :: Discarded(c, r, next, no))
            && (found.Some? ==>
                  exists i | 0 <= i < |seeks| ::
                    && seeks[i] == found.value && rest == seeks[i + 1..]
                    && !Discarded(c, r, next, seeks[i])
                    && forall j | 0 <= j < i :: Discarded(c, r, next, seeks[j]))
  {
    if seeks != [] {
      if Discarded(c, r, next, seeks[0]) {
        var (found, rest) := FindSeek(c, r, next, seeks[1..]);
        FindSeekIsFirst(c, r, next, seeks[1..]);
        assert forall no | no in seeks :: no == seeks[0] || no in seeks[1..];
        if found.Some? {
          var i :| 0 <= i < |seeks[1..]| && seeks[1..][i] == found.value && rest == seeks[1..][i + 1..]
                   && forall j | 0 <= j < i :: Discarded(c, r, next, seeks[1..][j]);
          assert seeks[i + 1] == found.value && rest == seeks[i + 2..];
          forall j | 0 <= j < i + 1 ensures Discarded(c, r, next, seeks[j]) {
            assert j > 0 ==> seeks[1..][j - 1] == seeks[j];
          }
        }
      } else {
        assert seeks[0] == seeks[0] && seeks[1..] == seeks[0 + 1..];
      }
    }
  }

  /** `stack_seek_segment` */
  function StackSeek(c: Plan, s: State, no: nat): State
  {
    if 0 < no <= c.count then s.(seeks := s.seeks + [no]) else s
  }

  // ----- start_new_segment

  function PurgeFifo(s: State): State {
    s.(fifo := [], lost := s.lost + s.fifo)
  }

  /** The packets of the FIFO go to the new segment until one of the writes fails. */
  function Replay(e: Calls, s: State): (r: State)
    ensures r.frames == s.frames && r.seeks == s.seeks && r.current == s.current
    ensures r.taken == s.taken && r.active == s.active && r.inhibit == s.inhibit
    ensures r.trace == s.trace && r.rolls == s.rolls && r.dropped == s.dropped
    ensures s.ret >= 0 && r.ret >= 0 ==> r.fifo == [] && r.lost == s.lost
    ensures r.sought == s.sought && (r.ret >= 0 ==> |r.lost| == |s.lost|)
    decreases |s.fifo|
  {
    if s.fifo == [] then s
    else
      var p := s.fifo[0];
      var t := s.(fifo := s.fifo[1..]);
      if e.Put(p) < 0 then
        t.(lost := s.lost + [p], ret := e.Put(p))
      else
        Replay(e, t.(written := s.written + [Write(s.current, p)]))
  }

  /** The part of `start_new_segment` below the seek loop. */
  function Begin(c: Plan, e: Calls, k: RollCalls, s: State, next: nat, reopened: bool): (r: State)
    ensures r.frames == s.frames && r.seeks == s.seeks && r.taken == s.taken
    ensures r.active == s.active && r.rolls == s.rolls && r.trace == s.trace
    ensures r.dropped == s.dropped && r.current == next && r.inhibit == {}
    ensures r.ret >= 0 ==> 1 <= next <= c.count
    ensures r.sought == s.sought && (r.ret >= 0 ==> |r.lost| == |s.lost|)
  {
    var t := s.(current := next, inhibit := {});
    if next < 1 || c.count < next then
      t.(ret := INVALID)
    else if k.setSegment < 0 then
      t.(ret := k.setSegment)
    else if !reopened && k.header != 0 then
      t.(ret := k.header)
    else
      Replay(e, t.(ret := 0))
  }

  /** What an accepted seek to segment `no` discards: close_output_file() purges the frame map
      and the FIFO. */
  function Reopened(s: State, no: nat): State {
    s.(fifo := [], lost := s.lost + s.fifo, frames := [], dropped := s.dropped + s.frames,
       inhibit := {}, current := no, sought := s.sought + 1, trace := s.trace + [Sought(s.current)])
  }

  function SeekTo(c: Plan, e: Calls, k: RollCalls, s: State, no: nat): (r: State)
  {
    if k.seek < 0 then s.(ret := k.seek)
    else if k.open < 0 then Reopened(s, no).(ret := k.open)
    else Begin(c, e, k, Reopened(s, no), no, true)
  }

  /** Goes to the segment sought, or to the one that is due. */
  function Enter(c: Plan, e: Calls, k: RollCalls, s: State, next: nat, found: Option<nat>): (r: State)
    ensures r.sought >= s.sought
    ensures r.ret >= 0 && r.sought == s.sought ==> |r.lost| == |s.lost| && |r.dropped| == |s.dropped|
  {
    if found.Some? then SeekTo(c, e, k, s, found.value)
    else Begin(c, e, k, s.(trace := s.trace + [Rolled]), next, false)
  }

  /** A rollover call is under way, with the requests dropped so far off the queue. */
  function Called(s: State, seeks: seq<nat>): State {
    s.(seeks := seeks, rolls := s.rolls + 1)
  }

  function RollOver(c: Plan, e: Calls, s: State): (r: State)
    ensures r.sought >= s.sought
    ensures r.ret >= 0 && r.sought == s.sought ==> |r.lost| == |s.lost| && |r.dropped| == |s.dropped|
  {
    var next := ToU32(s.current + 1);
    var search := FindSeek(c, e.Roll(s.rolls), next, s.seeks);
    Enter(c, e, e.Roll(s.rolls), Called(s, search.1), next, search.0)
  }

  lemma RollOverEnters(c: Plan, e: Calls, s: State, found: (Option<nat>, seq<nat>))
    requires found == FindSeek(c, e.Roll(s.rolls), ToU32(s.current + 1), s.seeks)
    ensures RollOver(c, e, s) ==
            Enter(c, e, e.Roll(s.rolls), Called(s, found.1), ToU32(s.current + 1), found.0)
  {
  }

  // ----- initialise_hls_output_segment

  /** The first stacked seek that is neither near the beginning nor segment 1. */
  function FirstSeek(c: Plan, seeks: seq<nat>): (res: (Option<nat>, seq<nat>))
    ensures |res.1| <= |seeks|
    ensures res.0.Some? ==> res.0.value > 1 && !NearBeginning(c, res.0.value)
  {
    if seeks == [] then (None, [])
    else if NearBeginning(c, seeks[0]) || seeks[0] <= 1 then FirstSeek(c, seeks[1..])
    else (Some(seeks[0]), seeks[1..])
  }

  function Select(c: Plan, k: RollCalls, s: State): State
  {
    if c.count == 0 || s.current == 0 || s.current > c.count then s.(ret := INVALID)
    else s.(ret := if k.setSegment < 0 then k.setSegment else 0)
  }

  function StartAt(c: Plan, k: RollCalls, s: State, found: Option<nat>): State
  {
    if found.None? then Select(c, k, s.(current := 1))
    else if k.seek < 0 then s.(current := 1, ret := k.seek)
    else Select(c, k, PurgeFifo(s).(current := found.value))
  }

  /** Chooses the segment the output is opened at; a video PTS other than 0 skips all of it. */
  function Initialise(c: Plan, k: RollCalls, s: State, videoPts: int): State
  {
    if videoPts != 0 then s.(ret := 0)
    else if s.current > 1 then Select(c, k, s)
    else
      var (found, rest) := FirstSeek(c, s.seeks);
      StartAt(c, k, s.(seeks := rest), found)
  }

  // ----- The frame map and process_single_fr

  /** `multimap::emplace`: behind the entries with the same key. */
  function Emplace(frames: seq<Frame>, f: Frame): (r: seq<Frame>)
    ensures multiset(r) == multiset(frames) + multiset{f}
  {
    if frames != [] && frames[0].key <= f.key then
      assert frames == [frames[0]] + frames[1..];
      [frames[0]] + Emplace(frames[1..], f)
    else
      [f] + frames
  }

  function BufferFrame(s: State, f: Frame): State {
    s.(frames := Emplace(s.frames, f))
  }

  function EncodedPackets(e: Calls, f: Frame): Encoded {
    if f.known then e.Encode(f) else Encoded([], 0)
  }

  /** The first frame leaves the map. */
  function Unmap(s: State): State
    requires s.frames != []
  {
    s.(frames := s.frames[1..], taken := s.taken + [Taken(s.frames[0], s.current)], ret := 0)
  }

  /** One frame leaves the map and is encoded. A packet that cannot be stored ends the
      call, and AVERROR(EAGAIN) passes for success whoever reports it. */
  function TakeFrame(c: Plan, e: Calls, s: State): (r: State)
    requires s.frames != []
    ensures r.frames == s.frames[1..] && r.seeks == s.seeks && r.current == s.current
    ensures r.taken == s.taken + [Taken(s.frames[0], s.current)]
    ensures r.active == s.active && r.rolls == s.rolls && r.dropped == s.dropped
    ensures r.sought == s.sought
  {
    var out := EncodedPackets(e, s.frames[0]);
    var t := StoreAll(c, e, Unmap(s), out.packets);
    var code := if t.ret < 0 then t.ret else out.ret;
    t.(ret := if code < 0 && code != AGAIN then code else 0)
  }

  predicate AtBoundary(c: Plan, s: State)
  {
    s.frames != [] && GotoNext(s.current, c.At(s.frames[0]), c.count)
  }

  /** The inner loop: frames are taken until the map is empty or its first frame opens the
      next segment, which inhibits every active stream. */
  function DrainFrames(c: Plan, e: Calls, s: State): (r: State)
    ensures r.seeks == s.seeks && r.current == s.current && r.active == s.active
    ensures r.rolls == s.rolls && r.dropped == s.dropped
    ensures |r.frames| <= |s.frames|
    ensures r.ret >= 0 && r.frames != [] ==> AtBoundary(c, r) && r.inhibit == r.active
    ensures r.sought == s.sought
    decreases |s.frames|
  {
    if s.frames == [] || s.ret < 0 then s
    else if AtBoundary(c, s) then s.(inhibit := s.active)
    else DrainFrames(c, e, TakeFrame(c, e, s))
  }

  /** While decoding goes on, frames wait until the map spans 75 percent of a segment. */
  predicate TooEarly(c: Plan, s: State, finished: bool)
  {
    !finished && s.frames != []
    && s.frames[0].key + c.delay > s.frames[|s.frames| - 1].key
  }

  /** The caller only keeps negative codes. */
  function Settle(s: State): State {
    if s.ret < 0 then s else s.(ret := 0)
  }

  /** One pass of the outer loop. */
  function DrainOnce(c: Plan, e: Calls, s: State): (r: State)
    ensures r.sought >= s.sought
  {
    var t := DrainFrames(c, e, s);
    if t.ret < 0 || t.active != t.inhibit then t
    else Settle(RollOver(c, e, t))
  }

  lemma DrainOnceEnds(c: Plan, e: Calls, s: State, t: State, u: State)
    requires t == DrainFrames(c, e, s) && t.ret >= 0 && t.active == t.inhibit
    requires u == RollOver(c, e, t)
    ensures DrainOnce(c, e, s) == Settle(u)
  {
  }

  lemma DrainProgress(c: Plan, e: Calls, s: State)
    requires c.Valid() && s.current <= c.count
    ensures var t := DrainOnce(c, e, s);
            t.ret >= 0 && t.frames != [] ==>
              && t.current <= c.count
              && |t.seeks| <= |s.seeks|
              && (|t.seeks| < |s.seeks| || t.current == s.current + 1)
  {
  }

  /** The `do ... while (finished && !m_frame_map.empty())` loop of `process_single_fr`. It
      ends: a pass that leaves frames behind raised the segment counter or used up a seek. */
  function Drain(c: Plan, e: Calls, s: State, finished: bool): (r: State)
    requires c.Valid() && s.current <= c.count
    ensures r.sought >= s.sought
    decreases |s.seeks|, c.count - s.current
  {
    if TooEarly(c, s, finished) then s
    else
      var t := DrainOnce(c, e, s);
      if t.ret >= 0 && finished && t.frames != [] then
        DrainProgress(c, e, s);
        Drain(c, e, t, finished)
      else
        t
  }
}
