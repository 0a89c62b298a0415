/** `FFmpeg_Transcoder` as the object it is: its methods update the fields step by step, and
    each is proved against the function of the same operation in `Segmenter`. */
module HlsTranscoder {
  import opened Machine
  import opened Options
  import opened HlsTime
  import opened Segmenter
  import opened SegmenterRuns

  lemma InitialiseStarts(c: Plan, k: RollCalls, s: State, t: State, found: Option<nat>)
    requires s.current <= 1 && t == s.(seeks := t.seeks)
    requires (found, t.seeks) == FirstSeek(c, s.seeks)
    ensures Initialise(c, k, s, 0) == StartAt(c, k, t, found)
  {
  }

  lemma StoreIgnoresCode(c: Plan, e: Calls, s: State, p: Packet)
    ensures Store(c, e, s, p) == Store(c, e, s.(ret := 0), p)
  {
  }

  class Transcoder {
    const plan: Plan
    const calls: Calls

    var current: nat
    var active: set<Media>
    var inhibit: set<Media>
    var fifo: seq<Packet>
    var frames: seq<Frame>
    var seeks: seq<nat>
    var rolls: nat

    ghost var written: seq<Write>
    ghost var lost: seq<Packet>
    ghost var taken: seq<Taken>
    ghost var dropped: seq<Frame>
    ghost var sought: nat
    ghost var trace: seq<Event>

    ghost function Now(ret: int): State
      reads this
    {
      State(current, active, inhibit, fifo, frames, seeks, ret,
            written, lost, taken, dropped, rolls, sought, trace)
    }

    constructor (config: Config, calls: Calls, active: set<Media>)
      requires config.Valid()
      ensures plan == MakePlan(config) && this.calls == calls
      ensures Now(0) == State(1, active, {}, [], [], [], 0, [], [], [], [], 0, 0, [])
    {
      plan := MakePlan(config);
      this.calls := calls;
      this.active := active;
      current, inhibit, fifo, frames, seeks, rolls := 1, {}, [], [], [], 0;
      written, lost, taken, dropped, sought, trace := [], [], [], [], 0, [];
    }

    method StorePacket(p: Packet) returns (ret: int)
      modifies this
      ensures Now(ret) == Store(plan, calls, old(Now(0)), p)
    {
      trace := trace + [Stored(p, current)];
      var own := plan.Own(p);
      if own.Some? && GotoNext(current, own.value, plan.count) {
        inhibit := inhibit + Bit(p.kind);
        ret := calls.Clone(p);
        if ret < 0 {
          lost := lost + [p];
        } else {
          fifo := fifo + [p];
          ret := 0;
        }
        return;
      }
      ret := calls.Put(p);
      if ret < 0 {
        lost := lost + [p];
      } else {
        written := written + [Write(current, p)];
      }
    }

    method StackSeekSegment(no: nat) returns (ret: int)
      modifies this
      ensures Now(0) == StackSeek(plan, old(Now(0)), no)
      ensures seeks == old(seeks) + if 0 < no <= plan.count then [no] else []
      ensures ret == 0 <==> 0 < no <= plan.count
    {
      if no > 0 && no <= plan.count {
        seeks := seeks + [no];
        return 0;
      }
      return INVALID;
    }

    /** `multimap::emplace`: the map stays sorted, and the frame comes behind those with the
        same position. */
    method EmplaceFrame(f: Frame)
      requires Sorted(frames)
      modifies this
      ensures Now(0) == BufferFrame(old(Now(0)), f)
      ensures Sorted(frames)
      ensures exists k :: InsertedAt(old(frames), f, frames, k)
    {
      ghost var k := EmplaceSorts(frames, f);
      frames := Emplace(frames, f);
    }

    /** Pops seek requests until one does not start at the beginning. */
    method PopFirstSeek() returns (found: Option<nat>)
      modifies this`seeks
      ensures (found, seeks) == FirstSeek(plan, old(seeks))
    {
      found := None;
      while seeks != [] && found.None?
        invariant FirstSeek(plan, old(seeks)) ==
                    if found.None? then FirstSeek(plan, seeks) else (found, seeks)
        decreases |seeks|
      {
        var no := seeks[0];
        seeks := seeks[1..];
        if !NearBeginning(plan, no) && no > 1 {
          found := Some(no);
        }
      }
    }

    method SelectSegment(k: RollCalls) returns (ret: int)
      ensures Now(ret) == Select(plan, k, Now(0))
    {
      if plan.count == 0 || current == 0 || current > plan.count {
        return INVALID;
      }
      return if k.setSegment < 0 then k.setSegment else 0;
    }

    /** Positions the input at the initial seek, if there is one. */
    method StartAtSegment(k: RollCalls, found: Option<nat>) returns (ret: int)
      modifies this
      ensures Now(ret) == StartAt(plan, k, old(Now(0)), found)
    {
      current := 1;
      if found.Some? {
        if k.seek < 0 {
          return k.seek;
        }
        lost := lost + fifo;
        fifo := [];
        current := found.value;
      }
      ret := SelectSegment(k);
    }

    /** No segment is chosen yet: the first seek that counts chooses it. */
    method InitialiseFromQueue(k: RollCalls) returns (ret: int)
      requires current <= 1
      modifies this
      ensures Now(ret) == Initialise(plan, k, old(Now(0)), 0)
    {
      ghost var start := Now(0);
      var found := PopFirstSeek();
      InitialiseStarts(plan, k, start, Now(0), found);
      ret := StartAtSegment(k, found);
    }

    method InitialiseHlsOutputSegment(videoPts: int, k: RollCalls) returns (ret: int)
      modifies this
      ensures Now(ret) == Initialise(plan, k, old(Now(0)), videoPts)
    {
      if videoPts != 0 {
        ret := 0;
      } else if current > 1 {
        ret := SelectSegment(k);
      } else {
        ret := InitialiseFromQueue(k);
      }
    }

    /** Pops seek requests until one is accepted. */
    method PopSeek(k: RollCalls, next: nat) returns (found: Option<nat>)
      modifies this`seeks
      ensures (found, seeks) == FindSeek(plan, k, next, old(seeks))
    {
      found := None;
      while seeks != [] && found.None?
        invariant FindSeek(plan, k, next, old(seeks)) ==
                    if found.None? then FindSeek(plan, k, next, seeks) else (found, seeks)
        decreases |seeks|
      {
        var no := seeks[0];
        seeks := seeks[1..];
        if !Discarded(plan, k, next, no) {
          found := Some(no);
        }
      }
    }

    /** Flushes the FIFO to the segment just begun. */
    method ReplayFifo() returns (ret: int)
      modifies this
      ensures Now(ret) == Replay(calls, old(Now(0)))
    {
      ret := 0;
      while fifo != []
        invariant Replay(calls, old(Now(0))) == Replay(calls, Now(0)) && ret == 0
        decreases |fifo|
      {
        var p := fifo[0];
        fifo := fifo[1..];
        var r := calls.Put(p);
        if r < 0 {
          lost := lost + [p];
          return r;
        }
        written := written + [Write(current, p)];
      }
    }

    /** `start_new_segment` from the point where the segment number is known. */
    method BeginSegment(k: RollCalls, next: nat, reopened: bool) returns (ret: int)
      modifies this
      ensures Now(ret) == Begin(plan, calls, k, old(Now(0)), next, reopened)
    {
      current := next;
      inhibit := {};
      if next < 1 || plan.count < next {
        return INVALID;
      }
      if k.setSegment < 0 {
        return k.setSegment;
      }
      if !reopened && k.header != 0 {
        return k.header;
      }
      ret := ReplayFifo();
    }

    /** Drops what belongs to the old position. */
    method Reopen(no: nat)
      modifies this
      ensures Now(0) == Reopened(old(Now(0)), no)
    {
      lost, fifo := lost + fifo, [];
      dropped, frames := dropped + frames, [];
      trace, sought := trace + [Sought(current)], sought + 1;
      inhibit := {};
      current := no;
    }

    /** Reopens the output at segment `no` and begins it. */
    method SeekToSegment(k: RollCalls, no: nat) returns (ret: int)
      modifies this
      ensures Now(ret) == SeekTo(plan, calls, k, old(Now(0)), no)
    {
      if k.seek < 0 {
        return k.seek;
      }
      Reopen(no);
      if k.open < 0 {
        return k.open;
      }
      ret := BeginSegment(k, no, true);
    }

    method EnterSegment(k: RollCalls, next: nat, found: Option<nat>) returns (ret: int)
      modifies this
      ensures Now(ret) == Enter(plan, calls, k, old(Now(0)), next, found)
    {
      if found.Some? {
        ret := SeekToSegment(k, found.value);
      } else {
        trace := trace + [Rolled];
        ret := BeginSegment(k, next, false);
      }
    }

    method StartNewSegment() returns (ret: int)
      modifies this
      ensures Now(ret) == RollOver(plan, calls, old(Now(0)))
    {
      ghost var start := Now(0);
      var k := calls.Roll(rolls);
      rolls := rolls + 1;
      var next := ToU32(current + 1);
      var found := PopSeek(k, next);
      assert Now(0) == Called(start, seeks);
      RollOverEnters(plan, calls, start, (found, seeks));
      ret := EnterSegment(k, next, found);
    }

    /** One frame is erased from the map and encoded; the packets are stored as they come. */
    method EncodeFirstFrame() returns (ret: int)
      requires frames != []
      modifies this
      ensures Now(ret) == TakeFrame(plan, calls, old(Now(0)))
    {
      var f := frames[0];
      taken := taken + [Taken(f, current)];
      frames := frames[1..];
      var out := EncodedPackets(calls, f);
      ghost var start := Now(0);
      ret := 0;
      var i := 0;
      while i < |out.packets| && ret >= 0
        invariant 0 <= i <= |out.packets|
        invariant StoreAll(plan, calls, start, out.packets) ==
                  StoreAll(plan, calls, Now(ret), out.packets[i..])
      {
        ghost var s := Now(ret);
        ret := StorePacket(out.packets[i]);
        StoreIgnoresCode(plan, calls, s, out.packets[i]);
        assert out.packets[i..][1..] == out.packets[i + 1..];
        i := i + 1;
      }
      if ret >= 0 {
        ret := out.ret;
      }
      if ret >= 0 || ret == AGAIN {
        ret := 0;
      }
    }

    method DrainFrameMap() returns (ret: int)
      modifies this
      ensures Now(ret) == DrainFrames(plan, calls, old(Now(0))) && ret <= 0
    {
      ret := 0;
      while frames != []
        invariant ret == 0 && DrainFrames(plan, calls, old(Now(0))) == DrainFrames(plan, calls, Now(0))
        decreases |frames|
      {
        if GotoNext(current, plan.At(frames[0]), plan.count) {
          inhibit := active;
          return;
        }
        ghost var s := Now(0);
        ret := EncodeFirstFrame();
        if ret < 0 {
          return;
        }
        assert ret == 0;
      }
    }

    /** One pass of the loop in `process_single_fr`. */
    method ProcessOnce() returns (ret: int)
      modifies this
      ensures Now(ret) == DrainOnce(plan, calls, old(Now(0))) && ret <= 0
    {
      ghost var start := Now(0);
      ret := DrainFrameMap();
      if ret < 0 || active != inhibit {
        return;
      }
      ghost var drained := Now(0);
      ret := StartNewSegment();
      DrainOnceEnds(plan, calls, start, drained, Now(ret));
      ret := if ret < 0 then ret else 0;
    }

    /** The output part of `process_single_fr`. */
    method ProcessFrames(finished: bool) returns (ret: int)
      requires plan.Valid() && current <= plan.count
      modifies this
      ensures Now(ret) == Drain(plan, calls, old(Now(0)), finished)
    {
      ghost var start := Now(0);
      while true
        invariant current <= plan.count
        invariant Drain(plan, calls, start, finished) == Drain(plan, calls, Now(0), finished)
        decreases |seeks|, plan.count - current
      {
        ghost var s := Now(0);
        if !finished && frames != [] && frames[0].key + plan.delay > frames[|frames| - 1].key {
          return 0;
        }
        ret := ProcessOnce();
        if ret < 0 || !finished || frames == [] {
          return;
        }
        DrainProgress(plan, calls, s);
      }
    }
  }
}
