/** The segment counter and the stream masks in every run, whatever the foreign calls answer:
    the counter never leaves the playlist, no rollover goes to a segment that does not exist,
    and the masks say exactly when a rollover is due. */
module SegmenterCounter {
  import opened Machine
  import opened Options
  import opened HlsTime
  import opened Segmenter
  import opened SegmenterRuns

  // ----- The counter

  ghost predicate Inside(c: Plan, s: State) {
    && 1 <= s.current <= c.count
    && s.inhibit <= s.active
    && (s.inhibit != {} ==> s.current < c.count)
    && (forall no | no in s.seeks :: 1 <= no <= c.count)
  }

  ghost predicate RollSucceeds(k: RollCalls) {
    k.seek >= 0 && k.open >= 0 && k.setSegment >= 0 && k.header == 0
  }

  /** Every foreign call succeeds; an encoder may ask for more input. */
  ghost predicate AllSucceed(e: Calls) {
    && (forall p: Packet :: e.Clone(p) >= 0 && e.Put(p) >= 0)
    && (forall f: Frame :: e.Encode(f).ret >= 0 || e.Encode(f).ret == AGAIN)
    && (forall n: nat :: RollSucceeds(e.Roll(n)))
  }

  lemma StoreStaysInside(c: Plan, e: Calls, s: State, p: Packet)
    requires c.Valid() && Inside(c, s) && Bit(p.kind) <= s.active
    ensures Inside(c, Store(c, e, s, p))
    ensures AllSucceed(e) ==> Store(c, e, s, p).ret >= 0
  {
    if Ahead(c, s.current, p) {
      GotoNextIsSuccessor(s.current, c.Own(p).value, c.count);
    }
  }

  lemma {:induction false} StoreAllStaysInside(c: Plan, e: Calls, s: State, ps: seq<Packet>)
    requires c.Valid() && Inside(c, s) && forall p | p in ps :: Bit(p.kind) <= s.active
    ensures Inside(c, StoreAll(c, e, s, ps))
    ensures AllSucceed(e) && s.ret >= 0 ==> StoreAll(c, e, s, ps).ret >= 0
    decreases |ps|
  {
    if ps != [] && s.ret >= 0 {
      StoreStaysInside(c, e, s, ps[0]);
      StoreAllStaysInside(c, e, Store(c, e, s, ps[0]), ps[1..]);
    }
  }

  lemma TakeFrameStaysInside(c: Plan, e: Calls, s: State)
    requires c.Valid() && Inside(c, s) && TypedCalls(e, s.active) && s.frames != []
    ensures Inside(c, TakeFrame(c, e, s))
    ensures AllSucceed(e) ==> TakeFrame(c, e, s).ret >= 0
  {
    StoreAllStaysInside(c, e, Unmap(s), EncodedPackets(e, s.frames[0]).packets);
  }

  lemma {:induction false} DrainFramesStaysInside(c: Plan, e: Calls, s: State)
    requires c.Valid() && Inside(c, s) && TypedCalls(e, s.active)
    ensures Inside(c, DrainFrames(c, e, s))
    ensures AllSucceed(e) && s.ret >= 0 ==> DrainFrames(c, e, s).ret >= 0
    decreases |s.frames|
  {
    if s.frames == [] || s.ret < 0 {
    } else if AtBoundary(c, s) {
      GotoNextIsSuccessor(s.current, c.At(s.frames[0]), c.count);
    } else {
      TakeFrameStaysInside(c, e, s);
      DrainFramesStaysInside(c, e, TakeFrame(c, e, s));
    }
  }

  lemma {:induction false} ReplaySucceeds(e: Calls, s: State)
    requires AllSucceed(e) && s.ret >= 0
    ensures Replay(e, s).ret >= 0
    decreases |s.fifo|
  {
    if s.fifo != [] {
      var p := s.fifo[0];
      ReplaySucceeds(e, s.(fifo := s.fifo[1..], written := s.written + [Write(s.current, p)]));
    }
  }

  lemma BeginStaysInside(c: Plan, e: Calls, k: RollCalls, s: State, next: nat, reopened: bool)
    requires c.Valid() && 1 <= next <= c.count && forall no | no in s.seeks :: 1 <= no <= c.count
    ensures Inside(c, Begin(c, e, k, s, next, reopened))
    ensures AllSucceed(e) && RollSucceeds(k) ==> Begin(c, e, k, s, next, reopened).ret >= 0
  {
    if AllSucceed(e) {
      ReplaySucceeds(e, s.(current := next, inhibit := {}, ret := 0));
    }
  }

  lemma EnterStaysInside(c: Plan, e: Calls, k: RollCalls, s: State, next: nat, found: Option<nat>)
    requires c.Valid() && Inside(c, s) && 1 <= next <= c.count
    requires found.Some? ==> 1 <= found.value <= c.count
    ensures Inside(c, Enter(c, e, k, s, next, found))
    ensures Enter(c, e, k, s, next, found).active == s.active
    ensures AllSucceed(e) && RollSucceeds(k) ==> Enter(c, e, k, s, next, found).ret >= 0
  {
    if found.Some? {
      BeginStaysInside(c, e, k, Reopened(s, found.value), found.value, true);
    } else {
      BeginStaysInside(c, e, k, s.(trace := s.trace + [Rolled]), next, false);
    }
  }

  lemma {:induction false} FoundIsQueued(c: Plan, k: RollCalls, next: nat, seeks: seq<nat>)
    ensures var (found, rest) := FindSeek(c, k, next, seeks);
            && (found.Some? ==> found.value in seeks)
            && forall no | no in rest :: no in seeks
    decreases |seeks|
  {
    if seeks != [] {
      FoundIsQueued(c, k, next, seeks[1..]);
    }
  }

  lemma RollOverStaysInside(c: Plan, e: Calls, s: State)
    requires c.Valid() && Inside(c, s) && s.current < c.count
    ensures Inside(c, RollOver(c, e, s)) && RollOver(c, e, s).active == s.active
    ensures SeekFound(c, e, s).Some? ==> 1 <= SeekFound(c, e, s).value <= c.count
    ensures AllSucceed(e) ==> RollOver(c, e, s).ret >= 0
  {
    var found := FindSeek(c, e.Roll(s.rolls), ToU32(s.current + 1), s.seeks);
    FoundIsQueued(c, e.Roll(s.rolls), ToU32(s.current + 1), s.seeks);
    EnterStaysInside(c, e, e.Roll(s.rolls), Called(s, found.1), s.current + 1, found.0);
    RollOverEnters(c, e, s, found);
  }

  /** A rollover that a pass starts goes to a segment that exists: the next one, or one asked
      for. This does not depend on any call being successful. */
  ghost predicate EntersExisting(c: Plan, e: Calls, s: State) {
    var t := DrainFrames(c, e, s);
    t.ret >= 0 && t.active == t.inhibit ==>
      && t.current < c.count
      && (SeekFound(c, e, t).Some? ==> 1 <= SeekFound(c, e, t).value <= c.count)
  }

  lemma SettleStaysInside(c: Plan, s: State)
    requires Inside(c, s)
    ensures Inside(c, Settle(s)) && Settle(s).active == s.active && (s.ret >= 0 ==> Settle(s).ret >= 0)
  {
  }

  lemma DrainOnceStaysInside(c: Plan, e: Calls, s: State)
    requires c.Valid() && Inside(c, s) && TypedCalls(e, s.active) && s.active != {}
    ensures EntersExisting(c, e, s)
    ensures Inside(c, DrainOnce(c, e, s)) && DrainOnce(c, e, s).active == s.active
    ensures AllSucceed(e) && s.ret >= 0 ==> DrainOnce(c, e, s).ret >= 0
  {
    var t := DrainFrames(c, e, s);
    DrainFramesStaysInside(c, e, s);
    if t.ret >= 0 && t.active == t.inhibit {
      var u := RollOver(c, e, t);
      RollOverStaysInside(c, e, t);
      DrainOnceEnds(c, e, s, t, u);
      SettleStaysInside(c, u);
    }
  }

  ghost predicate PassesEnterExisting(c: Plan, e: Calls, s: State, finished: bool)
    requires c.Valid() && s.current <= c.count
    decreases |s.seeks|, c.count - s.current
  {
    TooEarly(c, s, finished) ||
    (var u := DrainOnce(c, e, s);
     && EntersExisting(c, e, s)
     && (u.ret >= 0 && finished && u.frames != [] ==>
           (DrainProgress(c, e, s); PassesEnterExisting(c, e, u, finished))))
  }

  lemma {:induction false} DrainStaysInside(c: Plan, e: Calls, s: State, finished: bool)
    requires c.Valid() && Inside(c, s) && TypedCalls(e, s.active) && s.active != {}
    ensures PassesEnterExisting(c, e, s, finished)
    ensures Inside(c, Drain(c, e, s, finished)) && Drain(c, e, s, finished).active == s.active
    ensures AllSucceed(e) && s.ret >= 0 ==> Drain(c, e, s, finished).ret >= 0
    decreases |s.seeks|, c.count - s.current
  {
    if !TooEarly(c, s, finished) {
      var u := DrainOnce(c, e, s);
      DrainOnceStaysInside(c, e, s);
      if u.ret >= 0 && finished && u.frames != [] {
        DrainProgress(c, e, s);
        DrainStaysInside(c, e, u, finished);
      }
    }
  }

  lemma ApplyStaysInside(c: Plan, e: Calls, s: State, step: Step)
    requires c.Valid() && Inside(c, s) && TypedCalls(e, s.active) && s.active != {}
    requires step.StoreStep? ==> Bit(step.packet.kind) <= s.active
    ensures Inside(c, Apply(c, e, s, step)) && Apply(c, e, s, step).active == s.active
    ensures AllSucceed(e) && s.ret >= 0 ==> Apply(c, e, s, step).ret >= 0
    ensures step.DrainStep? ==> PassesEnterExisting(c, e, s, step.finished)
  {
    match step
    case StoreStep(p) => StoreStaysInside(c, e, s, p);
    case BufferStep(f) =>
    case SeekStep(no) =>
    case DrainStep(finished) => DrainStaysInside(c, e, s, finished);
  }

  ghost predicate DrainsEnterExisting(c: Plan, e: Calls, s: State, steps: seq<Step>)
    requires c.Valid()
    decreases |steps|
  {
    steps == [] || s.ret < 0 || s.current > c.count ||
    (&& (steps[0].DrainStep? ==> PassesEnterExisting(c, e, s, steps[0].finished))
     && DrainsEnterExisting(c, e, Apply(c, e, s, steps[0]), steps[1..]))
  }

  /** Counter safety over every run, failing ones included: with an active stream the counter
      stays between 1 and the segment count, the inhibit mask within the active one, and every
      rollover enters a segment that exists. */
  lemma {:induction false} RunStaysInside(c: Plan, e: Calls, s: State, steps: seq<Step>)
    requires c.Valid() && Inside(c, s) && TypedCalls(e, s.active) && s.active != {}
    requires TypedSteps(steps, s.active)
    ensures Inside(c, Run(c, e, s, steps)) && DrainsEnterExisting(c, e, s, steps)
    ensures AllSucceed(e) && s.ret >= 0 ==> Run(c, e, s, steps).ret >= 0
    decreases |steps|
  {
    if steps != [] && s.ret >= 0 {
      ApplyStaysInside(c, e, s, steps[0]);
      TypedTail(steps, s.active);
      RunStaysInside(c, e, Apply(c, e, s, steps[0]), steps[1..]);
    }
  }

  /** The segmenter has no failures of its own: if every foreign call succeeds, so does every
      run, and all that was proved of successful runs holds. */
  lemma RunSucceeds(c: Plan, e: Calls, s: State, steps: seq<Step>)
    requires c.Valid() && Good(c, s) && TypedCalls(e, s.active) && s.active != {} && s.ret >= 0
    requires TypedSteps(steps, s.active) && AllSucceed(e)
    ensures Run(c, e, s, steps).ret >= 0 && Good(c, Run(c, e, s, steps))
  {
    assert PlainHeaders(e) by {
      assert forall n: nat :: RollSucceeds(e.Roll(n));
    }
    RunStaysInside(c, e, s, steps);
    RunKeeps(c, e, s, steps);
  }

  // ----- The inhibit mask

  /** The media types of packets that are held back. */
  ghost function WaitingMedia(fifo: seq<Packet>): set<Media> {
    if fifo == [] then {} else WaitingMedia(fifo[..|fifo| - 1]) + Bit(fifo[|fifo| - 1].kind)
  }

  /** Between calls exactly the streams that have a packet waiting are inhibited. */
  ghost predicate Settled(s: State) {
    s.inhibit == WaitingMedia(s.fifo)
  }

  lemma StoreSettles(c: Plan, e: Calls, s: State, p: Packet)
    requires Settled(s) && Store(c, e, s, p).ret >= 0
    ensures Settled(Store(c, e, s, p))
  {
    assert (s.fifo + [p])[..|s.fifo|] == s.fifo;
  }

  lemma {:induction false} StoreAllSettles(c: Plan, e: Calls, s: State, ps: seq<Packet>)
    requires Settled(s) && StoreAll(c, e, s, ps).ret >= 0
    ensures Settled(StoreAll(c, e, s, ps))
    decreases |ps|
  {
    if ps != [] && s.ret >= 0 {
      var t := Store(c, e, s, ps[0]);
      if t.ret >= 0 {
        StoreSettles(c, e, s, ps[0]);
        StoreAllSettles(c, e, t, ps[1..]);
      }
    }
  }

  lemma {:induction false} DrainFramesSettles(c: Plan, e: Calls, s: State)
    requires Settled(s) && LoudStores(e) && DrainFrames(c, e, s).ret >= 0
    ensures DrainFrames(c, e, s).frames == [] ==> Settled(DrainFrames(c, e, s))
    decreases |s.frames|
  {
    if s.frames != [] && s.ret >= 0 && !AtBoundary(c, s) {
      var ps := EncodedPackets(e, s.frames[0]).packets;
      LoudFailure(c, e, Unmap(s), ps);
      StoreAllSettles(c, e, Unmap(s), ps);
      DrainFramesSettles(c, e, TakeFrame(c, e, s));
    }
  }

  lemma RollOverCounts(c: Plan, e: Calls, s: State)
    ensures RollOver(c, e, s).rolls == s.rolls + 1
  {
  }

  /** A pass begins a new segment exactly when a frame of the next one has come up or every
      active stream has a packet of it waiting, so copied streams roll over, too. */
  lemma PassRollsOverIff(c: Plan, e: Calls, s: State)
    requires Settled(s) && LoudStores(e) && DrainFrames(c, e, s).ret >= 0
    ensures var t := DrainFrames(c, e, s);
            && (DrainOnce(c, e, s).rolls == s.rolls + 1 <==>
                  t.frames != [] || WaitingMedia(t.fifo) == s.active)
            && (DrainOnce(c, e, s).rolls == s.rolls || DrainOnce(c, e, s).rolls == s.rolls + 1)
  {
    DrainFramesSettles(c, e, s);
    RollOverCounts(c, e, DrainFrames(c, e, s));
  }

  lemma RollOverSettles(c: Plan, e: Calls, s: State)
    requires PlainHeaders(e) && RollOver(c, e, s).ret >= 0
    ensures Settled(RollOver(c, e, s))
  {
    var k := e.Roll(s.rolls);
    var found := FindSeek(c, k, ToU32(s.current + 1), s.seeks);
    RollOverEnters(c, e, s, found);
    assert k.header <= 0;
  }

  lemma {:induction false} DrainSettles(c: Plan, e: Calls, s: State, finished: bool)
    requires c.Valid() && s.current <= c.count && Settled(s) && LoudStores(e) && PlainHeaders(e)
    requires Drain(c, e, s, finished).ret >= 0
    ensures Settled(Drain(c, e, s, finished))
    decreases |s.seeks|, c.count - s.current
  {
    if !TooEarly(c, s, finished) {
      var t, u := DrainFrames(c, e, s), DrainOnce(c, e, s);
      if u.ret >= 0 {
        DrainFramesSettles(c, e, s);
        if t.active == t.inhibit {
          DrainOnceEnds(c, e, s, t, RollOver(c, e, t));
          RollOverSettles(c, e, t);
        }
        if finished && u.frames != [] {
          DrainProgress(c, e, s);
          DrainSettles(c, e, u, finished);
        }
      }
    }
  }

  /** Between the calls of every run the mask says which streams have packets waiting. */
  lemma {:induction false} RunSettles(c: Plan, e: Calls, s: State, steps: seq<Step>)
    requires c.Valid() && Settled(s) && LoudStores(e) && PlainHeaders(e)
    requires Run(c, e, s, steps).ret >= 0
    ensures Settled(Run(c, e, s, steps))
    decreases |steps|
  {
    if steps != [] && s.ret >= 0 && s.current <= c.count {
      var t := Apply(c, e, s, steps[0]);
      if t.ret >= 0 {
        match steps[0] {
          case StoreStep(p) => StoreSettles(c, e, s, p);
          case DrainStep(finished) => DrainSettles(c, e, s, finished);
          case _ =>
        }
        RunSettles(c, e, t, steps[1..]);
      }
    }
  }
}
