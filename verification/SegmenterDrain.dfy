/** Nothing disappears: packets and frames are conserved by every run, also by failing ones,
    and the drain at the end of the input encodes every buffered frame in its segment. */
module SegmenterDrain {
  import opened Machine
  import opened Options
  import opened HlsTime
  import opened Segmenter
  import opened SegmenterRuns

  // ----- Conservation of packets and frames

  ghost function StoredPackets(t: seq<Event>): multiset<Packet> {
    if t == [] then multiset{}
    else
      StoredPackets(t[..|t| - 1]) +
      (if t[|t| - 1].Stored? then multiset{t[|t| - 1].packet} else multiset{})
  }

  ghost function WrittenPackets(w: seq<Write>): multiset<Packet> {
    if w == [] then multiset{}
    else WrittenPackets(w[..|w| - 1]) + multiset{w[|w| - 1].packet}
  }

  ghost function TakenFrames(l: seq<Taken>): multiset<Frame> {
    if l == [] then multiset{}
    else TakenFrames(l[..|l| - 1]) + multiset{l[|l| - 1].frame}
  }

  /** Every stored packet is in exactly one segment's output, in the FIFO, or lost. */
  ghost predicate Balanced(s: State) {
    StoredPackets(s.trace) == WrittenPackets(s.written) + multiset(s.fifo) + multiset(s.lost)
  }

  /** The frames that entered the map so far. */
  ghost function FrameBag(s: State): multiset<Frame> {
    multiset(s.frames) + TakenFrames(s.taken) + multiset(s.dropped)
  }

  lemma StoredGrows(t: seq<Event>, ev: Event)
    ensures StoredPackets(t + [ev]) ==
            StoredPackets(t) + (if ev.Stored? then multiset{ev.packet} else multiset{})
  {
    assert (t + [ev])[..|t|] == t;
  }

  lemma WrittenGrows(w: seq<Write>, x: Write)
    ensures WrittenPackets(w + [x]) == WrittenPackets(w) + multiset{x.packet}
  {
    assert (w + [x])[..|w|] == w;
  }

  lemma TakenGrows(l: seq<Taken>, y: Taken)
    ensures TakenFrames(l + [y]) == TakenFrames(l) + multiset{y.frame}
  {
    assert (l + [y])[..|l|] == l;
  }

  /** A stored packet joins the output, the FIFO or the lost ones. */
  lemma StoreMoves(c: Plan, e: Calls, s: State, p: Packet, r: State)
    requires r == Store(c, e, s, p)
    ensures r.trace == s.trace + [Stored(p, s.current)]
    ensures || (r.written == s.written + [Write(s.current, p)] && r.fifo == s.fifo && r.lost == s.lost)
            || (r.written == s.written && r.fifo == s.fifo + [p] && r.lost == s.lost)
            || (r.written == s.written && r.fifo == s.fifo && r.lost == s.lost + [p])
  {
  }

  lemma StoreBalances(c: Plan, e: Calls, s: State, p: Packet)
    requires Balanced(s)
    ensures Balanced(Store(c, e, s, p))
  {
    StoredGrows(s.trace, Stored(p, s.current));
    WrittenGrows(s.written, Write(s.current, p));
    assert multiset(s.fifo + [p]) == multiset(s.fifo) + multiset{p};
    assert multiset(s.lost + [p]) == multiset(s.lost) + multiset{p};
    StoreMoves(c, e, s, p, Store(c, e, s, p));
  }

  lemma {:induction false} StoreAllBalances(c: Plan, e: Calls, s: State, ps: seq<Packet>)
    requires Balanced(s)
    ensures Balanced(StoreAll(c, e, s, ps))
    decreases |ps|
  {
    if ps != [] && s.ret >= 0 {
      StoreBalances(c, e, s, ps[0]);
      StoreAllBalances(c, e, Store(c, e, s, ps[0]), ps[1..]);
    }
  }

  lemma {:induction false} ReplayBalances(e: Calls, s: State)
    requires Balanced(s)
    ensures Balanced(Replay(e, s))
    decreases |s.fifo|
  {
    if s.fifo != [] {
      var p := s.fifo[0];
      assert s.fifo == [p] + s.fifo[1..];
      assert multiset(s.fifo) == multiset{p} + multiset(s.fifo[1..]);
      if e.Put(p) < 0 {
        assert multiset(s.lost + [p]) == multiset(s.lost) + multiset{p};
      } else {
        WrittenGrows(s.written, Write(s.current, p));
        ReplayBalances(e, s.(fifo := s.fifo[1..], written := s.written + [Write(s.current, p)]));
      }
    }
  }

  lemma BalancedTransfers(s: State, r: State)
    requires Balanced(s)
    requires r.trace == s.trace && r.written == s.written && r.fifo == s.fifo && r.lost == s.lost
    ensures Balanced(r)
  {
  }

  /** Below the seek loop, either the FIFO is replayed or the call fails with it in place. */
  lemma BeginReplaysOrStops(c: Plan, e: Calls, k: RollCalls, s: State, next: nat, reopened: bool, r: State)
    requires r == Begin(c, e, k, s, next, reopened)
    ensures || r == Replay(e, s.(current := next, inhibit := {}, ret := 0))
            || (r.trace == s.trace && r.written == s.written && r.fifo == s.fifo && r.lost == s.lost)
  {
  }

  lemma BeginBalances(c: Plan, e: Calls, k: RollCalls, s: State, next: nat, reopened: bool, r: State)
    requires Balanced(s) && r == Begin(c, e, k, s, next, reopened)
    ensures Balanced(r)
  {
    BeginReplaysOrStops(c, e, k, s, next, reopened, r);
    var t := s.(current := next, inhibit := {}, ret := 0);
    BalancedTransfers(s, t);
    ReplayBalances(e, t);
  }

  lemma ReopenedBalances(s: State, no: nat)
    requires Balanced(s)
    ensures Balanced(Reopened(s, no))
  {
    StoredGrows(s.trace, Sought(s.current));
    assert multiset(s.lost + s.fifo) == multiset(s.lost) + multiset(s.fifo);
  }

  lemma SeekToBalances(c: Plan, e: Calls, k: RollCalls, s: State, no: nat)
    requires Balanced(s)
    ensures Balanced(SeekTo(c, e, k, s, no))
  {
    var t := Reopened(s, no);
    ReopenedBalances(s, no);
    if k.seek < 0 {
      BalancedTransfers(s, s.(ret := k.seek));
    } else if k.open < 0 {
      BalancedTransfers(t, t.(ret := k.open));
    } else {
      BeginBalances(c, e, k, t, no, true, SeekTo(c, e, k, s, no));
    }
  }

  lemma EnterBalances(c: Plan, e: Calls, k: RollCalls, s: State, next: nat, found: Option<nat>)
    requires Balanced(s)
    ensures Balanced(Enter(c, e, k, s, next, found))
  {
    if found.Some? {
      SeekToBalances(c, e, k, s, found.value);
    } else {
      var t := s.(trace := s.trace + [Rolled]);
      StoredGrows(s.trace, Rolled);
      assert Balanced(t);
      BeginBalances(c, e, k, t, next, false, Enter(c, e, k, s, next, found));
    }
  }

  lemma RollOverBalances(c: Plan, e: Calls, s: State)
    requires Balanced(s)
    ensures Balanced(RollOver(c, e, s))
  {
    var found := FindSeek(c, e.Roll(s.rolls), ToU32(s.current + 1), s.seeks);
    BalancedTransfers(s, Called(s, found.1));
    EnterBalances(c, e, e.Roll(s.rolls), Called(s, found.1), ToU32(s.current + 1), found.0);
    RollOverEnters(c, e, s, found);
  }

  lemma TakeFrameBalances(c: Plan, e: Calls, s: State)
    requires Balanced(s) && s.frames != []
    ensures Balanced(TakeFrame(c, e, s))
  {
    var ps := EncodedPackets(e, s.frames[0]).packets;
    BalancedTransfers(s, Unmap(s));
    StoreAllBalances(c, e, Unmap(s), ps);
    BalancedTransfers(StoreAll(c, e, Unmap(s), ps), TakeFrame(c, e, s));
  }

  /** A taken frame moves from the map to the log. */
  lemma FrameMoves(s: State, r: State)
    requires s.frames != [] && r.frames == s.frames[1..] && r.dropped == s.dropped
    requires r.taken == s.taken + [Taken(s.frames[0], s.current)]
    ensures FrameBag(r) == FrameBag(s)
  {
    TakenGrows(s.taken, Taken(s.frames[0], s.current));
    assert s.frames == [s.frames[0]] + s.frames[1..];
    assert multiset(s.frames) == multiset{s.frames[0]} + multiset(s.frames[1..]);
  }

  lemma {:induction false} DrainFramesBalances(c: Plan, e: Calls, s: State)
    requires Balanced(s)
    ensures Balanced(DrainFrames(c, e, s))
    decreases |s.frames|
  {
    if s.frames != [] && s.ret >= 0 && !AtBoundary(c, s) {
      TakeFrameBalances(c, e, s);
      DrainFramesBalances(c, e, TakeFrame(c, e, s));
    } else {
      BalancedTransfers(s, DrainFrames(c, e, s));
    }
  }

  lemma {:induction false} DrainFramesMoves(c: Plan, e: Calls, s: State)
    ensures FrameBag(DrainFrames(c, e, s)) == FrameBag(s)
    decreases |s.frames|
  {
    if s.frames != [] && s.ret >= 0 && !AtBoundary(c, s) {
      FrameMoves(s, TakeFrame(c, e, s));
      DrainFramesMoves(c, e, TakeFrame(c, e, s));
    }
  }

  /** A rollover leaves the frame map alone or, with an accepted seek, drops it. */
  lemma RollOverFrames(c: Plan, e: Calls, s: State)
    ensures var r := RollOver(c, e, s);
            && r.taken == s.taken
            && ((r.frames == s.frames && r.dropped == s.dropped)
                || (r.frames == [] && r.dropped == s.dropped + s.frames))
  {
  }

  lemma FramesMoveOn(s: State, r: State)
    requires r.taken == s.taken
    requires || (r.frames == s.frames && r.dropped == s.dropped)
             || (r.frames == [] && r.dropped == s.dropped + s.frames)
    ensures FrameBag(r) == FrameBag(s)
  {
  }

  lemma SettleKeeps(s: State)
    ensures Balanced(s) ==> Balanced(Settle(s))
    ensures FrameBag(Settle(s)) == FrameBag(s)
  {
  }

  lemma DrainOnceBalances(c: Plan, e: Calls, s: State)
    requires Balanced(s)
    ensures Balanced(DrainOnce(c, e, s)) && FrameBag(DrainOnce(c, e, s)) == FrameBag(s)
  {
    var t := DrainFrames(c, e, s);
    DrainFramesBalances(c, e, s);
    DrainFramesMoves(c, e, s);
    if t.ret >= 0 && t.active == t.inhibit {
      RollOverBalances(c, e, t);
      RollOverFrames(c, e, t);
      FramesMoveOn(t, RollOver(c, e, t));
      SettleKeeps(RollOver(c, e, t));
    }
  }

  lemma {:induction false} DrainBalances(c: Plan, e: Calls, s: State, finished: bool)
    requires c.Valid() && Balanced(s) && s.current <= c.count
    ensures Balanced(Drain(c, e, s, finished)) && FrameBag(Drain(c, e, s, finished)) == FrameBag(s)
    decreases |s.seeks|, c.count - s.current
  {
    if !TooEarly(c, s, finished) {
      DrainOnceBalances(c, e, s);
      var u := DrainOnce(c, e, s);
      if u.ret >= 0 && finished && u.frames != [] {
        DrainProgress(c, e, s);
        DrainBalances(c, e, u, finished);
      }
    }
  }

  ghost function FrameOf(step: Step): multiset<Frame> {
    if step.BufferStep? then multiset{step.frame} else multiset{}
  }

  ghost function BufferedBy(steps: seq<Step>): multiset<Frame> {
    if steps == [] then multiset{}
    else FrameOf(steps[0]) + BufferedBy(steps[1..])
  }

  /** The frames buffered by the steps a run gets to, up to the one that fails. */
  ghost function BufferedIn(c: Plan, e: Calls, s: State, steps: seq<Step>): multiset<Frame>
    requires c.Valid()
    decreases |steps|
  {
    if steps == [] || s.ret < 0 || s.current > c.count then multiset{}
    else FrameOf(steps[0]) + BufferedIn(c, e, Apply(c, e, s, steps[0]), steps[1..])
  }

  lemma BufferFrameBalances(s: State, f: Frame)
    requires Balanced(s)
    ensures Balanced(BufferFrame(s, f)) && FrameBag(BufferFrame(s, f)) == FrameBag(s) + multiset{f}
  {
    BalancedTransfers(s, BufferFrame(s, f));
  }

  lemma StackSeekBalances(c: Plan, s: State, no: nat)
    requires Balanced(s)
    ensures Balanced(StackSeek(c, s, no)) && FrameBag(StackSeek(c, s, no)) == FrameBag(s)
  {
    BalancedTransfers(s, StackSeek(c, s, no));
    FramesMoveOn(s, StackSeek(c, s, no));
  }

  lemma StoreStepBalances(c: Plan, e: Calls, s: State, p: Packet)
    requires Balanced(s)
    ensures Balanced(Store(c, e, s, p)) && FrameBag(Store(c, e, s, p)) == FrameBag(s)
  {
    StoreBalances(c, e, s, p);
    FramesMoveOn(s, Store(c, e, s, p));
  }

  lemma ApplyBalances(c: Plan, e: Calls, s: State, step: Step)
    requires c.Valid() && Balanced(s) && s.current <= c.count
    ensures Balanced(Apply(c, e, s, step))
    ensures FrameBag(Apply(c, e, s, step)) == FrameBag(s) + FrameOf(step)
  {
    match step {
      case StoreStep(p) => StoreStepBalances(c, e, s, p);
      case BufferStep(f) => BufferFrameBalances(s, f);
      case SeekStep(no) => StackSeekBalances(c, s, no);
      case DrainStep(finished) => DrainBalances(c, e, s, finished);
    }
  }

  lemma BufferedUnfolds(c: Plan, e: Calls, s: State, steps: seq<Step>, t: State)
    requires c.Valid() && s.current <= c.count && s.ret >= 0 && steps != []
    requires t == Apply(c, e, s, steps[0])
    ensures BufferedIn(c, e, s, steps) == FrameOf(steps[0]) + BufferedIn(c, e, t, steps[1..])
    ensures BufferedBy(steps) == FrameOf(steps[0]) + BufferedBy(steps[1..])
  {
  }

  lemma RunUnfolds(c: Plan, e: Calls, s: State, steps: seq<Step>, t: State)
    requires c.Valid() && s.current <= c.count && s.ret >= 0 && steps != []
    requires t == Apply(c, e, s, steps[0])
    ensures Run(c, e, s, steps) == Run(c, e, t, steps[1..])
  {
  }

  /** Conservation over every run, whatever the foreign calls answer: packets are balanced, and
      every frame buffered before a failure is waiting, encoded or dropped. A run that did not
      fail got to all its steps. */
  lemma {:induction false} RunBalances(c: Plan, e: Calls, s: State, steps: seq<Step>)
    requires c.Valid() && Balanced(s)
    ensures Balanced(Run(c, e, s, steps))
    ensures FrameBag(Run(c, e, s, steps)) == FrameBag(s) + BufferedIn(c, e, s, steps)
    ensures Run(c, e, s, steps).ret >= 0 && Run(c, e, s, steps).current <= c.count ==>
              BufferedIn(c, e, s, steps) == BufferedBy(steps)
    decreases |steps|
  {
    if steps != [] && s.ret >= 0 && s.current <= c.count {
      var t := Apply(c, e, s, steps[0]);
      ApplyBalances(c, e, s, steps[0]);
      RunUnfolds(c, e, s, steps, t);
      RunBalances(c, e, t, steps[1..]);
      BufferedUnfolds(c, e, s, steps, t);
    }
  }

  // ----- Losses

  lemma TakeFrameLoses(c: Plan, e: Calls, s: State)
    requires s.frames != [] && LoudStores(e) && TakeFrame(c, e, s).ret >= 0
    ensures |TakeFrame(c, e, s).lost| == |s.lost|
  {
    LoudFailure(c, e, Unmap(s), EncodedPackets(e, s.frames[0]).packets);
  }

  lemma {:induction false} DrainFramesLoses(c: Plan, e: Calls, s: State)
    requires LoudStores(e) && DrainFrames(c, e, s).ret >= 0
    ensures |DrainFrames(c, e, s).lost| == |s.lost|
    decreases |s.frames|
  {
    if s.frames != [] && s.ret >= 0 && !AtBoundary(c, s) {
      var t := TakeFrame(c, e, s);
      if t.ret >= 0 {
        TakeFrameLoses(c, e, s);
        DrainFramesLoses(c, e, t);
      }
    }
  }

  /** Neither lost nor dropped anything. */
  ghost predicate LosesNothing(s: State, r: State) {
    |r.lost| == |s.lost| && |r.dropped| == |s.dropped|
  }

  lemma DrainOnceLoses(c: Plan, e: Calls, s: State)
    requires LoudStores(e) && DrainOnce(c, e, s).ret >= 0 && DrainOnce(c, e, s).sought == s.sought
    ensures LosesNothing(s, DrainOnce(c, e, s))
  {
    var t := DrainFrames(c, e, s);
    DrainFramesLoses(c, e, s);
    if t.active == t.inhibit {
      DrainOnceEnds(c, e, s, t, RollOver(c, e, t));
    }
  }

  lemma {:induction false} DrainLoses(c: Plan, e: Calls, s: State, finished: bool)
    requires c.Valid() && s.current <= c.count && LoudStores(e)
    requires Drain(c, e, s, finished).ret >= 0 && Drain(c, e, s, finished).sought == s.sought
    ensures LosesNothing(s, Drain(c, e, s, finished))
    decreases |s.seeks|, c.count - s.current
  {
    if !TooEarly(c, s, finished) {
      var u := DrainOnce(c, e, s);
      DrainOnceLoses(c, e, s);
      if finished && u.frames != [] {
        DrainProgress(c, e, s);
        DrainLoses(c, e, u, finished);
      }
    }
  }

  lemma {:induction false} SeeksOnlyGrow(c: Plan, e: Calls, s: State, steps: seq<Step>)
    requires c.Valid()
    ensures Run(c, e, s, steps).sought >= s.sought
    decreases |steps|
  {
    if steps != [] && s.ret >= 0 && s.current <= c.count {
      SeeksOnlyGrow(c, e, Apply(c, e, s, steps[0]), steps[1..]);
    }
  }

  /** A run that neither failed nor accepted a seek has lost no packet and dropped no frame. */
  lemma {:induction false} RunLosesNothing(c: Plan, e: Calls, s: State, steps: seq<Step>)
    requires c.Valid() && LoudStores(e)
    requires Run(c, e, s, steps).ret >= 0 && Run(c, e, s, steps).sought == s.sought
    ensures LosesNothing(s, Run(c, e, s, steps))
    decreases |steps|
  {
    if steps != [] && s.ret >= 0 && s.current <= c.count {
      var t := Apply(c, e, s, steps[0]);
      RunUnfolds(c, e, s, steps, t);
      SeeksOnlyGrow(c, e, t, steps[1..]);
      if t.ret >= 0 {
        if steps[0].DrainStep? {
          DrainLoses(c, e, s, steps[0].finished);
        }
        RunLosesNothing(c, e, t, steps[1..]);
      }
    }
  }

  lemma {:induction false} FailureLosesOne(c: Plan, e: Calls, s: State, ps: seq<Packet>)
    requires s.ret >= 0
    ensures |StoreAll(c, e, s, ps).lost| == |s.lost| + if StoreAll(c, e, s, ps).ret < 0 then 1 else 0
    decreases |ps|
  {
    if ps != [] {
      var t := Store(c, e, s, ps[0]);
      if t.ret >= 0 {
        FailureLosesOne(c, e, t, ps[1..]);
      }
    }
  }

  /** Encoding a frame loses a packet without failing exactly when a store answers
      AVERROR(EAGAIN), which the caller takes for "more input needed". */
  lemma SilentLossIff(c: Plan, e: Calls, s: State)
    requires s.frames != [] && TakeFrame(c, e, s).ret >= 0
    ensures |TakeFrame(c, e, s).lost| != |s.lost| <==>
            StoreAll(c, e, Unmap(s), EncodedPackets(e, s.frames[0]).packets).ret == AGAIN
  {
    FailureLosesOne(c, e, Unmap(s), EncodedPackets(e, s.frames[0]).packets);
  }

  // ----- The drain at the end of the input

  /** The reference: frames in map order, each with the segment it is encoded in. The
      segment moves on exactly when a frame of the next one comes up. */
  ghost function Placement(c: Plan, fs: seq<Frame>, current: nat): (r: seq<Taken>)
    ensures |r| == |fs|
    decreases |fs|
  {
    if fs == [] then []
    else
      var at := if GotoNext(current, c.At(fs[0]), c.count) then current + 1 else current;
      [Taken(fs[0], at)] + Placement(c, fs[1..], at)
  }

  /** The reference takes every frame once and in order. */
  lemma {:induction false} PlacementTakesAll(c: Plan, fs: seq<Frame>, current: nat, i: nat)
    requires i < |fs|
    ensures Placement(c, fs, current)[i].frame == fs[i]
    decreases |fs|
  {
    if i > 0 {
      var at := if GotoNext(current, c.At(fs[0]), c.count) then current + 1 else current;
      PlacementTakesAll(c, fs[1..], at, i - 1);
    }
  }

  /** Across a boundary the reference does not notice that the segment was started before
      the frame was taken. */
  lemma PlacementAtBoundary(c: Plan, s: State)
    requires c.Valid() && 1 <= s.current <= c.count && AtBoundary(c, s)
    ensures Placement(c, s.frames, s.current) == Placement(c, s.frames, s.current + 1)
  {
    GotoNextIsSuccessor(s.current, c.At(s.frames[0]), c.count);
  }

  lemma PlainRollOverFrames(c: Plan, e: Calls, s: State)
    requires c.Valid() && s.current < c.count && SeekFound(c, e, s).None?
    ensures var r := RollOver(c, e, s);
            && r.frames == s.frames && r.taken == s.taken && r.dropped == s.dropped
            && r.current == s.current + 1 && r.sought == s.sought && r.seeks == []
  {
    assert ToU32(s.current + 1) == s.current + 1;
    FindSeekIsFirst(c, e.Roll(s.rolls), s.current + 1, s.seeks);
  }

  /** The drain encoded the first `k` frames in their places and dropped the others. */
  ghost predicate DrainedUpTo(c: Plan, s: State, r: State, k: nat) {
    && k <= |s.frames| && r.frames == []
    && r.taken == s.taken + Placement(c, s.frames, s.current)[..k]
    && r.dropped == s.dropped + s.frames[k..]
  }

  /** `u` is `s` after its first `n` frames were encoded in their places, with the others in
      place for what remains. */
  ghost predicate Midway(c: Plan, s: State, u: State, n: nat) {
    && n <= |s.frames| && u.frames == s.frames[n..] && u.dropped == s.dropped
    && u.taken == s.taken + Placement(c, s.frames, s.current)[..n]
    && Placement(c, u.frames, u.current) == Placement(c, s.frames, s.current)[n..]
  }

  lemma MidwayStep(c: Plan, s: State, t: State)
    requires s.frames != [] && !AtBoundary(c, s)
    requires t.frames == s.frames[1..] && t.dropped == s.dropped && t.current == s.current
    requires t.taken == s.taken + [Taken(s.frames[0], s.current)]
    ensures Midway(c, s, t, 1)
  {
  }

  lemma Sliced<T>(a: seq<T>, p: seq<T>, n: nat, m: nat)
    requires n + m <= |p|
    ensures (a + p[..n]) + p[n..][..m] == a + p[..n + m]
    ensures p[n..][m..] == p[n + m..]
  {
  }

  lemma MidwayTwice(c: Plan, s: State, t: State, u: State, n: nat, m: nat)
    requires Midway(c, s, t, n) && Midway(c, t, u, m)
    ensures Midway(c, s, u, n + m)
  {
    var p := Placement(c, s.frames, s.current);
    Sliced(s.taken, p, n, m);
    Sliced(s.frames, s.frames, n, m);
  }

  lemma MidwayToEnd(c: Plan, s: State, u: State, r: State, n: nat, k: nat)
    requires Midway(c, s, u, n) && DrainedUpTo(c, u, r, k)
    ensures DrainedUpTo(c, s, r, n + k)
  {
    var p := Placement(c, s.frames, s.current);
    Sliced(s.taken, p, n, k);
    Sliced(s.frames, s.frames, n, k);
  }

  lemma {:induction false} DrainFramesSplits(c: Plan, e: Calls, s: State) returns (n: nat)
    requires s.ret >= 0 && DrainFrames(c, e, s).ret >= 0
    ensures Midway(c, s, DrainFrames(c, e, s), n)
    decreases |s.frames|
  {
    n := 0;
    if s.frames != [] && !AtBoundary(c, s) {
      var t := TakeFrame(c, e, s);
      MidwayStep(c, s, t);
      var m := DrainFramesSplits(c, e, t);
      MidwayTwice(c, s, t, DrainFrames(c, e, s), 1, m);
      n := 1 + m;
    }
  }

  /** Starting the segment of the first frame does not change where the frames go. */
  lemma MidwayAcross(c: Plan, s: State, t: State, u: State, n: nat)
    requires c.Valid() && 1 <= t.current <= c.count && Midway(c, s, t, n) && AtBoundary(c, t)
    requires u.frames == t.frames && u.taken == t.taken && u.dropped == t.dropped
    requires u.current == t.current + 1
    ensures Midway(c, s, u, n) && u.current <= c.count
  {
    PlacementAtBoundary(c, t);
    GotoNextIsSuccessor(t.current, c.At(t.frames[0]), c.count);
  }

  lemma DrainUnfolds(c: Plan, e: Calls, s: State)
    requires c.Valid() && s.current <= c.count
    ensures var u := DrainOnce(c, e, s);
            && (u.ret >= 0 && u.frames != [] ==> u.current <= c.count)
            && Drain(c, e, s, true) == if u.ret >= 0 && u.frames != [] then Drain(c, e, u, true) else u
  {
    DrainProgress(c, e, s);
  }

  /** A successful rollover without a seek was not made in the last segment. */
  lemma RollOverStaysBelow(c: Plan, e: Calls, s: State)
    requires c.Valid() && 1 <= s.current <= c.count && SeekFound(c, e, s).None?
    requires RollOver(c, e, s).ret >= 0
    ensures s.current < c.count
  {
    var found := FindSeek(c, e.Roll(s.rolls), ToU32(s.current + 1), s.seeks);
    RollOverEnters(c, e, s, found);
  }

  /** What one pass does: it ends without a seek and all frames encoded, or with a seek and the
      remaining ones dropped, or goes on in the next segment. */
  lemma DrainOnceSplits(c: Plan, e: Calls, s: State) returns (n: nat)
    requires c.Valid() && 1 <= s.current <= c.count && s.ret >= 0 && DrainOnce(c, e, s).ret >= 0
    ensures var u := DrainOnce(c, e, s);
            && n <= |s.frames|
            && if u.sought == s.sought then
                 Midway(c, s, u, n) && 1 <= u.current <= c.count && (u.frames != [] ==> u.seeks == [])
               else
                 u.sought == s.sought + 1 && DrainedUpTo(c, s, u, n) && u.current in s.seeks
  {
    n := DrainFramesSplits(c, e, s);
    var t := DrainFrames(c, e, s);
    if t.active == t.inhibit {
      var u := RollOver(c, e, t);
      DrainOnceEnds(c, e, s, t, u);
      if SeekFound(c, e, t).Some? {
        RollOverSeeks(c, e, t);
      } else {
        RollOverStaysBelow(c, e, t);
        PlainRollOverFrames(c, e, t);
        if t.frames != [] {
          MidwayAcross(c, s, t, u, n);
        }
      }
    }
  }

  /** The drain at the end of the input, for every queue of seeks: at most one is accepted. Up
      to then every frame is encoded, once, in map order and in the segment the reference says;
      the frames behind it are dropped, and the loop ends at the segment asked for. */
  lemma {:induction false} DrainSplits(c: Plan, e: Calls, s: State) returns (k: nat)
    requires c.Valid() && 1 <= s.current <= c.count && s.ret >= 0
    requires Drain(c, e, s, true).ret >= 0
    ensures var r := Drain(c, e, s, true);
            && DrainedUpTo(c, s, r, k)
            && (r.sought == s.sought || r.sought == s.sought + 1)
            && (r.sought == s.sought ==> k == |s.frames|)
            && (r.sought != s.sought ==> r.current in s.seeks)
    decreases |s.seeks|, c.count - s.current
  {
    var u := DrainOnce(c, e, s);
    DrainUnfolds(c, e, s);
    k := DrainOnceSplits(c, e, s);
    if u.frames != [] {
      DrainProgress(c, e, s);
      var m := DrainSplits(c, e, u);
      MidwayToEnd(c, s, u, Drain(c, e, u, true), k, m);
      k := k + m;
    }
  }

  /** Unless a seek is accepted, the drain leaves no frame behind and drops none: each one is
      taken exactly once, in map order, while its segment is being encoded. */
  lemma DrainIsComplete(c: Plan, e: Calls, s: State)
    requires c.Valid() && 1 <= s.current <= c.count && s.ret >= 0
    requires Drain(c, e, s, true).ret >= 0
    ensures var r := Drain(c, e, s, true);
            r.frames == [] && r.sought <= s.sought + 1
            && (r.sought == s.sought ==>
                  r.taken == s.taken + Placement(c, s.frames, s.current) && r.dropped == s.dropped)
  {
    var k := DrainSplits(c, e, s);
  }

  /** An accepted seek ends the drain wherever it is met: some first frames were encoded in
      their places, exactly the others are dropped, and the segment asked for is current. */
  lemma SeekEndsTheDrain(c: Plan, e: Calls, s: State)
    requires c.Valid() && 1 <= s.current <= c.count && s.ret >= 0
    requires Drain(c, e, s, true).ret >= 0 && Drain(c, e, s, true).sought != s.sought
    ensures exists k :: DrainedUpTo(c, s, Drain(c, e, s, true), k)
    ensures Drain(c, e, s, true).current in s.seeks
  {
    var k := DrainSplits(c, e, s);
  }

  /** Frame positions without a gap of a whole segment. */
  ghost predicate Gapless(c: Plan, fs: seq<Frame>, current: nat)
  {
    && (fs != [] ==> c.At(fs[0]) <= current + 1 || current == c.count)
    && forall i | 0 <= i < |fs| - 1 :: c.At(fs[i]) <= c.At(fs[i + 1]) <= c.At(fs[i]) + 1
  }

  function Clamp(current: nat, own: nat, count: nat): nat {
    var bounded := if own < count then own else count;
    if bounded < current then current else bounded
  }

  lemma {:induction false} OwnsAscend(c: Plan, fs: seq<Frame>, i: nat, j: nat)
    requires c.Valid() && i <= j < |fs|
    requires forall k | 0 <= k < |fs| - 1 :: c.At(fs[k]) <= c.At(fs[k + 1])
    ensures c.At(fs[i]) <= c.At(fs[j])
    decreases j
  {
    if i < j {
      OwnsAscend(c, fs, i, j - 1);
    }
  }

  /** Without gaps, every frame is encoded in its own segment (late ones in the current
      segment, those behind the last segment in the last one). */
  lemma {:induction false} GaplessPlacement(c: Plan, fs: seq<Frame>, current: nat, i: nat)
    requires c.Valid() && 1 <= current <= c.count && Gapless(c, fs, current) && i < |fs|
    ensures Placement(c, fs, current)[i].segment == Clamp(current, c.At(fs[i]), c.count)
    decreases |fs|
  {
    GotoNextIsSuccessor(current, c.At(fs[0]), c.count);
    if i > 0 {
      var at := if GotoNext(current, c.At(fs[0]), c.count) then current + 1 else current;
      var rest := fs[1..];
      assert Gapless(c, rest, at) by {
        assert c.At(rest[0]) <= c.At(fs[0]) + 1;
        forall j | 0 <= j < |rest| - 1
          ensures c.At(rest[j]) <= c.At(rest[j + 1]) <= c.At(rest[j]) + 1
        {
          assert rest[j] == fs[j + 1] && rest[j + 1] == fs[j + 2];
        }
      }
      GaplessPlacement(c, rest, at, i - 1);
      OwnsAscend(c, fs, 0, i);
    }
  }

  // ----- Where the code does less than one might expect

  /** The encoders are flushed after the last rollover. What they deliver for a next segment
      stays in the FIFO, so all of it is written iff nothing is waiting and none is ahead. */
  lemma {:induction false} FlushStrandsPackets(c: Plan, e: Calls, s: State, ps: seq<Packet>)
    requires c.Valid() && s.ret >= 0 && StoreAll(c, e, s, ps).ret >= 0
    ensures StoreAll(c, e, s, ps).fifo == [] <==>
              s.fifo == [] && forall p | p in ps :: !Ahead(c, s.current, p)
    decreases |ps|
  {
    if ps != [] {
      var t := Store(c, e, s, ps[0]);
      if t.ret >= 0 {
        FlushStrandsPackets(c, e, t, ps[1..]);
        assert forall p | p in ps :: p == ps[0] || p in ps[1..];
        assert ps[0] in ps && forall p | p in ps[1..] :: p in ps;
      }
    }
  }

  /** A rollover without a seek replays the FIFO iff the header call answers 0; a positive
      answer ("already initialised") goes on without the packets. */
  lemma HeaderDecidesReplay(c: Plan, e: Calls, s: State)
    requires c.Valid() && s.current < c.count && s.fifo != []
    requires SeekFound(c, e, s).None? && RollOver(c, e, s).ret >= 0
    ensures RollOver(c, e, s).fifo == [] <==> e.Roll(s.rolls).header == 0
    ensures e.Roll(s.rolls).header > 0 ==> RollOver(c, e, s).fifo == s.fifo
  {
    var call := e.Roll(s.rolls);
    var t := Called(s, FindSeek(c, call, ToU32(s.current + 1), s.seeks).1);
    assert RollOver(c, e, s) == Begin(c, e, call, t.(trace := s.trace + [Rolled]), s.current + 1, false);
  }

  /** In the last segment a rollover is attempted, and fails, iff no stream is active. */
  lemma LastSegmentRollsOnlyWithoutStreams(c: Plan, e: Calls, s: State)
    requires c.Valid() && Good(c, s) && s.current == c.count && s.frames == []
    requires s.seeks == [] && s.ret >= 0
    ensures s.active == {} <==> DrainOnce(c, e, s).rolls == s.rolls + 1
    ensures s.active == {} ==> DrainOnce(c, e, s).ret == -22
  {
  }
}
