/** What holds in every state the segmenter can reach: no packet is duplicated or dropped
    without a reason, every packet ends up in the segment it was routed to, in arrival
    order, and the segment counter stays inside the playlist. */
module SegmenterRuns {
  import opened Machine
  import opened Options
  import opened HlsTime
  import opened Segmenter

  // ----- Runs

  datatype Step =
    | StoreStep(packet: Packet)       // a copied stream's packet
    | BufferStep(frame: Frame)        // the decoder emits a frame
    | SeekStep(no: nat)               // a reader asks for a segment
    | DrainStep(finished: bool)       // process_single_fr

  ghost function Apply(c: Plan, e: Calls, s: State, step: Step): State
    requires c.Valid() && s.current <= c.count
  {
    match step
    case StoreStep(p) => Store(c, e, s, p)
    case BufferStep(f) => BufferFrame(s, f)
    case SeekStep(no) => StackSeek(c, s, no)
    case DrainStep(finished) => Drain(c, e, s, finished)
  }

  /** A run ends at the first failed call. */
  ghost function Run(c: Plan, e: Calls, s: State, steps: seq<Step>): State
    requires c.Valid()
    decreases |steps|
  {
    if steps == [] || s.ret < 0 || s.current > c.count then s
    else Run(c, e, Apply(c, e, s, steps[0]), steps[1..])
  }

  /** The state after the output was opened at a segment. */
  ghost function Opened(current: nat, active: set<Media>): State {
    State(current, active, {}, [], [], [], 0, [], [], [], [], 0, 0, [])
  }

  /** Packets are stored under the media type of an active stream. */
  ghost predicate TypedCalls(e: Calls, active: set<Media>) {
    forall f: Frame, p: Packet | p in e.Encode(f).packets :: Bit(p.kind) <= active
  }

  /** The muxer never reports "already initialised" (a positive code) for a header. */
  ghost predicate PlainHeaders(e: Calls) {
    forall n: nat :: e.Roll(n).header <= 0
  }

  /** No write and no clone of a packet reports AVERROR(EAGAIN), which would pass for success. */
  ghost predicate LoudStores(e: Calls) {
    forall p: Packet :: e.Clone(p) != AGAIN && e.Put(p) != AGAIN
  }

  ghost predicate TypedSteps(steps: seq<Step>, active: set<Media>) {
    forall i | 0 <= i < |steps| && steps[i].StoreStep? :: Bit(steps[i].packet.kind) <= active
  }

  // ----- The reference: where an arriving packet has to go

  function Dest(c: Plan, p: Packet, at: nat): nat
  {
    if Ahead(c, at, p) then at + 1 else at
  }

  /** The trace up to the last time a segment was begun. */
  ghost function EpochPrefix(t: seq<Event>): (r: seq<Event>)
    ensures |r| <= |t|
  {
    if t == [] || !t[|t| - 1].Stored? then t else EpochPrefix(t[..|t| - 1])
  }

  /** The packets segment `k` has to receive: those routed to it, in order of arrival. An
      accepted seek cancels what was held back for the next segment since the current one
      was begun. */
  ghost function Delivered(c: Plan, t: seq<Event>, k: nat): seq<Packet>
    decreases |t|
  {
    if t == [] then []
    else
      var pre := t[..|t| - 1];
      match t[|t| - 1]
      case Stored(p, at) => Delivered(c, pre, k) + (if Dest(c, p, at) == k then [p] else [])
      case Rolled => Delivered(c, pre, k)
      case Sought(at) => Delivered(c, if k == at + 1 then EpochPrefix(pre) else pre, k)
  }

  /** The packets written to segment `k`, in order. */
  ghost function Output(w: seq<Write>, k: nat): seq<Packet> {
    if w == [] then []
    else
      var last := w[|w| - 1];
      Output(w[..|w| - 1], k) + (if last.segment == k then [last.packet] else [])
  }

  // ----- Invariants

  ghost predicate Sorted(fs: seq<Frame>) {
    forall i, j | 0 <= i < j < |fs| :: fs[i].key <= fs[j].key
  }

  /** Counter, masks, FIFO and queues. */
  ghost predicate Safe(c: Plan, s: State)
  {
    && 1 <= s.current <= c.count
    && s.inhibit <= s.active
    && (s.inhibit != {} || s.fifo != [] ==> s.current < c.count)
    && (forall i | 0 <= i < |s.fifo| :: Ahead(c, s.current, s.fifo[i]) && Bit(s.fifo[i].kind) <= s.inhibit)
    && Sorted(s.frames)
    && (forall no | no in s.seeks :: 1 <= no <= c.count)
  }

  ghost function Pending(s: State, k: nat): seq<Packet> {
    if k == s.current + 1 then s.fifo else []
  }

  ghost predicate RoutedTo(c: Plan, s: State, k: nat)
  {
    Output(s.written, k) + Pending(s, k) == Delivered(c, s.trace, k)
  }

  /** Every segment has received, or has waiting in the FIFO, what is routed to it. */
  ghost predicate Routed(c: Plan, s: State)
  {
    && (forall k: nat :: RoutedTo(c, s, k))
    && Output(s.written, s.current + 1) == Delivered(c, EpochPrefix(s.trace), s.current + 1)
    && (forall i | 0 <= i < |s.trace| && s.trace[i].Stored? :: s.trace[i].at <= c.count)
  }

  ghost predicate Good(c: Plan, s: State)
  {
    Safe(c, s) && Routed(c, s)
  }

  // ----- Every operation keeps the invariants

  lemma TraceGrows(t: seq<Event>, e: Event)
    ensures (t + [e])[|t + [e]| - 1] == e && (t + [e])[..|t + [e]| - 1] == t
    ensures EpochPrefix(t + [e]) == if e.Stored? then EpochPrefix(t) else t + [e]
  {
    assert (t + [e])[..|t|] == t;
  }

  lemma OutputGrows(w: seq<Write>, x: Write, k: nat)
    ensures Output(w + [x], k) == Output(w, k) + (if x.segment == k then [x.packet] else [])
  {
    assert (w + [x])[..|w|] == w;
  }

  /** The invariants do not depend on the frame map beyond its order, nor on other logs. */
  lemma GoodTransfers(c: Plan, s: State, r: State)
    requires c.Valid() && Good(c, s) && Sorted(r.frames)
    requires r.current == s.current && r.active == s.active && r.fifo == s.fifo
    requires r.written == s.written && r.trace == s.trace
    requires s.inhibit <= r.inhibit <= r.active && (r.inhibit != {} ==> r.current < c.count)
    requires forall no | no in r.seeks :: 1 <= no <= c.count
    ensures Good(c, r)
  {
    forall k: nat ensures RoutedTo(c, r, k) {
      assert RoutedTo(c, s, k);
    }
  }

  lemma StoreSafe(c: Plan, e: Calls, s: State, p: Packet)
    requires c.Valid() && Safe(c, s) && Bit(p.kind) <= s.active
    requires Store(c, e, s, p).ret >= 0
    ensures Safe(c, Store(c, e, s, p))
  {
    var r := Store(c, e, s, p);
    assert r.frames == s.frames && r.seeks == s.seeks;
    if Ahead(c, s.current, p) {
      GotoNextIsSuccessor(s.current, c.Own(p).value, c.count);
    }
  }

  lemma StoreRoutes(c: Plan, e: Calls, s: State, p: Packet, k: nat)
    requires c.Valid() && Store(c, e, s, p).ret >= 0
    ensures var r := Store(c, e, s, p);
            && r.trace == s.trace + [Stored(p, s.current)]
            && Output(r.written, k) ==
               Output(s.written, k) + (if !Ahead(c, s.current, p) && k == s.current then [p] else [])
            && r.fifo == s.fifo + (if Ahead(c, s.current, p) then [p] else [])
            && Delivered(c, r.trace, k) ==
               Delivered(c, s.trace, k) + (if Dest(c, p, s.current) == k then [p] else [])
  {
    TraceGrows(s.trace, Stored(p, s.current));
    if !Ahead(c, s.current, p) {
      OutputGrows(s.written, Write(s.current, p), k);
    }
  }

  /** The routing invariant survives any step that adds one packet where it belongs. */
  lemma RoutedToGrows(c: Plan, s: State, r: State, p: Packet, k: nat)
    requires c.Valid() && RoutedTo(c, s, k) && s.current <= c.count && r.current == s.current
    requires r.fifo == s.fifo + (if Ahead(c, s.current, p) then [p] else [])
    requires Output(r.written, k) ==
             Output(s.written, k) + (if !Ahead(c, s.current, p) && k == s.current then [p] else [])
    requires Delivered(c, r.trace, k) ==
             Delivered(c, s.trace, k) + (if Dest(c, p, s.current) == k then [p] else [])
    ensures RoutedTo(c, r, k)
  {
  }

  lemma RoutedGrows(c: Plan, s: State, r: State, p: Packet)
    requires c.Valid() && Routed(c, s) && s.current <= c.count && r.current == s.current
    requires r.trace == s.trace + [Stored(p, s.current)]
    requires r.fifo == s.fifo + (if Ahead(c, s.current, p) then [p] else [])
    requires forall k: nat :: Output(r.written, k) ==
               Output(s.written, k) + (if !Ahead(c, s.current, p) && k == s.current then [p] else [])
    requires forall k: nat :: Delivered(c, r.trace, k) ==
               Delivered(c, s.trace, k) + (if Dest(c, p, s.current) == k then [p] else [])
    ensures Routed(c, r)
  {
    TraceGrows(s.trace, Stored(p, s.current));
    forall k: nat ensures RoutedTo(c, r, k) {
      assert RoutedTo(c, s, k);
      RoutedToGrows(c, s, r, p, k);
    }
  }

  lemma StoreKeeps(c: Plan, e: Calls, s: State, p: Packet)
    requires c.Valid() && Good(c, s) && Bit(p.kind) <= s.active
    requires Store(c, e, s, p).ret >= 0
    ensures Good(c, Store(c, e, s, p))
  {
    StoreSafe(c, e, s, p);
    forall k: nat {
      StoreRoutes(c, e, s, p, k);
    }
    StoreRoutes(c, e, s, p, 0);
    RoutedGrows(c, s, Store(c, e, s, p), p);
  }

  lemma {:induction false} StoreAllKeeps(c: Plan, e: Calls, s: State, ps: seq<Packet>)
    requires c.Valid() && Good(c, s)
    requires forall p | p in ps :: Bit(p.kind) <= s.active
    requires StoreAll(c, e, s, ps).ret >= 0
    ensures Good(c, StoreAll(c, e, s, ps))
    decreases |ps|
  {
    if ps != [] && s.ret >= 0 {
      var t := Store(c, e, s, ps[0]);
      StoreKeeps(c, e, s, ps[0]);
      StoreAllKeeps(c, e, t, ps[1..]);
    }
  }

  /** A complete replay appends the FIFO to the output of the current segment. */
  lemma {:induction false} ReplayAppends(e: Calls, s: State, k: nat)
    requires s.ret >= 0 && Replay(e, s).ret >= 0
    ensures Output(Replay(e, s).written, k) ==
            Output(s.written, k) + (if k == s.current then s.fifo else [])
    decreases |s.fifo|
  {
    if s.fifo != [] {
      var p := s.fifo[0];
      var t := s.(fifo := s.fifo[1..], written := s.written + [Write(s.current, p)]);
      OutputGrows(s.written, Write(s.current, p), k);
      ReplayAppends(e, t, k);
      assert s.fifo == [p] + s.fifo[1..];
    }
  }

  ghost function SeekFound(c: Plan, e: Calls, s: State): Option<nat>
  {
    FindSeek(c, e.Roll(s.rolls), ToU32(s.current + 1), s.seeks).0
  }

  /** The state in which a rollover without a seek starts to replay the FIFO. */
  ghost function Begun(s: State): State {
    s.(seeks := [], rolls := s.rolls + 1, trace := s.trace + [Rolled],
       current := s.current + 1, inhibit := {}, ret := 0)
  }

  lemma PlainRollOver(c: Plan, e: Calls, s: State)
    requires c.Valid() && s.current < c.count
    requires SeekFound(c, e, s).None?
    requires e.Roll(s.rolls).header == 0 && RollOver(c, e, s).ret >= 0
    ensures RollOver(c, e, s) == Replay(e, Begun(s))
  {
    assert ToU32(s.current + 1) == s.current + 1;
    FindSeekIsFirst(c, e.Roll(s.rolls), s.current + 1, s.seeks);
  }

  /** Without a seek, the held-back packets come first in the new segment, in order. */
  lemma RollOverReplaysFirst(c: Plan, e: Calls, s: State, k: nat)
    requires c.Valid() && s.current < c.count
    requires SeekFound(c, e, s).None?
    requires e.Roll(s.rolls).header == 0 && RollOver(c, e, s).ret >= 0
    ensures var r := RollOver(c, e, s);
            && r.current == s.current + 1 && r.inhibit == {} && r.seeks == [] && r.fifo == []
            && r.frames == s.frames && r.lost == s.lost && r.active == s.active
            && r.trace == s.trace + [Rolled]
            && Output(r.written, k) == Output(s.written, k) + Pending(s, k)
  {
    PlainRollOver(c, e, s);
    ReplayAppends(e, Begun(s), k);
  }

  /** An accepted seek drops the frame map and the FIFO and goes on at the segment asked for. */
  lemma RollOverSeeks(c: Plan, e: Calls, s: State)
    requires SeekFound(c, e, s).Some?
    requires RollOver(c, e, s).ret >= 0
    ensures var r := RollOver(c, e, s);
            && r.current == SeekFound(c, e, s).value && r.inhibit == {} && r.fifo == [] && r.frames == []
            && |r.seeks| < |s.seeks| && (forall no | no in r.seeks :: no in s.seeks)
            && r.current in s.seeks && r.active == s.active
            && r.lost == s.lost + s.fifo && r.dropped == s.dropped + s.frames
            && r.written == s.written && r.trace == s.trace + [Sought(s.current)]
            && r.taken == s.taken && r.sought == s.sought + 1
  {
    var found := FindSeek(c, e.Roll(s.rolls), ToU32(s.current + 1), s.seeks);
    RollOverEnters(c, e, s, found);
    assert RollOver(c, e, s).seeks == found.1;
    FindSeekIsFirst(c, e.Roll(s.rolls), ToU32(s.current + 1), s.seeks);
  }

  /** `r` is `s` after a rollover that wrote what was held back. */
  lemma RolledOverIsGood(c: Plan, s: State, r: State)
    requires c.Valid() && Good(c, s) && s.current < c.count
    requires r.current == s.current + 1 && r.inhibit == {} && r.fifo == [] && r.seeks == []
    requires r.frames == s.frames && r.trace == s.trace + [Rolled]
    requires forall k: nat :: Output(r.written, k) == Output(s.written, k) + Pending(s, k)
    ensures Good(c, r)
  {
    TraceGrows(s.trace, Rolled);
    forall k: nat ensures RoutedTo(c, r, k) {
      assert RoutedTo(c, s, k);
    }
    assert RoutedTo(c, r, r.current + 1);
  }

  lemma PlainRollOverKeeps(c: Plan, e: Calls, s: State)
    requires c.Valid() && Good(c, s) && s.ret >= 0
    requires s.current < c.count && SeekFound(c, e, s).None?
    requires e.Roll(s.rolls).header == 0 && RollOver(c, e, s).ret >= 0
    ensures Good(c, RollOver(c, e, s))
  {
    forall k: nat {
      RollOverReplaysFirst(c, e, s, k);
    }
    RollOverReplaysFirst(c, e, s, 0);
    RolledOverIsGood(c, s, RollOver(c, e, s));
  }

  /** A seek cancels what was held back for the next segment, in the FIFO and in the routing. */
  lemma RoutedWithoutFifo(c: Plan, s: State, r: State, k: nat)
    requires Routed(c, s) && r.fifo == [] && r.written == s.written
    requires r.trace == s.trace + [Sought(s.current)]
    ensures RoutedTo(c, r, k)
  {
    assert RoutedTo(c, s, k);
    TraceGrows(s.trace, Sought(s.current));
  }

  lemma SeekingRollOverKeeps(c: Plan, e: Calls, s: State)
    requires c.Valid() && Good(c, s)
    requires SeekFound(c, e, s).Some? && RollOver(c, e, s).ret >= 0
    ensures Good(c, RollOver(c, e, s))
  {
    var r := RollOver(c, e, s);
    RollOverSeeks(c, e, s);
    TraceGrows(s.trace, Sought(s.current));
    forall k: nat ensures RoutedTo(c, r, k) {
      RoutedWithoutFifo(c, s, r, k);
    }
    assert RoutedTo(c, r, r.current + 1);
  }

  lemma RollOverKeeps(c: Plan, e: Calls, s: State)
    requires c.Valid() && Good(c, s) && s.ret >= 0 && PlainHeaders(e)
    requires s.current < c.count
    requires RollOver(c, e, s).ret >= 0
    ensures Good(c, RollOver(c, e, s))
    ensures RollOver(c, e, s).active == s.active
  {
    assert e.Roll(s.rolls).header <= 0;
    if SeekFound(c, e, s).None? {
      PlainRollOverKeeps(c, e, s);
      RollOverReplaysFirst(c, e, s, 0);
    } else {
      SeekingRollOverKeeps(c, e, s);
      RollOverSeeks(c, e, s);
    }
  }

  lemma {:induction false} LoudFailure(c: Plan, e: Calls, s: State, ps: seq<Packet>)
    requires LoudStores(e) && s.ret != AGAIN
    ensures StoreAll(c, e, s, ps).ret != AGAIN
    decreases |ps|
  {
    if ps != [] && s.ret >= 0 {
      LoudFailure(c, e, Store(c, e, s, ps[0]), ps[1..]);
    }
  }

  lemma TakeFrameKeeps(c: Plan, e: Calls, s: State)
    requires c.Valid() && Good(c, s) && s.frames != [] && TypedCalls(e, s.active) && LoudStores(e)
    requires TakeFrame(c, e, s).ret >= 0
    ensures Good(c, TakeFrame(c, e, s))
  {
    var ps := EncodedPackets(e, s.frames[0]).packets;
    GoodTransfers(c, s, Unmap(s));
    LoudFailure(c, e, Unmap(s), ps);
    StoreAllKeeps(c, e, Unmap(s), ps);
    GoodTransfers(c, StoreAll(c, e, Unmap(s), ps), TakeFrame(c, e, s));
  }

  lemma {:induction false} DrainFramesKeeps(c: Plan, e: Calls, s: State)
    requires c.Valid() && Good(c, s) && TypedCalls(e, s.active) && LoudStores(e)
    requires DrainFrames(c, e, s).ret >= 0
    ensures Good(c, DrainFrames(c, e, s))
    decreases |s.frames|
  {
    if s.frames == [] || s.ret < 0 {
    } else if AtBoundary(c, s) {
      GoodTransfers(c, s, s.(inhibit := s.active));
    } else {
      TakeFrameKeeps(c, e, s);
      DrainFramesKeeps(c, e, TakeFrame(c, e, s));
    }
  }

  /** What one pass of the drain loop keeps, whether or not it succeeds: a new segment is only
      started in a good state, and when it exists. */
  ghost predicate PassKeeps(c: Plan, e: Calls, s: State) {
    var t := DrainFrames(c, e, s);
    && Good(c, s)
    && (t.ret >= 0 ==> Good(c, t))
    && (t.ret >= 0 && t.active == t.inhibit ==> t.current < c.count)
    && (DrainOnce(c, e, s).ret >= 0 ==> Good(c, DrainOnce(c, e, s)))
  }

  lemma DrainOnceKeeps(c: Plan, e: Calls, s: State)
    requires c.Valid() && Good(c, s) && TypedCalls(e, s.active) && PlainHeaders(e) && LoudStores(e)
    requires s.active != {}
    ensures PassKeeps(c, e, s)
    ensures DrainOnce(c, e, s).ret >= 0 ==> DrainOnce(c, e, s).active == s.active
  {
    var t := DrainFrames(c, e, s);
    if t.ret >= 0 {
      DrainFramesKeeps(c, e, s);
      if t.active == t.inhibit && RollOver(c, e, t).ret >= 0 {
        RollOverKeeps(c, e, t);
        DrainOnceEnds(c, e, s, t, RollOver(c, e, t));
        GoodTransfers(c, RollOver(c, e, t), DrainOnce(c, e, s));
      }
    }
  }

  /** Every pass of the drain loop keeps what a pass has to keep, the failing one included. */
  ghost predicate PassesKeep(c: Plan, e: Calls, s: State, finished: bool)
    requires c.Valid() && s.current <= c.count
    decreases |s.seeks|, c.count - s.current
  {
    TooEarly(c, s, finished) ||
    (var u := DrainOnce(c, e, s);
     && PassKeeps(c, e, s)
     && (u.ret >= 0 && finished && u.frames != [] ==>
           (DrainProgress(c, e, s); PassesKeep(c, e, u, finished))))
  }

  lemma {:induction false} DrainKeeps(c: Plan, e: Calls, s: State, finished: bool)
    requires c.Valid() && Good(c, s) && TypedCalls(e, s.active) && PlainHeaders(e) && LoudStores(e)
    requires s.active != {}
    ensures PassesKeep(c, e, s, finished)
    ensures var r := Drain(c, e, s, finished);
            r.ret >= 0 ==> Good(c, r) && r.active == s.active
    decreases |s.seeks|, c.count - s.current
  {
    if !TooEarly(c, s, finished) {
      var u := DrainOnce(c, e, s);
      DrainOnceKeeps(c, e, s);
      if u.ret >= 0 && finished && u.frames != [] {
        DrainProgress(c, e, s);
        DrainKeeps(c, e, u, finished);
      }
    }
  }

  /** `r` is `fs` with `f` put in at `k`, behind every frame that is not later. */
  ghost predicate InsertedAt(fs: seq<Frame>, f: Frame, r: seq<Frame>, k: nat) {
    && k <= |fs| && r == fs[..k] + [f] + fs[k..]
    && (forall i | 0 <= i < k :: fs[i].key <= f.key)
    && (forall i | k <= i < |fs| :: fs[i].key > f.key)
  }

  lemma InsertedBehind(fs: seq<Frame>, f: Frame, r: seq<Frame>, j: nat)
    requires fs != [] && fs[0].key <= f.key && InsertedAt(fs[1..], f, r, j)
    ensures InsertedAt(fs, f, [fs[0]] + r, j + 1)
  {
    assert fs[..j + 1] == [fs[0]] + fs[1..][..j] && fs[j + 1..] == fs[1..][j..];
    forall i | 0 <= i < |fs| ensures if i <= j then fs[i].key <= f.key else fs[i].key > f.key {
      assert i > 0 ==> fs[i] == fs[1..][i - 1];
    }
  }

  lemma InsertSorts(fs: seq<Frame>, f: Frame, k: nat)
    requires Sorted(fs) && k <= |fs|
    requires (forall i | 0 <= i < k :: fs[i].key <= f.key) && (forall i | k <= i < |fs| :: fs[i].key > f.key)
    ensures Sorted(fs[..k] + [f] + fs[k..])
  {
  }

  lemma InsertedInFront(fs: seq<Frame>, f: Frame)
    requires Sorted(fs) && (fs != [] ==> fs[0].key > f.key)
    ensures InsertedAt(fs, f, [f] + fs, 0)
  {
    assert fs[..0] + [f] + fs[0..] == [f] + fs;
  }

  /** Buffering a frame keeps the map sorted, and equal positions in order of arrival. */
  lemma {:induction false} EmplaceSorts(fs: seq<Frame>, f: Frame) returns (k: nat)
    requires Sorted(fs)
    ensures Sorted(Emplace(fs, f)) && InsertedAt(fs, f, Emplace(fs, f), k)
    decreases |fs|
  {
    k := 0;
    if fs != [] && fs[0].key <= f.key {
      var j := EmplaceSorts(fs[1..], f);
      InsertedBehind(fs, f, Emplace(fs[1..], f), j);
      k := j + 1;
    } else {
      InsertedInFront(fs, f);
    }
    InsertSorts(fs, f, k);
  }

  lemma ApplyKeeps(c: Plan, e: Calls, s: State, step: Step)
    requires c.Valid() && Good(c, s) && TypedCalls(e, s.active) && PlainHeaders(e) && LoudStores(e)
    requires s.active != {}
    requires step.StoreStep? ==> Bit(step.packet.kind) <= s.active
    ensures step.DrainStep? ==> PassesKeep(c, e, s, step.finished)
    ensures var r := Apply(c, e, s, step);
            r.ret >= 0 ==> Good(c, r) && r.active == s.active
  {
    var r := Apply(c, e, s, step);
    match step
    case StoreStep(p) =>
      if r.ret >= 0 {
        StoreKeeps(c, e, s, p);
      }
    case BufferStep(f) =>
      var _ := EmplaceSorts(s.frames, f);
      GoodTransfers(c, s, r);
    case SeekStep(no) => GoodTransfers(c, s, r);
    case DrainStep(finished) => DrainKeeps(c, e, s, finished);
  }

  /** Every pass of every drain of a run keeps what a pass has to keep. */
  ghost predicate DrainsKeep(c: Plan, e: Calls, s: State, steps: seq<Step>)
    requires c.Valid()
    decreases |steps|
  {
    steps == [] || s.ret < 0 || s.current > c.count ||
    (&& (steps[0].DrainStep? ==> PassesKeep(c, e, s, steps[0].finished))
     && DrainsKeep(c, e, Apply(c, e, s, steps[0]), steps[1..]))
  }

  lemma TypedTail(steps: seq<Step>, active: set<Media>)
    requires steps != [] && TypedSteps(steps, active)
    ensures TypedSteps(steps[1..], active)
  {
    forall i | 0 <= i < |steps[1..]| && steps[1..][i].StoreStep?
      ensures Bit(steps[1..][i].packet.kind) <= active
    {
      assert steps[1..][i] == steps[i + 1];
    }
  }

  /** The main result: exact routing in every state a run reaches without a failure, and at the
      start of every segment and every pass on the way, also if the run fails later. */
  lemma {:induction false} RunKeeps(c: Plan, e: Calls, s: State, steps: seq<Step>)
    requires c.Valid() && Good(c, s) && TypedCalls(e, s.active) && PlainHeaders(e) && LoudStores(e)
    requires s.active != {} && TypedSteps(steps, s.active)
    ensures DrainsKeep(c, e, s, steps)
    ensures var r := Run(c, e, s, steps);
            r.ret >= 0 ==> Good(c, r) && r.active == s.active
    decreases |steps|
  {
    if steps != [] && s.ret >= 0 {
      var t := Apply(c, e, s, steps[0]);
      ApplyKeeps(c, e, s, steps[0]);
      if t.ret >= 0 {
        TypedTail(steps, s.active);
        RunKeeps(c, e, t, steps[1..]);
      }
    }
  }

  lemma OpenedIsGood(c: Plan, current: nat, active: set<Media>)
    requires c.Valid() && 1 <= current <= c.count
    ensures Good(c, Opened(current, active))
  {
    var s := Opened(current, active);
    forall k: nat ensures RoutedTo(c, s, k) {
    }
  }

  lemma {:induction false} FirstSeekTakes(c: Plan, seeks: seq<nat>)
    ensures var (found, rest) := FirstSeek(c, seeks);
            && (found.Some? ==> found.value in seeks)
            && forall no | no in rest :: no in seeks
  {
    if seeks != [] {
      FirstSeekTakes(c, seeks[1..]);
    }
  }

  /** Opening the output with video PTS 0 starts every run in a good state, at the segment of
      the first seek that counts. With another PTS the segment is the caller's affair: it
      exists afterwards iff it did before. */
  lemma InitialiseSelects(c: Plan, k: RollCalls, active: set<Media>, current: nat, seeks: seq<nat>, pts: int)
    requires c.Valid() && forall no | no in seeks :: 1 <= no <= c.count
    ensures var r := Initialise(c, k, Opened(current, active).(seeks := seeks), pts);
            && (pts == 0 && r.ret >= 0 ==> Good(c, r))
            && (pts == 0 && r.ret >= 0 && current <= 1 && FirstSeek(c, seeks).0.Some? ==>
                  r.current == FirstSeek(c, seeks).0.value)
            && (pts != 0 ==> (Good(c, r) <==> 1 <= current <= c.count))
  {
    var s := Opened(current, active).(seeks := seeks);
    var r := Initialise(c, k, s, pts);
    FirstSeekTakes(c, seeks);
    if 1 <= r.current <= c.count {
      OpenedIsGood(c, r.current, active);
      GoodTransfers(c, Opened(r.current, active), r);
    }
  }

  // ----- Placement

  /** No packet is more than one segment ahead of the encoder when it is stored. */
  ghost predicate NoJump(c: Plan, t: seq<Event>)
  {
    forall i | 0 <= i < |t| && t[i].Stored? && c.Own(t[i].packet).Some? ::
      c.Own(t[i].packet).value <= t[i].at + 1
  }

  lemma {:induction false} EpochPrefixIsPrefix(t: seq<Event>)
    ensures EpochPrefix(t) <= t
    decreases |t|
  {
    if t != [] && t[|t| - 1].Stored? {
      EpochPrefixIsPrefix(t[..|t| - 1]);
    }
  }

  lemma {:induction false} DeliveredWasStored(c: Plan, t: seq<Event>, k: nat, p: Packet) returns (i: nat)
    requires c.Valid() && p in Delivered(c, t, k)
    ensures i < |t| && t[i].Stored? && t[i].packet == p && Dest(c, p, t[i].at) == k
    decreases |t|
  {
    var pre := t[..|t| - 1];
    match t[|t| - 1] {
      case Stored(q, at) =>
        if p in Delivered(c, pre, k) {
          i := DeliveredWasStored(c, pre, k, p);
        } else {
          i := |t| - 1;
        }
      case Rolled => i := DeliveredWasStored(c, pre, k, p);
      case Sought(at) =>
        var u := if k == at + 1 then EpochPrefix(pre) else pre;
        i := DeliveredWasStored(c, u, k, p);
        EpochPrefixIsPrefix(pre);
    }
  }

  /** A packet is written into its own segment if it was held back, and never into a segment
      before its own (or the last one) if none arrives more than one segment ahead. */
  lemma PacketPlacement(c: Plan, s: State, k: nat, p: Packet)
    requires c.Valid() && Good(c, s)
    requires p in Output(s.written, k) && c.Own(p).Some?
    ensures exists at: nat :: Stored(p, at) in s.trace && Dest(c, p, at) == k
                              && (Ahead(c, at, p) ==> k == c.Own(p).value)
    ensures NoJump(c, s.trace) ==> k >= c.Own(p).value || k >= c.count
  {
    assert RoutedTo(c, s, k);
    assert p in Delivered(c, s.trace, k);
    var i := DeliveredWasStored(c, s.trace, k, p);
    var at := s.trace[i].at;
    assert s.trace[i] == Stored(p, at);
  }
}
