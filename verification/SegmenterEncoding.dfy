/** What the encoders deliver reaches the output: every packet of every frame that leaves the
    map is stored, in order, while the frame's segment is being encoded; and a call fails
    exactly when one of the foreign calls it makes does. */
module SegmenterEncoding {
  import opened Machine
  import opened Options
  import opened HlsTime
  import opened Segmenter
  import opened SegmenterRuns
  import opened SegmenterDrain

  // ----- Reference

  /** The packets `ps` are stored in segment `at`. */
  ghost function StoredAt(ps: seq<Packet>, at: nat): seq<Event> {
    if ps == [] then [] else [Stored(ps[0], at)] + StoredAt(ps[1..], at)
  }

  /** What the encoder delivers for a frame; a frame of a stream that does not exist is skipped. */
  ghost function PacketsOf(e: Calls, f: Frame): seq<Packet> {
    if !f.known then [] else e.Encode(f).packets
  }

  /** The packets of the frames taken, each in its frame's segment. */
  ghost function EncodedAll(e: Calls, l: seq<Taken>): seq<Event> {
    if l == [] then []
    else EncodedAll(e, l[..|l| - 1]) + StoredAt(PacketsOf(e, l[|l| - 1].frame), l[|l| - 1].segment)
  }

  /** A trace without the beginnings of segments. */
  ghost function StoresOf(t: seq<Event>): seq<Event> {
    if t == [] then []
    else StoresOf(t[..|t| - 1]) + if t[|t| - 1].Stored? then [t[|t| - 1]] else []
  }

  lemma {:induction false} StoresAppend(t: seq<Event>, u: seq<Event>)
    requires forall i | 0 <= i < |u| :: u[i].Stored?
    ensures StoresOf(t + u) == StoresOf(t) + u
    decreases |u|
  {
    if u == [] {
      assert t + u == t;
    } else {
      var v := u[..|u| - 1];
      assert (t + u)[..|t + u| - 1] == t + v && u == v + [u[|u| - 1]];
      StoresAppend(t, v);
    }
  }

  lemma StoresSkip(t: seq<Event>, x: Event)
    requires !x.Stored?
    ensures StoresOf(t + [x]) == StoresOf(t)
  {
    assert (t + [x])[..|t|] == t;
  }

  lemma EncodedAppend(e: Calls, l: seq<Taken>, x: Taken)
    ensures EncodedAll(e, l + [x]) == EncodedAll(e, l) + StoredAt(PacketsOf(e, x.frame), x.segment)
  {
    assert (l + [x])[..|l|] == l;
  }

  lemma {:induction false} StoredAtIsStored(ps: seq<Packet>, at: nat)
    ensures |StoredAt(ps, at)| == |ps|
    ensures forall i | 0 <= i < |ps| :: StoredAt(ps, at)[i] == Stored(ps[i], at)
    decreases |ps|
  {
    if ps != [] {
      StoredAtIsStored(ps[1..], at);
    }
  }

  // ----- One frame

  lemma {:induction false} StoreAllTraces(c: Plan, e: Calls, s: State, ps: seq<Packet>)
    requires s.ret >= 0 && StoreAll(c, e, s, ps).ret >= 0
    ensures StoreAll(c, e, s, ps).trace == s.trace + StoredAt(ps, s.current)
    decreases |ps|
  {
    if ps != [] {
      var t := Store(c, e, s, ps[0]);
      if t.ret >= 0 {
        StoreAllTraces(c, e, t, ps[1..]);
        assert t.trace == s.trace + [Stored(ps[0], s.current)];
      }
    }
  }

  /** Encoding a frame stores exactly the packets its encoder delivers, in order, in the current
      segment, and nothing for a frame of a stream that does not exist. */
  lemma FrameIsStored(c: Plan, e: Calls, s: State)
    requires s.frames != [] && LoudStores(e) && TakeFrame(c, e, s).ret >= 0
    ensures var f := s.frames[0];
            TakeFrame(c, e, s).trace ==
            s.trace + StoredAt(if f.known then e.encode(f).packets else [], s.current)
  {
    var ps := EncodedPackets(e, s.frames[0]).packets;
    LoudFailure(c, e, Unmap(s), ps);
    StoreAllTraces(c, e, Unmap(s), ps);
  }

  // ----- Failures

  /** Storing a packet fails iff the call it makes fails: the clone of a packet that is held
      back, the write of any other. */
  lemma StoreFailsIff(c: Plan, e: Calls, s: State, p: Packet)
    ensures Store(c, e, s, p).ret < 0 <==>
              if Ahead(c, s.current, p) then e.clone(p) < 0 else e.write(p) < 0
    ensures Store(c, e, s, p).ret ==
            if !Ahead(c, s.current, p) then e.write(p) else if e.clone(p) < 0 then e.clone(p) else 0
  {
  }

  /** Encoding a frame fails iff a store or else the encoder reports an error that is not
      AVERROR(EAGAIN). */
  lemma FrameFailsIff(c: Plan, e: Calls, s: State)
    requires s.frames != [] && LoudStores(e)
    ensures var f := s.frames[0];
            var stored := StoreAll(c, e, Unmap(s), PacketsOf(e, f)).ret;
            TakeFrame(c, e, s).ret < 0 <==>
              stored < 0 || (f.known && e.encode(f).ret < 0 && e.encode(f).ret != -11)
    ensures TakeFrame(c, e, s).ret >= 0 ==> TakeFrame(c, e, s).ret == 0
  {
    LoudFailure(c, e, Unmap(s), PacketsOf(e, s.frames[0]));
  }

  /** Writing the held-back packets fails iff one of the writes does. */
  lemma {:induction false} ReplayFailsIff(e: Calls, s: State)
    requires s.ret >= 0
    ensures Replay(e, s).ret < 0 <==> exists p | p in s.fifo :: e.write(p) < 0
    decreases |s.fifo|
  {
    if s.fifo != [] {
      var p := s.fifo[0];
      assert forall q | q in s.fifo :: q == p || q in s.fifo[1..];
      assert p in s.fifo && forall q | q in s.fifo[1..] :: q in s.fifo;
      assert e.Put(p) == e.write(p);
      if e.Put(p) >= 0 {
        ReplayFailsIff(e, s.(fifo := s.fifo[1..], written := s.written + [Write(s.current, p)]));
      }
    }
  }

  lemma BeginFailsIff(c: Plan, e: Calls, k: RollCalls, s: State, next: nat, reopened: bool)
    requires 1 <= next <= c.count
    ensures var r := Begin(c, e, k, s, next, reopened);
            r.ret < 0 <==>
              || k.setSegment < 0 || (!reopened && k.header < 0)
              || (k.setSegment >= 0 && (reopened || k.header == 0) && exists p | p in s.fifo :: e.write(p) < 0)
  {
    ReplayFailsIff(e, s.(current := next, inhibit := {}, ret := 0));
  }

  /** A rollover to a segment that exists fails iff a call it makes fails: with a seek, the
      seek, the reopening of the output or the choice of the cache file; without one, the choice
      of the cache file, the header, or a write of a held-back packet. */
  lemma RollOverFailsIff(c: Plan, e: Calls, s: State)
    requires c.Valid() && s.current < c.count
    requires SeekFound(c, e, s).Some? ==> 1 <= SeekFound(c, e, s).value <= c.count
    ensures var k := e.roll(s.rolls);
            RollOver(c, e, s).ret < 0 <==>
              if SeekFound(c, e, s).Some? then k.seek < 0 || k.open < 0 || k.setSegment < 0
              else k.setSegment < 0 || k.header < 0 || (k.header == 0 && exists p | p in s.fifo :: e.write(p) < 0)
  {
    var k := e.Roll(s.rolls);
    var found := FindSeek(c, k, ToU32(s.current + 1), s.seeks);
    var t := Called(s, found.1);
    RollOverEnters(c, e, s, found);
    if found.0.Some? {
      BeginFailsIff(c, e, k, Reopened(t, found.0.value), found.0.value, true);
    } else {
      BeginFailsIff(c, e, k, t.(trace := t.trace + [Rolled]), s.current + 1, false);
    }
  }

  /** Where a seek that fails leaves the transcoder: a failed seek in the input at the old segment
      with all its frames and packets, a failed reopening at the new one without them. */
  lemma FailedSeekLeaves(c: Plan, e: Calls, s: State)
    requires SeekFound(c, e, s).Some? && (e.roll(s.rolls).seek < 0 || e.roll(s.rolls).open < 0)
    ensures var k, r := e.roll(s.rolls), RollOver(c, e, s);
            if k.seek < 0 then
              r.ret == k.seek && r.current == s.current && r.frames == s.frames && r.fifo == s.fifo
              && r.inhibit == s.inhibit && r.lost == s.lost && r.dropped == s.dropped
            else
              r.ret == k.open && r.current == SeekFound(c, e, s).value && r.frames == [] && r.fifo == []
              && r.inhibit == {} && r.lost == s.lost + s.fifo && r.dropped == s.dropped + s.frames
  {
    RollOverEnters(c, e, s, FindSeek(c, e.Roll(s.rolls), ToU32(s.current + 1), s.seeks));
  }

  /** The drain reports 0 for a rollover that did not fail, whatever that answered. */
  lemma PassReportsZero(c: Plan, e: Calls, s: State, t: State)
    requires t == DrainFrames(c, e, s) && t.ret >= 0 && t.active == t.inhibit
    ensures DrainOnce(c, e, s).ret == if RollOver(c, e, t).ret < 0 then RollOver(c, e, t).ret else 0
  {
    DrainOnceEnds(c, e, s, t, RollOver(c, e, t));
  }

  // ----- The drain

  /** From `s` to `r` the frames `l` were taken, and exactly their packets were stored. */
  ghost predicate Encodes(e: Calls, s: State, r: State, l: seq<Taken>) {
    r.taken == s.taken + l && StoresOf(r.trace) == StoresOf(s.trace) + EncodedAll(e, l)
  }

  lemma Regroup<T>(a: seq<T>, b: seq<T>, c: seq<T>)
    ensures (a + b) + c == a + (b + c)
  {
  }

  lemma {:induction false} EncodedConcat(e: Calls, l: seq<Taken>, m: seq<Taken>)
    ensures EncodedAll(e, l + m) == EncodedAll(e, l) + EncodedAll(e, m)
    decreases |m|
  {
    if m == [] {
      assert l + m == l;
    } else {
      var n, x := m[..|m| - 1], m[|m| - 1];
      EncodedConcat(e, l, n);
      EncodedAppend(e, l + n, x);
      assert m == n + [x];
      Regroup(l, n, [x]);
      Regroup(EncodedAll(e, l), EncodedAll(e, n), StoredAt(PacketsOf(e, x.frame), x.segment));
    }
  }

  lemma EncodesTwice(e: Calls, s: State, t: State, u: State, l: seq<Taken>, m: seq<Taken>)
    requires Encodes(e, s, t, l) && Encodes(e, t, u, m)
    ensures Encodes(e, s, u, l + m)
  {
    EncodedConcat(e, l, m);
    Regroup(s.taken, l, m);
    Regroup(StoresOf(s.trace), EncodedAll(e, l), EncodedAll(e, m));
  }

  lemma FrameEncodes(c: Plan, e: Calls, s: State)
    requires s.frames != [] && LoudStores(e) && TakeFrame(c, e, s).ret >= 0
    ensures Encodes(e, s, TakeFrame(c, e, s), [Taken(s.frames[0], s.current)])
  {
    var ps := PacketsOf(e, s.frames[0]);
    FrameIsStored(c, e, s);
    StoredAtIsStored(ps, s.current);
    StoresAppend(s.trace, StoredAt(ps, s.current));
    EncodedAppend(e, [], Taken(s.frames[0], s.current));
    assert [] + [Taken(s.frames[0], s.current)] == [Taken(s.frames[0], s.current)];
  }

  lemma {:induction false} DrainFramesEncodes(c: Plan, e: Calls, s: State) returns (l: seq<Taken>)
    requires LoudStores(e) && DrainFrames(c, e, s).ret >= 0
    ensures Encodes(e, s, DrainFrames(c, e, s), l)
    decreases |s.frames|
  {
    l := [];
    if s.frames != [] && s.ret >= 0 && !AtBoundary(c, s) {
      var t := TakeFrame(c, e, s);
      if t.ret >= 0 {
        FrameEncodes(c, e, s);
        var m := DrainFramesEncodes(c, e, t);
        l := [Taken(s.frames[0], s.current)] + m;
        EncodesTwice(e, s, t, DrainFrames(c, e, s), [Taken(s.frames[0], s.current)], m);
      }
    }
  }

  lemma RollOverTraces(c: Plan, e: Calls, s: State, r: State)
    requires r == RollOver(c, e, s) && r.ret >= 0
    ensures r.trace == s.trace + [Rolled] || r.trace == s.trace + [Sought(s.current)]
  {
    var found := FindSeek(c, e.Roll(s.rolls), ToU32(s.current + 1), s.seeks);
    RollOverEnters(c, e, s, found);
  }

  /** A rollover takes no frame and adds no packet to the trace. */
  lemma RollOverEncodesNothing(c: Plan, e: Calls, s: State)
    requires RollOver(c, e, s).ret >= 0
    ensures Encodes(e, s, RollOver(c, e, s), [])
  {
    var r := RollOver(c, e, s);
    RollOverTraces(c, e, s, r);
    RollOverFrames(c, e, s);
    if r.trace == s.trace + [Rolled] {
      StoresSkip(s.trace, Rolled);
    } else {
      StoresSkip(s.trace, Sought(s.current));
    }
    assert r.taken == s.taken + [];
  }

  lemma DrainOnceEncodes(c: Plan, e: Calls, s: State) returns (l: seq<Taken>)
    requires LoudStores(e) && DrainOnce(c, e, s).ret >= 0
    ensures Encodes(e, s, DrainOnce(c, e, s), l)
  {
    var t := DrainFrames(c, e, s);
    l := DrainFramesEncodes(c, e, s);
    if t.active == t.inhibit {
      var u := RollOver(c, e, t);
      DrainOnceEnds(c, e, s, t, u);
      RollOverEncodesNothing(c, e, t);
      EncodesTwice(e, s, t, u, l, []);
      assert l + [] == l;
    }
  }

  /** A successful drain stores exactly what the encoders deliver for the frames it takes. */
  lemma {:induction false} DrainEncodes(c: Plan, e: Calls, s: State, finished: bool) returns (l: seq<Taken>)
    requires c.Valid() && s.current <= c.count && LoudStores(e)
    requires Drain(c, e, s, finished).ret >= 0
    ensures Encodes(e, s, Drain(c, e, s, finished), l)
    decreases |s.seeks|, c.count - s.current
  {
    l := [];
    if !TooEarly(c, s, finished) {
      var u := DrainOnce(c, e, s);
      l := DrainOnceEncodes(c, e, s);
      if finished && u.frames != [] {
        DrainProgress(c, e, s);
        var m := DrainEncodes(c, e, u, finished);
        EncodesTwice(e, s, u, Drain(c, e, s, finished), l, m);
        l := l + m;
      }
    }
  }

  /** The drain at the end of the input outputs everything: unless a seek is accepted, the
      packets it stores are those of all waiting frames, in map order, each in the segment the
      reference places its frame in. With a seek, those of the frames before it. */
  lemma DrainStoresAll(c: Plan, e: Calls, s: State) returns (k: nat)
    requires c.Valid() && 1 <= s.current <= c.count && s.ret >= 0 && LoudStores(e)
    requires Drain(c, e, s, true).ret >= 0
    ensures var r := Drain(c, e, s, true);
            && k <= |s.frames| && r.dropped == s.dropped + s.frames[k..]
            && (r.sought == s.sought ==> k == |s.frames|)
            && StoresOf(r.trace) ==
               StoresOf(s.trace) + EncodedAll(e, Placement(c, s.frames, s.current)[..k])
  {
    k := DrainSplits(c, e, s);
    var l := DrainEncodes(c, e, s, true);
    var r := Drain(c, e, s, true);
    var p := Placement(c, s.frames, s.current)[..k];
    assert l == r.taken[|s.taken|..] && p == r.taken[|s.taken|..];
  }
}
