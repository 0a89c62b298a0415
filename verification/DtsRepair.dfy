/** The repair of decoding time stamps in `encode_video_frame`. */
module DtsRepair {
  import opened Options

  datatype Packet = Packet(pts: Option<int>, dts: Option<int>, duration: int)

  function Min(a: int, b: int): int { if a < b then a else b }
  function Max(a: int, b: int): int { if a > b then a else b }

  /** The middle one of three. */
  function Median(a: int, b: int, c: int): int {
    a + b + c - Min(Min(a, b), c) - Max(Max(a, b), c)
  }

  /** A DTS behind its PTS is replaced by a guess, together with the PTS. */
  function Guess(p: Packet, last: Option<int>): Packet {
    match (p.pts, p.dts, last)
    case (Some(pts), Some(dts), Some(l)) =>
      if dts > pts then
        var m := Median(pts, dts, l + 1);
        p.(pts := Some(m), dts := Some(m))
      else p
    case _ => p
  }

  /** A DTS that does not follow the last one is raised; the PTS follows if it was not before
      the DTS. `step` is 0 for a muxer with AVFMT_TS_NONSTRICT, else 1. */
  function Raise(p: Packet, last: Option<int>, step: nat): Packet {
    match (p.dts, last)
    case (Some(dts), Some(l)) =>
      if dts < l + step then
        p.(dts := Some(l + step),
           pts := if p.pts.Some? && p.pts.value >= dts then Some(Max(p.pts.value, l + step)) else p.pts)
      else p
    case _ => p
  }

  function Repair(p: Packet, last: Option<int>, step: nat): Packet {
    Raise(Guess(p, last), last, step)
  }

  /** `m_last_mux_dts` after the packet. */
  function NextLast(p: Packet, last: Option<int>): Option<int> {
    if p.pts.None? then last
    else if p.dts.Some? then p.dts
    else Some(p.pts.value - p.duration)
  }

  function RepairAll(ps: seq<Packet>, last: Option<int>, step: nat): (r: seq<Packet>)
    ensures |r| == |ps|
  {
    if ps == [] then []
    else
      var q := Repair(ps[0], last, step);
      [q] + RepairAll(ps[1..], NextLast(q, last), step)
  }

  function LastAfter(ps: seq<Packet>, last: Option<int>, step: nat): Option<int> {
    if ps == [] then last
    else LastAfter(ps[1..], NextLast(Repair(ps[0], last, step), last), step)
  }

  /** The video encoder's output: packets are received one by one and repaired in place. */
  class VideoOutput {
    var lastMuxDts: Option<int>
    const step: nat

    constructor (strict: bool)
      ensures lastMuxDts == None && step == if strict then 1 else 0
    {
      lastMuxDts := None;
      step := if strict then 1 else 0;
    }

    method RepairPacket(received: Packet) returns (p: Packet)
      modifies this
      ensures p == Repair(received, old(lastMuxDts), step)
      ensures lastMuxDts == NextLast(p, old(lastMuxDts))
    {
      p := received;
      if p.dts.Some? && p.pts.Some? && p.dts.value > p.pts.value && lastMuxDts.Some? {
        var m := Median(p.pts.value, p.dts.value, lastMuxDts.value + 1);
        p := p.(pts := Some(m), dts := Some(m));
      }
      if p.dts.Some? && lastMuxDts.Some? {
        var max := lastMuxDts.value + step;
        if p.dts.value < max {
          if p.pts.Some? && p.pts.value >= p.dts.value {
            p := p.(pts := Some(Max(p.pts.value, max)));
          }
          p := p.(dts := Some(max));
        }
      }
      if p.pts.Some? {
        lastMuxDts := if p.dts.Some? then p.dts else Some(p.pts.value - p.duration);
      }
    }

    /** The loop over the packets the encoder delivers. */
    method EncodePackets(received: array<Packet>)
      modifies this, received
      ensures received[..] == RepairAll(old(received[..]), old(lastMuxDts), step)
      ensures lastMuxDts == LastAfter(old(received[..]), old(lastMuxDts), step)
    {
      ghost var ps := received[..];
      ghost var start := lastMuxDts;
      var i := 0;
      while i < received.Length
        invariant 0 <= i <= received.Length
        invariant received[i..] == ps[i..]
        invariant received[..i] + RepairAll(ps[i..], lastMuxDts, step) == RepairAll(ps, start, step)
        invariant LastAfter(ps[i..], lastMuxDts, step) == LastAfter(ps, start, step)
      {
        assert ps[i..][0] == received[i] && ps[i..][1..] == ps[i + 1..];
        ghost var done := received[..i];
        received[i] := RepairPacket(received[i]);
        assert received[..i + 1] == done + [received[i]];
        i := i + 1;
      }
    }
  }

  // ----- What the repair achieves

  ghost predicate Stamped(ps: seq<Packet>) {
    forall i | 0 <= i < |ps| :: ps[i].pts.Some? && ps[i].dts.Some?
  }

  /** Each DTS is at least `step` behind the one before, and no PTS precedes its DTS; of the
      first packet this is only asked if there was one before it. */
  ghost predicate InOrder(ps: seq<Packet>, last: Option<int>, step: nat)
    requires Stamped(ps)
  {
    && (ps != [] && last.Some? ==> ps[0].dts.value >= last.value + step)
    && (forall i | 0 < i < |ps| :: ps[i].dts.value >= ps[i - 1].dts.value + step)
    && (forall i | 0 <= i < |ps| && (i > 0 || last.Some?) :: ps[i].pts.value >= ps[i].dts.value)
  }

  lemma RepairOne(p: Packet, last: Option<int>, step: nat)
    requires p.pts.Some? && p.dts.Some?
    ensures var q := Repair(p, last, step);
            && q.pts.Some? && q.dts.Some? && NextLast(q, last) == q.dts
            && (last.None? ==> q == p)
            && (last.Some? ==> q.dts.value >= last.value + step && q.pts.value >= q.dts.value)
            && (last.Some? && p.dts.value <= p.pts.value ==> q.dts.value == Max(p.dts.value, last.value + step))
            && (last.Some? && p.dts.value <= p.pts.value && p.dts.value >= last.value + step ==> q == p)
  {
  }

  /** The values: a DTS behind its PTS is replaced, with it, by the middle one of PTS, DTS and
      one tick behind the last DTS; else the DTS is raised to the earliest permitted time, and
      the PTS no further than that requires. */
  lemma RepairedValues(p: Packet, last: int, step: nat)
    requires p.pts.Some? && p.dts.Some? && step <= 1
    ensures var q := Repair(p, Some(last), step);
            if p.dts.value > p.pts.value then
              && q.pts == q.dts
              && (last + 1 <= p.pts.value ==> q.dts == p.pts)
              && (p.pts.value <= last + 1 <= p.dts.value ==> q.dts.value == last + 1)
              && (p.dts.value <= last + 1 ==>
                    q.dts.value == if p.dts.value < last + step then last + step else p.dts.value)
            else
              && q.dts.value == (if p.dts.value < last + step then last + step else p.dts.value)
              && q.pts.value == if p.pts.value < last + step then last + step else p.pts.value
    ensures Repair(p, Some(last), step).duration == p.duration
  {
  }

  /** Without a last DTS, or for a packet without the stamps concerned, nothing is guessed; a
      DTS alone is still raised. */
  lemma UnstampedValues(p: Packet, last: Option<int>, step: nat)
    requires p.pts.None? || p.dts.None? || last.None?
    ensures Repair(p, last, step).pts == p.pts && Repair(p, last, step).duration == p.duration
    ensures Repair(p, last, step).dts ==
            if p.dts.Some? && last.Some? && p.dts.value < last.value + step then Some(last.value + step)
            else p.dts
  {
  }

  /** What is remembered of a packet: its DTS, or what its PTS and duration let one guess. */
  lemma RememberedDts(p: Packet, last: Option<int>)
    ensures p.pts.Some? && p.dts.Some? ==> NextLast(p, last) == p.dts
    ensures p.pts.Some? && p.dts.None? ==> NextLast(p, last) == Some(p.pts.value - p.duration)
    ensures p.pts.None? ==> NextLast(p, last) == last
  {
  }

  /** Emitted time stamps are in order, whatever came in. */
  lemma {:induction false} RepairOrders(ps: seq<Packet>, last: Option<int>, step: nat)
    requires Stamped(ps)
    ensures Stamped(RepairAll(ps, last, step)) && InOrder(RepairAll(ps, last, step), last, step)
    decreases |ps|
  {
    if ps != [] {
      var q := Repair(ps[0], last, step);
      RepairOne(ps[0], last, step);
      RepairOrders(ps[1..], q.dts, step);
      var r := RepairAll(ps[1..], q.dts, step);
      var all := [q] + r;
      assert forall i | 1 <= i < |all| :: all[i] == r[i - 1];
    }
  }

  /** Packets in order pass unchanged. */
  lemma {:induction false} OrderedPasses(ps: seq<Packet>, last: Option<int>, step: nat)
    requires Stamped(ps) && InOrder(ps, last, step)
    ensures RepairAll(ps, last, step) == ps
    decreases |ps|
  {
    if ps != [] {
      RepairOne(ps[0], last, step);
      assert Repair(ps[0], last, step) == ps[0];
      var rest := ps[1..];
      assert Stamped(rest) && InOrder(rest, ps[0].dts, step) by {
        assert forall i | 0 <= i < |rest| :: rest[i] == ps[i + 1];
      }
      OrderedPasses(rest, ps[0].dts, step);
    }
  }

  /** Repairing twice changes nothing; in fact exactly the ordered runs pass unchanged. */
  lemma RepairIsIdempotent(ps: seq<Packet>, last: Option<int>, step: nat)
    requires Stamped(ps)
    ensures RepairAll(RepairAll(ps, last, step), last, step) == RepairAll(ps, last, step)
    ensures RepairAll(ps, last, step) == ps <==> InOrder(ps, last, step)
  {
    RepairOrders(ps, last, step);
    OrderedPasses(RepairAll(ps, last, step), last, step);
    if InOrder(ps, last, step) {
      OrderedPasses(ps, last, step);
    }
  }

  /** A way to assign decoding times that never lowers one and keeps the steps. */
  ghost predicate Admissible(e: seq<int>, ps: seq<Packet>, last: Option<int>, step: nat)
    requires Stamped(ps)
  {
    && |e| == |ps|
    && (forall i | 0 <= i < |ps| :: e[i] >= ps[i].dts.value)
    && (ps != [] && last.Some? ==> e[0] >= last.value + step)
    && (forall i | 0 < i < |ps| :: e[i] >= e[i - 1] + step)
  }

  ghost function Dts(ps: seq<Packet>): seq<int>
    requires Stamped(ps)
  {
    seq(|ps|, i requires 0 <= i < |ps| => ps[i].dts.value)
  }

  lemma LeastCons(q: Packet, r: seq<Packet>, e: seq<int>)
    requires q.dts.Some? && Stamped(r) && |e| == |r| + 1 && q.dts.value <= e[0]
    requires forall i | 0 <= i < |r| :: r[i].dts.value <= e[1..][i]
    ensures forall i | 0 <= i < |r| + 1 :: ([q] + r)[i].dts.Some? && ([q] + r)[i].dts.value <= e[i]
  {
    assert forall i | 1 <= i < |r| + 1 :: ([q] + r)[i] == r[i - 1] && e[i] == e[1..][i - 1];
  }

  lemma AdmissibleCons(ps: seq<Packet>, last: Option<int>, step: nat, q: Packet, r: seq<Packet>)
    requires ps != [] && Stamped(ps) && Stamped(r) && q.pts.Some? && q.dts.Some? && Stamped(ps[1..])
    requires q.dts.value >= ps[0].dts.value
    requires last.Some? ==> q.dts.value >= last.value + step
    requires Admissible(Dts(r), ps[1..], q.dts, step)
    ensures Stamped([q] + r) && Admissible(Dts([q] + r), ps, last, step)
  {
    var all := [q] + r;
    var d := Dts(r);
    assert forall i | 1 <= i < |all| :: all[i] == r[i - 1] && Dts(all)[i] == d[i - 1];
    assert forall i | 1 <= i < |ps| :: ps[i] == ps[1..][i - 1];
  }

  /** If no DTS is behind its PTS, the repair is the least one: admissible itself, and
      pointwise below every other. */
  lemma {:induction false} RepairIsLeast(ps: seq<Packet>, last: Option<int>, step: nat, e: seq<int>)
    requires Stamped(ps) && forall i | 0 <= i < |ps| :: ps[i].dts.value <= ps[i].pts.value
    ensures Stamped(RepairAll(ps, last, step))
    ensures Admissible(Dts(RepairAll(ps, last, step)), ps, last, step)
    ensures Admissible(e, ps, last, step) ==>
              forall i | 0 <= i < |ps| :: RepairAll(ps, last, step)[i].dts.value <= e[i]
    decreases |ps|
  {
    RepairOrders(ps, last, step);
    if ps != [] {
      var q := Repair(ps[0], last, step);
      RepairOne(ps[0], last, step);
      var r := RepairAll(ps[1..], q.dts, step);
      RepairOrders(ps[1..], q.dts, step);
      assert Stamped(ps[1..]) && forall i | 0 <= i < |ps[1..]| :: ps[1..][i] == ps[i + 1];
      if Admissible(e, ps, last, step) {
        assert q.dts.value <= e[0];
        assert Admissible(e[1..], ps[1..], q.dts, step);
        RepairIsLeast(ps[1..], q.dts, step, e[1..]);
        LeastCons(q, r, e);
      }
      RepairIsLeast(ps[1..], q.dts, step, []);
      AdmissibleCons(ps, last, step, q, r);
    }
  }

  /** Otherwise a DTS may even be lowered: exactly when it is behind its PTS and more than one
      tick behind the last DTS. */
  lemma RepairLowersIff(p: Packet, last: int)
    requires p.pts.Some? && p.dts.Some?
    ensures Repair(p, Some(last), 1).dts.value < p.dts.value <==>
              p.dts.value > p.pts.value && p.dts.value > last + 1
  {
  }
}
