/** The MPEG program-stream filter of `dvdio.cc`: packets that carry their own length
    (sections 2.4.3.6 and 2.5.3.3 of ISO/IEC 13818-1) are kept or dropped by stream id. */
module ProgramStream {
  import opened Machine
  import opened Options

  const END_STREAM := 0xB9
  const PACK_HEADER := 0xBA
  const SYSTEM_HEADER := 0xBB
  const MAP := 0xBC
  const PRIVATE_STREAM1 := 0xBD
  const AUDIO := 0xC0
  const EXTENDED := 0xFD

  /** Offset of the stream id. */
  const STREAM_ID := 3

  // ----- get_packet_size

  /** The size of the packet at the start of `p`; none if it cannot be told. */
  function PacketSize(p: seq<byte>): (r: Option<nat>)
    ensures r.Some? ==> r.value >= 4 && |p| >= 4
  {
    if |p| < 4 then None
    else if p[STREAM_ID] == END_STREAM then Some(4)
    else if p[STREAM_ID] == PACK_HEADER then
      if |p| >= 14 && p[4] / 64 == 1 then Some(14 + (p[13] as int) % 8)
      else if |p| >= 12 && p[4] / 16 == 2 then Some(12)
      else None
    else if |p| >= 6 then Some(6 + (p[4] as int) * 256 + (p[5] as int))
    else None
  }

  // ----- get_pes_id

  /** The byte of a packet of `size` bytes in a larger buffer; `slack` is the one behind it,
      which the sub-stream lookup may touch. */
  function ByteAt(b: seq<byte>, slack: byte, i: nat): byte
    requires i <= |b|
  {
    if i < |b| then b[i] else slack
  }

  function Bit(x: byte, weight: int): bool
    requires weight > 0
  {
    x / weight % 2 == 1
  }

  /** Offset behind the optional PES header fields announced by byte 7. */
  function ExtensionOffset(flags: byte): (r: nat)
    ensures r >= 9
  {
    9 + (if Bit(flags, 0x80) then 5 + (if Bit(flags, 0x40) then 5 else 0) else 0)
    + (if Bit(flags, 0x20) then 6 else 0) + (if Bit(flags, 0x10) then 3 else 0)
    + (if Bit(flags, 0x08) then 1 else 0) + (if Bit(flags, 0x04) then 1 else 0)
    + (if Bit(flags, 0x02) then 2 else 0)
  }

  /** Offset of the second extension in packet `b`, whose first starts at `skip`. */
  function SecondExtension(b: seq<byte>, skip: nat): (r: nat)
    requires skip < |b|
    ensures r > skip
  {
    var flags := b[skip];
    var s1 := skip + 1 + (if Bit(flags, 0x80) then 16 else 0);
    var s2 := if Bit(flags, 0x40) && s1 < |b| then s1 + 1 + (b[s1] as int) else s1;
    s2 + (if Bit(flags, 0x20) then 2 else 0) + (if Bit(flags, 0x10) then 2 else 0)
  }

  function ExtendedId(b: seq<byte>, skip: nat): int
    requires |b| >= 4
  {
    if skip < |b| && Bit(b[skip], 0x01) then
      var s := SecondExtension(b, skip);
      if s + 1 < |b| && b[s] % 128 >= 1 && b[s + 1] < 128 then 0xFD00 + (b[s + 1] as int)
      else b[STREAM_ID]
    else b[STREAM_ID]
  }

  function PesId(b: seq<byte>, slack: byte): int
    requires |b| >= 4
  {
    if b[STREAM_ID] == PRIVATE_STREAM1 then
      if |b| >= 9 && |b| >= 9 + (b[8] as int) then
        var start := 9 + (b[8] as int);
        var sub := ByteAt(b, slack, start) as int;
        if sub / 2 == 0x50 && |b| >= start + 7 && (b[start + 5] >= 0xC0 || b[start + 6] != 0x80)
        then 0xA000 + sub % 2
        else 0xBD00 + sub
      else 0xBD00
    else if b[STREAM_ID] == EXTENDED && |b| >= 9 && b[6] / 64 == 2 && Bit(b[7], 0x01) then
      ExtendedId(b, ExtensionOffset(b[7]))
    else b[STREAM_ID]
  }

  // ----- demux_pes

  /** The switch in `demux_pes`: true if the packet is copied. */
  predicate Copied(b: seq<byte>, slack: byte)
    requires |b| >= 4
  {
    var id := b[STREAM_ID];
    if id == END_STREAM || id == SYSTEM_HEADER || id == MAP then false
    else if id == PACK_HEADER then true
    else PesId(b, slack) >= AUDIO
  }

  /** The byte behind a packet cut from the start of `input`. */
  function SlackOf(input: seq<byte>, n: nat, behind: byte): byte {
    if n < |input| then input[n] else behind
  }

  /** What is written for the packet of `n` bytes at the start of `input`. */
  function Chunk(input: seq<byte>, behind: byte, n: nat): seq<byte>
    requires 4 <= n <= |input|
  {
    if Copied(input[..n], SlackOf(input, n, behind)) then input[..n] else []
  }

  /** `demux_pes` on values; `behind` is the byte in memory behind the input. */
  function Demux(input: seq<byte>, behind: byte): seq<byte>
    decreases |input|
  {
    var size := PacketSize(input);
    if size.None? || size.value > |input| then []
    else Chunk(input, behind, size.value) + Demux(input[size.value..], behind)
  }

  lemma DemuxStep(input: seq<byte>, behind: byte, n: nat)
    requires PacketSize(input) == Some(n) && n <= |input|
    ensures Demux(input, behind) == Chunk(input, behind, n) + Demux(input[n..], behind)
  {
  }

  lemma DemuxStops(input: seq<byte>, behind: byte)
    requires PacketSize(input).None? || PacketSize(input).value > |input|
    ensures Demux(input, behind) == []
  {
  }

  /** One packet further: what is written plus what is to come stays the same. */
  lemma DemuxAdvances(done: seq<byte>, rest: seq<byte>, behind: byte, n: nat, whole: seq<byte>)
    requires n <= |rest| && PacketSize(rest) == Some(n)
    requires done + Demux(rest, behind) == whole
    ensures (done + Chunk(rest, behind, n)) + Demux(rest[n..], behind) == whole
  {
    DemuxStep(rest, behind, n);
  }

  /** `memcpy` of a packet that is to be kept. */
  method CopyChunk(out: array<byte>, at: nat, rest: seq<byte>, behind: byte, n: nat) returns (end: nat)
    requires 4 <= n <= |rest| && at + n <= out.Length
    modifies out
    ensures end == at + |Chunk(rest, behind, n)| <= at + n
    ensures out[..end] == old(out[..at]) + Chunk(rest, behind, n)
    ensures forall k | end <= k < out.Length :: out[k] == old(out[k])
  {
    end := at;
    if Copied(rest[..n], SlackOf(rest, n, behind)) {
      forall k | 0 <= k < n {
        out[at + k] := rest[k];
      }
      end := at + n;
    }
  }

  /** `demux_pes`: input and output advance packet by packet. The input is followed in memory by
      at least one more byte. */
  method DemuxPes(out: array<byte>, input: array<byte>, len: nat) returns (netsize: nat)
    requires out != input && len < input.Length && len <= out.Length
    modifies out
    ensures netsize <= len && out[..netsize] == Demux(input[..len], input[len])
    ensures forall k | netsize <= k < out.Length :: out[k] == old(out[k])
  {
    netsize := 0;
    var rest := input[..len];
    ghost var whole := Demux(rest, input[len]);
    while rest != []
      invariant netsize + |rest| <= len
      invariant out[..netsize] + Demux(rest, input[len]) == whole
      invariant forall k | netsize <= k < out.Length :: out[k] == old(out[k])
      decreases |rest|
    {
      var size := PacketSize(rest);
      if size.None? || size.value > |rest| {
        break;
      }
      DemuxAdvances(out[..netsize], rest, input[len], size.value, whole);
      netsize := CopyChunk(out, netsize, rest, input[len], size.value);
      rest := rest[size.value..];
    }
    DemuxStops(rest, input[len]);
  }

  // ----- What the filter means

  /** The stream ids that are kept: pack headers, private stream 1 and 0xC0 to 0xFF. */
  predicate KeptId(id: byte) {
    id == PACK_HEADER || id == PRIVATE_STREAM1 || id >= AUDIO
  }

  /** The decision depends on the stream id alone: neither the sub-stream search nor the byte
      behind the packet matters. */
  lemma CopiedIffKeptId(b: seq<byte>, slack: byte)
    requires |b| >= 4
    ensures Copied(b, slack) <==> KeptId(b[STREAM_ID])
  {
  }

  /** A complete packet: its own length field tells exactly its size. */
  predicate IsPacket(b: seq<byte>) {
    PacketSize(b) == Some(|b|)
  }

  /** Packets are self-delimiting: whatever follows does not change the size, and the bytes up
      to that size are a packet. */
  lemma SelfDelimiting(p: seq<byte>, more: seq<byte>)
    requires PacketSize(p).Some? && PacketSize(p).value <= |p|
    ensures IsPacket(p[..PacketSize(p).value])
    ensures PacketSize(p[..PacketSize(p).value] + more) == PacketSize(p)
    ensures PacketSize(p + more) == PacketSize(p)
  {
  }

  function Concat(ps: seq<seq<byte>>): seq<byte> {
    if ps == [] then [] else ps[0] + Concat(ps[1..])
  }

  predicate IsKept(p: seq<byte>) {
    |p| > STREAM_ID && KeptId(p[STREAM_ID])
  }

  function Kept(ps: seq<seq<byte>>): seq<seq<byte>> {
    if ps == [] then []
    else (if IsKept(ps[0]) then [ps[0]] else []) + Kept(ps[1..])
  }

  /** The reference: the packets at the start of the input, and what is left unparsed. */
  function Parse(input: seq<byte>): (seq<seq<byte>>, seq<byte>)
    decreases |input|
  {
    var size := PacketSize(input);
    if size.None? || size.value > |input| then ([], input)
    else
      var (ps, rest) := Parse(input[size.value..]);
      ([input[..size.value]] + ps, rest)
  }

  ghost predicate Packets(ps: seq<seq<byte>>) {
    forall i | 0 <= i < |ps| :: IsPacket(ps[i]) && |ps[i]| >= 4
  }

  lemma {:induction false} ParseYieldsPackets(input: seq<byte>)
    ensures Packets(Parse(input).0)
    decreases |input|
  {
    var size := PacketSize(input);
    if size.Some? && size.value <= |input| {
      SelfDelimiting(input, []);
      ParseYieldsPackets(input[size.value..]);
    }
  }

  /** No byte is lost by parsing, and it stops only where no complete packet follows. */
  lemma {:induction false} ParseIsLossless(input: seq<byte>)
    ensures var (ps, rest) := Parse(input);
            && Concat(ps) + rest == input
            && (PacketSize(rest).None? || PacketSize(rest).value > |rest|)
    decreases |input|
  {
    var size := PacketSize(input);
    if size.Some? && size.value <= |input| {
      ParseIsLossless(input[size.value..]);
      assert input == input[..size.value] + input[size.value..];
    }
  }

  lemma RegroupPackets(a: seq<seq<byte>>, b: seq<seq<byte>>)
    requires a != []
    ensures [a[0]] + (a[1..] + b) == a + b
  {
  }

  lemma ParseStep(p: seq<byte>, tail: seq<byte>)
    requires IsPacket(p)
    ensures Parse(p + tail) == ([p] + Parse(tail).0, Parse(tail).1)
  {
    SelfDelimiting(p, tail);
    assert (p + tail)[..|p|] == p && (p + tail)[|p|..] == tail;
  }

  /** Parsing finds exactly the packets a stream was put together from: the framing is
      unambiguous. */
  lemma {:induction false} ParseFindsPackets(ps: seq<seq<byte>>, rest: seq<byte>)
    requires Packets(ps)
    ensures Parse(Concat(ps) + rest) == (ps + Parse(rest).0, Parse(rest).1)
    decreases |ps|
  {
    if ps == [] {
      assert Concat(ps) + rest == rest;
      assert ps + Parse(rest).0 == Parse(rest).0;
    } else {
      var tail := Concat(ps[1..]) + rest;
      assert Concat(ps) + rest == ps[0] + tail;
      ParseStep(ps[0], tail);
      ParseFindsPackets(ps[1..], rest);
      RegroupPackets(ps, Parse(rest).0);
    }
  }

  lemma ConcatCons(p: seq<byte>, ps: seq<seq<byte>>)
    ensures Concat([p] + ps) == p + Concat(ps)
  {
    assert ([p] + ps)[1..] == ps;
  }

  lemma KeptCons(p: seq<byte>, ps: seq<seq<byte>>)
    ensures Concat(Kept([p] + ps)) == (if IsKept(p) then p else []) + Concat(Kept(ps))
  {
    assert ([p] + ps)[1..] == ps;
    if IsKept(p) {
      ConcatCons(p, Kept(ps));
    } else {
      assert [] + Kept(ps) == Kept(ps);
    }
  }

  lemma ParseUnfolds(input: seq<byte>, n: nat)
    requires PacketSize(input) == Some(n) && n <= |input|
    ensures Parse(input).0 == [input[..n]] + Parse(input[n..]).0
  {
  }

  /** The main result: demultiplexing is filtering the parsed packets by stream id. */
  lemma {:induction false} DemuxIsFilter(input: seq<byte>, behind: byte)
    ensures Demux(input, behind) == Concat(Kept(Parse(input).0))
    decreases |input|
  {
    var size := PacketSize(input);
    if size.Some? && size.value <= |input| {
      var n := size.value;
      var p, tail := input[..n], input[n..];
      DemuxIsFilter(tail, behind);
      DemuxStep(input, behind, n);
      CopiedIffKeptId(p, SlackOf(input, n, behind));
      ParseUnfolds(input, n);
      KeptCons(p, Parse(tail).0);
    }
  }

  lemma {:induction false} KeptArePackets(ps: seq<seq<byte>>)
    requires Packets(ps)
    ensures Packets(Kept(ps)) && Kept(Kept(ps)) == Kept(ps)
    ensures |Concat(Kept(ps))| <= |Concat(ps)|
    decreases |ps|
  {
    if ps != [] {
      KeptArePackets(ps[1..]);
      var k := Kept(ps[1..]);
      if IsKept(ps[0]) {
        assert ([ps[0]] + k)[1..] == k;
        ConcatCons(ps[0], k);
      } else {
        assert Kept(ps) == k;
      }
    }
  }

  lemma KeptStep(ps: seq<seq<byte>>)
    requires ps != []
    ensures Kept(ps) == (if IsKept(ps[0]) then [ps[0]] else []) + Kept(ps[1..])
  {
  }

  lemma {:induction false} KeptDistributes(a: seq<seq<byte>>, b: seq<seq<byte>>)
    ensures Kept(a + b) == Kept(a) + Kept(b)
    decreases |a|
  {
    if a == [] {
      assert a + b == b;
    } else {
      assert (a + b)[1..] == a[1..] + b && (a + b)[0] == a[0];
      KeptDistributes(a[1..], b);
      KeptStep(a);
      KeptStep(a + b);
      var head := if IsKept(a[0]) then [a[0]] else [];
      assert head + (Kept(a[1..]) + Kept(b)) == (head + Kept(a[1..])) + Kept(b);
    }
  }

  lemma {:induction false} ConcatDistributes(a: seq<seq<byte>>, b: seq<seq<byte>>)
    ensures Concat(a + b) == Concat(a) + Concat(b)
    decreases |a|
  {
    if a == [] {
      assert a + b == b;
    } else {
      assert (a + b)[1..] == a[1..] + b;
      ConcatDistributes(a[1..], b);
    }
  }

  /** The output is never longer than the input, and filtering it again changes nothing. */
  lemma DemuxIsIdempotent(input: seq<byte>, behind: byte, behind': byte)
    ensures |Demux(input, behind)| <= |input|
    ensures Demux(Demux(input, behind), behind') == Demux(input, behind)
  {
    var ps := Parse(input).0;
    DemuxIsFilter(input, behind);
    ParseIsLossless(input);
    ParseYieldsPackets(input);
    KeptArePackets(ps);
    var kept := Kept(ps);
    ParseFindsPackets(kept, []);
    assert Concat(kept) + [] == Concat(kept) && kept + [] == kept;
    DemuxIsFilter(Concat(kept), behind');
  }

  /** A stream may be filtered in pieces, provided a piece ends with a packet. */
  lemma DemuxDistributes(x: seq<byte>, y: seq<byte>, behind: byte)
    requires Parse(x).1 == []
    ensures Demux(x + y, behind) == Demux(x, behind) + Demux(y, behind)
  {
    var (ps, rest) := Parse(x);
    ParseIsLossless(x);
    ParseYieldsPackets(x);
    assert Concat(ps) == x by { assert Concat(ps) + [] == Concat(ps); }
    ParseFindsPackets(ps, y);
    DemuxIsFilter(x + y, behind);
    DemuxIsFilter(x, behind);
    DemuxIsFilter(y, behind);
    KeptDistributes(ps, Parse(y).0);
    ConcatDistributes(Kept(ps), Kept(Parse(y).0));
  }

  // ----- Packets from their fields

  /** A packet as the standard builds it: a PES packet with its length in two bytes, the high one
      first; an MPEG-2 pack header of ten bytes, the last of which tells in its three low bits how
      many stuffing bytes follow; an MPEG-1 pack header of eight bytes; the end code. */
  datatype Unit =
    | Pes(id: byte, body: seq<byte>)
    | Pack2(fields: seq<byte>, stuffing: seq<byte>)
    | Pack1(fields: seq<byte>)
    | End

  ghost predicate IsUnit(u: Unit) {
    match u
    case Pes(id, body) => id != 0xB9 && id != 0xBA && |body| < 65536
    case Pack2(f, stuffing) =>
      |f| == 10 && 0x40 <= f[0] < 0x80 && |stuffing| < 8 && exists high :: f[9] == 8 * high + |stuffing|
    case Pack1(f) => |f| == 8 && 0x20 <= f[0] < 0x30
    case End => true
  }

  ghost function Bytes(u: Unit): seq<byte>
    requires IsUnit(u)
  {
    match u
    case Pes(id, body) => [0, 0, 1, id, |body| / 256, |body| % 256] + body
    case Pack2(f, stuffing) => [0, 0, 1, 0xBA] + f + stuffing
    case Pack1(f) => [0, 0, 1, 0xBA] + f
    case End => [0, 0, 1, 0xB9]
  }

  /** Pack headers, private stream 1, and all audio, video and extended streams are kept. */
  ghost predicate Wanted(u: Unit) {
    match u
    case Pes(id, _) => id == 0xBD || 0xC0 <= id <= 0xFF
    case Pack2(_, _) => true
    case Pack1(_) => true
    case End => false
  }

  /** Each of these is one packet, and kept iff it is wanted. */
  lemma UnitIsPacket(u: Unit)
    requires IsUnit(u)
    ensures IsPacket(Bytes(u)) && (IsKept(Bytes(u)) <==> Wanted(u))
  {
    if u.Pack2? {
      var b := Bytes(u);
      assert b[4] == u.fields[0] && b[13] == u.fields[9];
      var high :| u.fields[9] == 8 * high + |u.stuffing|;
      assert (b[13] as int) % 8 == |u.stuffing|;
    } else if u.Pack1? {
      assert Bytes(u)[4] == u.fields[0];
    }
  }

  /** There are no other packets behind a start code. */
  lemma PacketIsUnit(b: seq<byte>) returns (u: Unit)
    requires IsPacket(b) && b[..3] == [0, 0, 1]
    ensures IsUnit(u) && Bytes(u) == b
  {
    assert b[0] == b[..3][0] && b[1] == b[..3][1] && b[2] == b[..3][2];
    if b[3] == 0xB9 {
      u := End;
    } else if b[3] == 0xBA {
      if |b| >= 14 && b[4] / 64 == 1 {
        u := Pack2(b[4..14], b[14..]);
        assert b[13] == 8 * (b[13] / 8) + |b[14..]|;
      } else {
        u := Pack1(b[4..]);
      }
    } else {
      u := Pes(b[3], b[6..]);
      assert b[4] == |b[6..]| / 256 && b[5] == |b[6..]| % 256;
    }
  }

  ghost predicate AreUnits(us: seq<Unit>) {
    forall i | 0 <= i < |us| :: IsUnit(us[i])
  }

  ghost function AllBytes(us: seq<Unit>): seq<byte>
    requires AreUnits(us)
  {
    if us == [] then [] else Bytes(us[0]) + AllBytes(us[1..])
  }

  ghost function OnlyWanted(us: seq<Unit>): (r: seq<Unit>)
    requires AreUnits(us)
    ensures AreUnits(r)
  {
    if us == [] then [] else (if Wanted(us[0]) then [us[0]] else []) + OnlyWanted(us[1..])
  }

  lemma DemuxUnit(u: Unit, tail: seq<byte>, behind: byte)
    requires IsUnit(u)
    ensures Demux(Bytes(u) + tail, behind) == (if Wanted(u) then Bytes(u) else []) + Demux(tail, behind)
  {
    var b := Bytes(u);
    var input := b + tail;
    UnitIsPacket(u);
    SelfDelimiting(b, tail);
    assert b[..|b|] == b && input[..|b|] == b && input[|b|..] == tail;
    DemuxStep(input, behind, |b|);
    CopiedIffKeptId(b, SlackOf(input, |b|, behind));
  }

  lemma AllBytesCons(u: Unit, us: seq<Unit>)
    requires IsUnit(u) && AreUnits(us)
    ensures AreUnits([u] + us) && AllBytes([u] + us) == Bytes(u) + AllBytes(us)
  {
    assert ([u] + us)[1..] == us;
  }

  /** The filter in terms of the stream: of a sequence of packets, whatever their fields, it
      passes on exactly the wanted ones, unchanged and in order. */
  lemma {:induction false} DemuxKeepsWanted(us: seq<Unit>, behind: byte)
    requires AreUnits(us)
    ensures Demux(AllBytes(us), behind) == AllBytes(OnlyWanted(us))
    decreases |us|
  {
    if us == [] {
      DemuxStops([], behind);
    } else {
      var rest := us[1..];
      DemuxUnit(us[0], AllBytes(rest), behind);
      DemuxKeepsWanted(rest, behind);
      if Wanted(us[0]) {
        AllBytesCons(us[0], OnlyWanted(rest));
      } else {
        assert OnlyWanted(us) == OnlyWanted(rest);
      }
    }
  }

  /** The id of a private stream 1 packet with PES header `flags`, header data `h`, sub-stream
      number `sub` and payload `x`: 0xBD00 and the sub-stream, except that numbers 0xA0 and 0xA1
      stand for 0xA000 and 0xA001 if the payload does not look like linear PCM. */
  lemma PrivateStreamId(hi: byte, lo: byte, f1: byte, f2: byte, h: seq<byte>, sub: byte, x: seq<byte>, slack: byte)
    requires |h| < 256
    ensures var b := [0, 0, 1, 0xBD, hi, lo, f1, f2, |h|] + h + [sub] + x;
            PesId(b, slack) ==
            if (sub == 0xA0 || sub == 0xA1) && |x| >= 6 && (x[4] >= 0xC0 || x[5] != 0x80)
            then 0xA000 + (sub - 0xA0) else 0xBD00 + sub
  {
    var b := [0, 0, 1, 0xBD, hi, lo, f1, f2, |h|] + h + [sub] + x;
    var start := 9 + |h|;
    assert b[8] == |h| && b[start] == sub;
    assert forall i | 0 <= i < |x| :: b[start + 1 + i] == x[i];
  }

  /** A packet that ends with its header data has the byte behind it for a sub-stream number, and
      one that ends earlier none. */
  lemma PrivateStreamCutShort(b: seq<byte>, slack: byte)
    requires |b| >= 4 && b[3] == 0xBD
    requires |b| < 9 || |b| <= 9 + (b[8] as int)
    ensures PesId(b, slack) ==
            if |b| >= 9 && |b| == 9 + (b[8] as int) then 0xBD00 + (slack as int) else 0xBD00
  {
  }

  predicate Flag(flags: byte, weight: nat)
    requires weight > 0
  {
    flags / weight % 2 == 1
  }

  /** Bytes taken by the optional fields of a PES header: time stamps by a field of two bits (a PTS,
      or a PTS and a DTS), then clock reference, rate, trick mode, copy information and CRC. */
  ghost function OptionalLength(flags: byte): nat {
    (if flags / 64 == 3 then 10 else if flags / 64 == 2 then 5 else 0)
    + (if Flag(flags, 32) then 6 else 0) + (if Flag(flags, 16) then 3 else 0)
    + (if Flag(flags, 8) then 1 else 0) + (if Flag(flags, 4) then 1 else 0)
    + (if Flag(flags, 2) then 2 else 0)
  }

  lemma OptionalIsSkipped(flags: byte)
    ensures ExtensionOffset(flags) == 9 + OptionalLength(flags)
  {
  }

  /** The id of an extended stream's packet: behind the optional fields and those of the first
      extension (16 bytes of data, a pack header with its length before it, a counter and a buffer
      size of two bytes each), the second extension has the length of the id and, with the high
      bit clear, the id itself. */
  lemma ExtendedStreamId(b: seq<byte>, slack: byte, data: nat, pack: nat, rest: nat)
    requires |b| >= 9 && b[3] == 0xFD && 0x80 <= b[6] < 0xC0 && Flag(b[7], 1)
    requires 9 + OptionalLength(b[7]) < |b| && Flag(b[9 + OptionalLength(b[7])], 1)
    requires var flags := b[9 + OptionalLength(b[7])];
             var first := 10 + OptionalLength(b[7]) + data;
             && data == (if flags >= 128 then 16 else 0)
             && rest == (if Flag(flags, 32) then 2 else 0) + (if Flag(flags, 16) then 2 else 0)
             && first + pack + rest + 1 < |b|
             && pack == if Flag(flags, 64) then 1 + (b[first] as int) else 0
    ensures var s := 10 + OptionalLength(b[7]) + data + pack + rest;
            PesId(b, slack) == if b[s] % 128 != 0 && b[s + 1] < 128 then 0xFD00 + (b[s + 1] as int) else 0xFD
  {
    OptionalIsSkipped(b[7]);
    var skip := 9 + OptionalLength(b[7]);
    assert b[skip] / 128 % 2 == 1 <==> b[skip] >= 128;
    assert SecondExtension(b, skip) == skip + 1 + data + pack + rest;
  }
}
