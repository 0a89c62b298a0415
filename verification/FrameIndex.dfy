/** Frame sets: the index from frame numbers to extents of the single cache segment. */
module FrameIndex {
  import opened Machine
  import opened SegmentStore

  /** An IMAGE_FRAME record; `frameNo` is 0 while the frame is not stored. */
  datatype Slot = Slot(frameNo: nat, offset: nat, size: nat)

  datatype Frames = Frames(seg: Seg, slots: seq<Slot>)

  predicate Valid(fs: Frames, no: nat) {
    1 <= no <= |fs.slots|
  }

  predicate HaveFrame(fs: Frames, no: nat) {
    Valid(fs, no) && fs.slots[no - 1].frameNo != 0
  }

  /** The condition under which `write_frame` overwrites the stored frame in place. */
  predicate Reuses(fs: Frames, no: nat, length: nat) {
    HaveFrame(fs, no) && fs.slots[no - 1].size <= length
  }

  /** Where the bytes of a frame go: to the old extent, or behind everything written. */
  function Place(fs: Frames, no: nat, length: nat): nat {
    if Reuses(fs, no, length) then fs.slots[no - 1].offset else fs.seg.watermark
  }

  function SegAfter(fs: Frames, no: nat, d: seq<byte>): Seg {
    WriteIo(Seek(fs.seg, Place(fs, no, |d|), FromStart), d)
  }

  function SlotAfter(fs: Frames, no: nat, length: nat): Slot
    requires Valid(fs, no)
  {
    if Reuses(fs, no, length) then fs.slots[no - 1].(size := length)
    else Slot(no, fs.seg.watermark, length)
  }

  /** `write_frame`. The length is kept in 32 bits; a failed write returns 0 and leaves a new
      frame out of the index, but has already resized the slot of a reused one. */
  function WriteFrame(fs: Frames, data: seq<byte>, no: nat): (r: (Frames, nat))
  {
    if !Valid(fs, no) then (fs, 0)
    else
      var d := data[..ToU32(|data|)];
      var written := if fs.seg.open then |d| else 0;
      var slots := fs.slots[no - 1 := SlotAfter(fs, no, |d|)];
      if written != |d| then
        (if Reuses(fs, no, |d|) then Frames(fs.seg, slots) else fs, 0)
      else
        (Frames(SegAfter(fs, no, d), slots), written)
  }

  /** `read_frame`: what it returns and the bytes it puts into an empty vector. */
  function ReadFrame(fs: Frames, no: nat): (r: (nat, seq<byte>))
  {
    if !HaveFrame(fs, no) then (0, [])
    else
      var slot := fs.slots[no - 1];
      (if CopyOk(fs.seg, slot.offset) then 1 else 0,
       Padded(Copy(fs.seg, slot.offset, slot.size), slot.size))
  }

  // ----- The frame set as a map

  ghost predicate Apart(a: Slot, b: Slot) {
    a.frameNo == 0 || b.frameNo == 0 || a.size == 0 || b.size == 0
    || a.offset + a.size <= b.offset || b.offset + b.size <= a.offset
  }

  ghost predicate Inside(s: Slot, i: nat, watermark: nat) {
    s.frameNo != 0 ==> s.frameNo == i + 1 && s.offset + s.size <= watermark
  }

  /** Extents are disjoint and below the watermark. */
  ghost predicate WellFormed(fs: Frames) {
    && fs.seg.open && fs.seg.pos <= |fs.seg.data| && fs.seg.watermark <= |fs.seg.data|
    && (forall i | 0 <= i < |fs.slots| :: Inside(fs.slots[i], i, fs.seg.watermark))
    && (forall i, j | 0 <= i < |fs.slots| && 0 <= j < |fs.slots| && i != j :: Apart(fs.slots[i], fs.slots[j]))
  }

  /** The bytes of a stored frame. */
  ghost function Bytes(fs: Frames, no: nat): seq<byte>
    requires WellFormed(fs) && HaveFrame(fs, no)
  {
    assert Inside(fs.slots[no - 1], no - 1, fs.seg.watermark);
    fs.seg.data[fs.slots[no - 1].offset..fs.slots[no - 1].offset + fs.slots[no - 1].size]
  }

  /** No other frame lies where a write of `length` bytes for frame `no` goes. */
  ghost predicate Clear(fs: Frames, no: nat, length: nat)
    requires Valid(fs, no)
  {
    forall j | 0 <= j < |fs.slots| && j != no - 1 ::
      Apart(Slot(no, Place(fs, no, length), length), fs.slots[j])
  }

  /** A stored frame is read back whole, without the clamp; the value returned is a truth
      value, so it is the byte count only for frames of one byte. */
  lemma ReadReturnsBytes(fs: Frames, no: nat)
    requires WellFormed(fs) && HaveFrame(fs, no)
    ensures ReadFrame(fs, no).1 == Bytes(fs, no)
    ensures |Bytes(fs, no)| > 0 ==> ReadFrame(fs, no).0 == 1
    ensures |Bytes(fs, no)| > 0 ==>
              (ReadFrame(fs, no).0 == |ReadFrame(fs, no).1| <==> fs.slots[no - 1].size == 1)
    ensures ReadFrame(fs, no).0 == 0 <==> fs.slots[no - 1].offset == |fs.seg.data|
  {
    assert Inside(fs.slots[no - 1], no - 1, fs.seg.watermark);
  }

  /** A frame that is not stored, or has an invalid number, yields nothing. */
  lemma NothingToRead(fs: Frames, no: nat)
    requires no == 0 || no > |fs.slots| || fs.slots[no - 1].frameNo == 0
    ensures ReadFrame(fs, no) == (0, [])
  {
  }

  /** Where the bytes of a frame go: over the stored ones if there are at least as many of them,
      else behind everything written so far. */
  lemma WhereWritesGo(fs: Frames, no: nat, length: nat)
    requires 1 <= no <= |fs.slots|
    ensures var slot := fs.slots[no - 1];
            Place(fs, no, length) ==
            if slot.frameNo != 0 && length >= slot.size then slot.offset else fs.seg.watermark
  {
  }

  /** A write that cannot be made returns 0. It changes nothing, except that a frame which would
      have been overwritten in place already has its new size. */
  lemma FailedWrites(fs: Frames, no: nat, d: seq<byte>)
    requires 0 < |d| < U32 && (no == 0 || no > |fs.slots| || !fs.seg.open)
    ensures WriteFrame(fs, d, no).1 == 0 && WriteFrame(fs, d, no).0.seg == fs.seg
    ensures var r := WriteFrame(fs, d, no).0.slots;
            && |r| == |fs.slots|
            && forall i | 0 <= i < |r| ::
                 r[i] == if i + 1 == no && fs.slots[i].frameNo != 0 && |d| >= fs.slots[i].size
                         then fs.slots[i].(size := |d|) else fs.slots[i]
  {
    assert d[..ToU32(|d|)] == d;
  }

  /** The length is taken modulo 2^32: of longer data only that many bytes are stored. */
  lemma LongFramesAreCut(fs: Frames, no: nat, d: seq<byte>)
    requires |d| >= U32
    ensures |d| % U32 <= |d| && WriteFrame(fs, d, no) == WriteFrame(fs, d[..|d| % U32], no)
  {
    var e := d[..|d| % U32];
    assert |e| == |d| % U32 && e[..ToU32(|e|)] == e;
  }

  /** A rewrite that is not longer than the stored frame is always clear of the others. */
  lemma ShortRewritesAreClear(fs: Frames, no: nat, length: nat)
    requires WellFormed(fs) && Valid(fs, no)
    requires HaveFrame(fs, no) ==> length <= fs.slots[no - 1].size
    ensures Clear(fs, no, length)
  {
    forall j | 0 <= j < |fs.slots| && j != no - 1
      ensures Apart(Slot(no, Place(fs, no, length), length), fs.slots[j])
    {
      assert Inside(fs.slots[j], j, fs.seg.watermark);
      assert Apart(fs.slots[no - 1], fs.slots[j]);
    }
  }

  lemma SegAfterIs(fs: Frames, no: nat, d: seq<byte>)
    requires WellFormed(fs) && Valid(fs, no)
    ensures var s := SegAfter(fs, no, d);
            var p := Place(fs, no, |d|);
            && s.open && s.pos == p + |d| <= |s.data| && |fs.seg.data| <= |s.data|
            && s.watermark == (if fs.seg.watermark < p + |d| then p + |d| else fs.seg.watermark)
            && s.watermark <= |s.data|
            && (forall k | 0 <= k < |fs.seg.data| ::
                  s.data[k] == if p <= k < p + |d| then d[k - p] else fs.seg.data[k])
            && s.data[p..p + |d|] == d
  {
    var p := Place(fs, no, |d|);
    if Reuses(fs, no, |d|) {
      assert Inside(fs.slots[no - 1], no - 1, fs.seg.watermark);
    }
    assert Seek(fs.seg, p, FromStart) == fs.seg.(pos := p);
  }

  ghost predicate OthersKept(fs: Frames, r: Frames, no: nat)
    requires WellFormed(fs) && WellFormed(r) && |r.slots| == |fs.slots|
  {
    forall j: nat | j != no && HaveFrame(fs, j) :: HaveFrame(r, j) && Bytes(r, j) == Bytes(fs, j)
  }

  lemma WriteFrameIs(fs: Frames, no: nat, d: seq<byte>)
    requires fs.seg.open && Valid(fs, no) && |d| < U32
    ensures WriteFrame(fs, d, no) ==
            (Frames(SegAfter(fs, no, d), fs.slots[no - 1 := SlotAfter(fs, no, |d|)]), |d|)
    ensures SlotAfter(fs, no, |d|).offset == Place(fs, no, |d|) && SlotAfter(fs, no, |d|).size == |d|
    ensures SlotAfter(fs, no, |d|).frameNo != 0
  {
    assert d[..ToU32(|d|)] == d;
  }

  lemma ClearWriteWellFormed(fs: Frames, no: nat, d: seq<byte>)
    requires WellFormed(fs) && Valid(fs, no) && |d| < U32 && Clear(fs, no, |d|)
    ensures WellFormed(Frames(SegAfter(fs, no, d), fs.slots[no - 1 := SlotAfter(fs, no, |d|)]))
  {
    var r := Frames(SegAfter(fs, no, d), fs.slots[no - 1 := SlotAfter(fs, no, |d|)]);
    SegAfterIs(fs, no, d);
    forall i | 0 <= i < |r.slots| ensures Inside(r.slots[i], i, r.seg.watermark) {
      assert Inside(fs.slots[i], i, fs.seg.watermark);
    }
    forall i, j | 0 <= i < |r.slots| && 0 <= j < |r.slots| && i != j ensures Apart(r.slots[i], r.slots[j]) {
      assert Apart(fs.slots[i], fs.slots[j]);
      if i == no - 1 {
        assert Apart(Slot(no, Place(fs, no, |d|), |d|), fs.slots[j]);
      } else if j == no - 1 {
        assert Apart(Slot(no, Place(fs, no, |d|), |d|), fs.slots[i]);
      }
    }
  }

  /** Bytes away from the place of a write stay. */
  lemma ExtentKept(fs: Frames, no: nat, d: seq<byte>, s: Slot)
    requires WellFormed(fs) && Valid(fs, no) && s.offset + s.size <= fs.seg.watermark
    requires s.size == 0 || |d| == 0
             || s.offset + s.size <= Place(fs, no, |d|) || Place(fs, no, |d|) + |d| <= s.offset
    ensures s.offset + s.size <= |SegAfter(fs, no, d).data|
    ensures SegAfter(fs, no, d).data[s.offset..s.offset + s.size] ==
            fs.seg.data[s.offset..s.offset + s.size]
  {
    SegAfterIs(fs, no, d);
  }

  /** A clear write stores the frame, keeps all others and the invariant. */
  lemma ClearWriteStores(fs: Frames, no: nat, d: seq<byte>)
    requires WellFormed(fs) && Valid(fs, no) && |d| < U32 && Clear(fs, no, |d|)
    ensures var (r, n) := WriteFrame(fs, d, no);
            && n == |d| && |r.slots| == |fs.slots| && WellFormed(r)
            && HaveFrame(r, no) && Bytes(r, no) == d
            && OthersKept(fs, r, no)
            && (forall j: nat | j != no :: HaveFrame(r, j) <==> HaveFrame(fs, j))
  {
    var r := WriteFrame(fs, d, no).0;
    WriteFrameIs(fs, no, d);
    ClearWriteWellFormed(fs, no, d);
    SegAfterIs(fs, no, d);
    forall j: nat | j != no && HaveFrame(fs, j) ensures HaveFrame(r, j) && Bytes(r, j) == Bytes(fs, j) {
      var s := fs.slots[j - 1];
      assert r.slots[j - 1] == s;
      assert Inside(s, j - 1, fs.seg.watermark);
      assert Apart(Slot(no, Place(fs, no, |d|), |d|), s);
      ExtentKept(fs, no, d, s);
    }
  }

  /** Another frame's bytes after a write, well-formed or not. */
  ghost function RawBytes(fs: Frames, no: nat): seq<byte>
    requires HaveFrame(fs, no)
    requires fs.slots[no - 1].offset + fs.slots[no - 1].size <= |fs.seg.data|
  {
    fs.seg.data[fs.slots[no - 1].offset..fs.slots[no - 1].offset + fs.slots[no - 1].size]
  }

  ghost predicate Harmless(fs: Frames, no: nat, d: seq<byte>)
    requires WellFormed(fs)
  {
    var r := WriteFrame(fs, d, no).0;
    forall j: nat | j != no && HaveFrame(fs, j) ::
      && HaveFrame(r, j) && r.slots[j - 1] == fs.slots[j - 1]
      && r.slots[j - 1].offset + r.slots[j - 1].size <= |r.seg.data|
      && RawBytes(r, j) == Bytes(fs, j)
  }

  lemma ClearWriteIsHarmless(fs: Frames, no: nat, d: seq<byte>)
    requires WellFormed(fs) && Valid(fs, no) && |d| < U32 && Clear(fs, no, |d|)
    ensures Harmless(fs, no, d)
  {
    ClearWriteStores(fs, no, d);
    var r := WriteFrame(fs, d, no).0;
    forall j: nat | j != no && HaveFrame(fs, j)
      ensures r.slots[j - 1] == fs.slots[j - 1]
      ensures r.slots[j - 1].offset + r.slots[j - 1].size <= |r.seg.data| && RawBytes(r, j) == Bytes(fs, j)
    {
      assert Inside(r.slots[j - 1], j - 1, r.seg.watermark);
      assert RawBytes(r, j) == Bytes(r, j);
    }
  }

  lemma DamagedByte(fs: Frames, r: Frames, no: nat, k: nat)
    requires WellFormed(fs) && HaveFrame(fs, no) && k < fs.slots[no - 1].size
    requires Inside(fs.slots[no - 1], no - 1, fs.seg.watermark)
    requires |r.slots| == |fs.slots| && r.slots[no - 1] == fs.slots[no - 1]
    requires |fs.seg.data| <= |r.seg.data|
    requires r.seg.data[fs.slots[no - 1].offset + k] != fs.seg.data[fs.slots[no - 1].offset + k]
    ensures RawBytes(r, no) != Bytes(fs, no)
  {
    assert RawBytes(r, no)[k] != Bytes(fs, no)[k];
  }

  lemma OverrunDamages(fs: Frames, no: nat, d: seq<byte>, j: nat, k: nat)
    requires WellFormed(fs) && Valid(fs, no) && |d| < U32
    requires j < |fs.slots| && j != no - 1 && fs.slots[j].frameNo != 0
    requires Inside(fs.slots[j], j, fs.seg.watermark)
    requires fs.slots[j].offset <= k < fs.slots[j].offset + fs.slots[j].size
    requires Place(fs, no, |d|) <= k < Place(fs, no, |d|) + |d|
    requires d[k - Place(fs, no, |d|)] != fs.seg.data[k]
    ensures !Harmless(fs, no, d)
  {
    var r := Frames(SegAfter(fs, no, d), fs.slots[no - 1 := SlotAfter(fs, no, |d|)]);
    SegAfterIs(fs, no, d);
    WriteFrameIs(fs, no, d);
    assert HaveFrame(fs, j + 1);
    DamagedByte(fs, r, j + 1, k - fs.slots[j].offset);
  }

  /** Bytes that damage frame `j + 1` when they overrun into it. */
  lemma OverrunWitness(fs: Frames, no: nat, length: nat, j: nat) returns (d: seq<byte>)
    requires WellFormed(fs) && Valid(fs, no) && length < U32
    requires j < |fs.slots| && j != no - 1
    requires !Apart(Slot(no, Place(fs, no, length), length), fs.slots[j])
    ensures |d| == length && !Harmless(fs, no, d)
  {
    var p := Place(fs, no, length);
    var s := fs.slots[j];
    assert Inside(s, j, fs.seg.watermark);
    var k := if p < s.offset then s.offset else p;   // a byte of both extents
    var other := fs.seg.data[k];
    d := seq(length, i => if other == 0 then 1 else 0);
    OverrunDamages(fs, no, d, j, k);
  }

  /** Exactly when a frame of a given length can be written without damage: whatever its bytes
      are, the other frames survive iff the place it goes to is clear. */
  lemma HarmlessIffClear(fs: Frames, no: nat, length: nat)
    requires WellFormed(fs) && Valid(fs, no) && length < U32
    ensures (forall d: seq<byte> | |d| == length :: Harmless(fs, no, d)) <==> Clear(fs, no, length)
  {
    if Clear(fs, no, length) {
      forall d: seq<byte> | |d| == length ensures Harmless(fs, no, d) {
        ClearWriteIsHarmless(fs, no, d);
      }
    } else {
      var j :| 0 <= j < |fs.slots| && j != no - 1
               && !Apart(Slot(no, Place(fs, no, length), length), fs.slots[j]);
      var d := OverrunWitness(fs, no, length, j);
      assert !Harmless(fs, no, d);
    }
  }

  /** The bytes of a frame written for the first time go behind everything. */
  lemma NewFrameGoesLast(fs: Frames, no: nat, d: seq<byte>)
    requires WellFormed(fs) && Valid(fs, no) && |d| < U32 && !HaveFrame(fs, no)
    ensures var r := WriteFrame(fs, d, no).0;
            && WellFormed(r) && HaveFrame(r, no) && Bytes(r, no) == d && OthersKept(fs, r, no)
            && (forall j: nat | j != no :: HaveFrame(r, j) <==> HaveFrame(fs, j))
            && r.slots == fs.slots[no - 1 := Slot(no, fs.seg.watermark, |d|)]
            && r.seg.watermark == fs.seg.watermark + |d|
  {
    ShortRewritesAreClear(fs, no, |d|);
    ClearWriteStores(fs, no, d);
    WriteFrameIs(fs, no, d);
    SegAfterIs(fs, no, d);
  }

  /** The overrun is real: whenever two frames are written for the first time one after the
      other, every longer rewrite of the first can damage the second. */
  lemma LongerRewriteOverruns(fs: Frames, a: nat, b: nat, x: seq<byte>, y: seq<byte>, length: nat)
    requires WellFormed(fs) && Valid(fs, a) && Valid(fs, b) && a != b
    requires !HaveFrame(fs, a) && !HaveFrame(fs, b)
    requires 0 < |x| < length < U32 && 0 < |y| < U32
    ensures var r := WriteFrame(WriteFrame(fs, x, a).0, y, b).0;
            && WellFormed(r) && HaveFrame(r, a) && Bytes(r, a) == x && HaveFrame(r, b) && Bytes(r, b) == y
            && exists d: seq<byte> | |d| == length :: !Harmless(r, a, d)
  {
    var f := WriteFrame(fs, x, a).0;
    NewFrameGoesLast(fs, a, x);
    var r := WriteFrame(f, y, b).0;
    NewFrameGoesLast(f, b, y);
    assert r.slots[a - 1] == Slot(a, fs.seg.watermark, |x|);
    assert r.slots[b - 1] == Slot(b, fs.seg.watermark + |x|, |y|);
    assert Bytes(r, a) == Bytes(f, a);
    var d := OverrunWitness(r, a, length, b - 1);
  }

  // ----- Runs of writes

  datatype FrameWrite = FrameWrite(no: nat, data: seq<byte>)

  ghost function WriteRun(fs: Frames, ws: seq<FrameWrite>): Frames
    decreases |ws|
  {
    if ws == [] then fs else WriteRun(WriteFrame(fs, ws[0].data, ws[0].no).0, ws[1..])
  }

  ghost function Stored(m: map<nat, seq<byte>>, count: nat, w: FrameWrite): map<nat, seq<byte>> {
    if 1 <= w.no <= count then m[w.no := w.data] else m
  }

  /** The reference: the last bytes written for each frame number that exists. */
  ghost function LastWrites(m: map<nat, seq<byte>>, count: nat, ws: seq<FrameWrite>): map<nat, seq<byte>>
    decreases |ws|
  {
    if ws == [] then m
    else
      var w := ws[0];
      LastWrites(Stored(m, count, w), count, ws[1..])
  }

  ghost predicate AllClear(fs: Frames, ws: seq<FrameWrite>)
    decreases |ws|
  {
    ws == [] ||
    (&& |ws[0].data| < U32 && (Valid(fs, ws[0].no) ==> Clear(fs, ws[0].no, |ws[0].data|))
     && AllClear(WriteFrame(fs, ws[0].data, ws[0].no).0, ws[1..]))
  }

  ghost predicate Holds(fs: Frames, m: map<nat, seq<byte>>)
    requires WellFormed(fs)
  {
    forall no: nat :: (no in m <==> HaveFrame(fs, no)) && (no in m ==> m[no] == Bytes(fs, no))
  }

  lemma ClearWriteHolds(fs: Frames, w: FrameWrite, m: map<nat, seq<byte>>)
    requires WellFormed(fs) && Holds(fs, m) && |w.data| < U32
    requires Valid(fs, w.no) ==> Clear(fs, w.no, |w.data|)
    ensures var r := WriteFrame(fs, w.data, w.no).0;
            WellFormed(r) && |r.slots| == |fs.slots| && Holds(r, Stored(m, |fs.slots|, w))
  {
    var r := WriteFrame(fs, w.data, w.no).0;
    var n := Stored(m, |fs.slots|, w);
    if Valid(fs, w.no) {
      ClearWriteStores(fs, w.no, w.data);
      forall no: nat ensures (no in n <==> HaveFrame(r, no)) && (no in n ==> n[no] == Bytes(r, no)) {
        if no != w.no && no in m {
          assert HaveFrame(fs, no);
        }
      }
    }
  }

  /** Over every run of clear writes the frame set is a map from numbers to bytes. */
  lemma {:induction false} ClearRunIsMap(fs: Frames, ws: seq<FrameWrite>, m: map<nat, seq<byte>>)
    requires WellFormed(fs) && Holds(fs, m) && AllClear(fs, ws)
    ensures WellFormed(WriteRun(fs, ws))
    ensures Holds(WriteRun(fs, ws), LastWrites(m, |fs.slots|, ws))
    decreases |ws|
  {
    if ws != [] {
      ClearWriteHolds(fs, ws[0], m);
      ClearRunIsMap(WriteFrame(fs, ws[0].data, ws[0].no).0, ws[1..], Stored(m, |fs.slots|, ws[0]));
    }
  }

  /** No write has more bytes than the frame stored under its number; `m` is what is stored. */
  ghost predicate NoLongerRewrites(m: map<nat, seq<byte>>, count: nat, ws: seq<FrameWrite>)
    decreases |ws|
  {
    ws == [] ||
    var w := ws[0];
    && |w.data| < U32
    && (w.no in m ==> |w.data| <= |m[w.no]|)
    && NoLongerRewrites(Stored(m, count, w), count, ws[1..])
  }

  lemma ShortWriteIsClear(fs: Frames, w: FrameWrite, m: map<nat, seq<byte>>)
    requires WellFormed(fs) && Holds(fs, m)
    requires w.no in m ==> |w.data| <= |m[w.no]|
    ensures Valid(fs, w.no) ==> Clear(fs, w.no, |w.data|)
  {
    if Valid(fs, w.no) {
      if HaveFrame(fs, w.no) {
        assert Inside(fs.slots[w.no - 1], w.no - 1, fs.seg.watermark);
        assert |Bytes(fs, w.no)| == fs.slots[w.no - 1].size;
      }
      ShortRewritesAreClear(fs, w.no, |w.data|);
    }
  }

  lemma {:induction false} ShortRunsAreClear(fs: Frames, ws: seq<FrameWrite>, m: map<nat, seq<byte>>)
    requires WellFormed(fs) && Holds(fs, m) && NoLongerRewrites(m, |fs.slots|, ws)
    ensures AllClear(fs, ws)
    decreases |ws|
  {
    if ws != [] {
      var w := ws[0];
      ShortWriteIsClear(fs, w, m);
      ClearWriteHolds(fs, w, m);
      ShortRunsAreClear(WriteFrame(fs, w.data, w.no).0, ws[1..], Stored(m, |fs.slots|, w));
    }
  }

  /** The main result: if no rewrite is longer than the frame it replaces, reading a frame
      yields the last bytes written under its number, whatever other frames were written. */
  lemma FrameSetIsMap(fs: Frames, ws: seq<FrameWrite>, m: map<nat, seq<byte>>)
    requires WellFormed(fs) && Holds(fs, m) && NoLongerRewrites(m, |fs.slots|, ws)
    ensures var r := WriteRun(fs, ws);
            var last := LastWrites(m, |fs.slots|, ws);
            && WellFormed(r) && Holds(r, last)
            && forall no: nat :: ReadFrame(r, no).1 == if no in last then last[no] else []
  {
    ShortRunsAreClear(fs, ws, m);
    ClearRunIsMap(fs, ws, m);
    var r := WriteRun(fs, ws);
    var last := LastWrites(m, |fs.slots|, ws);
    forall no: nat ensures ReadFrame(r, no).1 == if no in last then last[no] else [] {
      if no in last {
        ReadReturnsBytes(r, no);
      }
    }
  }

  /** A frame set just opened for writing, with an empty index. */
  ghost function FreshFrames(count: nat, page: nat): Frames {
    Frames(Seg(true, Zeros(page), 0, 0, {RW}, 0, 0, false), seq(count, _ => Slot(0, 0, 0)))
  }

  /** So the results hold from the start. */
  lemma FreshFramesHoldNothing(count: nat, page: nat)
    ensures WellFormed(FreshFrames(count, page)) && Holds(FreshFrames(count, page), map[])
  {
  }
}
