/** The buffer refines a plain store of one byte string per segment, in every run. */
module BufferRuns {
  import opened Machine
  import opened SegmentStore

  datatype Op =
    | SetSegmentOp(no: nat, size: nat)
    | OpenReadOp(i: nat)
    | CloseOp(i: nat, flags: set<Flag>)
    | ReserveOp(size: nat)
    | WriteOp(data: seq<byte>)
    | SeekOp(i: nat, offset: int, whence: Whence)
    | InvalidateOp(i: nat)

  /** A call with a segment number out of range does nothing but set errno. */
  ghost predicate InRange(count: nat, op: Op) {
    match op
    case SetSegmentOp(no, _) => 1 <= no <= count
    case OpenReadOp(i) => i < count
    case CloseOp(i, _) => i < count
    case SeekOp(i, _, _) => i < count
    case InvalidateOp(i) => i < count
    case _ => true
  }

  ghost function Apply(st: Store, op: Op): (r: Store)
    requires st.cur < |st.segs|
    ensures |r.segs| == |st.segs| && r.cur < |r.segs| && r.page == st.page
  {
    if !InRange(|st.segs|, op) then st
    else
      match op
      case SetSegmentOp(no, size) => SetSegment(st, no, size)
      case OpenReadOp(i) => OpenFile(st, i, {RO}, 0)
      case CloseOp(i, flags) => CloseFile(st, i, flags)
      case ReserveOp(size) => Update(st, st.cur, Reserve(st.segs[st.cur], size))
      case WriteOp(d) => Update(st, st.cur, WriteIo(st.segs[st.cur], d))
      case SeekOp(i, offset, whence) => Update(st, i, Seek(st.segs[i], offset, whence))
      case InvalidateOp(i) => Invalidate(st, i)
  }

  ghost function Run(st: Store, ops: seq<Op>): (r: Store)
    requires st.cur < |st.segs|
    ensures |r.segs| == |st.segs| && r.cur < |r.segs|
    decreases |ops|
  {
    if ops == [] then st else Run(Apply(st, ops[0]), ops[1..])
  }

  // ----- The plain store

  /** A segment as its callers see it: bytes that read as zeros behind their end, a position,
      room for `size` bytes, and who holds it open. It is open iff somebody does. */
  datatype PlainSeg = PlainSeg(bytes: seq<byte>, pos: nat, size: nat, flags: set<Flag>)

  datatype PlainStore = PlainStore(segs: seq<PlainSeg>, cur: nat, page: nat)

  /** Positional overwrite in a byte string that reads as zeros behind its end. */
  ghost function Overwrite(b: seq<byte>, pos: nat, d: seq<byte>): (r: seq<byte>) {
    Overlay(Padded(b, pos + |d|), pos, d)
  }

  /** A closed segment opens empty for writing, and positioned at its end for reading. */
  ghost function PlainOpen(s: PlainSeg, flags: set<Flag>, size: nat, page: nat): PlainSeg {
    if s.flags != {} then s.(flags := s.flags + flags)
    else if RW in flags then PlainSeg([], 0, if size == 0 then page else size, flags)
    else if s.bytes == [] then PlainSeg([], 0, page, flags)
    else PlainSeg(s.bytes, |s.bytes|, |s.bytes|, flags)
  }

  /** Closing for good keeps the bytes only. */
  ghost function PlainClose(s: PlainSeg, flags: set<Flag>): PlainSeg {
    if s.flags - flags == {} then PlainSeg(s.bytes, 0, 0, {}) else s.(flags := s.flags - flags)
  }

  ghost function PlainReserve(s: PlainSeg, size: nat): PlainSeg {
    if s.flags == {} || size <= s.size then s else s.(size := size)
  }

  /** A write overwrites at the position and advances it by what was written. */
  ghost function PlainWrite(s: PlainSeg, d: seq<byte>, room: nat): PlainSeg {
    if s.flags == {} then s
    else PlainSeg(Overwrite(s.bytes, s.pos, d), s.pos + |d|, room, s.flags)
  }

  /** How much room there may be after a write: a buffer only grows when it has to, and how far
      is up to it. */
  ghost predicate Fits(s: PlainSeg, d: seq<byte>, room: nat) {
    if s.pos + |d| <= s.size then room == s.size else room >= s.pos + |d|
  }

  ghost function PlainSeek(s: PlainSeg, offset: int, whence: Whence): PlainSeg {
    var target :=
      if whence == FromStart then offset
      else if whence == FromCurrent then s.pos + offset
      else if whence == FromEnd then s.size + offset
      else -1;
    if s.flags == {} || target < 0 then s
    else s.(pos := if target < s.size then target else s.size)
  }

  ghost function Put(b: PlainStore, i: nat, s: PlainSeg): (r: PlainStore)
    requires i < |b.segs|
    ensures |r.segs| == |b.segs| && r.cur == b.cur && r.page == b.page
  {
    b.(segs := b.segs[i := s])
  }

  /** Opening a segment that is open already enlarges the current one. */
  ghost function PlainOpenFile(b: PlainStore, i: nat, flags: set<Flag>, size: nat): (r: PlainStore)
    requires i < |b.segs| && b.cur < |b.segs|
    ensures |r.segs| == |b.segs| && r.cur == b.cur && r.page == b.page
  {
    var after := Put(b, i, PlainOpen(b.segs[i], flags, size, b.page));
    if b.segs[i].flags == {} || size == 0 then after
    else Put(after, b.cur, PlainReserve(after.segs[b.cur], size))
  }

  ghost function PlainChoose(b: PlainStore, i: nat, size: nat): (r: PlainStore)
    requires i < |b.segs| && b.cur < |b.segs|
    ensures |r.segs| == |b.segs| && r.cur == i && r.page == b.page
  {
    var after := PlainOpenFile(b, i, {RW}, size).(cur := i);
    Put(after, i, PlainReserve(after.segs[i], size))
  }

  ghost function PlainSetSegment(b: PlainStore, no: nat, size: nat): (r: PlainStore)
    requires 1 <= no <= |b.segs| && b.cur < |b.segs|
    ensures |r.segs| == |b.segs| && r.cur == no - 1 && r.page == b.page
  {
    PlainChoose(Put(b, b.cur, PlainClose(b.segs[b.cur], {RW})), no - 1, size)
  }

  /** The operations on the plain store; `room` is what a write finds or makes. */
  ghost function Plain(b: PlainStore, op: Op, room: nat): (r: PlainStore)
    requires b.cur < |b.segs|
    ensures |r.segs| == |b.segs| && r.cur < |r.segs| && r.page == b.page
  {
    if !InRange(|b.segs|, op) then b
    else
      match op
      case SetSegmentOp(no, size) => PlainSetSegment(b, no, size)
      case OpenReadOp(i) => PlainOpenFile(b, i, {RO}, 0)
      case CloseOp(i, flags) => Put(b, i, PlainClose(b.segs[i], flags))
      case ReserveOp(size) => Put(b, b.cur, PlainReserve(b.segs[b.cur], size))
      case WriteOp(d) => Put(b, b.cur, PlainWrite(b.segs[b.cur], d, room))
      case SeekOp(i, offset, whence) => Put(b, i, PlainSeek(b.segs[i], offset, whence))
      case InvalidateOp(i) => Put(b, i, PlainSeg([], 0, 0, {}))
  }

  ghost predicate MayTake(b: PlainStore, op: Op, room: nat)
    requires b.cur < |b.segs|
  {
    op.WriteOp? && b.segs[b.cur].flags != {} ==> Fits(b.segs[b.cur], op.data, room)
  }

  ghost function PlainRun(b: PlainStore, ops: seq<Op>, rooms: seq<nat>): (r: PlainStore)
    requires b.cur < |b.segs| && |rooms| == |ops|
    ensures |r.segs| == |b.segs| && r.cur < |r.segs|
    decreases |ops|
  {
    if ops == [] then b else PlainRun(Plain(b, ops[0], rooms[0]), ops[1..], rooms[1..])
  }

  ghost predicate MayRun(b: PlainStore, ops: seq<Op>, rooms: seq<nat>)
    requires b.cur < |b.segs| && |rooms| == |ops|
    decreases |ops|
  {
    ops == [] ||
    (MayTake(b, ops[0], rooms[0]) && MayRun(Plain(b, ops[0], rooms[0]), ops[1..], rooms[1..]))
  }

  /** What a segment holds, mapped or on disk. */
  ghost function Contents(st: Store, i: nat): seq<byte>
    requires i < |st.segs|
  {
    var s := st.segs[i];
    if s.open then (if s.watermark <= |s.data| then s.data[..s.watermark] else s.data) else FileOf(st, i)
  }

  /** A segment of the buffer as a plain one; `file` is what is on disk. */
  ghost function PlainOf(s: Seg, file: seq<byte>): PlainSeg {
    PlainSeg(
      if !s.open then file else if s.watermark <= |s.data| then s.data[..s.watermark] else s.data,
      s.pos, |s.data|, s.flags)
  }

  // ----- Invariants

  ghost predicate SegOk(s: Seg) {
    && s.pos <= |s.data| && s.watermark <= |s.data|
    && (!s.open ==> s.data == [])
    && (s.open <==> s.flags != {})
    && forall k | s.watermark <= k < |s.data| :: s.data[k] == 0
  }

  ghost function OpenCount(segs: seq<Seg>): nat {
    if segs == [] then 0 else (if segs[0].open then 1 else 0) + OpenCount(segs[1..])
  }

  ghost predicate Base(st: Store) {
    && st.cur < |st.segs| && st.page > 0
    && (forall i | 0 <= i < |st.segs| :: SegOk(st.segs[i]))
    && st.curOpen == OpenCount(st.segs)
  }

  /** Only segment `i` may carry the RW flag. */
  ghost predicate WritesOnly(st: Store, i: nat) {
    forall j | 0 <= j < |st.segs| && RW in st.segs[j].flags :: j == i
  }

  /** Buffer bounds, open count, and at most the current segment open for writing. */
  ghost predicate Inv(st: Store) {
    Base(st) && WritesOnly(st, st.cur)
  }

  ghost predicate Refines(st: Store, b: PlainStore) {
    && |b.segs| == |st.segs| && b.cur == st.cur && b.page == st.page
    && forall i | 0 <= i < |b.segs| :: b.segs[i] == PlainOf(st.segs[i], FileOf(st, i))
  }

  // ----- One segment

  lemma ReserveOk(s: Seg, size: nat, file: seq<byte>)
    requires SegOk(s)
    ensures SegOk(Reserve(s, size)) && Reserve(s, size).open == s.open && Reserve(s, size).flags == s.flags
    ensures s.open ==> Reserve(s, size).data[..s.watermark] == s.data[..s.watermark]
    ensures PlainOf(Reserve(s, size), file) == PlainReserve(PlainOf(s, file), size)
  {
  }

  lemma WriteOk(s: Seg, d: seq<byte>, file: seq<byte>)
    requires SegOk(s)
    ensures SegOk(WriteIo(s, d)) && WriteIo(s, d).open == s.open && WriteIo(s, d).flags == s.flags
    ensures s.open ==>
              && WriteIo(s, d).data[..WriteIo(s, d).watermark] == Overwrite(s.data[..s.watermark], s.pos, d)
              && WriteIo(s, d).pos == s.pos + |d|
              && Fits(PlainOf(s, file), d, |WriteIo(s, d).data|)
    ensures PlainOf(WriteIo(s, d), file) == PlainWrite(PlainOf(s, file), d, |WriteIo(s, d).data|)
  {
    if s.open {
      var r := WriteIo(s, d);
      var o := Overwrite(s.data[..s.watermark], s.pos, d);
      assert |o| == r.watermark;
      assert r.data[..r.watermark] == o by {
        forall k | 0 <= k < |o| ensures r.data[k] == o[k] {
        }
      }
    }
  }

  lemma SeekOk(s: Seg, offset: int, whence: Whence, file: seq<byte>)
    requires SegOk(s)
    ensures SegOk(Seek(s, offset, whence)) && Seek(s, offset, whence).data == s.data
    ensures Seek(s, offset, whence) == s.(pos := Seek(s, offset, whence).pos)
    ensures PlainOf(Seek(s, offset, whence), file) == PlainSeek(PlainOf(s, file), offset, whence)
  {
  }

  lemma OpenOk(s: Seg, file: seq<byte>, flags: set<Flag>, defaultSize: nat, page: nat)
    requires SegOk(s) && flags != {} && page > 0 && (RW in flags || defaultSize == 0)
    ensures var r := OpenSeg(s, file, flags, defaultSize, page);
            && SegOk(r) && r.open && r.flags == s.flags + flags
            && (s.open ==> r == s.(flags := s.flags + flags))
            && (!s.open ==> r.data[..r.watermark] == if RW in flags then [] else file)
            && (!s.open ==> r.writes == 0 && r.writeSize == 0 && r.finished == s.finished)
            && PlainOf(r, file) == PlainOpen(PlainOf(s, file), flags, defaultSize, page)
  {
  }

  lemma CloseOk(s: Seg, flags: set<Flag>)
    requires SegOk(s)
    ensures SegOk(CloseSeg(s, flags)) && CloseSeg(s, flags).flags == s.flags - flags
    ensures CloseSeg(s, flags).open <==> s.open && !Unmaps(s, flags)
    ensures !Unmaps(s, flags) ==> CloseSeg(s, flags) == s.(flags := s.flags - flags)
  {
  }

  // ----- Counting open segments

  lemma {:induction false} OpenCountUpdate(segs: seq<Seg>, i: nat, s: Seg)
    requires i < |segs|
    ensures OpenCount(segs[i := s]) ==
            OpenCount(segs) - (if segs[i].open then 1 else 0) + (if s.open then 1 else 0)
    decreases i
  {
    var t := segs[i := s];
    if i == 0 {
      assert t[1..] == segs[1..];
    } else {
      assert t[1..] == segs[1..][i - 1 := s];
      OpenCountUpdate(segs[1..], i - 1, s);
    }
  }

  lemma {:induction false} OpenCountPositive(segs: seq<Seg>, i: nat)
    requires i < |segs| && segs[i].open
    ensures OpenCount(segs) > 0
    decreases i
  {
    if i > 0 {
      OpenCountPositive(segs[1..], i - 1);
    }
  }

  // ----- One operation

  /** One segment changes in the buffer and in the plain store. */
  lemma UpdateOk(st: Store, i: nat, s: Seg, b: PlainStore)
    requires Base(st) && Refines(st, b) && i < |st.segs| && SegOk(s) && s.open == st.segs[i].open
    ensures Base(Update(st, i, s))
    ensures Refines(Update(st, i, s), Put(b, i, PlainOf(s, FileOf(st, i))))
  {
    OpenCountUpdate(st.segs, i, s);
  }

  /** The same for a step that also changes the segment's file and the number of open ones. */
  lemma ReplacedOk(st: Store, i: nat, r: Store, b: PlainStore)
    requires Base(st) && Refines(st, b) && i < |st.segs| && |r.segs| == |st.segs|
    requires r.segs == st.segs[i := r.segs[i]] && SegOk(r.segs[i])
    requires r.cur == st.cur && r.page == st.page
    requires forall j | 0 <= j < |st.segs| && j != i :: FileOf(r, j) == FileOf(st, j)
    requires r.curOpen ==
             st.curOpen - (if st.segs[i].open then 1 else 0) + (if r.segs[i].open then 1 else 0)
    ensures Base(r) && Refines(r, Put(b, i, PlainOf(r.segs[i], FileOf(r, i))))
  {
    OpenCountUpdate(st.segs, i, r.segs[i]);
  }

  lemma CloseFileOk(st: Store, i: nat, flags: set<Flag>, b: PlainStore)
    requires Base(st) && Refines(st, b) && i < |st.segs|
    ensures var r := CloseFile(st, i, flags);
            && Base(r) && r.segs == st.segs[i := CloseSeg(st.segs[i], flags)]
            && Refines(r, Put(b, i, PlainClose(b.segs[i], flags)))
            && (st.segs[i].open && st.segs[i].flags <= flags ==> (i in r.files <==> st.segs[i].watermark > 0))
  {
    var s := st.segs[i];
    var r := CloseFile(st, i, flags);
    CloseOk(s, flags);
    if Unmaps(s, flags) {
      OpenCountPositive(st.segs, i);
      assert Padded(s.data, s.watermark) == s.data;
    }
    assert PlainOf(r.segs[i], FileOf(r, i)) == PlainClose(b.segs[i], flags);
    ReplacedOk(st, i, r, b);
  }

  lemma OpenClosedOk(st: Store, i: nat, flags: set<Flag>, defaultSize: nat, b: PlainStore)
    requires Base(st) && Refines(st, b) && i < |st.segs| && flags != {} && !st.segs[i].open
    requires RW in flags || defaultSize == 0
    ensures var r := OpenFile(st, i, flags, defaultSize);
            && Base(r) && r.segs[i].open
            && Refines(r, PlainOpenFile(b, i, flags, defaultSize))
            && r.files == st.files[i := r.segs[i].data]
  {
    var r := OpenFile(st, i, flags, defaultSize);
    OpenOk(st.segs[i], FileOf(st, i), flags, defaultSize, st.page);
    ReplacedOk(st, i, r, b);
    assert PlainOf(r.segs[i], FileOf(r, i)) == PlainOf(r.segs[i], FileOf(st, i));
  }

  lemma OpenAgainOk(st: Store, i: nat, flags: set<Flag>, defaultSize: nat, b: PlainStore)
    requires Base(st) && Refines(st, b) && i < |st.segs| && flags != {} && st.segs[i].open
    ensures var r := OpenFile(st, i, flags, defaultSize);
            && Base(r) && r.segs[i].open
            && Refines(r, PlainOpenFile(b, i, flags, defaultSize))
  {
    var s := st.segs[i];
    var t := s.(flags := s.flags + flags);
    var u := Update(st, i, t);
    var c := Put(b, i, PlainOf(t, FileOf(st, i)));
    UpdateOk(st, i, t, b);
    assert OpenSeg(s, FileOf(st, i), flags, defaultSize, st.page) == t;
    if defaultSize != 0 {
      var v := u.segs[st.cur];
      ReserveOk(v, defaultSize, FileOf(u, st.cur));
      UpdateOk(u, st.cur, Reserve(v, defaultSize), c);
    }
  }

  lemma OpenFileOk(st: Store, i: nat, flags: set<Flag>, defaultSize: nat, b: PlainStore)
    requires Base(st) && Refines(st, b) && i < |st.segs| && flags != {}
    requires RW in flags || defaultSize == 0
    ensures var r := OpenFile(st, i, flags, defaultSize);
            && Base(r) && r.segs[i].open
            && Refines(r, PlainOpenFile(b, i, flags, defaultSize))
            && (!st.segs[i].open ==> r.files == st.files[i := r.segs[i].data])
  {
    if st.segs[i].open {
      OpenAgainOk(st, i, flags, defaultSize, b);
    } else {
      OpenClosedOk(st, i, flags, defaultSize, b);
    }
  }

  /** `r` is `st` with segment `i` current and enlarged. */
  lemma EnlargeOk(st: Store, i: nat, size: nat, r: Store, b: PlainStore)
    requires Base(st) && Refines(st, b) && i < |st.segs| && st.segs[i].open
    requires r == Update(st.(cur := i), i, Reserve(st.segs[i], size))
    ensures Base(r) && r.segs[i].open && |r.segs[i].data| >= size
    ensures Refines(r, Put(b.(cur := i), i, PlainReserve(b.segs[i], size)))
  {
    var u := st.(cur := i);
    ReserveOk(u.segs[i], size, FileOf(u, i));
    assert Base(u) && Refines(u, b.(cur := i));
    UpdateOk(u, i, Reserve(u.segs[i], size), b.(cur := i));
  }

  lemma ChooseOk(st: Store, i: nat, size: nat, b: PlainStore)
    requires Base(st) && Refines(st, b) && i < |st.segs|
    ensures var r := Choose(st, i, size);
            && Base(r) && r.segs[i].open && |r.segs[i].data| >= size
            && Refines(r, PlainChoose(b, i, size))
  {
    OpenFileOk(st, i, {RW}, size, b);
    EnlargeOk(OpenFile(st, i, {RW}, size), i, size, Choose(st, i, size), PlainOpenFile(b, i, {RW}, size));
  }

  lemma InvalidateOk(st: Store, i: nat, b: PlainStore)
    requires Base(st) && Refines(st, b) && i < |st.segs|
    ensures var r := Invalidate(st, i);
            && Base(r) && r.segs == st.segs[i := r.segs[i]]
            && r.segs[i].writes == 0 && r.segs[i].writeSize == 0 && !r.segs[i].finished
            && Refines(r, Put(b, i, PlainSeg([], 0, 0, {})))
  {
    if st.segs[i].open {
      OpenCountPositive(st.segs, i);
    }
    ReplacedOk(st, i, Invalidate(st, i), b);
  }

  // ----- What the plain store keeps

  /** Only the current segment may be held for writing. */
  ghost predicate PlainInv(b: PlainStore) {
    b.cur < |b.segs| && forall j | 0 <= j < |b.segs| && RW in b.segs[j].flags :: j == b.cur
  }

  lemma HeldForReading(f: set<Flag>)
    ensures f - {RW} == {} <==> RO !in f
  {
    if RO in f {
      assert RO in f - {RW};
    } else {
      forall x | x in f ensures x == RW {
        assert x == RO || x == RW;
      }
    }
  }

  /** What choosing a segment does to the bytes of all: it empties the chosen one iff nobody
      holds it for reading, be it closed or the current one. */
  lemma PlainSetSegmentIs(b: PlainStore, no: nat, size: nat)
    requires PlainInv(b) && 1 <= no <= |b.segs|
    ensures var r := PlainSetSegment(b, no, size);
            && PlainInv(r) && RW in r.segs[r.cur].flags
            && (forall j | 0 <= j < |b.segs| ::
                  r.segs[j].bytes == if j == no - 1 && RO !in b.segs[j].flags then [] else b.segs[j].bytes)
  {
    var f := b.segs[no - 1].flags;
    HeldForReading(f);
    if no - 1 != b.cur {
      assert RW !in f;
      assert f - {RW} == f;
    }
  }

  lemma PlainKeeps(b: PlainStore, op: Op, room: nat)
    requires PlainInv(b)
    ensures PlainInv(Plain(b, op, room))
  {
    if op.SetSegmentOp? && InRange(|b.segs|, op) {
      PlainSetSegmentIs(b, op.no, op.size);
    }
  }

  // ----- Refinement

  lemma PlainInvIff(st: Store, b: PlainStore)
    requires Refines(st, b) && st.cur < |st.segs|
    ensures PlainInv(b) <==> WritesOnly(st, st.cur)
  {
    forall i | 0 <= i < |st.segs| ensures b.segs[i].flags == st.segs[i].flags {
    }
  }

  lemma BytesFollow(st: Store, b: PlainStore)
    requires Refines(st, b)
    ensures forall j | 0 <= j < |st.segs| ::
              Contents(st, j) == b.segs[j].bytes && st.segs[j].flags == b.segs[j].flags
  {
  }

  lemma BytesOfChosen(st: Store, r: Store, b: PlainStore, c: PlainStore, i: nat)
    requires Refines(st, b) && Refines(r, c) && |b.segs| == |c.segs|
    requires forall j | 0 <= j < |b.segs| ::
               c.segs[j].bytes == if j == i && RO !in b.segs[j].flags then [] else b.segs[j].bytes
    ensures forall j | 0 <= j < |st.segs| ::
              Contents(r, j) == if j == i && RO !in st.segs[j].flags then [] else Contents(st, j)
  {
    BytesFollow(st, b);
    BytesFollow(r, c);
  }

  /** Choosing a segment leaves it open, large enough, and the only one held for writing. The
      bytes of the others stay; its own are lost iff nobody holds it for reading, also when it
      is the current one already. */
  lemma SetSegmentOk(st: Store, no: nat, size: nat, b: PlainStore)
    requires Inv(st) && Refines(st, b) && 1 <= no <= |st.segs|
    ensures var r := SetSegment(st, no, size);
            && Inv(r) && r.segs[r.cur].open && |r.segs[r.cur].data| >= size
            && Refines(r, PlainSetSegment(b, no, size))
    ensures forall j | 0 <= j < |st.segs| ::
              Contents(SetSegment(st, no, size), j) ==
              if j == no - 1 && RO !in st.segs[j].flags then [] else Contents(st, j)
  {
    var u := CloseFile(st, st.cur, {RW});
    var c := Put(b, b.cur, PlainClose(b.segs[b.cur], {RW}));
    CloseFileOk(st, st.cur, {RW}, b);
    ChooseOk(u, no - 1, size, c);
    PlainInvIff(st, b);
    PlainSetSegmentIs(b, no, size);
    PlainInvIff(SetSegment(st, no, size), PlainSetSegment(b, no, size));
    BytesOfChosen(st, SetSegment(st, no, size), b, PlainSetSegment(b, no, size), no - 1);
  }

  /** The room a write leaves in the buffer. */
  ghost function Room(st: Store, op: Op): nat
    requires st.cur < |st.segs|
  {
    if op.WriteOp? then |WriteIo(st.segs[st.cur], op.data).data| else 0
  }

  ghost function Rooms(st: Store, ops: seq<Op>): (r: seq<nat>)
    requires st.cur < |st.segs|
    ensures |r| == |ops|
    decreases |ops|
  {
    if ops == [] then [] else [Room(st, ops[0])] + Rooms(Apply(st, ops[0]), ops[1..])
  }

  lemma InPlaceKeeps(st: Store, op: Op, b: PlainStore)
    requires Inv(st) && Refines(st, b) && InRange(|st.segs|, op)
    requires op.ReserveOp? || op.WriteOp? || op.SeekOp?
    ensures Base(Apply(st, op)) && MayTake(b, op, Room(st, op))
    ensures Refines(Apply(st, op), Plain(b, op, Room(st, op)))
  {
    var s := st.segs[st.cur];
    match op {
      case ReserveOp(size) =>
        ReserveOk(s, size, FileOf(st, st.cur));
        UpdateOk(st, st.cur, Reserve(s, size), b);
      case WriteOp(d) =>
        WriteOk(s, d, FileOf(st, st.cur));
        UpdateOk(st, st.cur, WriteIo(s, d), b);
      case SeekOp(i, offset, whence) =>
        SeekOk(st.segs[i], offset, whence, FileOf(st, i));
        UpdateOk(st, i, Seek(st.segs[i], offset, whence), b);
    }
  }

  /** Every operation keeps the invariants and does to the buffer what it does to the plain
      store; in particular a write leaves every other segment alone. */
  lemma ApplyKeeps(st: Store, op: Op, b: PlainStore)
    requires Inv(st) && Refines(st, b)
    ensures Inv(Apply(st, op)) && MayTake(b, op, Room(st, op))
    ensures Refines(Apply(st, op), Plain(b, op, Room(st, op)))
  {
    if InRange(|st.segs|, op) {
      match op {
        case SetSegmentOp(no, size) => SetSegmentOk(st, no, size, b);
        case OpenReadOp(i) => OpenFileOk(st, i, {RO}, 0, b);
        case CloseOp(i, flags) => CloseFileOk(st, i, flags, b);
        case InvalidateOp(i) => InvalidateOk(st, i, b);
        case _ => InPlaceKeeps(st, op, b);
      }
    }
    PlainInvIff(st, b);
    PlainKeeps(b, op, Room(st, op));
    PlainInvIff(Apply(st, op), Plain(b, op, Room(st, op)));
  }

  /** The buffer is a plain store in every run; only how much room it makes is its own choice. */
  lemma {:induction false} RunRefines(st: Store, ops: seq<Op>, b: PlainStore)
    requires Inv(st) && Refines(st, b)
    ensures Inv(Run(st, ops)) && MayRun(b, ops, Rooms(st, ops))
    ensures Refines(Run(st, ops), PlainRun(b, ops, Rooms(st, ops)))
    decreases |ops|
  {
    if ops != [] {
      ApplyKeeps(st, ops[0], b);
      RunRefines(Apply(st, ops[0]), ops[1..], Plain(b, ops[0], Room(st, ops[0])));
      assert Rooms(st, ops)[1..] == Rooms(Apply(st, ops[0]), ops[1..]);
    }
  }

  // ----- What readers see

  lemma SliceOfPrefix(b: seq<byte>, w: nat, i: nat, j: nat)
    requires i <= j <= w <= |b|
    ensures b[..w][i..j] == b[i..j]
  {
  }

  /** Behind the watermark there are zeros. */
  lemma DataIsPadded(s: Seg)
    requires SegOk(s) && s.open
    ensures s.data == Padded(s.data[..s.watermark], |s.data|)
  {
  }

  ghost function Min(a: nat, b: nat): nat {
    if a < b then a else b
  }

  /** `copy` delivers the stored bytes followed by zeros up to the size of the buffer. It
      delivers all there is of the request iff the request does not go over that end; if it
      does, the last byte there is is missing. It fails iff the request starts behind it. */
  lemma CopyReads(st: Store, i: nat, offset: nat, n: nat)
    requires Inv(st) && i < |st.segs| && st.segs[i].open
    ensures var s := st.segs[i];
            var r := Copy(s, offset, n);
            && (CopyOk(s, offset) <==> offset < |s.data|)
            && (offset < |s.data| ==>
                  && offset + |r| <= |s.data|
                  && r == Padded(Contents(st, i), |s.data|)[offset..offset + |r|]
                  && (|r| == Min(n, |s.data| - offset) <==> offset + n <= |s.data|)
                  && (offset + n > |s.data| ==> |r| == |s.data| - offset - 1))
            && (offset + n <= s.watermark ==> r == Contents(st, i)[offset..offset + n])
            && (s.watermark <= offset && offset + n <= |s.data| ==> r == Zeros(n))
  {
    var s := st.segs[i];
    DataIsPadded(s);
    if offset + n <= s.watermark {
      SliceOfPrefix(s.data, s.watermark, offset, offset + n);
    }
  }

  /** A segment with data that is closed for good and opened again for reading has exactly the
      bytes below its watermark, and is positioned at their end. */
  lemma CloseThenReopen(st: Store, i: nat, flags: set<Flag>)
    requires Inv(st) && i < |st.segs| && Unmaps(st.segs[i], flags) && st.segs[i].watermark > 0
    ensures var s := st.segs[i];
            var r := OpenFile(CloseFile(st, i, flags), i, {RO}, 0).segs[i];
            && r.data == s.data[..s.watermark]
            && r.pos == r.watermark == |r.data| == s.watermark
  {
    var s := st.segs[i];
    assert Padded(s.data, s.watermark) == s.data;
    assert FileOf(CloseFile(st, i, flags), i) == s.data[..s.watermark];
  }

  ghost predicate Touches(st: Store, op: Op, i: nat)
    requires i < |st.segs|
  {
    match op
    case SetSegmentOp(no, _) => no == i + 1 && RO !in st.segs[i].flags
    case WriteOp(_) => st.cur == i
    case InvalidateOp(j) => j == i
    case _ => false
  }

  ghost predicate LeavesAlone(st: Store, ops: seq<Op>, i: nat)
    requires st.cur < |st.segs| && i < |st.segs|
    decreases |ops|
  {
    ops == [] || (!Touches(st, ops[0], i) && LeavesAlone(Apply(st, ops[0]), ops[1..], i))
  }

  ghost function PlainView(st: Store): (b: PlainStore) {
    PlainStore(seq(|st.segs|, i requires 0 <= i < |st.segs| => PlainOf(st.segs[i], FileOf(st, i))),
               st.cur, st.page)
  }

  lemma PlainUntouched(b: PlainStore, st: Store, op: Op, i: nat, room: nat)
    requires PlainInv(b) && Refines(st, b) && i < |b.segs| && !Touches(st, op, i)
    ensures Plain(b, op, room).segs[i].bytes == b.segs[i].bytes
  {
    if op.SetSegmentOp? && InRange(|b.segs|, op) {
      PlainSetSegmentIs(b, op.no, op.size);
    }
  }

  /** The persistence protocol over any run: as long as segment `i` is not written, invalidated,
      or chosen for writing while nobody reads it, what it holds stays the same, open or
      closed. */
  lemma {:induction false} UntouchedPersists(st: Store, ops: seq<Op>, i: nat)
    requires Inv(st) && i < |st.segs| && LeavesAlone(st, ops, i)
    ensures Contents(Run(st, ops), i) == Contents(st, i)
    decreases |ops|
  {
    if ops != [] {
      var b := PlainView(st);
      var r := Apply(st, ops[0]);
      PlainInvIff(st, b);
      ApplyKeeps(st, ops[0], b);
      PlainUntouched(b, st, ops[0], i, Room(st, ops[0]));
      BytesFollow(st, b);
      BytesFollow(r, Plain(b, ops[0], Room(st, ops[0])));
      UntouchedPersists(r, ops[1..], i);
    }
  }
}
