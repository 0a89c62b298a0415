/** The segmented cache buffer of `buffer.cc` on values: one record per segment and the
    files behind them. `Buffer` performs the same operations in place. */
module SegmentStore {
  import opened Machine

  datatype Flag = RO | RW
  datatype Whence = FromStart | FromCurrent | FromEnd | BadWhence

  /** A segment's CACHEINFO. `data` is the mapped file, so `|data|` is `m_buffer_size`;
      a closed segment has no data. */
  datatype Seg = Seg(
    open: bool, data: seq<byte>, pos: nat, watermark: nat, flags: set<Flag>,
    writeSize: nat, writes: nat, finished: bool)

  const PREALLOC_FACTOR := 5

  const CLOSED := Seg(false, [], 0, 0, {}, 0, 0, false)

  function Zeros(n: nat): (r: seq<byte>)
    ensures |r| == n && forall i | 0 <= i < n :: r[i] == 0
  {
    seq(n, i => 0)
  }

  /** The bytes extended with zeros to at least `n`. */
  function Padded(b: seq<byte>, n: nat): (r: seq<byte>)
    ensures |r| == if |b| < n then n else |b|
    ensures forall i | 0 <= i < |r| :: r[i] == if i < |b| then b[i] else 0
  {
    if |b| < n then b + Zeros(n - |b|) else b
  }

  // ----- reserve, reallocate, writeio

  function Reserve(s: Seg, size: nat): Seg {
    if s.open then s.(data := Padded(s.data, size)) else s
  }

  /** The size `reallocate` settles on when `need` bytes must fit. */
  function NewSize(s: Seg, need: nat): (r: nat)
    ensures need <= r && |s.data| <= r
  {
    if need <= |s.data| then |s.data|
    else if s.writes == 0 then need
    else
      var preallocated := PREALLOC_FACTOR * (s.writeSize / s.writes);
      if preallocated > need - |s.data| then |s.data| + preallocated else need
  }

  function Overlay(b: seq<byte>, pos: nat, d: seq<byte>): (r: seq<byte>)
    requires pos + |d| <= |b|
    ensures |r| == |b|
    ensures forall i | 0 <= i < |r| :: r[i] == if pos <= i < pos + |d| then d[i - pos] else b[i]
  {
    b[..pos] + d + b[pos + |d|..]
  }

  function WriteIo(s: Seg, d: seq<byte>): Seg {
    if !s.open then s
    else
      var end := s.pos + |d|;
      s.(data := Overlay(Padded(s.data, NewSize(s, end)), s.pos, d),
         pos := end,
         watermark := if s.watermark < end then end else s.watermark,
         writeSize := s.writeSize + |d|,
         writes := ToU32(s.writes + 1))
  }

  // ----- seek, copy

  function Target(s: Seg, offset: int, whence: Whence): int {
    match whence
    case FromStart => offset
    case FromCurrent => s.pos + offset
    case FromEnd => |s.data| + offset
    case BadWhence => -1
  }

  /** Beyond the buffer the position stops at its end; before it nothing moves. */
  function Seek(s: Seg, offset: int, whence: Whence): Seg {
    var t := Target(s, offset, whence);
    if !s.open || t < 0 then s
    else s.(pos := if t > |s.data| then |s.data| else t)
  }

  /** How many bytes `copy` delivers; none if it fails. An overlong request is clamped. */
  function CopyLength(s: Seg, offset: nat, n: nat): (r: nat)
    ensures r > 0 ==> s.open && offset + r <= |s.data|
  {
    if !s.open || |s.data| <= offset then 0
    else if |s.data| < offset + n then |s.data| - offset - 1
    else n
  }

  function CopyOk(s: Seg, offset: nat): bool {
    s.open && |s.data| > offset
  }

  function Copy(s: Seg, offset: nat, n: nat): seq<byte> {
    if CopyLength(s, offset, n) == 0 then [] else s.data[offset..offset + CopyLength(s, offset, n)]
  }

  // ----- map_file, unmap_file

  /** What `open` with or without O_TRUNC and the following `ftruncate` leave in the file, and
      whether that is a default size. */
  function MapFile(file: seq<byte>, defaultSize: nat, page: nat, truncate: bool): (r: (seq<byte>, bool))
  {
    var found := if truncate then [] else file;
    if found == [] || defaultSize != 0 then
      var size := if defaultSize == 0 then page else defaultSize;
      (if |found| > size then found[..size] else Padded(found, size), true)
    else
      (found, false)
  }

  function OpenSeg(s: Seg, file: seq<byte>, flags: set<Flag>, defaultSize: nat, page: nat): Seg {
    if s.open then s.(flags := s.flags + flags)
    else
      var (data, isDefault) := MapFile(file, defaultSize, page, RW in flags);
      s.(open := true, data := data, flags := s.flags + flags, writeSize := 0, writes := 0,
         pos := if isDefault then s.pos else |data|,
         watermark := if isDefault then s.watermark else |data|)
  }

  function CloseSeg(s: Seg, flags: set<Flag>): Seg {
    var t := s.(flags := s.flags - flags);
    if t.flags != {} || !s.open then t
    else t.(open := false, data := [], pos := 0, watermark := 0)
  }

  /** True if `close_file` unmaps the segment. */
  predicate Unmaps(s: Seg, flags: set<Flag>) {
    s.open && s.flags - flags == {}
  }

  /** The file after unmapping: cut at the watermark, or removed. */
  function UnmapFile(files: map<nat, seq<byte>>, i: nat, s: Seg): map<nat, seq<byte>> {
    if s.watermark > 0 then files[i := Padded(s.data, s.watermark)[..s.watermark]] else files - {i}
  }

  // ----- The buffer

  datatype Store = Store(segs: seq<Seg>, files: map<nat, seq<byte>>, cur: nat, curOpen: nat, page: nat)

  function FileOf(st: Store, i: nat): seq<byte> {
    if i in st.files then st.files[i] else []
  }

  function Update(st: Store, i: nat, s: Seg): (r: Store)
    requires i < |st.segs|
  {
    st.(segs := st.segs[i := s])
  }

  function OpenFile(st: Store, i: nat, flags: set<Flag>, defaultSize: nat): (r: Store)
    requires i < |st.segs| && st.cur < |st.segs|
    ensures |r.segs| == |st.segs| && r.cur == st.cur && r.page == st.page
  {
    var s := st.segs[i];
    var t := OpenSeg(s, FileOf(st, i), flags, defaultSize, st.page);
    var u := st.(segs := st.segs[i := t]);
    if !s.open then u.(files := st.files[i := t.data], curOpen := st.curOpen + 1)
    else if defaultSize == 0 then u
    // reserve() enlarges the current segment, which need not be the one opened
    else Update(u, st.cur, Reserve(u.segs[st.cur], defaultSize))
  }

  function CloseFile(st: Store, i: nat, flags: set<Flag>): (r: Store)
    requires i < |st.segs|
    ensures |r.segs| == |st.segs| && r.cur == st.cur && r.page == st.page
  {
    var s := st.segs[i];
    var u := st.(segs := st.segs[i := CloseSeg(s, flags)]);
    if Unmaps(s, flags) then
      u.(files := UnmapFile(st.files, i, s), curOpen := if st.curOpen > 0 then st.curOpen - 1 else 0)
    else u
  }

  /** Opens a segment for writing and makes it the current one. */
  function Choose(st: Store, i: nat, size: nat): (r: Store)
    requires i < |st.segs| && st.cur < |st.segs|
    ensures |r.segs| == |st.segs| && r.cur == i && r.page == st.page
  {
    var u := OpenFile(st, i, {RW}, size);
    u.(cur := i, segs := u.segs[i := Reserve(u.segs[i], size)])
  }

  /** `set_segment` for a segment number that exists. */
  function SetSegment(st: Store, no: nat, size: nat): (r: Store)
    requires 1 <= no <= |st.segs| && st.cur < |st.segs|
    ensures |r.segs| == |st.segs| && r.cur == no - 1 && r.page == st.page
  {
    Choose(CloseFile(st, st.cur, {RW}), no - 1, size)
  }

  function Invalidate(st: Store, i: nat): (r: Store)
    requires i < |st.segs|
    ensures |r.segs| == |st.segs| && r.cur == st.cur && r.page == st.page
  {
    st.(segs := st.segs[i := CLOSED], files := st.files - {i},
        curOpen := if st.segs[i].open && st.curOpen > 0 then st.curOpen - 1 else st.curOpen)
  }
}
