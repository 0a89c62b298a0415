/** `Buffer` as the object it is: mapped memory is written in place, every segment has its
    own CACHEINFO object, and each method is proved against the operation on values. */
module CacheBuffer {
  import opened Machine
  import opened Options
  import opened SegmentStore
  import opened FrameIndex

  method Stretched(b: array<byte>, size: nat) returns (r: array<byte>)
    requires size > b.Length
    ensures fresh(r) && r[..] == Padded(b[..], size)
  {
    r := new byte[size](_ => 0);
    forall k | 0 <= k < b.Length {
      r[k] := b[k];
    }
  }

  /** CACHEINFO: the mapped memory of one segment and its bookkeeping. */
  class CacheInfo {
    var buffer: array?<byte>
    var pos: nat
    var watermark: nat
    var flags: set<Flag>
    var writeSize: nat
    var writes: nat
    var finished: bool

    ghost function Now(): Seg
      reads this, buffer
    {
      Seg(buffer != null, if buffer == null then [] else buffer[..],
          pos, watermark, flags, writeSize, writes, finished)
    }

    /** Position and watermark stay inside the buffer. */
    ghost predicate InBounds()
      reads this
    {
      var size := if buffer == null then 0 else buffer.Length;
      pos <= size && watermark <= size
    }

    constructor ()
      ensures Now() == CLOSED && buffer == null && InBounds()
    {
      buffer, pos, watermark, flags, writeSize, writes, finished := null, 0, 0, {}, 0, 0, false;
    }

    /** Drops the mapping and everything known about the segment. */
    method Reset()
      modifies this
      ensures Now() == CLOSED && buffer == null && InBounds()
    {
      buffer, pos, watermark, flags, writeSize, writes, finished := null, 0, 0, {}, 0, 0, false;
    }

    /** `reserve`: the mapping is moved to a larger one and the file stretched with zeros. */
    method EnsureSize(size: nat) returns (ok: bool)
      modifies this`buffer
      ensures Now() == Reserve(old(Now()), size) && ok == (old(buffer) != null)
      ensures buffer == old(buffer) || fresh(buffer)
    {
      if buffer == null {
        return false;
      }
      if buffer.Length >= size {
        return true;
      }
      var grown := Stretched(buffer, size);
      buffer := grown;
      return true;
    }

    /** The size `reallocate` asks for. */
    method NeededSize(need: nat) returns (size: nat)
      requires buffer != null
      ensures size == NewSize(Now(), need)
    {
      size := buffer.Length;
      if need > size {
        size := need;
        if writes != 0 {
          var preallocated := PREALLOC_FACTOR * (writeSize / writes);
          if preallocated > need - buffer.Length {
            size := buffer.Length + preallocated;
          }
        }
      }
    }

    /** `memcpy` to the write position. */
    method PutBytes(d: seq<byte>)
      requires buffer != null && pos + |d| <= buffer.Length
      modifies buffer
      ensures buffer[..] == Overlay(old(buffer[..]), pos, d)
    {
      forall k | 0 <= k < |d| {
        buffer[pos + k] := d[k];
      }
    }

    /** `increment_pos` and the write statistics. */
    method IncrementPos(length: nat)
      modifies this`pos, this`watermark, this`writeSize, this`writes
      ensures var s := old(Now());
              Now() == s.(pos := s.pos + length,
                          watermark := if s.watermark < s.pos + length then s.pos + length else s.watermark,
                          writeSize := s.writeSize + length, writes := ToU32(s.writes + 1))
    {
      var end := pos + length;
      if watermark < end {
        watermark := end;
      }
      writeSize := writeSize + length;
      writes := ToU32(writes + 1);
      pos := end;
    }

    /** `writeio` with `write_prepare`, `reallocate` and `increment_pos`. */
    method Append(d: seq<byte>) returns (written: nat)
      requires InBounds()
      modifies this, buffer
      ensures InBounds() && Now() == WriteIo(old(Now()), d) && written == (if old(buffer) != null then |d| else 0)
      ensures buffer == old(buffer) || fresh(buffer)
    {
      if buffer == null {
        return 0;
      }
      var size := NeededSize(pos + |d|);
      var ok := EnsureSize(size);
      PutBytes(d);
      IncrementPos(|d|);
      return |d|;
    }

    method SeekTo(offset: int, whence: Whence) returns (ret: int)
      modifies this`pos
      ensures Now() == Seek(old(Now()), offset, whence)
      ensures ret == 0 <==> buffer != null && Target(old(Now()), offset, whence) >= 0
    {
      if buffer == null {
        return -1;
      }
      var target;
      match whence {
        case FromStart => target := offset;
        case FromCurrent => target := pos + offset;
        case FromEnd => target := buffer.Length + offset;
        case BadWhence => return -1;
      }
      if target > buffer.Length {
        pos := buffer.Length;
        return 0;
      }
      if target < 0 {
        return -1;
      }
      pos := target;
      return 0;
    }

    method CopyTo(out: array<byte>, offset: nat, n: nat) returns (ok: bool)
      requires out != buffer && n <= out.Length
      modifies out
      ensures ok == CopyOk(Now(), offset)
      ensures out[..] == Copy(Now(), offset, n) + old(out[..])[CopyLength(Now(), offset, n)..]
    {
      if buffer == null || buffer.Length <= offset {
        return false;
      }
      var length := n;
      if buffer.Length < offset + n {
        length := buffer.Length - offset - 1;
      }
      forall k | 0 <= k < length {
        out[k] := buffer[offset + k];
      }
      assert out[..] == buffer[offset..offset + length] + old(out[..])[length..];
      return true;
    }

    /** The part of `open_file` behind the test for an open descriptor. */
    method Map(file: seq<byte>, newFlags: set<Flag>, defaultSize: nat, page: nat)
      requires buffer == null
      modifies this
      ensures Now() == OpenSeg(old(Now()), file, newFlags, defaultSize, page)
      ensures buffer != null && fresh(buffer)
    {
      flags := flags + newFlags;
      var (data, isDefault) := MapFile(file, defaultSize, page, RW in newFlags);
      buffer := new byte[|data|](i requires 0 <= i < |data| => data[i]);
      assert buffer[..] == data;
      if !isDefault {
        pos := buffer.Length;
        watermark := buffer.Length;
      }
      writeSize := 0;
      writes := 0;
    }

    /** Unmaps after the flags are gone. */
    method Unmap()
      requires buffer != null && flags == {}
      modifies this
      ensures Now() == old(Now()).(open := false, data := [], pos := 0, watermark := 0)
      ensures buffer == null
    {
      buffer := null;
      pos := 0;
      watermark := 0;
    }
  }

  class Buffer {
    const ci: seq<CacheInfo>
    const page: nat
    var cur: nat
    var curOpen: nat
    var files: map<nat, seq<byte>>

    ghost function Memory(): set<object>
      reads ci
    {
      set c | c in ci && c.buffer != null :: c.buffer as object
    }

    /** Every segment has its own record and its own memory. */
    ghost predicate Valid()
      reads this, ci
    {
      && cur < |ci|
      && (forall i | 0 <= i < |ci| :: ci[i].InBounds())
      && (forall i, j | 0 <= i < j < |ci| :: ci[i] != ci[j])
      && (forall i, j | 0 <= i < j < |ci| && ci[i].buffer != null :: ci[i].buffer != ci[j].buffer)
    }

    ghost function Segs(): (r: seq<Seg>)
      reads ci, Memory()
      ensures |r| == |ci| && forall i | 0 <= i < |ci| :: r[i] == ci[i].Now()
    {
      seq(|ci|, i requires 0 <= i < |ci| reads ci, Memory() => ci[i].Now())
    }

    ghost function Now(): Store
      reads this, ci, Memory()
    {
      Store(Segs(), files, cur, curOpen, page)
    }

    /** A fresh buffer over the files found on disk (`init` without erasing the cache). */
    constructor (count: nat, page: nat, found: map<nat, seq<byte>>)
      requires count > 0
      ensures Valid() && Now() == Store(seq(count, _ => CLOSED), found, 0, 0, page)
    {
      var infos: seq<CacheInfo> := [];
      while |infos| < count
        invariant |infos| <= count
        invariant forall c | c in infos :: fresh(c) && c.buffer == null && c.InBounds() && c.Now() == CLOSED
        invariant forall i, j | 0 <= i < j < |infos| :: infos[i] != infos[j]
      {
        var c := new CacheInfo();
        infos := infos + [c];
      }
      ci := infos;
      this.page := page;
      cur, curOpen, files := 0, 0, found;
      new;
      assert Segs() == seq(count, _ => CLOSED);
    }

    method ReserveCurrent(size: nat) returns (ok: bool)
      requires Valid()
      modifies ci[cur]
      ensures Valid() && Now() == Update(old(Now()), cur, Reserve(old(Now().segs[cur]), size))
      ensures ok == old(Now()).segs[cur].open
    {
      ok := ci[cur].EnsureSize(size);
      assert Segs() == old(Segs())[cur := ci[cur].Now()];
    }

    /** `open_file` for a segment that is not open. */
    method MapIndex(i: nat, flags: set<Flag>, defaultSize: nat)
      requires Valid() && i < |ci| && ci[i].buffer == null
      modifies this, ci[i]
      ensures Valid() && Now() == OpenFile(old(Now()), i, flags, defaultSize)
      ensures cur == old(cur) && ci[i].buffer != null && fresh(ci[i].buffer)
    {
      ghost var st := Now();
      var file := if i in files then files[i] else [];
      ci[i].Map(file, flags, defaultSize, page);
      files := files[i := ci[i].buffer[..]];
      curOpen := curOpen + 1;
      assert Segs() == st.segs[i := ci[i].Now()];
    }

    /** `open_file` for a segment that is open already. */
    method ShareIndex(i: nat, flags: set<Flag>, defaultSize: nat)
      requires Valid() && i < |ci| && ci[i].buffer != null
      modifies ci
      ensures Valid() && Now() == OpenFile(old(Now()), i, flags, defaultSize)
    {
      var c := ci[i];
      ghost var st := Now();
      c.flags := c.flags + flags;
      assert Segs() == st.segs[i := c.Now()];
      if defaultSize != 0 {
        var _ := ReserveCurrent(defaultSize);
      }
    }

    method OpenIndex(i: nat, flags: set<Flag>, defaultSize: nat)
      requires Valid() && i < |ci|
      modifies this, ci
      ensures Valid() && Now() == OpenFile(old(Now()), i, flags, defaultSize)
      ensures cur == old(cur)
    {
      if ci[i].buffer != null {
        ShareIndex(i, flags, defaultSize);
      } else {
        MapIndex(i, flags, defaultSize);
      }
    }

    /** `unmap_file`: the file is cut at the watermark, or unlinked. */
    method UnmapIndex(i: nat)
      requires Valid() && i < |ci| && ci[i].buffer != null && ci[i].flags == {}
      modifies this, ci[i]
      ensures Valid() && cur == old(cur)
      ensures var s := old(Now()).segs[i];
              Now() == Store(old(Now()).segs[i := s.(open := false, data := [], pos := 0, watermark := 0)],
                             UnmapFile(old(files), i, s), cur,
                             if old(curOpen) > 0 then old(curOpen) - 1 else 0, page)
    {
      var c := ci[i];
      ghost var st := Now();
      if c.watermark > 0 {
        files := files[i := Padded(c.buffer[..], c.watermark)[..c.watermark]];
      } else {
        files := files - {i};
      }
      c.Unmap();
      if curOpen > 0 {
        curOpen := curOpen - 1;
      }
      assert Segs() == st.segs[i := c.Now()];
    }

    method CloseIndex(i: nat, flags: set<Flag>)
      requires Valid() && i < |ci|
      modifies this, ci
      ensures Valid() && Now() == CloseFile(old(Now()), i, flags)
      ensures cur == old(cur)
    {
      var c := ci[i];
      ghost var st := Now();
      c.flags := c.flags - flags;
      assert Segs() == st.segs[i := c.Now()];
      if c.flags != {} || c.buffer == null {
        return;
      }
      UnmapIndex(i);
    }

    /** `invalidate_segment` */
    method InvalidateIndex(i: nat)
      requires Valid() && i < |ci|
      modifies this, ci[i]
      ensures Valid() && Now() == Invalidate(old(Now()), i)
    {
      var c := ci[i];
      ghost var st := Now();
      if c.buffer != null && curOpen > 0 {
        curOpen := curOpen - 1;
      }
      c.Reset();
      files := files - {i};
      assert Segs() == st.segs[i := c.Now()];
    }

    /** `cacheinfo`: number 0 stands for the current segment. */
    function Index(no: nat): Option<nat>
      reads this
    {
      if no == 0 then Some(cur) else if no <= |ci| then Some(no - 1) else None
    }

    method SeekIn(no: nat, offset: int, whence: Whence) returns (ret: int)
      requires Valid()
      modifies ci
      ensures Valid()
      ensures no > |ci| ==> ret == -1 && Now() == old(Now())
      ensures no <= |ci| ==>
                var i := if no == 0 then cur else no - 1;
                && Now() == Update(old(Now()), i, Seek(old(Now()).segs[i], offset, whence))
                && (ret == 0 <==> old(Now()).segs[i].open && Target(old(Now()).segs[i], offset, whence) >= 0)
    {
      var index := Index(no);
      if index.None? {
        return -1;
      }
      ret := ci[index.value].SeekTo(offset, whence);
      assert Segs() == old(Segs())[index.value := ci[index.value].Now()];
    }

    method CopyFrom(out: array<byte>, offset: nat, n: nat, no: nat) returns (ok: bool)
      requires Valid() && n <= out.Length && out !in Memory()
      modifies out
      ensures Valid() && Now() == old(Now())
      ensures no > |ci| ==> !ok && out[..] == old(out[..])
      ensures no <= |ci| ==>
                var s := Now().segs[if no == 0 then cur else no - 1];
                && ok == CopyOk(s, offset)
                && out[..] == Copy(s, offset, n) + old(out[..])[CopyLength(s, offset, n)..]
    {
      var index := Index(no);
      if index.None? {
        return false;
      }
      ok := ci[index.value].CopyTo(out, offset, n);
      assert Segs() == old(Segs());
    }

    /** `set_segment` once the segment left behind is closed. */
    method ChooseSegment(i: nat, size: nat)
      requires Valid() && i < |ci|
      modifies this, ci
      ensures Valid() && Now() == Choose(old(Now()), i, size)
    {
      OpenIndex(i, {RW}, size);
      ghost var u := Now();
      cur := i;
      assert Now() == u.(cur := i);
      var _ := ReserveCurrent(size);
    }

    /** `set_segment` */
    method SelectSegment(no: nat, size: nat) returns (ok: bool)
      requires Valid()
      modifies this, ci
      ensures Valid() && ok == (1 <= no <= |ci|)
      ensures Now() == if ok then SetSegment(old(Now()), no, size) else old(Now())
    {
      if no == 0 || no > |ci| {
        return false;
      }
      CloseIndex(cur, {RW});
      ChooseSegment(no - 1, size);
      ok := true;
    }

    /** `writeio` */
    method Write(d: seq<byte>) returns (written: nat)
      requires Valid()
      modifies ci[cur], ci[cur].buffer
      ensures Valid() && Now() == Update(old(Now()), cur, WriteIo(old(Now().segs[cur]), d))
      ensures written == (if old(Now()).segs[cur].open then |d| else 0)
    {
      written := ci[cur].Append(d);
      assert Segs() == old(Segs())[cur := ci[cur].Now()];
    }
  }

  /** The buffer of a frame set: one segment and the index that is mapped beside it. */
  class FrameBuffer {
    const info: CacheInfo
    const slots: array<Slot>

    ghost function Now(): Frames
      reads info, info.buffer, slots
    {
      Frames(info.Now(), slots[..])
    }

    constructor (info: CacheInfo, count: nat)
      ensures this.info == info && fresh(slots)
      ensures Now() == Frames(info.Now(), seq(count, _ => Slot(0, 0, 0)))
    {
      this.info := info;
      slots := new Slot[count](_ => Slot(0, 0, 0));
    }

    /** `seek` and `writeio` */
    method PutAt(offset: nat, d: seq<byte>) returns (written: nat)
      requires info.InBounds()
      modifies info, info.buffer
      ensures info.InBounds()
      ensures info.Now() == WriteIo(Seek(old(info.Now()), offset, FromStart), d)
      ensures written == if old(info.Now()).open then |d| else 0
    {
      var _ := info.SeekTo(offset, FromStart);
      written := info.Append(d);
    }

    /** `write_frame` */
    method Store(data: seq<byte>, no: nat) returns (written: nat)
      requires info.InBounds()
      modifies info, info.buffer, slots
      ensures info.InBounds() && (Now(), written) == WriteFrame(old(Now()), data, no)
    {
      if no < 1 || no > slots.Length {
        return 0;
      }
      var d := data[..ToU32(|data|)];
      var slot := slots[no - 1];
      if slot.frameNo != 0 && slot.size <= |d| {
        slots[no - 1] := slot.(size := |d|);
        written := PutAt(slot.offset, d);
        if written != |d| {
          return 0;
        }
      } else {
        var added := Slot(no, info.watermark, |d|);
        written := PutAt(info.watermark, d);
        if written != |d| {
          return 0;
        }
        slots[no - 1] := added;
      }
    }

    /** `read_frame` into an empty vector */
    method Load(no: nat) returns (ret: nat, data: array<byte>)
      ensures fresh(data) && Now() == old(Now())
      ensures (ret, data[..]) == ReadFrame(Now(), no)
    {
      ret := 0;
      if no < 1 || no > slots.Length || slots[no - 1].frameNo == 0 {
        data := new byte[0];
        assert data[..] == [];
        return;
      }
      var slot := slots[no - 1];
      data := new byte[slot.size](_ => 0);
      ghost var zeros := data[..];
      var ok := info.CopyTo(data, slot.offset, slot.size);
      ret := if ok then 1 else 0;
      assert Padded(Copy(info.Now(), slot.offset, slot.size), slot.size) ==
             Copy(info.Now(), slot.offset, slot.size) + zeros[CopyLength(info.Now(), slot.offset, slot.size)..];
    }

    /** `invalidate_segment` for the only segment: under number 0 the index is zeroed, too. */
    method Invalidate(no: nat) returns (ok: bool)
      modifies info, slots
      ensures ok <==> no <= 1
      ensures Now() == if no > 1 then old(Now())
                       else Frames(CLOSED, if no == 0 then seq(|old(slots[..])|, _ => Slot(0, 0, 0))
                                           else old(slots[..]))
    {
      if no > 1 {
        return false;
      }
      info.Reset();
      if no == 0 {
        forall i | 0 <= i < slots.Length {
          slots[i] := Slot(0, 0, 0);
        }
        assert slots[..] == seq(slots.Length, _ => Slot(0, 0, 0));
      }
      return true;
    }

    method Has(no: nat) returns (r: bool)
      ensures r == HaveFrame(Now(), no)
    {
      r := 1 <= no <= slots.Length && slots[no - 1].frameNo != 0;
    }
  }
}
