/** `DvdIO`: the reader walks the cells of a program chain, one VOBU at a time. */
module DvdNavigation {
  import opened Machine
  import opened CellWalk

  const SRI_END_OF_CELL := 0x3fff_ffff

  datatype DsiType = Continue | EofChapter | EofTitle

  /** The navigation data of a VOBU. `interleaved` is where the next interleaved unit of a
      selected angle starts, and its size. */
  datatype Dsi = Dsi(block: nat, size: nat, nextVobu: nat, interleaved: (nat, nat))

  function NextBlock(dsi: Dsi): nat {
    ToU32(dsi.block + dsi.nextVobu % 0x8000_0000)
  }

  predicate EndOfCell(dsi: Dsi, cell: Cell) {
    dsi.nextVobu == SRI_END_OF_CELL || NextBlock(dsi) >= cell.last
  }

  /** `v` with `c` as its last cell, which it may be already. */
  ghost function Marked(v: seq<nat>, c: nat): seq<nat> {
    if v != [] && v[|v| - 1] == c then v else v + [c]
  }

  lemma MarkedOnce(v: seq<nat>, before: seq<nat>, after: seq<nat>, c: nat)
    requires after == before + [c] && (v == before || v == after)
    requires forall i | 0 <= i < |before| :: before[i] < c
    ensures Marked(v, c) == after
  {
  }

  class Reader {
    const cells: seq<Cell>
    const startCell: nat
    const endCell: nat
    const angle: nat
    const fullTitle: bool

    var curCell: nat
    var nextCell: nat
    var gotoNextCell: bool
    var curBlock: nat
    var isEof: bool
    var errno: bool

    /** Start of the unit that `curCell` belongs to; the cells data was read from until the end
        was reported or a read failed; and whether the end was reported. */
    ghost var unit: nat
    ghost var visited: seq<nat>
    ghost var ended: bool

    /** The chain and the chapter bounds are as the disc format promises. */
    ghost predicate GoodChain() {
      && startCell < endCell <= |cells|
      && WellFormed(cells, startCell, angle)
      && Aligned(cells, startCell, endCell)
    }

    /** Where the walk has to end. */
    ghost function Bound(): nat {
      if fullTitle then |cells| else endCell
    }

    ghost function Shown(to: nat): seq<nat>
      requires startCell <= to <= |cells|
    {
      ChosenCells(cells, startCell, to, angle)
    }

    ghost predicate Positioned()
      reads this
    {
      && startCell <= unit < |cells|
      && WellFormed(cells, unit, angle) && Aligned(cells, startCell, unit)
      && curCell == Pick(cells, unit, angle) && nextCell == NextUnit(cells, unit)
    }

    /** What was read so far is what the angle shows up to here; at the end, all of it. A failed
        read may skip a cell, so nothing is claimed behind one until the next rewind. */
    ghost predicate Valid()
      reads this
    {
      && GoodChain()
      && (gotoNextCell ==>
            curCell == nextCell == startCell && visited == [] && !isEof && !ended && !errno)
      && (!gotoNextCell ==> Positioned())
      && (!gotoNextCell && !ended && !errno ==>
            unit < Bound() && (visited == Shown(unit) || visited == Shown(nextCell)))
      && (ended ==> visited == Shown(Bound()))
      && (isEof && !errno ==> ended)
    }

    constructor (cells: seq<Cell>, startCell: nat, endCell: nat, angle: nat, fullTitle: bool)
      requires startCell < endCell <= |cells|
      requires WellFormed(cells, startCell, angle) && Aligned(cells, startCell, endCell)
      ensures Valid() && gotoNextCell
      ensures this.cells == cells && this.startCell == startCell && this.endCell == endCell
      ensures this.angle == angle && this.fullTitle == fullTitle
    {
      this.cells, this.startCell, this.endCell := cells, startCell, endCell;
      this.angle, this.fullTitle := angle, fullTitle;
      curCell, nextCell, gotoNextCell, curBlock := startCell, startCell, true, 0;
      isEof, errno, unit, visited, ended := false, false, startCell, [], false;
    }

    /** `rewind` */
    method Rewind()
      requires GoodChain()
      modifies this
      ensures Valid() && !isEof && !errno && visited == []
      ensures gotoNextCell && curCell == nextCell == startCell
    {
      nextCell := startCell;
      curCell := startCell;
      gotoNextCell := true;
      isEof := false;
      errno := false;
      unit, visited, ended := startCell, [], false;
    }

    /** `next_cell`: from the first cell of a unit to the cell that is shown. */
    method EnterUnit()
      requires curCell < |cells| && WellFormed(cells, curCell, angle)
      modifies this`curCell, this`nextCell
      ensures curCell == Pick(cells, old(curCell), angle) && nextCell == NextUnit(cells, old(curCell))
    {
      if cells[curCell].angleBlock {
        ghost var e := BlockEnd(cells, curCell);
        curCell := curCell + angle;
        var i := 0;
        while cells[curCell + i].mode != LastCell
          invariant curCell + i <= e
          decreases e - i
        {
          i := i + 1;
        }
        nextCell := curCell + i + 1;
      } else {
        nextCell := curCell + 1;
      }
    }

    lemma NextUnitStarts()
      requires GoodChain() && Positioned()
      ensures nextCell <= |cells| && WellFormed(cells, nextCell, angle) && Aligned(cells, startCell, nextCell)
      ensures startCell <= unit <= curCell < nextCell
      ensures Shown(nextCell) == Shown(unit) + [curCell]
      ensures forall i | 0 <= i < |Shown(unit)| :: Shown(unit)[i] < curCell
    {
      UnitShowsPick(cells, unit, angle);
      AlignedStep(cells, startCell, unit, angle);
      ChosenSplit(cells, startCell, unit, nextCell, angle);
      ChosenCellsAscend(cells, startCell, unit, angle);
    }

    /** Since the chapter ends with a unit, it does not matter which cell of it is tested. */
    lemma ChapterEndsAtUnit()
      requires GoodChain() && Positioned()
      ensures curCell >= endCell <==> unit >= endCell
      ensures unit < endCell ==> nextCell <= endCell
    {
      UnitShowsPick(cells, unit, angle);
      if unit < endCell {
        AlignedCompare(cells, startCell, unit, endCell, angle);
      }
    }

    /** The cell transitions of `handle_DSI`. */
    method HandleDsi(dsi: Dsi) returns (kind: DsiType, size: nat, nextBlock: nat)
      requires GoodChain() && Positioned()
      modifies this
      ensures kind.EofTitle? <==> EndOfCell(dsi, cells[old(curCell)]) && old(nextCell) == |cells|
      ensures kind.EofChapter? <==> EndOfCell(dsi, cells[old(curCell)]) && endCell <= old(nextCell) < |cells|
      ensures if EndOfCell(dsi, cells[old(curCell)]) && old(nextCell) < |cells|
              then unit == old(nextCell) && Positioned() && nextBlock == cells[curCell].first
              else unit == old(unit) && curCell == old(curCell) && nextCell == old(nextCell)
      ensures kind.EofTitle? ==> nextBlock == 0
      ensures !EndOfCell(dsi, cells[old(curCell)]) ==>
                nextBlock == if angle > 1 then dsi.interleaved.0 else NextBlock(dsi)
      ensures size == if !EndOfCell(dsi, cells[old(curCell)]) && angle > 1 then dsi.interleaved.1 else dsi.size
      ensures curBlock == dsi.block && visited == old(visited)
      ensures isEof == old(isEof) && gotoNextCell == old(gotoNextCell) && errno == old(errno)
      ensures Positioned() && ended == old(ended)
    {
      kind := Continue;
      curBlock := dsi.block;
      size := dsi.size;
      nextBlock := NextBlock(dsi);
      var endOfCell := EndOfCell(dsi, cells[curCell]);
      UnitShowsPick(cells, unit, angle);
      if !endOfCell && angle > 1 {
        nextBlock, size := dsi.interleaved.0, dsi.interleaved.1;
      } else if endOfCell {
        if nextCell >= |cells| {
          nextBlock := 0;
          kind := EofTitle;
        } else {
          NextUnitStarts();
          unit := nextCell;
          curCell := nextCell;
          EnterUnit();
          ChapterEndsAtUnit();
          if curCell >= endCell {
            kind := EofChapter;
          }
          nextBlock := cells[curCell].first;
        }
      }
    }

    /** The first call after opening or rewinding. */
    method BeginWalk()
      requires Valid() && gotoNextCell
      modifies this
      ensures Valid() && !gotoNextCell && !isEof && !ended && !errno
      ensures unit == startCell && visited == [] && curBlock == cells[curCell].first
      ensures curCell == Pick(cells, startCell, angle) && nextCell == NextUnit(cells, startCell)
    {
      gotoNextCell := false;
      curCell := nextCell;
      EnterUnit();
      unit := startCell;
      curBlock := cells[curCell].first;
    }

    /** Size in blocks of the data that follows a navigation packet. */
    function DataSize(dsi: Dsi, cell: Cell): nat {
      if !EndOfCell(dsi, cell) && angle > 1 then dsi.interleaved.1 else dsi.size
    }

    /** Where the next VOBU starts, `entered` being the cell then current. */
    function NextBlockOf(dsi: Dsi, cell: Cell, next: nat, entered: nat): nat {
      if !EndOfCell(dsi, cell) then (if angle > 1 then dsi.interleaved.0 else NextBlock(dsi))
      else if next < |cells| && entered < |cells| then cells[entered].first
      else 0
    }

    /** The reader stands at the next VOBU of unit `at`, or at the start of the unit that
        follows if the cell has ended; behind the last one there is nowhere to go. */
    ghost predicate AdvancedTo(dsi: Dsi, cell: Cell, at: nat, next: nat)
      reads this
    {
      && !gotoNextCell
      && unit == (if EndOfCell(dsi, cell) && next < |cells| then next else at)
      && curBlock == NextBlockOf(dsi, cell, next, curCell)
    }

    /** Reads a VOBU and finds out where to go next. */
    method FetchVobu(dsi: Dsi, dataRead: bool) returns (ok: bool, atEnd: bool, nextBlock: nat)
      requires GoodChain() && Positioned() && !gotoNextCell
      modifies this
      ensures GoodChain() && Positioned() && !gotoNextCell
      ensures visited == old(visited) && isEof == old(isEof) && ended == old(ended)
      ensures ok <==> dataRead && DataSize(dsi, cells[old(curCell)]) < 1024
      ensures errno == (!ok || old(errno))
      ensures !ok ==> curBlock == if DataSize(dsi, cells[old(curCell)]) < 1024
                                  then ToU32(dsi.block + 1) else dsi.block
      ensures unit == if EndOfCell(dsi, cells[old(curCell)]) && old(nextCell) < |cells|
                      then old(nextCell) else old(unit)
      ensures nextBlock == NextBlockOf(dsi, cells[old(curCell)], old(nextCell), curCell)
      ensures atEnd <==> EndOfCell(dsi, cells[old(curCell)]) && old(nextCell) >= Bound()
    {
      ok, nextBlock := false, 0;
      NextUnitStarts();
      var kind, size;
      kind, size, nextBlock := HandleDsi(dsi);
      atEnd := (kind != Continue && !fullTitle) || kind == EofTitle;
      if size >= 1024 {
        errno := true;
        return;
      }
      curBlock := ToU32(curBlock + 1);
      if !dataRead {
        errno := true;
        return;
      }
      ok := true;
    }

    /** Reads the VOBU at `curBlock` and moves on. */
    method ReadHere(dsi: Dsi, dataRead: bool) returns (ok: bool)
      requires Valid() && !gotoNextCell
      modifies this
      ensures Valid()
      ensures ok <==> dataRead && DataSize(dsi, cells[old(curCell)]) < 1024
      ensures ok ==> errno == old(errno) && AdvancedTo(dsi, cells[old(curCell)], old(unit), old(nextCell))
      ensures ok ==> (isEof <==> old(isEof) || (EndOfCell(dsi, cells[old(curCell)]) && old(nextCell) >= Bound()))
      ensures visited == if ok && !old(errno) && !old(ended) then Shown(old(nextCell)) else old(visited)
      ensures !ok ==> errno && isEof == old(isEof)
      ensures ended ==> old(ended) || isEof
      ensures !ok ==> curBlock == if DataSize(dsi, cells[old(curCell)]) < 1024
                                  then ToU32(dsi.block + 1) else dsi.block
    {
      NextUnitStarts();
      ChapterEndsAtUnit();
      ghost var c, sound := curCell, !errno && !ended;
      if sound {
        MarkedOnce(visited, Shown(unit), Shown(nextCell), c);
      }
      var atEnd, nextBlock;
      ok, atEnd, nextBlock := FetchVobu(dsi, dataRead);
      if !ok {
        return;
      }
      if sound {
        visited := Marked(visited, c);
      }
      curBlock := nextBlock;
      if atEnd {
        isEof := true;
        ended := ended || sound;
      }
    }

    /** The distance to the next VOBU, of which the top bit is not part. */
    ghost function WithoutTopBit(x: nat): nat {
      if x < 0x8000_0000 then x else x - 0x8000_0000
    }

    /** Without interleaving, in sector numbers: a VOBU whose successor starts before the last
        sector of the cell is followed by that one; one that is marked as the last, or whose
        successor starts at or behind that sector, by the unit that follows. */
    lemma StepsThrough(dsi: Dsi, cell: Cell, at: nat, next: nat)
      requires AdvancedTo(dsi, cell, at, next) && Positioned() && angle <= 1
      requires dsi.nextVobu < 0x1_0000_0000 && dsi.block + WithoutTopBit(dsi.nextVobu) < 0x1_0000_0000
      ensures if dsi.nextVobu != 0x3fff_ffff && dsi.block + WithoutTopBit(dsi.nextVobu) < cell.last then
                unit == at && curBlock == dsi.block + WithoutTopBit(dsi.nextVobu)
              else if next < |cells| then
                unit == next && curBlock == cells[Pick(cells, next, angle)].first
              else
                unit == at && curBlock == 0
    {
      UnitShowsPick(cells, unit, angle);
    }

    /** The unit and cell the next call reads from, and the unit that follows. */
    ghost function UnitDue(): nat
      reads this
    {
      if gotoNextCell then startCell else unit
    }

    ghost function CellDue(): nat
      requires startCell < |cells|
      reads this
    {
      if gotoNextCell then Pick(cells, startCell, angle) else curCell
    }

    ghost function UnitAfter(): nat
      requires startCell < |cells|
      reads this
    {
      if gotoNextCell then NextUnit(cells, startCell) else nextCell
    }

    /** There is a block left to read in the cell. */
    ghost predicate HasBlock()
      requires startCell < |cells|
      reads this
    {
      CellDue() < |cells| &&
      (if gotoNextCell then cells[CellDue()].first else curBlock) < cells[CellDue()].last
    }

    /** `readio` up to the demultiplexer: the next VOBU, unless the cell has no block left or a
        read fails. It may be called at any time, also behind the end or after a failure. */
    method ReadVobu(dsi: Dsi, navRead: bool, dataRead: bool) returns (blocks: nat)
      requires Valid()
      modifies this
      ensures Valid() && (ended ==> old(ended) || isEof)
      ensures old(CellDue()) < |cells| && startCell <= old(UnitAfter()) <= |cells|
      ensures !old(HasBlock()) ==> blocks == 0 && !isEof && errno == old(errno) && visited == old(visited)
      ensures old(HasBlock()) ==>
                var cell := cells[old(CellDue())];
                if navRead && dataRead && DataSize(dsi, cell) < 1024 then
                  && errno == old(errno) && blocks == DataSize(dsi, cell)
                  && visited == (if !errno && !old(ended) then Shown(old(UnitAfter())) else old(visited))
                  && (isEof <==> old(isEof) || (EndOfCell(dsi, cell) && old(UnitAfter()) >= Bound()))
                  && AdvancedTo(dsi, cell, old(UnitDue()), old(UnitAfter()))
                else
                  errno && blocks == 0 && visited == old(visited) && isEof == old(isEof)
    {
      blocks := 0;
      if gotoNextCell {
        BeginWalk();
      }
      NextUnitStarts();
      if curBlock >= cells[curCell].last {
        isEof := false;
        return;
      }
      if !navRead {
        errno := true;
        return;
      }
      var size := DataSize(dsi, cells[curCell]);
      var ok := ReadHere(dsi, dataRead);
      if ok {
        blocks := size;
      }
    }
  }

  // ----- What the walk visits

  /** When the reader reports the end, it has read exactly the cells the angle shows, each
      once and in order, up to the end of the chapter or of the title. */
  lemma WalkIsComplete(r: Reader)
    requires r.Valid() && (r.ended || (r.isEof && !r.errno))
    ensures ShowsExactly(r.cells, r.startCell, r.Bound(), r.angle, r.visited)
  {
    ChosenCellsAscend(r.cells, r.startCell, r.Bound(), r.angle);
  }

  lemma UnitsBelow(r: Reader)
    requires r.GoodChain() && r.Positioned() && r.unit < r.Bound()
    ensures r.nextCell <= r.Bound()
  {
    r.NextUnitStarts();
    r.ChapterEndsAtUnit();
  }

  /** At any time it has read a beginning of that list. */
  lemma WalkIsInOrder(r: Reader)
    requires r.Valid() && !r.errno
    ensures r.visited <= r.Shown(r.Bound())
  {
    if !r.ended && !r.gotoNextCell {
      r.NextUnitStarts();
      UnitsBelow(r);
      ChosenSplit(r.cells, r.startCell, r.unit, r.Bound(), r.angle);
      ChosenSplit(r.cells, r.startCell, r.nextCell, r.Bound(), r.angle);
    }
  }

  lemma {:induction false} AlignedToEnd(cells: seq<Cell>, u: nat, angle: nat)
    requires u <= |cells| && WellFormed(cells, u, angle)
    ensures Aligned(cells, u, |cells|)
    decreases |cells| - u
  {
    if u < |cells| {
      UnitShowsPick(cells, u, angle);
      AlignedToEnd(cells, NextUnit(cells, u), angle);
    }
  }

  /** What the directory predicts for the first angle is what its reader delivers: the sizes
      and durations are summed over exactly the cells read up to the end. */
  lemma PredictionMatchesWalk(r: Reader)
    requires r.Valid() && r.isEof && !r.errno && r.angle == 0
    ensures r.visited == CountedCells(r.cells, r.startCell, r.Bound())
  {
    if r.fullTitle {
      AlignedToEnd(r.cells, r.startCell, r.angle);
    }
    CountedAreShown(r.cells, r.startCell, r.Bound(), r.angle);
  }

  // ----- What the walk delivers

  /** The navigation data on the disc, by sector. */
  type Disc = nat -> Dsi

  /** From sector `b` on, a cell that ends at sector `last` is a chain of VOBUs: each tells its own
      position and how far on the next one is, and the last one is marked or points behind. */
  ghost predicate Chained(disc: Disc, b: nat, last: nat)
    decreases last - b
  {
    var v := disc(b);
    && b < last < U32 && v.block == b && v.size < 1024 && 0 < v.nextVobu < 0x8000_0000
    && b + v.nextVobu < U32
    && (v.nextVobu != 0x3fff_ffff && b + v.nextVobu < last ==> Chained(disc, b + v.nextVobu, last))
  }

  /** The reference: the sectors at which the VOBUs of a cell start, in order. */
  ghost function Vobus(disc: Disc, b: nat, last: nat): seq<nat>
    requires Chained(disc, b, last)
    decreases last - b
  {
    var n := disc(b).nextVobu;
    [b] + if n != 0x3fff_ffff && b + n < last then Vobus(disc, b + n, last) else []
  }

  ghost predicate AllChained(disc: Disc, cells: seq<Cell>) {
    forall i | 0 <= i < |cells| :: Chained(disc, cells[i].first, cells[i].last)
  }

  /** The VOBUs of the cells listed, cell by cell. */
  ghost function VobusOf(disc: Disc, cells: seq<Cell>, picks: seq<nat>): seq<nat>
    requires AllChained(disc, cells)
  {
    if picks == [] || picks[|picks| - 1] >= |cells| then []
    else
      var c := cells[picks[|picks| - 1]];
      VobusOf(disc, cells, picks[..|picks| - 1]) + Vobus(disc, c.first, c.last)
  }

  lemma Append<T>(done: seq<T>, b: T, rest: seq<T>)
    ensures done + ([b] + rest) == (done + [b]) + rest
  {
  }

  lemma VobusStep(disc: Disc, done: seq<nat>, b: nat, last: nat)
    requires Chained(disc, b, last)
    ensures var n := disc(b).nextVobu;
            if n != 0x3fff_ffff && b + n < last then
              && Chained(disc, b + n, last)
              && done + Vobus(disc, b, last) == (done + [b]) + Vobus(disc, b + n, last)
            else
              done + Vobus(disc, b, last) == done + [b]
  {
    var n := disc(b).nextVobu;
    if n != 0x3fff_ffff && b + n < last {
      Append(done, b, Vobus(disc, b + n, last));
    }
  }

  /** The reader is under way: nothing has failed, and it stands at a VOBU, or at the end. */
  ghost predicate UnderWay(r: Reader)
    reads r
  {
    r.Valid() && !r.gotoNextCell && !r.errno && r.isEof == r.ended
  }

  /** One call: on to the next VOBU of the cell if there is one, else to the next unit, or to the
      end. */
  method PlayVobu(r: Reader, disc: Disc) returns (more: bool)
    requires UnderWay(r) && !r.isEof && r.angle <= 1
    requires Chained(disc, r.curBlock, r.cells[r.curCell].last)
    modifies r
    ensures UnderWay(r)
    ensures var b, n := old(r.curBlock), disc(old(r.curBlock)).nextVobu;
            && (more <==> n != 0x3fff_ffff && b + n < r.cells[old(r.curCell)].last)
            && (more ==> !r.isEof && r.unit == old(r.unit) && r.curBlock == b + n)
    ensures !more ==> (r.isEof <==> old(r.nextCell) >= r.Bound())
    ensures !more && !r.isEof ==> r.unit == old(r.nextCell) && r.curBlock == r.cells[r.curCell].first
  {
    var cell := r.cells[r.curCell];
    var v := disc(r.curBlock);
    ghost var at, next := r.unit, r.nextCell;
    more := v.nextVobu != SRI_END_OF_CELL && v.block + v.nextVobu < cell.last;
    var blocks := r.ReadVobu(v, true, true);
    r.StepsThrough(v, cell, at, next);
  }

  /** Reading on until a cell is over, one call after the other: the calls read every VOBU of the
      cell, in order and once, before the reader enters the next unit or reports the end. */
  method PlayCell(r: Reader, disc: Disc) returns (sectors: seq<nat>)
    requires UnderWay(r) && !r.isEof && r.angle <= 1 && AllChained(disc, r.cells)
    requires r.curBlock == r.cells[r.curCell].first
    modifies r
    ensures UnderWay(r)
    ensures var c := r.cells[old(r.curCell)]; sectors == Vobus(disc, c.first, c.last)
    ensures r.isEof <==> old(r.nextCell) >= r.Bound()
    ensures !r.isEof ==> r.unit == old(r.nextCell) && r.curBlock == r.cells[r.curCell].first
  {
    ghost var last := r.cells[r.curCell].last;
    ghost var whole := Vobus(disc, r.curBlock, last);
    sectors := [];
    while true
      invariant UnderWay(r) && !r.isEof && r.unit == old(r.unit)
      invariant Chained(disc, r.curBlock, last) && sectors + Vobus(disc, r.curBlock, last) == whole
      decreases last - r.curBlock
    {
      VobusStep(disc, sectors, r.curBlock, last);
      sectors := sectors + [r.curBlock];
      var more := PlayVobu(r, disc);
      if !more {
        return;
      }
    }
  }

  lemma VobusOfGrows(disc: Disc, cells: seq<Cell>, picks: seq<nat>, p: nat)
    requires AllChained(disc, cells) && p < |cells|
    ensures VobusOf(disc, cells, picks + [p]) ==
            VobusOf(disc, cells, picks) + Vobus(disc, cells[p].first, cells[p].last)
  {
    assert (picks + [p])[..|picks|] == picks;
  }

  /** One unit of the chain: the VOBUs of the cell shown, and on to the next unit or the end. */
  method PlayUnit(r: Reader, disc: Disc) returns (sectors: seq<nat>)
    requires UnderWay(r) && !r.isEof && r.angle <= 1 && AllChained(disc, r.cells)
    requires r.unit < r.Bound() && r.curBlock == r.cells[r.curCell].first
    modifies r
    ensures UnderWay(r)
    ensures !r.isEof ==> old(r.unit) < r.unit < r.Bound() && r.curBlock == r.cells[r.curCell].first
    ensures VobusOf(disc, r.cells, r.Shown(if r.isEof then r.Bound() else r.unit)) ==
            VobusOf(disc, r.cells, r.Shown(old(r.unit))) + sectors
  {
    r.NextUnitStarts();
    UnitsBelow(r);
    VobusOfGrows(disc, r.cells, r.Shown(r.unit), r.curCell);
    sectors := PlayCell(r, disc);
  }

  /** The whole walk: reading from the start until the end is reported delivers every VOBU of
      every cell the angle shows up to the end of the chapter or title, in order and once, and
      nothing else. */
  method PlayAll(r: Reader, disc: Disc) returns (sectors: seq<nat>)
    requires r.GoodChain() && r.angle <= 1 && AllChained(disc, r.cells)
    modifies r
    ensures r.Valid() && r.isEof && !r.errno
    ensures sectors == VobusOf(disc, r.cells, r.Shown(r.Bound()))
  {
    r.Rewind();
    r.BeginWalk();
    sectors := [];
    while !r.isEof
      invariant UnderWay(r)
      invariant !r.isEof ==> r.unit < r.Bound() && r.curBlock == r.cells[r.curCell].first
      invariant sectors == VobusOf(disc, r.cells, r.Shown(if r.isEof then r.Bound() else r.unit))
      decreases !r.isEof, |r.cells| - r.unit
    {
      var played := PlayUnit(r, disc);
      sectors := sectors + played;
    }
  }
}
