/** DVD program chains: which cells belong to a viewing angle, and how they are found. */
module CellWalk {
  import opened Machine

  datatype Mode = NotInBlock | FirstCell | InBlock | LastCell

  /** A cell of the program chain; `duration` is its playback time in microseconds. */
  datatype Cell = Cell(angleBlock: bool, mode: Mode, first: nat, last: nat, duration: int)

  /** The first cell at or behind `i` that ends a block, or the end of the chain. */
  function BlockEnd(cells: seq<Cell>, i: nat): (r: nat)
    requires i <= |cells|
    ensures i <= r <= |cells|
    ensures r < |cells| ==> cells[r].mode == LastCell
    ensures forall k | i <= k < r :: cells[k].mode != LastCell
    decreases |cells| - i
  {
    if i == |cells| || cells[i].mode == LastCell then i else BlockEnd(cells, i + 1)
  }

  /** A run of cells from `u` to `e` of which a player shows exactly one. */
  ghost predicate IsAngleBlock(cells: seq<Cell>, u: nat, e: nat) {
    && u < e < |cells|
    && cells[u].mode == FirstCell && cells[e].mode == LastCell
    && (forall k | u <= k <= e :: cells[k].angleBlock)
    && (forall k | u < k < e :: cells[k].mode == InBlock)
  }

  /** Where the unit (plain cell or angle block) that starts at `u` is followed by the next. */
  function NextUnit(cells: seq<Cell>, u: nat): (r: nat)
    requires u < |cells|
    ensures r > u
  {
    if cells[u].angleBlock then BlockEnd(cells, u) + 1 else u + 1
  }

  /** From `u` on the chain consists of plain cells and angle blocks with more than `angle` cells. */
  ghost predicate WellFormed(cells: seq<Cell>, u: nat, angle: nat)
    decreases |cells| - u
  {
    u == |cells| ||
    (u < |cells| &&
     if cells[u].angleBlock then
       var e := BlockEnd(cells, u);
       IsAngleBlock(cells, u, e) && u + angle <= e && WellFormed(cells, e + 1, angle)
     else
       cells[u].mode == NotInBlock && WellFormed(cells, u + 1, angle))
  }

  /** `v` is the start of a unit at or behind unit `u`, or the end of the chain. */
  ghost predicate Aligned(cells: seq<Cell>, u: nat, v: nat)
    decreases |cells| - u
  {
    u == v || (u < |cells| && NextUnit(cells, u) <= v && Aligned(cells, NextUnit(cells, u), v))
  }

  /** The cell of unit `u` that is shown. */
  function Pick(cells: seq<Cell>, u: nat, angle: nat): nat
    requires u < |cells|
  {
    if cells[u].angleBlock then u + angle else u
  }

  // ----- The reference: what a viewer of an angle has to see

  /** The first cell of the block that cell `i` is in. */
  function BlockStart(cells: seq<Cell>, i: nat): nat
    requires i < |cells|
    decreases i
  {
    if i == 0 || cells[i].mode == FirstCell then i else BlockStart(cells, i - 1)
  }

  /** A cell is shown if it is in no block, or the selected one of its block. */
  predicate Chosen(cells: seq<Cell>, i: nat, angle: nat)
    requires i < |cells|
  {
    !cells[i].angleBlock || i - BlockStart(cells, i) == angle
  }

  /** The cells from `from` to before `to` that are shown, in order. */
  function ChosenCells(cells: seq<Cell>, from: nat, to: nat, angle: nat): (r: seq<nat>)
    requires from <= to <= |cells|
    decreases |cells| - from
  {
    if from == to then []
    else (if Chosen(cells, from, angle) then [from] else []) + ChosenCells(cells, from + 1, to, angle)
  }

  ghost predicate ShowsExactly(cells: seq<Cell>, from: nat, to: nat, angle: nat, r: seq<nat>)
    requires to <= |cells|
  {
    && (forall i | 0 <= i < |r| :: from <= r[i] < to && Chosen(cells, r[i], angle))
    && (forall i, j | 0 <= i < j < |r| :: r[i] < r[j])
    && (forall c: nat | from <= c < to && Chosen(cells, c, angle) :: c in r)
  }

  lemma ShowsOneMore(cells: seq<Cell>, from: nat, to: nat, angle: nat, t: seq<nat>)
    requires from < to <= |cells| && Chosen(cells, from, angle)
    requires ShowsExactly(cells, from + 1, to, angle, t)
    ensures ShowsExactly(cells, from, to, angle, [from] + t)
  {
    var r := [from] + t;
    assert forall i | 1 <= i < |r| :: r[i] == t[i - 1];
    forall c: nat | from <= c < to && Chosen(cells, c, angle) ensures c in r {
      if c == from {
        assert r[0] == c;
      } else {
        assert c in t;
      }
    }
  }

  lemma ShowsNoMore(cells: seq<Cell>, from: nat, to: nat, angle: nat, t: seq<nat>)
    requires from < to <= |cells| && !Chosen(cells, from, angle)
    requires ShowsExactly(cells, from + 1, to, angle, t)
    ensures ShowsExactly(cells, from, to, angle, t)
  {
  }

  /** Every shown cell of the range occurs, once, and in ascending order. */
  lemma {:induction false} ChosenCellsAscend(cells: seq<Cell>, from: nat, to: nat, angle: nat)
    requires from <= to <= |cells|
    ensures ShowsExactly(cells, from, to, angle, ChosenCells(cells, from, to, angle))
    decreases |cells| - from
  {
    if from < to {
      var t := ChosenCells(cells, from + 1, to, angle);
      ChosenCellsAscend(cells, from + 1, to, angle);
      if Chosen(cells, from, angle) {
        ShowsOneMore(cells, from, to, angle, t);
      } else {
        ShowsNoMore(cells, from, to, angle, t);
      }
    }
  }

  // ----- Units and chosen cells

  lemma {:induction false} BlockStartOf(cells: seq<Cell>, u: nat, e: nat, i: nat)
    requires IsAngleBlock(cells, u, e) && u <= i <= e
    ensures BlockStart(cells, i) == u
    decreases i
  {
    if i > u {
      assert cells[i].mode != FirstCell;
      BlockStartOf(cells, u, e, i - 1);
    }
  }

  lemma ChosenAt(cells: seq<Cell>, u: nat, e: nat, i: nat, angle: nat)
    requires IsAngleBlock(cells, u, e) && u <= i <= e
    ensures Chosen(cells, i, angle) <==> i == u + angle
  {
    BlockStartOf(cells, u, e, i);
  }

  lemma {:induction false} ChosenInBlock(cells: seq<Cell>, u: nat, e: nat, i: nat, angle: nat)
    requires IsAngleBlock(cells, u, e) && u <= i <= e + 1 && u + angle <= e
    ensures ChosenCells(cells, i, e + 1, angle) == if i <= u + angle then [u + angle] else []
    decreases e + 1 - i
  {
    if i <= e {
      ChosenAt(cells, u, e, i, angle);
      ChosenInBlock(cells, u, e, i + 1, angle);
    }
  }

  lemma {:induction false} ChosenSplit(cells: seq<Cell>, from: nat, mid: nat, to: nat, angle: nat)
    requires from <= mid <= to <= |cells|
    ensures ChosenCells(cells, from, to, angle) ==
            ChosenCells(cells, from, mid, angle) + ChosenCells(cells, mid, to, angle)
    decreases |cells| - from
  {
    if from < mid {
      ChosenSplit(cells, from + 1, mid, to, angle);
    }
  }

  /** One unit shows exactly its picked cell. */
  lemma UnitShowsPick(cells: seq<Cell>, u: nat, angle: nat)
    requires u < |cells| && WellFormed(cells, u, angle)
    ensures NextUnit(cells, u) <= |cells| && WellFormed(cells, NextUnit(cells, u), angle)
    ensures Pick(cells, u, angle) < NextUnit(cells, u)
    ensures ChosenCells(cells, u, NextUnit(cells, u), angle) == [Pick(cells, u, angle)]
  {
    if cells[u].angleBlock {
      ChosenInBlock(cells, u, BlockEnd(cells, u), u, angle);
    } else {
      assert ChosenCells(cells, u + 1, u + 1, angle) == [];
    }
  }

  lemma {:induction false} AlignedStep(cells: seq<Cell>, s: nat, u: nat, angle: nat)
    requires s <= |cells| && WellFormed(cells, s, angle) && Aligned(cells, s, u) && u < |cells|
    ensures s <= u && WellFormed(cells, u, angle) && Aligned(cells, s, NextUnit(cells, u))
    decreases |cells| - s
  {
    if s != u {
      UnitShowsPick(cells, s, angle);
      AlignedStep(cells, NextUnit(cells, s), u, angle);
    }
  }

  /** Two unit starts are never inside one another's units. */
  lemma {:induction false} AlignedCompare(cells: seq<Cell>, s: nat, u: nat, v: nat, angle: nat)
    requires s <= |cells| && WellFormed(cells, s, angle)
    requires Aligned(cells, s, u) && Aligned(cells, s, v) && u < v && u < |cells|
    ensures NextUnit(cells, u) <= v
    decreases |cells| - s
  {
    if s == u {
    } else {
      UnitShowsPick(cells, s, angle);
      AlignedCompare(cells, NextUnit(cells, s), u, v, angle);
    }
  }

  // ----- Predicted size and duration

  const BLOCK_SIZE := 2048

  /** Size and duration are counted for plain cells and the first cell of each block. */
  predicate Counted(c: Cell) {
    c.mode == NotInBlock || c.mode == FirstCell
  }

  /** Bytes of a cell in the 32-bit arithmetic of its sector numbers. */
  function CellSize(c: Cell): nat {
    ToU32(ToU32(c.last - c.first) * BLOCK_SIZE)
  }

  /** Sums over the cells of the chain that are listed. */
  function SumSizes(cells: seq<Cell>, picks: seq<nat>): nat {
    if picks == [] || picks[0] >= |cells| then 0
    else CellSize(cells[picks[0]]) + SumSizes(cells, picks[1..])
  }

  function SumDurations(cells: seq<Cell>, picks: seq<nat>): int {
    if picks == [] || picks[0] >= |cells| then 0
    else cells[picks[0]].duration + SumDurations(cells, picks[1..])
  }

  function CountedCells(cells: seq<Cell>, from: nat, to: nat): seq<nat>
    requires from <= to <= |cells|
    decreases |cells| - from
  {
    if from == to then []
    else (if Counted(cells[from]) then [from] else []) + CountedCells(cells, from + 1, to)
  }

  lemma {:induction false} CountedInBlock(cells: seq<Cell>, u: nat, e: nat, i: nat, to: nat)
    requires IsAngleBlock(cells, u, e) && u < i <= e + 1 <= to <= |cells|
    ensures CountedCells(cells, i, to) == CountedCells(cells, e + 1, to)
    decreases e + 1 - i
  {
    if i <= e {
      assert !Counted(cells[i]);
      CountedInBlock(cells, u, e, i + 1, to);
    }
  }

  lemma {:induction false} WellFormedForFirstAngle(cells: seq<Cell>, u: nat, angle: nat)
    requires WellFormed(cells, u, angle)
    ensures WellFormed(cells, u, 0)
    decreases |cells| - u
  {
    if u < |cells| {
      WellFormedForFirstAngle(cells, NextUnit(cells, u), angle);
    }
  }

  /** The cells that are summed up are exactly those the first angle shows. */
  lemma {:induction false} CountedAreShown(cells: seq<Cell>, u: nat, to: nat, angle: nat)
    requires u <= to <= |cells| && WellFormed(cells, u, angle) && Aligned(cells, u, to)
    ensures CountedCells(cells, u, to) == ChosenCells(cells, u, to, 0)
    decreases |cells| - u
  {
    if u < to {
      var n := NextUnit(cells, u);
      UnitShowsPick(cells, u, angle);
      WellFormedForFirstAngle(cells, u, angle);
      UnitShowsPick(cells, u, 0);
      CountedAreShown(cells, n, to, angle);
      ChosenSplit(cells, u, n, to, 0);
      if cells[u].angleBlock {
        CountedInBlock(cells, u, BlockEnd(cells, u), u + 1, to);
      }
    }
  }

  /** Plain arithmetic sizes, for comparison. */
  function TrueSum(cells: seq<Cell>, picks: seq<nat>): int {
    if picks == [] || picks[0] >= |cells| then 0
    else (cells[picks[0]].last - cells[picks[0]].first) * BLOCK_SIZE + TrueSum(cells, picks[1..])
  }

  /** The total is right iff no counted cell has 4 GiB or more: each larger one loses multiples
      of 2^32 bytes. */
  lemma {:induction false} SizesWrapAt4GiB(cells: seq<Cell>, picks: seq<nat>)
    requires forall i | 0 <= i < |picks| :: picks[i] < |cells|
    requires forall i | 0 <= i < |picks| :: 0 <= cells[picks[i]].last - cells[picks[i]].first < U32
    ensures SumSizes(cells, picks) <= TrueSum(cells, picks)
    ensures SumSizes(cells, picks) == TrueSum(cells, picks) <==>
            forall i | 0 <= i < |picks| :: (cells[picks[i]].last - cells[picks[i]].first) * BLOCK_SIZE < U32
    decreases |picks|
  {
    if picks != [] {
      SizesWrapAt4GiB(cells, picks[1..]);
      var n := cells[picks[0]].last - cells[picks[0]].first;
      assert CellSize(cells[picks[0]]) <= n * BLOCK_SIZE;
      assert CellSize(cells[picks[0]]) == n * BLOCK_SIZE <==> n * BLOCK_SIZE < U32;
      assert forall i | 0 <= i < |picks[1..]| :: picks[1..][i] == picks[i + 1];
      assert forall i | 1 <= i < |picks| :: picks[i] == picks[1..][i - 1];
    }
  }

  lemma CountStep(cells: seq<Cell>, no: nat, to: nat)
    requires no < to <= |cells|
    ensures SumSizes(cells, CountedCells(cells, no, to)) ==
            (if Counted(cells[no]) then CellSize(cells[no]) else 0)
            + SumSizes(cells, CountedCells(cells, no + 1, to))
    ensures SumDurations(cells, CountedCells(cells, no, to)) ==
            (if Counted(cells[no]) then cells[no].duration else 0)
            + SumDurations(cells, CountedCells(cells, no + 1, to))
  {
    var rest := CountedCells(cells, no + 1, to);
    if Counted(cells[no]) {
      assert CountedCells(cells, no, to)[1..] == rest;
    } else {
      assert CountedCells(cells, no, to) == rest;
    }
  }

  /** Whether any of the cells is part of an angle block. */
  predicate HasAngles(cells: seq<Cell>, from: nat, to: nat)
    requires to <= |cells|
  {
    exists i | from <= i < to :: cells[i].angleBlock
  }

  /** The summation loop of `create_dvd_virtualfile`. */
  method PredictTotals(cells: seq<Cell>, startCell: nat, endCell: nat)
    returns (size: nat, duration: int, hasAngles: bool)
    requires startCell <= endCell <= |cells|
    ensures size == SumSizes(cells, CountedCells(cells, startCell, endCell))
    ensures duration == SumDurations(cells, CountedCells(cells, startCell, endCell))
    ensures hasAngles <==> HasAngles(cells, startCell, endCell)
  {
    size, duration, hasAngles := 0, 0, false;
    var no := startCell;
    while no < endCell
      invariant startCell <= no <= endCell
      invariant size + SumSizes(cells, CountedCells(cells, no, endCell)) ==
                SumSizes(cells, CountedCells(cells, startCell, endCell))
      invariant duration + SumDurations(cells, CountedCells(cells, no, endCell)) ==
                SumDurations(cells, CountedCells(cells, startCell, endCell))
      invariant hasAngles <==> HasAngles(cells, startCell, no)
    {
      CountStep(cells, no, endCell);
      var cell := cells[no];
      if cell.mode == NotInBlock || cell.mode == FirstCell {
        size := size + CellSize(cell);
        duration := duration + cell.duration;
      }
      if cell.angleBlock {
        hasAngles := true;
      }
      no := no + 1;
    }
  }
}
