/** The zigzag walk over a symbol and the data modules met on it. */
module QrWalk {
  import opened QrLayout
  import opened Sequences

  /** The number of two-column sweeps: one column, the timing column, belongs to none. */
  function Sweeps(size: nat): nat {
    if size == 0 then 0 else (size - 1) / 2
  }

  /** The right-hand column of a sweep; sweeps left of the timing column are shifted by one. */
  function SweepColumn(size: nat, sweep: nat): int {
    if size - 1 - 2 * sweep > 6 then size - 1 - 2 * sweep else size - 2 - 2 * sweep
  }

  /** The k-th module of a sweep: even sweeps climb, odd ones descend, right column first. */
  function SweepCell(size: nat, sweep: nat, k: nat): Cell {
    Cell(if sweep % 2 == 0 then size - 1 - k / 2 else k / 2, SweepColumn(size, sweep) - k % 2)
  }

  /** The modules seen in the first sweeps and the first k steps of the next one. */
  ghost function Walk(size: nat, sweep: nat, k: nat): seq<Cell>
    decreases sweep, k
  {
    if k > 0 then Walk(size, sweep, k - 1) + [SweepCell(size, sweep, k - 1)]
    else if sweep > 0 then Walk(size, sweep - 1, 2 * size)
    else []
  }

  /** What is left of a walk once the reserved modules are skipped. */
  ghost function Free(walk: seq<Cell>, reserved: iset<Cell>): seq<Cell> {
    if walk == [] then []
    else
      var last := walk[|walk| - 1];
      Free(walk[..|walk| - 1], reserved) + if last in reserved then [] else [last]
  }

  lemma {:induction false} FreeMembers(walk: seq<Cell>, reserved: iset<Cell>, cell: Cell)
    ensures cell in Free(walk, reserved) <==> cell in walk && cell !in reserved
  {
    if walk != [] {
      var init, last := walk[..|walk| - 1], walk[|walk| - 1];
      FreeMembers(init, reserved, cell);
      assert walk == init + [last];
    }
  }

  lemma {:induction false} FreeDistinct(walk: seq<Cell>, reserved: iset<Cell>)
    requires NoDuplicates(walk)
    ensures NoDuplicates(Free(walk, reserved))
  {
    if walk != [] {
      var init, last := walk[..|walk| - 1], walk[|walk| - 1];
      FreeDistinct(init, reserved);
      FreeMembers(init, reserved, last);
    }
  }

  lemma FreeStep(walk: seq<Cell>, cell: Cell, reserved: iset<Cell>)
    ensures Free(walk + [cell], reserved) == Free(walk, reserved) + if cell in reserved then [] else [cell]
  {
    assert (walk + [cell])[..|walk|] == walk;
  }

  /** The walk has seen exactly the modules of its steps so far. */
  lemma {:induction false} WalkMembers(size: nat, sweep: nat, k: nat, cell: Cell)
    requires size % 2 == 1 && size >= 9 && sweep <= Sweeps(size) && k <= 2 * size
    requires sweep == Sweeps(size) ==> k == 0
    ensures cell in Walk(size, sweep, k) <==>
      exists s: nat, j: nat | j < 2 * size && (s < sweep || (s == sweep && j < k)) :: cell == SweepCell(size, s, j)
    decreases sweep, k
  {
    if k > 0 {
      WalkMembers(size, sweep, k - 1, cell);
    } else if sweep > 0 {
      WalkMembers(size, sweep - 1, 2 * size, cell);
    }
  }

  lemma SweepCellsDiffer(size: nat, s: nat, j: nat, t: nat, k: nat)
    requires size % 2 == 1 && size >= 9 && s < Sweeps(size) && t < Sweeps(size) && j < 2 * size && k < 2 * size
    ensures SweepCell(size, s, j) == SweepCell(size, t, k) ==> s == t && j == k
  {
  }

  lemma {:induction false} WalkDistinct(size: nat, sweep: nat, k: nat)
    requires size % 2 == 1 && size >= 9 && sweep <= Sweeps(size) && k <= 2 * size
    requires sweep == Sweeps(size) ==> k == 0
    ensures NoDuplicates(Walk(size, sweep, k))
    decreases sweep, k
  {
    if k > 0 {
      WalkDistinct(size, sweep, k - 1);
      var cell := SweepCell(size, sweep, k - 1);
      WalkMembers(size, sweep, k - 1, cell);
      forall s: nat, j: nat | j < 2 * size && (s < sweep || (s == sweep && j < k - 1))
        ensures SweepCell(size, s, j) != cell
      {
        SweepCellsDiffer(size, s, j, sweep, k - 1);
      }
    } else if sweep > 0 {
      WalkDistinct(size, sweep - 1, 2 * size);
    }
  }

  /** The whole walk meets exactly the modules outside the timing column. */
  lemma WalkCovers(size: nat, cell: Cell)
    requires size % 2 == 1 && size >= 9
    ensures cell in Walk(size, Sweeps(size), 0) <==> OnGrid(size, cell) && cell.col != 6
  {
    WalkMembers(size, Sweeps(size), 0, cell);
    if OnGrid(size, cell) && cell.col != 6 {
      var s, j := SweepOf(size, cell);
      assert cell == SweepCell(size, s, j);
    }
  }

  /** The sweep and the step in it that meet a module. */
  lemma SweepOf(size: nat, cell: Cell) returns (s: nat, j: nat)
    requires size % 2 == 1 && size >= 9 && OnGrid(size, cell) && cell.col != 6
    ensures s < Sweeps(size) && j < 2 * size && SweepCell(size, s, j) == cell
  {
    s := if cell.col > 6 then (size - 1 - cell.col) / 2 else (size - 2 - cell.col) / 2;
    var dx := SweepColumn(size, s) - cell.col;
    assert 0 <= dx <= 1;
    j := 2 * (if s % 2 == 0 then size - 1 - cell.row else cell.row) + dx;
  }

  /** The data modules met in the first sweeps and k steps of the next one, in order. */
  ghost function DataCells(size: nat, reserved: iset<Cell>, sweep: nat, k: nat): seq<Cell> {
    Free(Walk(size, sweep, k), reserved)
  }

  /** One step of the walk adds its module to the data modules, unless it is reserved. */
  lemma NextDataCell(size: nat, reserved: iset<Cell>, sweep: nat, k: nat)
    requires size % 2 == 1 && size >= 9 && sweep < Sweeps(size) && k < 2 * size
    ensures var cell := SweepCell(size, sweep, k);
      && OnGrid(size, cell)
      && cell !in DataCells(size, reserved, sweep, k)
      && DataCells(size, reserved, sweep, k + 1)
         == DataCells(size, reserved, sweep, k) + if cell in reserved then [] else [cell]
  {
    var walk, cell := Walk(size, sweep, k), SweepCell(size, sweep, k);
    FreeStep(walk, cell, reserved);
    WalkDistinct(size, sweep, k + 1);
    FreeMembers(walk, reserved, cell);
    assert Walk(size, sweep, k + 1)[|walk|] == cell;
  }

  lemma StepInRow(size: nat, sweep: nat, i: nat, dx: nat)
    requires dx < 2
    ensures SweepCell(size, sweep, 2 * i + dx)
         == Cell(if sweep % 2 == 0 then size - 1 - i else i, SweepColumn(size, sweep) - dx)
  {
    assert (2 * i + dx) / 2 == i && (2 * i + dx) % 2 == dx;
  }

  /** The same step, by row and by side of the column pair. */
  lemma NextInRow(size: nat, reserved: iset<Cell>, sweep: nat, i: nat, dx: nat)
    requires size % 2 == 1 && size >= 9 && sweep < Sweeps(size) && i < size && dx < 2
    ensures var cell := Cell(if sweep % 2 == 0 then size - 1 - i else i, SweepColumn(size, sweep) - dx);
      && OnGrid(size, cell)
      && cell !in DataCells(size, reserved, sweep, 2 * i + dx)
      && DataCells(size, reserved, sweep, 2 * i + dx + 1)
         == DataCells(size, reserved, sweep, 2 * i + dx) + if cell in reserved then [] else [cell]
  {
    StepInRow(size, sweep, i, dx);
    NextDataCell(size, reserved, sweep, 2 * i + dx);
  }

  /** Whatever is reserved, the walk visits every other module, provided the column it skips is
      reserved where the module lies. */
  lemma FreeModuleIff(size: nat, reserved: iset<Cell>, cell: Cell)
    requires size % 2 == 1 && size >= 9
    requires OnGrid(size, cell) && cell.col == 6 ==> cell in reserved
    ensures cell in DataCells(size, reserved, Sweeps(size), 0) <==> OnGrid(size, cell) && cell !in reserved
  {
    FreeMembers(Walk(size, Sweeps(size), 0), reserved, cell);
    WalkCovers(size, cell);
  }

  lemma DataCellsDistinct(size: nat, reserved: iset<Cell>)
    requires size % 2 == 1 && size >= 9
    ensures NoDuplicates(DataCells(size, reserved, Sweeps(size), 0))
  {
    WalkDistinct(size, Sweeps(size), 0);
    FreeDistinct(Walk(size, Sweeps(size), 0), reserved);
  }
}
