/** The passes that lay a symbol out in place, over a matrix and a map of reserved modules. */
module QrEncoder {
  import opened QrLayout
  import opened QrWalk
  import opened QrCapacity
  import opened QrRoundTrip
  import opened QrReadBack
  import opened QrPicture
  import opened Wrappers
  import QrBits

  predicate Square(grid: Grid, size: nat) {
    grid.Length0 == size && grid.Length1 == size
  }

  /** Reserves and colours the modules whose offsets from (row, col) run from lo to hi in both
      directions, skipping those off the grid: the loop nest of both pattern passes. */
  method PaintBox(matrix: Grid, reserved: Grid, size: nat, row: int, col: int, lo: int, hi: int,
      isBlack: (int, int) -> bool)
    requires Square(matrix, size) && Square(reserved, size) && matrix != reserved
    requires lo <= hi
    modifies matrix, reserved
    ensures forall i, j | 0 <= i < size && 0 <= j < size ::
      matrix[i, j] == if lo <= i - row <= hi && lo <= j - col <= hi then isBlack(i - row, j - col)
          else old(matrix[i, j])
    ensures forall i, j | 0 <= i < size && 0 <= j < size ::
      reserved[i, j] == if lo <= i - row <= hi && lo <= j - col <= hi then true else old(reserved[i, j])
  {
    for r := lo to hi + 1
      invariant forall i, j | 0 <= i < size && 0 <= j < size ::
        matrix[i, j] == if lo <= i - row < r && lo <= j - col <= hi then isBlack(i - row, j - col)
            else old(matrix[i, j])
      invariant forall i, j | 0 <= i < size && 0 <= j < size ::
        reserved[i, j] == if lo <= i - row < r && lo <= j - col <= hi then true else old(reserved[i, j])
    {
      for c := lo to hi + 1
        invariant forall i, j | 0 <= i < size && 0 <= j < size ::
          matrix[i, j] == if (lo <= i - row < r && lo <= j - col <= hi) || (i - row == r && lo <= j - col < c)
                          then isBlack(i - row, j - col) else old(matrix[i, j])
        invariant forall i, j | 0 <= i < size && 0 <= j < size ::
          reserved[i, j] == if (lo <= i - row < r && lo <= j - col <= hi) || (i - row == r && lo <= j - col < c)
                            then true else old(reserved[i, j])
      {
        var rr, cc := row + r, col + c;
        if rr < 0 || rr >= size || cc < 0 || cc >= size {
          continue;
        }
        reserved[rr, cc] := true;
        matrix[rr, cc] := isBlack(r, c);
      }
    }
  }

  method DrawFinder(matrix: Grid, reserved: Grid, size: nat, row: int, col: int)
    requires Square(matrix, size) && Square(reserved, size) && matrix != reserved
    modifies matrix, reserved
    ensures forall i, j | 0 <= i < size && 0 <= j < size ::
      var d := Distance(Cell(row + 3, col + 3), Cell(i, j));
      matrix[i, j] == if d <= 4 then FinderBlack(d) else old(matrix[i, j])
    ensures forall i, j | 0 <= i < size && 0 <= j < size ::
      reserved[i, j] == if Distance(Cell(row + 3, col + 3), Cell(i, j)) <= 4 then true else old(reserved[i, j])
  {
    PaintBox(matrix, reserved, size, row, col, -1, 7, (r, c) =>
      || (r >= 0 && r <= 6 && (c == 0 || c == 6))
      || (c >= 0 && c <= 6 && (r == 0 || r == 6))
      || (r >= 2 && r <= 4 && c >= 2 && c <= 4));
  }

  // ----------------------------------------------------------- what a pass leaves

  ghost predicate FindersIntact(matrix: Grid, size: nat)
    requires Square(matrix, size)
    reads matrix
  {
    forall corner: nat, i, j | corner < 3 && 0 <= i < size && 0 <= j < size ::
      var d := Distance(FinderCentre(size, corner), Cell(i, j));
      d <= 4 ==> matrix[i, j] == FinderBlack(d)
  }

  method AddFinderPatterns(matrix: Grid, reserved: Grid, size: nat)
    requires Square(matrix, size) && Square(reserved, size) && matrix != reserved
    requires size >= 21
    modifies matrix, reserved
    ensures FindersIntact(matrix, size)
    ensures forall i, j | 0 <= i < size && 0 <= j < size ::
      !InFinder(size, Cell(i, j)) ==> matrix[i, j] == old(matrix[i, j])
    ensures forall i, j | 0 <= i < size && 0 <= j < size ::
      reserved[i, j] == if InFinder(size, Cell(i, j)) then true else old(reserved[i, j])
  {
    DrawFinder(matrix, reserved, size, 0, 0);
    DrawFinder(matrix, reserved, size, 0, size - 7);
    DrawFinder(matrix, reserved, size, size - 7, 0);
  }

  /** The rounded-up quotient, made even. */
  method ComputeAlignmentStep(version: nat, first: int, last: int, count: nat) returns (step: int)
    requires version >= 2 && first == 6 && last == Size(version) - 7 && count == version / 7 + 2
    ensures step == AlignmentStep(version)
  {
    step := 0;
    if count > 2 {
      step := (last - first + count - 2) / (count - 1);
      if step % 2 == 1 {
        step := step + 1;
      }
    }
  }

  method ComputeAlignmentPositions(version: nat, size: nat) returns (positions: seq<int>)
    requires version >= 1 && size == Size(version)
    ensures positions == AlignmentPositions(version)
  {
    if version == 1 {
      return [];
    }
    var last, first := size - 7, 6;
    var count := version / 7 + 2;
    var step := ComputeAlignmentStep(version, first, last, count);
    positions := [first];
    for i := 1 to count - 1
      invariant |positions| == i
      invariant forall k | 0 <= k < i :: positions[k] == AlignmentPosition(version, k)
    {
      positions := positions + [last - step * (count - 1 - i)];
    }
    LastPosition(version);
    positions := positions + [last];
  }

  method DrawAlignment(matrix: Grid, reserved: Grid, size: nat, row: int, col: int)
    requires Square(matrix, size) && Square(reserved, size) && matrix != reserved
    modifies matrix, reserved
    ensures forall i, j | 0 <= i < size && 0 <= j < size ::
      var d := Distance(Cell(row, col), Cell(i, j));
      matrix[i, j] == if d <= 2 then d != 1 else old(matrix[i, j])
    ensures forall i, j | 0 <= i < size && 0 <= j < size ::
      reserved[i, j] == if Distance(Cell(row, col), Cell(i, j)) <= 2 then true else old(reserved[i, j])
  {
    PaintBox(matrix, reserved, size, row, col, -2, 2, (r, c) =>
      r == -2 || r == 2 || c == -2 || c == 2 || (r == 0 && c == 0));
  }

  method AddTimingPatterns(matrix: Grid, reserved: Grid, size: nat)
    requires Square(matrix, size) && Square(reserved, size) && matrix != reserved
    requires size >= 21
    modifies matrix, reserved
    ensures forall i, j | 0 <= i < size && 0 <= j < size ::
      matrix[i, j] == if OnTiming(size, Cell(i, j)) then (i + j) % 2 == 0 else old(matrix[i, j])
    ensures forall i, j | 0 <= i < size && 0 <= j < size ::
      reserved[i, j] == if OnTiming(size, Cell(i, j)) then true else old(reserved[i, j])
  {
    for i := 8 to size - 8
      invariant forall r, c | 0 <= r < size && 0 <= c < size ::
        matrix[r, c] == if (r == 6 && 8 <= c < i) || (c == 6 && 8 <= r < i) then (r + c) % 2 == 0 else old(matrix[r, c])
      invariant forall r, c | 0 <= r < size && 0 <= c < size ::
        reserved[r, c] == if (r == 6 && 8 <= c < i) || (c == 6 && 8 <= r < i) then true else old(reserved[r, c])
    {
      reserved[6, i] := true;
      matrix[6, i] := i % 2 == 0;
      reserved[i, 6] := true;
      matrix[i, 6] := i % 2 == 0;
    }
  }

  method AddDarkModule(matrix: Grid, reserved: Grid, version: nat)
    requires Square(matrix, Size(version)) && Square(reserved, Size(version)) && matrix != reserved
    modifies matrix, reserved
    ensures forall i, j | 0 <= i < Size(version) && 0 <= j < Size(version) ::
      matrix[i, j] == (Cell(i, j) == DarkModule(version) || old(matrix[i, j]))
    ensures forall i, j | 0 <= i < Size(version) && 0 <= j < Size(version) ::
      reserved[i, j] == (Cell(i, j) == DarkModule(version) || old(reserved[i, j]))
  {
    var row := 4 * version + 9;
    matrix[row, 8] := true;
    reserved[row, 8] := true;
  }

  // ----------------------------------------------------------- alignment patterns

  /** The centre at positions (a, b), unless a finder occupies it. */
  ghost function CentreAt(version: nat, a: nat, b: nat): set<Cell>
    requires version >= 2
  {
    var cell := Cell(AlignmentPosition(version, a), AlignmentPosition(version, b));
    if InFinder(Size(version), cell) then {} else {cell}
  }

  /** The centres reached by the first a rows of the double loop and b columns of the next one. */
  ghost function CentresUpTo(version: nat, a: nat, b: nat): set<Cell>
    requires version >= 2
    decreases a, b
  {
    if b > 0 then CentresUpTo(version, a, b - 1) + CentreAt(version, a, b - 1)
    else if a > 0 then CentresUpTo(version, a - 1, version / 7 + 2)
    else {}
  }

  /** Membership in the loop's set, by the round in which the centre was reached. */
  lemma {:induction false} ReachedCentre(version: nat, a: nat, b: nat, cell: Cell)
    requires version >= 2 && b <= version / 7 + 2
    ensures cell in CentresUpTo(version, a, b) <==> Reached(version, a, b, cell)
    decreases a, b
  {
    if b > 0 {
      ReachedCentre(version, a, b - 1, cell);
      OneMoreRound(version, a, b - 1, cell, CentreAt(version, a, b - 1));
    } else if a > 0 {
      ReachedCentre(version, a - 1, version / 7 + 2, cell);
    }
  }

  ghost predicate Reached(version: nat, a: nat, b: nat, cell: Cell)
    requires version >= 2
  {
    exists i: nat, j: nat | j < version / 7 + 2 && (i < a || (i == a && j < b)) :: cell in CentreAt(version, i, j)
  }

  lemma OneMoreRound(version: nat, a: nat, b: nat, cell: Cell, here: set<Cell>)
    requires version >= 2 && b < version / 7 + 2 && here == CentreAt(version, a, b)
    ensures Reached(version, a, b + 1, cell) <==> Reached(version, a, b, cell) || cell in here
  {
    if Reached(version, a, b + 1, cell) && cell !in here {
      var i: nat, j: nat :| j < version / 7 + 2 && (i < a || (i == a && j < b + 1)) && cell in CentreAt(version, i, j);
      assert i != a || j != b;
    }
  }

  lemma NextCentre(version: nat, a: nat, b: nat)
    requires 2 <= version <= 40 && a < version / 7 + 2 && b < version / 7 + 2
    ensures var next := Cell(AlignmentPosition(version, a), AlignmentPosition(version, b));
      && OnGrid(Size(version), next)
      && forall p | p in CentresUpTo(version, a, b) :: Distance(p, next) > 4
  {
    var next := Cell(AlignmentPosition(version, a), AlignmentPosition(version, b));
    var positions := AlignmentPositions(version);
    assert positions[a] == next.row && positions[b] == next.col;
    PositionRange(version, next.row);
    PositionRange(version, next.col);
    forall p | p in CentresUpTo(version, a, b)
      ensures Distance(p, next) > 4
    {
      ReachedCentre(version, a, b, p);
      var i: nat, j: nat :| j < version / 7 + 2 && (i < a || (i == a && j < b)) && p in CentreAt(version, i, j);
      if i < a {
        PositionsSpread(version, i, a);
      } else {
        PositionsSpread(version, j, b);
      }
    }
  }

  lemma AllCentres(version: nat)
    requires version >= 2
    ensures CentresUpTo(version, version / 7 + 2, 0) == AlignmentCentres(version)
  {
    var n, positions := version / 7 + 2, AlignmentPositions(version);
    forall cell
      ensures cell in CentresUpTo(version, n, 0) <==> cell in AlignmentCentres(version)
    {
      ReachedCentre(version, n, 0, cell);
      if cell in AlignmentCentres(version) {
        var a: nat :| a < n && positions[a] == cell.row;
        var b: nat :| b < n && positions[b] == cell.col;
        assert cell in CentreAt(version, a, b);
      }
      if cell in CentresUpTo(version, n, 0) {
        var a: nat, b: nat :| a < n && b < n && cell in CentreAt(version, a, b);
        assert positions[a] == cell.row && positions[b] == cell.col;
      }
    }
  }

  ghost function Marked(reserved: Grid, size: nat): iset<Cell>
    requires Square(reserved, size)
    reads reserved
  {
    iset cell: Cell | OnGrid(size, cell) && reserved[cell.row, cell.col]
  }

  ghost function Black(matrix: Grid, size: nat): iset<Cell>
    requires Square(matrix, size)
    reads matrix
  {
    iset cell: Cell | OnGrid(size, cell) && matrix[cell.row, cell.col]
  }

  /** What is reserved once the patterns around these centres are drawn. */
  ghost function ReservedWith(size: nat, drawn: set<Cell>): iset<Cell> {
    iset cell: Cell | OnGrid(size, cell) && (InFinder(size, cell) || Covered(drawn, cell))
  }

  /** The picture with these patterns drawn over what was there before. */
  ghost function Painted(size: nat, before: iset<Cell>, drawn: set<Cell>): iset<Cell> {
    iset cell: Cell | OnGrid(size, cell) && if Covered(drawn, cell) then AlignmentMarks(drawn, cell) else cell in before
  }

  lemma CoveredByOneMore(drawn: set<Cell>, next: Cell, cell: Cell)
    ensures Covered(drawn + {next}, cell) <==> Covered(drawn, cell) || Distance(next, cell) <= 2
    ensures AlignmentMarks(drawn + {next}, cell) <==> AlignmentMarks(drawn, cell) || Distance(next, cell) in {0, 2}
  {
    assert next in drawn + {next};
  }

  lemma FarFromCentre(drawn: set<Cell>, next: Cell, cell: Cell)
    requires (forall p | p in drawn :: Distance(p, next) > 4) && Distance(next, cell) <= 2
    ensures !Covered(drawn, cell) && !AlignmentMarks(drawn, cell)
  {
  }

  method DrawUnlessReserved(matrix: Grid, reserved: Grid, size: nat, row: int, col: int,
      ghost drawn: set<Cell>, ghost before: iset<Cell>)
    requires Square(matrix, size) && Square(reserved, size) && matrix != reserved
    requires OnGrid(size, Cell(row, col))
    requires Marked(reserved, size) == ReservedWith(size, drawn) && Black(matrix, size) == Painted(size, before, drawn)
    requires forall p | p in drawn :: Distance(p, Cell(row, col)) > 4
    modifies matrix, reserved
    ensures var now := drawn + if InFinder(size, Cell(row, col)) then {} else {Cell(row, col)};
      Marked(reserved, size) == ReservedWith(size, now) && Black(matrix, size) == Painted(size, before, now)
  {
    ghost var next := Cell(row, col);
    FarFromCentre(drawn, next, next);
    assert reserved[row, col] <==> next in Marked(reserved, size);
    if reserved[row, col] {
      assert drawn + {} == drawn;
      return;
    }
    ghost var marked, black := Marked(reserved, size), Black(matrix, size);
    DrawAlignment(matrix, reserved, size, row, col);
    forall cell | OnGrid(size, cell)
      ensures cell in Marked(reserved, size) <==> cell in marked || Distance(next, cell) <= 2
      ensures cell in Black(matrix, size) <==> if Distance(next, cell) <= 2 then Distance(next, cell) != 1
          else cell in black
    {
      assert cell == Cell(cell.row, cell.col);
    }
    NextPattern(size, drawn, next, before, marked, black, Marked(reserved, size), Black(matrix, size));
  }

  lemma NextPattern(size: nat, drawn: set<Cell>, next: Cell, before: iset<Cell>, marked: iset<Cell>, black: iset<Cell>,
      marked': iset<Cell>, black': iset<Cell>)
    requires marked == ReservedWith(size, drawn) && black == Painted(size, before, drawn)
    requires forall p | p in drawn :: Distance(p, next) > 4
    requires forall cell :: (cell in marked' ==> OnGrid(size, cell)) && (cell in black' ==> OnGrid(size, cell))
    requires forall cell | OnGrid(size, cell) :: cell in marked' <==> cell in marked || Distance(next, cell) <= 2
    requires forall cell | OnGrid(size, cell) ::
      cell in black' <==> if Distance(next, cell) <= 2 then Distance(next, cell) != 1 else cell in black
    ensures marked' == ReservedWith(size, drawn + {next}) && black' == Painted(size, before, drawn + {next})
  {
    forall cell
      ensures cell in marked' <==> cell in ReservedWith(size, drawn + {next})
      ensures cell in black' <==> cell in Painted(size, before, drawn + {next})
    {
      CoveredByOneMore(drawn, next, cell);
      if Distance(next, cell) <= 2 {
        FarFromCentre(drawn, next, cell);
      }
    }
  }

  /** One round of the double loop below. */
  method DrawCentre(matrix: Grid, reserved: Grid, version: nat, positions: seq<int>, a: nat, b: nat,
      ghost before: iset<Cell>)
    requires 2 <= version <= 40
    requires Square(matrix, Size(version)) && Square(reserved, Size(version)) && matrix != reserved
    requires positions == AlignmentPositions(version) && a < |positions| && b < |positions|
    requires Marked(reserved, Size(version)) == ReservedWith(Size(version), CentresUpTo(version, a, b))
    requires Black(matrix, Size(version)) == Painted(Size(version), before, CentresUpTo(version, a, b))
    modifies matrix, reserved
    ensures Marked(reserved, Size(version)) == ReservedWith(Size(version), CentresUpTo(version, a, b + 1))
    ensures Black(matrix, Size(version)) == Painted(Size(version), before, CentresUpTo(version, a, b + 1))
  {
    NextCentre(version, a, b);
    DrawUnlessReserved(matrix, reserved, Size(version), positions[a], positions[b], CentresUpTo(version, a, b), before);
  }

  lemma NothingDrawn(matrix: Grid, size: nat)
    requires Square(matrix, size)
    ensures Black(matrix, size) == Painted(size, Black(matrix, size), {})
  {
  }

  lemma NoCentres(version: nat)
    requires version < 2
    ensures AlignmentCentres(version) == {}
  {
  }

  method AddAlignmentPatterns(matrix: Grid, reserved: Grid, version: nat, size: nat)
    requires size == Size(version) && 1 <= version <= 40
    requires Square(matrix, size) && Square(reserved, size) && matrix != reserved
    requires Marked(reserved, size) == ReservedWith(size, {})
    modifies matrix, reserved
    ensures Marked(reserved, size) == ReservedWith(size, AlignmentCentres(version))
    ensures Black(matrix, size) == Painted(size, old(Black(matrix, size)), AlignmentCentres(version))
  {
    ghost var before := Black(matrix, size);
    NothingDrawn(matrix, size);
    if version < 2 {
      NoCentres(version);
      return;
    }
    var positions := ComputeAlignmentPositions(version, size);
    for a := 0 to |positions|
      invariant Marked(reserved, size) == ReservedWith(size, CentresUpTo(version, a, 0))
      invariant Black(matrix, size) == Painted(size, before, CentresUpTo(version, a, 0))
    {
      for b := 0 to |positions|
        invariant Marked(reserved, size) == ReservedWith(size, CentresUpTo(version, a, b))
        invariant Black(matrix, size) == Painted(size, before, CentresUpTo(version, a, b))
      {
        DrawCentre(matrix, reserved, version, positions, a, b, before);
      }
    }
    AllCentres(version);
  }

  // ------------------------------------------------------------------ data modules

  /** The first n bits are in the first n cells; everything else is as in the picture before. */
  ghost predicate Placed(matrix: Grid, size: nat, before: iset<Cell>, cells: seq<Cell>, bits: seq<bool>, n: nat)
    requires Square(matrix, size)
    reads matrix
  {
    && n <= |cells| && n <= |bits|
    && (forall k | 0 <= k < n :: OnGrid(size, cells[k]) && matrix[cells[k].row, cells[k].col] == bits[k])
    && (forall i, j | 0 <= i < size && 0 <= j < size && Cell(i, j) !in cells[..n] ::
      matrix[i, j] == (Cell(i, j) in before))
  }

  ghost function Min(a: nat, b: nat): nat {
    if a < b then a else b
  }

  /** One step of the walk below: the module joins the data cells unless it is reserved. */
  method PlaceModule(matrix: Grid, reserved: Grid, bits: seq<bool>, size: nat, bitIdx: nat, row: int, c: int,
      ghost before: iset<Cell>, ghost marked: iset<Cell>, ghost cells: seq<Cell>)
    returns (next: nat, ghost more: seq<Cell>)
    requires Square(matrix, size) && Square(reserved, size) && matrix != reserved
    requires OnGrid(size, Cell(row, c)) && Cell(row, c) !in cells
    requires reserved[row, c] <==> Cell(row, c) in marked
    requires bitIdx == Min(|cells|, |bits|) && Placed(matrix, size, before, cells, bits, bitIdx)
    modifies matrix
    ensures more == cells + if Cell(row, c) in marked then [] else [Cell(row, c)]
    ensures next == Min(|more|, |bits|) && Placed(matrix, size, before, more, bits, next)
  {
    next, more := bitIdx, cells;
    if c < 0 || reserved[row, c] {
      return;
    }
    more := cells + [Cell(row, c)];
    if bitIdx < |bits| {
      matrix[row, c] := bits[bitIdx];
      next := bitIdx + 1;
      assert more[..next] == more && cells[..bitIdx] == cells;
    } else {
      assert more[..next] == cells[..next];
    }
  }

  method RowsInOrder(size: nat, upward: bool) returns (rows: array<int>)
    ensures fresh(rows) && rows.Length == size
    ensures forall j | 0 <= j < size :: rows[j] == if upward then size - 1 - j else j
  {
    rows := new int[size];
    if upward {
      for i := 0 to size
        invariant forall j | 0 <= j < i :: rows[j] == size - 1 - j
      {
        rows[i] := size - 1 - i;
      }
    } else {
      for i := 0 to size
        invariant forall j | 0 <= j < i :: rows[j] == j
      {
        rows[i] := i;
      }
    }
  }

  /** The two modules of one row: the inner loop of the walk. */
  method PlaceRow(matrix: Grid, reserved: Grid, bits: seq<bool>, size: nat, start: nat, row: int, col: int,
      ghost before: iset<Cell>, ghost marked: iset<Cell>, ghost sweep: nat, ghost i: nat)
    returns (bitIdx: nat)
    requires Square(matrix, size) && Square(reserved, size) && matrix != reserved
    requires size % 2 == 1 && size >= 9 && sweep < Sweeps(size) && i < size
    requires col == SweepColumn(size, sweep) && row == if sweep % 2 == 0 then size - 1 - i else i
    requires marked == Marked(reserved, size)
    requires start == Min(|DataCells(size, marked, sweep, 2 * i)|, |bits|)
    requires Placed(matrix, size, before, DataCells(size, marked, sweep, 2 * i), bits, start)
    modifies matrix
    ensures bitIdx == Min(|DataCells(size, marked, sweep, 2 * i + 2)|, |bits|)
    ensures Placed(matrix, size, before, DataCells(size, marked, sweep, 2 * i + 2), bits, bitIdx)
  {
    bitIdx := start;
    ghost var cells := DataCells(size, marked, sweep, 2 * i);
    for dx := 0 to 2
      invariant cells == DataCells(size, marked, sweep, 2 * i + dx)
      invariant bitIdx == Min(|cells|, |bits|) && Placed(matrix, size, before, cells, bits, bitIdx)
    {
      NextInRow(size, marked, sweep, i, dx);
      bitIdx, cells := PlaceModule(matrix, reserved, bits, size, bitIdx, row, col - dx, before, marked, cells);
    }
  }

  /** One two-column sweep: the body of the outer loop below, once column 6 has been skipped. */
  method PlaceSweep(matrix: Grid, reserved: Grid, bits: seq<bool>, size: nat, start: nat, col: int, upward: bool,
      ghost before: iset<Cell>, ghost sweep: nat)
    returns (bitIdx: nat)
    requires Square(matrix, size) && Square(reserved, size) && matrix != reserved
    requires size % 2 == 1 && size >= 9 && sweep < Sweeps(size)
    requires col == SweepColumn(size, sweep) && upward == (sweep % 2 == 0)
    requires start == Min(|DataCells(size, Marked(reserved, size), sweep, 0)|, |bits|)
    requires Placed(matrix, size, before, DataCells(size, Marked(reserved, size), sweep, 0), bits, start)
    modifies matrix
    ensures bitIdx == Min(|DataCells(size, Marked(reserved, size), sweep + 1, 0)|, |bits|)
    ensures Placed(matrix, size, before, DataCells(size, Marked(reserved, size), sweep + 1, 0), bits, bitIdx)
  {
    bitIdx := start;
    ghost var marked := Marked(reserved, size);
    var rows := RowsInOrder(size, upward);
    for i := 0 to size
      modifies matrix
      invariant marked == Marked(reserved, size)
      invariant bitIdx == Min(|DataCells(size, marked, sweep, 2 * i)|, |bits|)
      invariant Placed(matrix, size, before, DataCells(size, marked, sweep, 2 * i), bits, bitIdx)
    {
      bitIdx := PlaceRow(matrix, reserved, bits, size, bitIdx, rows[i], col, before, marked, sweep, i);
    }
  }

  method PlaceData(matrix: Grid, reserved: Grid, bits: seq<bool>, size: nat)
    requires Square(matrix, size) && Square(reserved, size) && matrix != reserved
    requires size % 2 == 1 && size >= 9
    modifies matrix
    ensures var cells := DataCells(size, Marked(reserved, size), Sweeps(size), 0);
      Placed(matrix, size, old(Black(matrix, size)), cells, bits, Min(|cells|, |bits|))
  {
    ghost var marked, before := Marked(reserved, size), Black(matrix, size);
    var bitIdx, upward := 0, true;
    var col := size - 1;
    ghost var sweep := 0;
    while col >= 0
      invariant sweep <= Sweeps(size) && upward == (sweep % 2 == 0)
      invariant col == if size - 1 - 2 * sweep >= 6 then size - 1 - 2 * sweep else size - 2 - 2 * sweep
      invariant marked == Marked(reserved, size)
      invariant bitIdx == Min(|DataCells(size, marked, sweep, 0)|, |bits|)
      invariant Placed(matrix, size, before, DataCells(size, marked, sweep, 0), bits, bitIdx)
    {
      if col == 6 {
        col := col - 1;
      }
      bitIdx := PlaceSweep(matrix, reserved, bits, size, bitIdx, col, upward, before, sweep);
      upward := !upward;
      col := col - 2;
      sweep := sweep + 1;
    }
  }

  /** The picture with the mask over every module that is not reserved. */
  ghost function Masked(size: nat, marked: iset<Cell>, black: iset<Cell>): iset<Cell> {
    iset cell: Cell | OnGrid(size, cell) && ((cell in black) != (cell !in marked && MaskBit(cell)))
  }

  /** Masking twice is the identity, and reserved modules never change. */
  lemma MaskTwice(size: nat, marked: iset<Cell>, black: iset<Cell>)
    requires forall cell | cell in black :: OnGrid(size, cell)
    ensures Masked(size, marked, Masked(size, marked, black)) == black
    ensures forall cell | cell in marked :: cell in Masked(size, marked, black) <==> cell in black
  {
  }

  lemma MaskedPicture(matrix: Grid, reserved: Grid, size: nat, before: iset<Cell>)
    requires Square(matrix, size) && Square(reserved, size)
    requires forall i, j | 0 <= i < size && 0 <= j < size ::
      matrix[i, j] == ((Cell(i, j) in before) != (!reserved[i, j] && MaskBit(Cell(i, j))))
    ensures Black(matrix, size) == Masked(size, Marked(reserved, size), before)
  {
  }

  method ApplyMask(matrix: Grid, reserved: Grid, size: nat)
    requires Square(matrix, size) && Square(reserved, size) && matrix != reserved
    modifies matrix
    ensures forall i, j | 0 <= i < size && 0 <= j < size ::
      matrix[i, j] == (old(matrix[i, j]) != (!reserved[i, j] && (i + j) % 2 == 0))
    ensures Black(matrix, size) == Masked(size, Marked(reserved, size), old(Black(matrix, size)))
  {
    ghost var before := Black(matrix, size);
    for row := 0 to size
      invariant forall i, j | 0 <= i < size && 0 <= j < size ::
        matrix[i, j] == (old(matrix[i, j]) != (i < row && !reserved[i, j] && MaskBit(Cell(i, j))))
    {
      for col := 0 to size
        invariant forall i, j | 0 <= i < size && 0 <= j < size ::
          matrix[i, j] == (old(matrix[i, j]) != ((i < row || (i == row && j < col))
                                                 && !reserved[i, j] && MaskBit(Cell(i, j))))
      {
        if reserved[row, col] {
          continue;
        }
        if (row + col) % 2 == 0 {
          matrix[row, col] := !matrix[row, col];
        }
      }
    }
    MaskedPicture(matrix, reserved, size, before);
  }

  /** The first three statements of AddFormatInfo: the copy around the top left finder. */
  method AddFirstFormatCopy(matrix: Grid, size: nat, format: seq<bool>)
    requires Square(matrix, size) && size >= 21 && |format| == 15
    modifies matrix
    ensures forall k | 0 <= k < 15 :: matrix[FirstFormatCell(k).row, FirstFormatCell(k).col] == format[k]
    ensures forall r, c | 0 <= r < size && 0 <= c < size ::
      (r == 8 && c <= 8 && c != 6) || (c == 8 && r <= 8 && r != 6) || matrix[r, c] == old(matrix[r, c])
  {
    for i := 0 to 6
      invariant forall k | 0 <= k < i :: matrix[8, k] == format[k]
      invariant forall r, c | 0 <= r < size && 0 <= c < size :: (r == 8 && c < i) || matrix[r, c] == old(matrix[r, c])
    {
      matrix[8, i] := format[i];
    }
    matrix[8, 7] := format[6];
    matrix[8, 8] := format[7];
    matrix[7, 8] := format[8];
    for i := 9 to 15
      invariant forall k | 0 <= k < 9 :: matrix[FirstFormatCell(k).row, FirstFormatCell(k).col] == format[k]
      invariant forall k | 9 <= k < i :: matrix[14 - k, 8] == format[k]
      invariant forall r, c | 0 <= r < size && 0 <= c < size ::
        (r == 8 && c <= 8 && c != 6) || (c == 8 && r <= 8 && r != 6) || matrix[r, c] == old(matrix[r, c])
    {
      matrix[14 - i, 8] := format[i];
    }
  }

  /** The last two loops of AddFormatInfo: the copy split between the other two finders. */
  method AddSecondFormatCopy(matrix: Grid, size: nat, format: seq<bool>)
    requires Square(matrix, size) && size >= 21 && |format| == 15
    modifies matrix
    ensures forall k | 0 <= k < 15 :: matrix[SecondFormatCell(size, k).row, SecondFormatCell(size, k).col] == format[k]
    ensures forall r, c | 0 <= r < size && 0 <= c < size ::
      (r == 8 && c >= size - 8) || (c == 8 && r >= size - 7) || matrix[r, c] == old(matrix[r, c])
  {
    for i := 0 to 8
      invariant forall k | 14 - i < k < 15 :: matrix[8, size - 15 + k] == format[k]
      invariant forall r, c | 0 <= r < size && 0 <= c < size ::
        (r == 8 && c >= size - 8) || matrix[r, c] == old(matrix[r, c])
    {
      matrix[8, size - 1 - i] := format[14 - i];
    }
    for i := 0 to 7
      invariant forall k | 7 <= k < 15 :: matrix[8, size - 15 + k] == format[k]
      invariant forall k | 0 <= k < i :: matrix[size - 1 - k, 8] == format[k]
      invariant forall r, c | 0 <= r < size && 0 <= c < size ::
        (r == 8 && c >= size - 8) || (c == 8 && r >= size - 7) || matrix[r, c] == old(matrix[r, c])
    {
      matrix[size - 1 - i, 8] := format[i];
    }
  }

  method AddFormatInfo(matrix: Grid, size: nat)
    requires Square(matrix, size) && size >= 21
    modifies matrix
    ensures forall k | 0 <= k < 15 :: matrix[FirstFormatCell(k).row, FirstFormatCell(k).col] == FORMAT[k]
    ensures forall k | 0 <= k < 15 :: matrix[SecondFormatCell(size, k).row, SecondFormatCell(size, k).col] == FORMAT[k]
    ensures forall i, j | 0 <= i < size && 0 <= j < size ::
      InFormat(size, Cell(i, j)) || matrix[i, j] == old(matrix[i, j])
  {
    AddFirstFormatCopy(matrix, size, FORMAT);
    AddSecondFormatCopy(matrix, size, FORMAT);
  }

  // --------------------------------------------------------------- the whole symbol

  /** Every module of a pattern has the colour its pattern gives it. */
  ghost predicate PatternsIntact(matrix: Grid, version: nat)
    requires Square(matrix, Size(version))
    reads matrix
  {
    forall i, j | 0 <= i < Size(version) && 0 <= j < Size(version) && IsFunction(version, Cell(i, j)) ::
      matrix[i, j] == PatternBlack(version, Cell(i, j))
  }

  /** This colour is what the finders and the alignment patterns want of the module, if they want anything. */
  ghost predicate SquareColour(version: nat, cell: Cell, black: bool)
    requires version >= 1
  {
    && FinderColour(Size(version), cell, black)
    && forall centre | centre in AlignmentCentres(version) && Distance(centre, cell) <= 2 ::
         black == (Distance(centre, cell) != 1)
  }

  /** The finder pass, then the alignment pass, which keeps clear of the finders. */
  method AddSquarePatterns(matrix: Grid, reserved: Grid, version: nat)
    requires 1 <= version <= 40
    requires Square(matrix, Size(version)) && Square(reserved, Size(version)) && matrix != reserved
    requires forall i, j | 0 <= i < Size(version) && 0 <= j < Size(version) :: !reserved[i, j] && !matrix[i, j]
    modifies matrix, reserved
    ensures Marked(reserved, Size(version)) == ReservedWith(Size(version), AlignmentCentres(version))
    ensures Black(matrix, Size(version)) <= Marked(reserved, Size(version))
    ensures forall cell | OnGrid(Size(version), cell) ::
      SquareColour(version, cell, cell in Black(matrix, Size(version)))
  {
    ghost var size := Size(version);
    AddFinderPatterns(matrix, reserved, Size(version));
    ghost var before := Black(matrix, size);
    FindersPainted(matrix, reserved, version);
    AddAlignmentPatterns(matrix, reserved, version, Size(version));
    forall cell | OnGrid(size, cell)
      ensures SquareColour(version, cell, cell in Painted(size, before, AlignmentCentres(version)))
    {
      SquarePainted(version, cell, before);
    }
  }

  /** The finder pass, told as a picture. */
  lemma FindersPainted(matrix: Grid, reserved: Grid, version: nat)
    requires version >= 1 && Square(matrix, Size(version)) && Square(reserved, Size(version))
    requires FindersIntact(matrix, Size(version))
    requires forall i, j | 0 <= i < Size(version) && 0 <= j < Size(version) ::
      reserved[i, j] == InFinder(Size(version), Cell(i, j)) && (matrix[i, j] ==> reserved[i, j])
    ensures Marked(reserved, Size(version)) == ReservedWith(Size(version), {})
    ensures Black(matrix, Size(version)) <= ReservedWith(Size(version), {})
    ensures forall cell | OnGrid(Size(version), cell) ::
      FinderColour(Size(version), cell, cell in Black(matrix, Size(version)))
  {
  }

  ghost predicate FinderColour(size: nat, cell: Cell, black: bool) {
    forall corner: nat | corner < 3 && Distance(FinderCentre(size, corner), cell) <= 4 ::
      black == FinderBlack(Distance(FinderCentre(size, corner), cell))
  }

  lemma SquarePainted(version: nat, cell: Cell, before: iset<Cell>)
    requires 1 <= version <= 40 && OnGrid(Size(version), cell) && FinderColour(Size(version), cell, cell in before)
    ensures SquareColour(version, cell, cell in Painted(Size(version), before, AlignmentCentres(version)))
  {
    if InFinder(Size(version), cell) {
      FinderUncovered(version, cell);
    }
    forall centre | centre in AlignmentCentres(version) && Distance(centre, cell) <= 2
      ensures AlignmentMarks(AlignmentCentres(version), cell) == (Distance(centre, cell) != 1)
    {
      assert version >= 2;
      OnlyItsCentreMarks(version, centre, cell);
    }
  }

  lemma FinderUncovered(version: nat, cell: Cell)
    requires 1 <= version <= 40 && InFinder(Size(version), cell)
    ensures !Covered(AlignmentCentres(version), cell)
  {
    if Covered(AlignmentCentres(version), cell) {
      var centre :| centre in AlignmentCentres(version) && Distance(centre, cell) <= 2;
      AlignmentClear(version, centre, cell);
    }
  }

  /** The modules of the grid outside every pattern are white: nothing has been placed yet. */
  ghost predicate Blank(matrix: Grid, version: nat)
    requires Square(matrix, Size(version))
    reads matrix
  {
    forall i, j | 0 <= i < Size(version) && 0 <= j < Size(version) && !IsFunction(version, Cell(i, j)) :: !matrix[i, j]
  }

  method AddLinePatterns(matrix: Grid, reserved: Grid, version: nat)
    requires 1 <= version <= 40
    requires Square(matrix, Size(version)) && Square(reserved, Size(version)) && matrix != reserved
    requires Marked(reserved, Size(version)) == ReservedWith(Size(version), AlignmentCentres(version))
    requires Black(matrix, Size(version)) <= Marked(reserved, Size(version))
    requires forall cell | OnGrid(Size(version), cell) ::
      SquareColour(version, cell, cell in Black(matrix, Size(version)))
    modifies matrix, reserved
    ensures PatternsIntact(matrix, version)
    ensures forall i, j | 0 <= i < Size(version) && 0 <= j < Size(version) ::
      reserved[i, j] == IsFunction(version, Cell(i, j))
    ensures Blank(matrix, version)
  {
    ghost var before := Black(matrix, Size(version));
    DrawLines(matrix, reserved, version);
    LinesPainted(matrix, version, before);
    RestBlank(matrix, version, before);
    LinesReserved(reserved, version);
  }

  lemma LinesReserved(reserved: Grid, version: nat)
    requires version >= 1 && Square(reserved, Size(version))
    requires forall i, j | 0 <= i < Size(version) && 0 <= j < Size(version) ::
      reserved[i, j] == (Cell(i, j) == DarkModule(version) || OnTiming(Size(version), Cell(i, j))
                         || Cell(i, j) in ReservedWith(Size(version), AlignmentCentres(version)))
    ensures forall i, j | 0 <= i < Size(version) && 0 <= j < Size(version) ::
      reserved[i, j] == IsFunction(version, Cell(i, j))
  {
  }

  /** What the two line passes make of a colour. */
  predicate LineBlack(version: nat, cell: Cell, before: bool) {
    cell == DarkModule(version) || if OnTiming(Size(version), cell) then (cell.row + cell.col) % 2 == 0 else before
  }

  lemma LinesPainted(matrix: Grid, version: nat, before: iset<Cell>)
    requires 1 <= version <= 40 && Square(matrix, Size(version))
    requires forall cell | OnGrid(Size(version), cell) :: SquareColour(version, cell, cell in before)
    requires forall i, j | 0 <= i < Size(version) && 0 <= j < Size(version) ::
      matrix[i, j] == LineBlack(version, Cell(i, j), Cell(i, j) in before)
    ensures PatternsIntact(matrix, version)
  {
    forall i, j | 0 <= i < Size(version) && 0 <= j < Size(version) && IsFunction(version, Cell(i, j))
      ensures matrix[i, j] == PatternBlack(version, Cell(i, j))
    {
      assert SquareColour(version, Cell(i, j), Cell(i, j) in before);
      LineColour(version, Cell(i, j), Cell(i, j) in before);
    }
  }

  lemma RestBlank(matrix: Grid, version: nat, before: iset<Cell>)
    requires version >= 1 && Square(matrix, Size(version))
    requires before <= ReservedWith(Size(version), AlignmentCentres(version))
    requires forall i, j | 0 <= i < Size(version) && 0 <= j < Size(version) ::
      matrix[i, j] == LineBlack(version, Cell(i, j), Cell(i, j) in before)
    ensures Blank(matrix, version)
  {
  }

  /** The timing pass and the dark module. */
  method DrawLines(matrix: Grid, reserved: Grid, version: nat)
    requires version >= 1
    requires Square(matrix, Size(version)) && Square(reserved, Size(version)) && matrix != reserved
    modifies matrix, reserved
    ensures forall i, j | 0 <= i < Size(version) && 0 <= j < Size(version) ::
      matrix[i, j] == LineBlack(version, Cell(i, j), old(matrix[i, j]))
    ensures forall i, j | 0 <= i < Size(version) && 0 <= j < Size(version) ::
      reserved[i, j] == (Cell(i, j) == DarkModule(version) || OnTiming(Size(version), Cell(i, j))
                         || old(reserved[i, j]))
  {
    AddTimingPatterns(matrix, reserved, Size(version));
    AddDarkModule(matrix, reserved, version);
  }

  /** A module that has its colour after the finder and alignment passes has it after the two line passes. */
  lemma LineColour(version: nat, cell: Cell, before: bool)
    requires 1 <= version <= 40 && OnGrid(Size(version), cell) && IsFunction(version, cell)
    requires SquareColour(version, cell, before)
    ensures LineBlack(version, cell, before) == PatternBlack(version, cell)
  {
    if cell == DarkModule(version) {
      DarkModuleBlack(version);
    } else if OnTiming(Size(version), cell) {
      TimingDecides(version, cell);
    } else if InFinder(Size(version), cell) {
      FinderKept(version, cell, before);
    } else {
      AlignmentKept(version, cell, before);
    }
  }

  lemma FinderKept(version: nat, cell: Cell, before: bool)
    requires 1 <= version <= 40 && OnGrid(Size(version), cell) && InFinder(Size(version), cell)
    requires FinderColour(Size(version), cell, before)
    ensures before == PatternBlack(version, cell)
  {
    var size := Size(version);
    var corner: nat := if Distance(FinderCentre(size, 0), cell) <= 4 then 0
                       else if Distance(FinderCentre(size, 1), cell) <= 4 then 1 else 2;
    assert Distance(FinderCentre(size, corner), cell) <= 4;
    FinderDecides(version, corner, cell);
  }

  lemma AlignmentKept(version: nat, cell: Cell, before: bool)
    requires 1 <= version <= 40 && Covered(AlignmentCentres(version), cell) && SquareColour(version, cell, before)
    ensures before == PatternBlack(version, cell)
  {
    var centre :| centre in AlignmentCentres(version) && Distance(centre, cell) <= 2;
    assert version >= 2;
    AlignmentDecides(version, centre, cell);
  }

  /** The k-th data module, before the mask. */
  ghost predicate Carries(matrix: Grid, version: nat, bits: seq<bool>, k: nat)
    requires Square(matrix, Size(version)) && k < |DataModules(version)|
    reads matrix
  {
    var cell := DataModules(version)[k];
    OnGrid(Size(version), cell) && matrix[cell.row, cell.col] == (k < |bits| && bits[k])
  }

  /** After placement every data module holds its bit, modules beyond the stream are still white,
      and no pattern has been touched. */
  method PlaceOnBlank(matrix: Grid, reserved: Grid, version: nat, bits: seq<bool>)
    requires version >= 1
    requires Square(matrix, Size(version)) && Square(reserved, Size(version)) && matrix != reserved
    requires forall i, j | 0 <= i < Size(version) && 0 <= j < Size(version) ::
      reserved[i, j] == IsFunction(version, Cell(i, j))
    requires Blank(matrix, version)
    modifies matrix
    ensures forall i, j | 0 <= i < Size(version) && 0 <= j < Size(version) && reserved[i, j] ::
      matrix[i, j] == old(matrix[i, j])
    ensures forall k | 0 <= k < |DataModules(version)| :: Carries(matrix, version, bits, k)
  {
    assert Marked(reserved, Size(version)) == FunctionModules(version);
    ghost var before := Black(matrix, Size(version));
    PlaceData(matrix, reserved, bits, Size(version));
    PlacedKeeps(matrix, version, before, bits);
    PlacedCarries(matrix, version, before, bits);
  }

  lemma PlacedKeeps(matrix: Grid, version: nat, before: iset<Cell>, bits: seq<bool>)
    requires version >= 1 && Square(matrix, Size(version))
    requires var modules := DataModules(version);
      Placed(matrix, Size(version), before, modules, bits, Min(|modules|, |bits|))
    ensures forall i, j | 0 <= i < Size(version) && 0 <= j < Size(version) && IsFunction(version, Cell(i, j)) ::
      matrix[i, j] == (Cell(i, j) in before)
  {
    forall i, j | 0 <= i < Size(version) && 0 <= j < Size(version) && IsFunction(version, Cell(i, j))
      ensures Cell(i, j) !in DataModules(version)
    {
      DataModuleIff(version, Cell(i, j));
    }
  }

  lemma PlacedCarries(matrix: Grid, version: nat, before: iset<Cell>, bits: seq<bool>)
    requires version >= 1 && Square(matrix, Size(version))
    requires var modules := DataModules(version);
      Placed(matrix, Size(version), before, modules, bits, Min(|modules|, |bits|))
    requires forall cell | OnGrid(Size(version), cell) && !IsFunction(version, cell) :: cell !in before
    ensures forall k | 0 <= k < |DataModules(version)| :: Carries(matrix, version, bits, k)
  {
    var modules := DataModules(version);
    var n := Min(|modules|, |bits|);
    DataCellsDistinct(Size(version), FunctionModules(version));
    forall k | 0 <= k < |modules|
      ensures Carries(matrix, version, bits, k)
    {
      DataModuleIff(version, modules[k]);
      if k >= n {
        assert modules[k] !in modules[..n];
      }
    }
  }

  /** Reads the data modules in walk order and takes the mask off. */
  ghost function ReadSymbol(matrix: Grid, version: nat): seq<bool>
    requires Square(matrix, Size(version))
    reads matrix
  {
    seq(|DataModules(version)|, k requires 0 <= k < |DataModules(version)| reads matrix =>
      ReadModule(matrix, Size(version), DataModules(version)[k]))
  }

  ghost predicate ReadModule(matrix: Grid, size: nat, cell: Cell)
    requires Square(matrix, size)
    reads matrix
  {
    (OnGrid(size, cell) && matrix[cell.row, cell.col]) != MaskBit(cell)
  }

  method PlaceAndMask(matrix: Grid, reserved: Grid, version: nat, data: seq<QrBits.Byte>, bits: seq<bool>)
    requires version >= 1 && bits == QrBits.Padded(QrBits.DataBits(data), version)
    requires Square(matrix, Size(version)) && Square(reserved, Size(version)) && matrix != reserved
    requires forall i, j | 0 <= i < Size(version) && 0 <= j < Size(version) ::
      reserved[i, j] == IsFunction(version, Cell(i, j))
    requires Blank(matrix, version)
    modifies matrix
    ensures forall i, j | 0 <= i < Size(version) && 0 <= j < Size(version) && reserved[i, j] ::
      matrix[i, j] == old(matrix[i, j])
    ensures ReadSymbol(matrix, version) == SymbolBits(data, version, |DataModules(version)|)
  {
    PlaceOnBlank(matrix, reserved, version, bits);
    label placed:
    ApplyMask(matrix, reserved, Size(version));
    ghost var modules := DataModules(version);
    forall k | 0 <= k < |modules|
      ensures ReadModule(matrix, Size(version), modules[k]) == SymbolBit(data, version, k)
    {
      assert old@placed(Carries(matrix, version, bits, k));
      DataModuleIff(version, modules[k]);
    }
  }

  method NewGrid(size: nat) returns (grid: Grid)
    ensures fresh(grid) && Square(grid, size)
    ensures forall i, j | 0 <= i < size && 0 <= j < size :: !grid[i, j]
  {
    grid := new bool[size, size]((i, j) => false);
  }

  /** Everything encodeQR does up to the mask; the format info comes after. */
  method BuildSymbol(data: seq<QrBits.Byte>) returns (matrix: Grid, reserved: Grid, version: nat)
    ensures fresh(matrix) && fresh(reserved)
    ensures QrBits.IsVersionFor(version, |data|)
    ensures Square(matrix, Size(version)) && Square(reserved, Size(version)) && matrix != reserved
    ensures PatternsIntact(matrix, version)
    ensures forall i, j | 0 <= i < Size(version) && 0 <= j < Size(version) ::
      reserved[i, j] == IsFunction(version, Cell(i, j))
    ensures ReadSymbol(matrix, version) == SymbolBits(data, version, |DataModules(version)|)
    ensures Decode(ReadSymbol(matrix, version)) == Some(data) <==> Fits(data, version)
  {
    var bits := QrBits.EncodeData(data);
    version := QrBits.SelectVersion(|data|);
    var size := 17 + version * 4;
    matrix := NewGrid(size);
    reserved := NewGrid(size);
    AddSquarePatterns(matrix, reserved, version);
    AddLinePatterns(matrix, reserved, version);
    var dataBits := QrBits.AddEcc(bits, version);
    PlaceAndMask(matrix, reserved, version, data, dataBits);
    ReadBackIffFits(data, version);
  }

  /** Both copies of the format info are complete. */
  ghost predicate FormatShown(matrix: Grid, size: nat)
    requires size >= 21 && Square(matrix, size)
    reads matrix
  {
    && (forall k | 0 <= k < 15 :: matrix[FirstFormatCell(k).row, FirstFormatCell(k).col] == FORMAT[k])
    && (forall k | 0 <= k < 15 :: matrix[SecondFormatCell(size, k).row, SecondFormatCell(size, k).col] == FORMAT[k])
  }

  /** The data modules that the format info does not take hold the bits of the symbol. */
  ghost predicate RestReads(matrix: Grid, version: nat, data: seq<QrBits.Byte>)
    requires version >= 1 && Square(matrix, Size(version))
    reads matrix
  {
    forall k | 0 <= k < |DataModules(version)| && !InFormat(Size(version), DataModules(version)[k]) ::
      ReadModule(matrix, Size(version), DataModules(version)[k]) == SymbolBit(data, version, k)
  }

  /** Format info over a finished symbol: the patterns and the other data modules stay. */
  method FormatSymbol(matrix: Grid, version: nat, ghost data: seq<QrBits.Byte>)
    requires 1 <= version <= 40 && Square(matrix, Size(version))
    requires PatternsIntact(matrix, version) && RestReads(matrix, version, data)
    modifies matrix
    ensures PatternsIntact(matrix, version) && RestReads(matrix, version, data) && FormatShown(matrix, Size(version))
  {
    AddFormatInfo(matrix, Size(version));
    forall i, j | 0 <= i < Size(version) && 0 <= j < Size(version) && IsFunction(version, Cell(i, j))
      ensures matrix[i, j] == old(matrix[i, j])
    {
      if InFormat(Size(version), Cell(i, j)) {
        FormatClear(version, Cell(i, j));
      }
    }
    forall cell | OnGrid(Size(version), cell) && !InFormat(Size(version), cell)
      ensures matrix[cell.row, cell.col] == old(matrix[cell.row, cell.col])
    {
      assert cell == Cell(cell.row, cell.col);
    }
  }

  lemma UnformattedRead(matrix: Grid, version: nat, data: seq<QrBits.Byte>)
    requires version >= 1 && Square(matrix, Size(version))
    requires ReadSymbol(matrix, version) == SymbolBits(data, version, |DataModules(version)|)
    ensures RestReads(matrix, version, data)
  {
    var modules := DataModules(version);
    forall k | 0 <= k < |modules|
      ensures ReadModule(matrix, Size(version), modules[k]) == SymbolBit(data, version, k)
    {
      assert ReadSymbol(matrix, version)[k] == SymbolBits(data, version, |modules|)[k];
    }
  }

  /** Each format module shows its format bit. */
  lemma FormatColour(matrix: Grid, size: nat, cell: Cell)
    requires size >= 21 && Square(matrix, size) && InFormat(size, cell) && OnGrid(size, cell)
    requires FormatShown(matrix, size)
    ensures matrix[cell.row, cell.col] == FormatBlack(size, cell)
  {
    var k := FormatIndex(size, cell);
  }

  lemma FormattedRead(matrix: Grid, version: nat, data: seq<QrBits.Byte>)
    requires version >= 1 && Square(matrix, Size(version))
    requires FormatShown(matrix, Size(version)) && RestReads(matrix, version, data)
    ensures ReadSymbol(matrix, version) == FinalBits(data, version)
  {
    var modules := DataModules(version);
    forall k | 0 <= k < |modules|
      ensures ReadModule(matrix, Size(version), modules[k]) == FinalBit(data, version, k)
    {
      DataModuleIff(version, modules[k]);
      if InFormat(Size(version), modules[k]) {
        FormatColour(matrix, Size(version), modules[k]);
      }
    }
  }

  // ------------------------------------------------------------- the symbol in figures

  lemma PatternsInFigures(matrix: Grid, version: nat)
    requires 1 <= version <= 16 && Square(matrix, Size(version)) && PatternsIntact(matrix, version)
    ensures Sized(matrix, version)
    ensures FindersShown(matrix, version) && LinesShown(matrix, version)
    ensures AlignmentsShown(matrix, version, Positions(version))
  {
    FindersInFigures(matrix, version);
    PositionsTable(version);
    AlignmentsInFigures(matrix, version, AlignmentPositions(version));
    LinesInFigures(matrix, version);
  }

  lemma LinesInFigures(matrix: Grid, version: nat)
    requires 1 <= version <= 16 && Square(matrix, Size(version)) && PatternsIntact(matrix, version)
    ensures Sized(matrix, version) && LinesShown(matrix, version)
  {
    forall k | 8 <= k < 9 + 4 * version
      ensures matrix[6, k] == (k % 2 == 0) && matrix[k, 6] == (k % 2 == 0)
    {
      LineModule(version, k);
    }
    DarkModuleBlack(version);
    assert IsFunction(version, Cell(9 + 4 * version, 8));
  }

  /** One module of a finder zone. */
  lemma FinderShownAt(matrix: Grid, version: nat, corner: nat, r: int, c: int, row: int, col: int)
    requires 1 <= version <= 16 && Square(matrix, Size(version)) && PatternsIntact(matrix, version)
    requires corner < 3 && -1 <= r <= 7 && -1 <= c <= 7 && OnGrid(Size(version), Cell(row, col))
    requires FinderCentre(Size(version), corner) == Cell(row + 3 - r, col + 3 - c)
    ensures matrix[row, col] == FinderInk(r, c)
  {
    FinderModule(version, corner, r, c, Cell(row, col));
  }

  lemma FindersInFigures(matrix: Grid, version: nat)
    requires 1 <= version <= 16 && Square(matrix, Size(version)) && PatternsIntact(matrix, version)
    ensures Sized(matrix, version) && FindersShown(matrix, version)
  {
    FirstFinder(matrix, version);
    SecondFinder(matrix, version);
    ThirdFinder(matrix, version);
  }

  lemma FirstFinder(matrix: Grid, version: nat)
    requires 1 <= version <= 16 && Square(matrix, Size(version)) && PatternsIntact(matrix, version)
    ensures forall r, c | 0 <= r <= 7 && 0 <= c <= 7 :: matrix[r, c] == FinderInk(r, c)
  {
    forall r, c | 0 <= r <= 7 && 0 <= c <= 7
      ensures matrix[r, c] == FinderInk(r, c)
    {
      FinderShownAt(matrix, version, 0, r, c, r, c);
    }
  }

  lemma SecondFinder(matrix: Grid, version: nat)
    requires 1 <= version <= 16 && Square(matrix, Size(version)) && PatternsIntact(matrix, version)
    ensures forall r, c | 0 <= r <= 7 && -1 <= c <= 6 :: matrix[r, 10 + 4 * version + c] == FinderInk(r, c)
  {
    forall r, c | 0 <= r <= 7 && -1 <= c <= 6
      ensures matrix[r, 10 + 4 * version + c] == FinderInk(r, c)
    {
      FinderShownAt(matrix, version, 1, r, c, r, 10 + 4 * version + c);
    }
  }

  lemma ThirdFinder(matrix: Grid, version: nat)
    requires 1 <= version <= 16 && Square(matrix, Size(version)) && PatternsIntact(matrix, version)
    ensures forall r, c | -1 <= r <= 6 && 0 <= c <= 7 :: matrix[10 + 4 * version + r, c] == FinderInk(r, c)
  {
    forall r, c | -1 <= r <= 6 && 0 <= c <= 7
      ensures matrix[10 + 4 * version + r, c] == FinderInk(r, c)
    {
      FinderShownAt(matrix, version, 2, r, c, 10 + 4 * version + r, c);
    }
  }

  lemma AlignmentInFigures(matrix: Grid, version: nat, row: int, col: int, dr: int, dc: int)
    requires 2 <= version <= 16 && Square(matrix, Size(version)) && PatternsIntact(matrix, version)
    requires row in AlignmentPositions(version) && col in AlignmentPositions(version)
    requires !FinderCorner(version, row, col) && -2 <= dr <= 2 && -2 <= dc <= 2
    ensures Sized(matrix, version) && AlignmentShownAt(matrix, version, row, col, dr, dc)
  {
    AlignmentModule(version, row, col, dr, dc);
  }

  lemma AlignmentsInFigures(matrix: Grid, version: nat, positions: seq<int>)
    requires 1 <= version <= 16 && Square(matrix, Size(version)) && PatternsIntact(matrix, version)
    requires positions == AlignmentPositions(version)
    ensures Sized(matrix, version) && AlignmentsShown(matrix, version, positions)
  {
    forall a, b, dr, dc | 0 <= a < |positions| && 0 <= b < |positions|
      && !FinderCorner(version, positions[a], positions[b]) && -2 <= dr <= 2 && -2 <= dc <= 2
      ensures AlignmentShownAt(matrix, version, positions[a], positions[b], dr, dc)
    {
      AlignmentInFigures(matrix, version, positions[a], positions[b], dr, dc);
    }
  }

  lemma FormatFigures(matrix: Grid, version: nat)
    requires version >= 1 && Square(matrix, Size(version)) && FormatShown(matrix, Size(version))
    ensures Sized(matrix, version) && FormatInFigures(matrix, version)
  {
    var n := Size(version);
    assert forall k | 0 <= k < 15 :: matrix[FirstFormatCell(k).row, FirstFormatCell(k).col] == FORMAT[k];
    assert FirstFormatCell(0) == Cell(8, 0) && FirstFormatCell(1) == Cell(8, 1) && FirstFormatCell(2) == Cell(8, 2);
    assert FirstFormatCell(3) == Cell(8, 3) && FirstFormatCell(4) == Cell(8, 4) && FirstFormatCell(5) == Cell(8, 5);
    assert FirstFormatCell(6) == Cell(8, 7) && FirstFormatCell(7) == Cell(8, 8) && FirstFormatCell(8) == Cell(7, 8);
    assert FirstFormatCell(9) == Cell(5, 8) && FirstFormatCell(10) == Cell(4, 8) && FirstFormatCell(11) == Cell(3, 8);
    assert FirstFormatCell(12) == Cell(2, 8) && FirstFormatCell(13) == Cell(1, 8) && FirstFormatCell(14) == Cell(0, 8);
    SecondFormatFigures(matrix, version);
  }

  lemma SecondFormatFigures(matrix: Grid, version: nat)
    requires version >= 1 && Square(matrix, Size(version)) && FormatShown(matrix, Size(version))
    ensures var n := 17 + 4 * version;
      && matrix[n - 1, 8] && matrix[n - 2, 8] && matrix[n - 3, 8] && !matrix[n - 4, 8] && matrix[n - 5, 8]
      && matrix[n - 6, 8] && matrix[n - 7, 8]
      && matrix[8, n - 8] && matrix[8, n - 7] && !matrix[8, n - 6] && !matrix[8, n - 5] && !matrix[8, n - 4]
      && matrix[8, n - 3] && !matrix[8, n - 2] && !matrix[8, n - 1]
  {
    var n := Size(version);
    assert SecondFormatCell(n, 0) == Cell(n - 1, 8) && SecondFormatCell(n, 1) == Cell(n - 2, 8);
    assert SecondFormatCell(n, 2) == Cell(n - 3, 8) && SecondFormatCell(n, 3) == Cell(n - 4, 8);
    assert SecondFormatCell(n, 4) == Cell(n - 5, 8) && SecondFormatCell(n, 5) == Cell(n - 6, 8);
    assert SecondFormatCell(n, 6) == Cell(n - 7, 8) && SecondFormatCell(n, 7) == Cell(8, n - 8);
    assert SecondFormatCell(n, 8) == Cell(8, n - 7) && SecondFormatCell(n, 9) == Cell(8, n - 6);
    assert SecondFormatCell(n, 10) == Cell(8, n - 5) && SecondFormatCell(n, 11) == Cell(8, n - 4);
    assert SecondFormatCell(n, 12) == Cell(8, n - 3) && SecondFormatCell(n, 13) == Cell(8, n - 2);
    assert SecondFormatCell(n, 14) == Cell(8, n - 1);
  }

  /** The data modules beside the format info hold the bits of the stream, flipped where row and column
      add up to an even number. */
  ghost predicate DataShown(matrix: Grid, version: nat, data: seq<QrBits.Byte>)
    requires version >= 1 && Sized(matrix, version)
    reads matrix
  {
    forall k | 0 <= k < |DataModules(version)| ::
      var row, col := DataModules(version)[k].row, DataModules(version)[k].col;
      && 0 <= row < 17 + 4 * version && 0 <= col < 17 + 4 * version
      && (TakenByFormat(version, row, col)
          || matrix[row, col] == (InkAt(data, version, k) != ((row + col) % 2 == 0)))
  }

  predicate TakenByFormat(version: nat, row: int, col: int) {
    || (row == 8 && (col <= 8 || col >= 9 + 4 * version))
    || (col == 8 && (row <= 8 || row >= 10 + 4 * version))
  }

  /** Bit k of the padded stream; white once it is used up. */
  predicate InkAt(data: seq<QrBits.Byte>, version: nat, k: nat) {
    k < 128 * version + 128 && QrBits.Padded(QrBits.DataBits(data), version)[k]
  }

  lemma DataInFigures(matrix: Grid, version: nat, data: seq<QrBits.Byte>)
    requires version >= 1 && Square(matrix, Size(version)) && RestReads(matrix, version, data)
    ensures Sized(matrix, version) && DataShown(matrix, version, data)
  {
    var modules := DataModules(version);
    forall k | 0 <= k < |modules|
      ensures var row, col := modules[k].row, modules[k].col;
        && 0 <= row < 17 + 4 * version && 0 <= col < 17 + 4 * version
        && (TakenByFormat(version, row, col)
            || matrix[row, col] == (InkAt(data, version, k) != ((row + col) % 2 == 0)))
    {
      DataModuleIff(version, modules[k]);
    }
  }

  /** The matrix handed out: every pattern is exact, both format copies are complete, each data module
      that the format info does not take still holds its masked bit, and a reader gets the string back
      iff it survives the format info. */
  method EncodeQr(data: seq<QrBits.Byte>) returns (matrix: Grid, ghost version: nat)
    ensures fresh(matrix) && QrBits.IsVersionFor(version, |data|) && Square(matrix, Size(version))
    ensures 1 <= version <= 16 && Sized(matrix, version)
    ensures PatternsIntact(matrix, version) && FormatShown(matrix, Size(version))
    ensures FindersShown(matrix, version) && LinesShown(matrix, version)
    ensures AlignmentsShown(matrix, version, Positions(version))
    ensures FormatInFigures(matrix, version) && DataShown(matrix, version, data)
    ensures ReadSymbol(matrix, version) == FinalBits(data, version)
    ensures Decode(ReadSymbol(matrix, version)) == Some(data) <==> SurvivesFormat(data, version)
  {
    var reserved, v;
    matrix, reserved, v := BuildSymbol(data);
    version := v;
    UnformattedRead(matrix, v, data);
    FormatSymbol(matrix, v, data);
    FormattedRead(matrix, v, data);
    FinalDecodesIff(data, v);
    PatternsInFigures(matrix, v);
    FormatFigures(matrix, v);
    DataInFigures(matrix, v, data);
  }
}
