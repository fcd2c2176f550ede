/** The geometry of a symbol: which modules the fixed patterns occupy, what colour each has,
    and the zigzag order in which the data modules are visited. */
module QrLayout {
  import opened Numbers

  datatype Cell = Cell(row: int, col: int)

  function Size(version: nat): (size: nat)
    ensures size >= 17 && size % 2 == 1
  {
    OddNumber(8 + 2 * version);
    17 + 4 * version
  }

  lemma OddNumber(k: int)
    ensures (2 * k + 1) % 2 == 1
  {
  }

  predicate OnGrid(size: nat, cell: Cell) {
    0 <= cell.row < size && 0 <= cell.col < size
  }

  function Abs(x: int): nat {
    if x < 0 then -x else x
  }

  /** Rings around a centre are squares, so the distance is the larger of the two offsets. */
  function Distance(a: Cell, b: Cell): nat {
    var dr, dc := Abs(a.row - b.row), Abs(a.col - b.col);
    if dr < dc then dc else dr
  }

  // ------------------------------------------------------------ finder patterns

  /** The finder centres, one in every corner but the bottom right. */
  function FinderCentre(size: nat, corner: nat): Cell
    requires corner < 3
  {
    match corner
    case 0 => Cell(3, 3)
    case 1 => Cell(3, size - 4)
    case 2 => Cell(size - 4, 3)
  }

  /** Distance 4 is the separator around the pattern. */
  predicate InFinder(size: nat, cell: Cell) {
    || Distance(FinderCentre(size, 0), cell) <= 4
    || Distance(FinderCentre(size, 1), cell) <= 4
    || Distance(FinderCentre(size, 2), cell) <= 4
  }

  /** Black 3x3 core, white ring, black ring, white separator. */
  predicate FinderBlack(distance: nat) {
    distance <= 1 || distance == 3
  }

  // --------------------------------------------------------- alignment patterns

  /** The rounded-up even distance between neighbouring alignment centres. */
  function AlignmentStep(version: nat): nat {
    var count := version / 7 + 2;
    if count > 2 then
      var step := (4 * version + 4 + count - 2) / (count - 1);
      if step % 2 == 1 then step + 1 else step
    else 0
  }

  function AlignmentPosition(version: nat, i: nat): int {
    if i == 0 then 6 else Size(version) - 7 - AlignmentStep(version) * (version / 7 + 1 - i)
  }

  function AlignmentPositions(version: nat): seq<int> {
    if version < 2 then [] else seq(version / 7 + 2, i requires 0 <= i => AlignmentPosition(version, i))
  }

  lemma StepBounds(version: nat)
    requires version >= 2
    ensures AlignmentStep(version) <= 28 && AlignmentStep(version) % 2 == 0
    ensures version >= 7 ==> AlignmentStep(version) >= 14
  {
    var k := version / 7;
    if k >= 1 {
      RawStepBounds(version, k);
    }
  }

  /** The quotient before it is made even. */
  lemma RawStepBounds(version: nat, k: nat)
    requires k >= 1 && 7 * k <= version < 7 * k + 7
    ensures 14 <= (4 * version + 4 + k) / (k + 1) <= 28
  {
    QuotientBetween(4 * version + 4 + k, k + 1, 14, 28);
  }

  /** Two positions after the first are a whole number of steps apart. */
  lemma PositionsApart(version: nat, i: nat, j: nat)
    requires version >= 2 && 1 <= i <= j <= version / 7 + 1
    ensures AlignmentPosition(version, j) - AlignmentPosition(version, i) == AlignmentStep(version) * (j - i)
  {
    var step, k := AlignmentStep(version), version / 7;
    assert step * (k + 1 - i) == step * (k + 1 - j) + step * (j - i);
  }

  /** The step never eats up the whole line: the first inner centre stays clear of the timing line. */
  lemma FirstGap(version: nat)
    requires version >= 2
    ensures AlignmentPosition(version, 1) >= 10
  {
    StepBounds(version);
    var step, k := AlignmentStep(version), version / 7;
    assert step * k <= 28 * k;
  }

  lemma PositionEven(version: nat, i: nat)
    requires version >= 2 && i <= version / 7 + 1
    ensures AlignmentPosition(version, i) % 2 == 0
  {
    if i > 0 {
      StepBounds(version);
      EvenFrom(4 * version + 10, AlignmentStep(version), version / 7 + 1 - i);
    }
  }

  lemma EvenFrom(a: int, step: nat, n: int)
    requires a % 2 == 0 && step % 2 == 0
    ensures (a - step * n) % 2 == 0
  {
    var half := step / 2;
    assert step * n == 2 * (half * n) by {
      assert step == 2 * half;
    }
    EvenDifference(a, half * n);
  }

  lemma EvenDifference(a: int, m: int)
    requires a % 2 == 0
    ensures (a - 2 * m) % 2 == 0
  {
  }

  lemma StepsGrow(step: nat, n: nat)
    ensures step * n >= 0
    ensures n >= 1 ==> step * n >= step
  {
  }

  lemma PositionsOrdered(version: nat, i: nat, j: nat)
    requires version >= 2 && i < j <= version / 7 + 1
    ensures AlignmentPosition(version, i) < AlignmentPosition(version, j)
  {
    if i > 0 {
      StepBounds(version);
      PositionsApart(version, i, j);
      StepsGrow(AlignmentStep(version), j - i);
    } else {
      FirstGap(version);
      PositionsApart(version, 1, j);
      StepsGrow(AlignmentStep(version), j - 1);
    }
  }

  /** For every version from 2 upwards the centres are even, strictly increasing, start on the
      timing line and end in the corner opposite the missing finder. */
  lemma PositionsIncrease(version: nat)
    requires version >= 2
    ensures var p := AlignmentPositions(version);
      && |p| == version / 7 + 2
      && p[0] == 6 && p[|p| - 1] == Size(version) - 7
      && (forall i :: 0 <= i < |p| ==> p[i] % 2 == 0)
      && (forall i, j :: 0 <= i < j < |p| ==> p[i] < p[j])
  {
    var p := AlignmentPositions(version);
    forall i | 0 <= i < |p|
      ensures p[i] % 2 == 0
    {
      PositionEven(version, i);
    }
    forall i, j | 0 <= i < j < |p|
      ensures p[i] < p[j]
    {
      PositionsOrdered(version, i, j);
    }
  }

  /** Up to version 40 neighbouring centres are far enough apart for their patterns not to touch. */
  lemma PositionsSpread(version: nat, i: nat, j: nat)
    requires 2 <= version <= 40 && i < j <= version / 7 + 1
    ensures AlignmentPosition(version, j) - AlignmentPosition(version, i) >= 12
  {
    var step, k := AlignmentStep(version), version / 7;
    StepBounds(version);
    if i > 0 {
      PositionsApart(version, i, j);
      StepsGrow(step, j - i);
    } else {
      assert k == 0 || k == 1 || k == 2 || k == 3 || k == 4 || k == 5;
      assert AlignmentPosition(version, 1) - 6 >= 12;
      PositionsApart(version, 1, j);
      StepsGrow(step, j - 1);
    }
  }

  /** The centres that get a pattern: all pairs of positions outside the finder zones. */
  ghost function AlignmentCentres(version: nat): set<Cell> {
    set row, col | row in AlignmentPositions(version) && col in AlignmentPositions(version)
      && !InFinder(Size(version), Cell(row, col)) :: Cell(row, col)
  }

  ghost predicate Covered(centres: set<Cell>, cell: Cell) {
    exists centre | centre in centres :: Distance(centre, cell) <= 2
  }

  // ------------------------------------------------------- timing and dark module

  predicate OnTiming(size: nat, cell: Cell) {
    || (cell.row == 6 && 8 <= cell.col < size - 8)
    || (cell.col == 6 && 8 <= cell.row < size - 8)
  }

  function DarkModule(version: nat): Cell {
    Cell(4 * version + 9, 8)
  }

  // ------------------------------------------------------------ the whole layout

  /** The modules taken by a fixed pattern; the data stream flows around them. */
  ghost predicate IsFunction(version: nat, cell: Cell) {
    || InFinder(Size(version), cell)
    || Covered(AlignmentCentres(version), cell)
    || OnTiming(Size(version), cell)
    || cell == DarkModule(version)
  }

  // ------------------------------------------------ how the patterns keep apart

  lemma PositionRange(version: nat, x: int)
    requires 2 <= version <= 40 && x in AlignmentPositions(version)
    ensures x % 2 == 0
    ensures x == 6 || x == Size(version) - 7 || 18 <= x <= Size(version) - 19
  {
    var i :| 0 <= i <= version / 7 + 1 && x == AlignmentPosition(version, i);
    IndexedRange(version, i);
  }

  lemma IndexedRange(version: nat, i: nat)
    requires 2 <= version <= 40 && i <= version / 7 + 1
    ensures var x := AlignmentPosition(version, i);
      x % 2 == 0 && (x == 6 || x == Size(version) - 7 || 18 <= x <= Size(version) - 19)
  {
    PositionEven(version, i);
    LastPosition(version);
    if 0 < i < version / 7 + 1 {
      PositionsSpread(version, 0, i);
      PositionsSpread(version, i, version / 7 + 1);
    }
  }

  lemma LastPosition(version: nat)
    ensures AlignmentPosition(version, version / 7 + 1) == Size(version) - 7
  {
    assert AlignmentStep(version) * 0 == 0;
  }

  lemma CentresApart(version: nat, p: Cell, q: Cell)
    requires 2 <= version <= 40
    requires p.row in AlignmentPositions(version) && p.col in AlignmentPositions(version)
    requires q.row in AlignmentPositions(version) && q.col in AlignmentPositions(version)
    requires p != q
    ensures Distance(p, q) >= 12
  {
    if p.row != q.row {
      CoordinatesApart(version, p.row, q.row);
    } else {
      CoordinatesApart(version, p.col, q.col);
    }
  }

  lemma CoordinatesApart(version: nat, x: int, y: int)
    requires 2 <= version <= 40 && x in AlignmentPositions(version) && y in AlignmentPositions(version) && x != y
    ensures Abs(x - y) >= 12
  {
    var i :| 0 <= i <= version / 7 + 1 && x == AlignmentPosition(version, i);
    var j :| 0 <= j <= version / 7 + 1 && y == AlignmentPosition(version, j);
    if i < j {
      PositionsSpread(version, i, j);
    } else {
      PositionsSpread(version, j, i);
    }
  }

  /** An alignment pattern never reaches into a finder zone or onto the dark module. */
  lemma AlignmentClear(version: nat, centre: Cell, cell: Cell)
    requires 2 <= version <= 40 && centre in AlignmentCentres(version)
    requires Distance(centre, cell) <= 2
    ensures !InFinder(Size(version), cell) && cell != DarkModule(version)
    ensures OnGrid(Size(version), cell)
  {
    PositionRange(version, centre.row);
    PositionRange(version, centre.col);
  }

  /** Where a timing line crosses an alignment pattern both prescribe the same colour. */
  lemma TimingAgrees(version: nat, centre: Cell, cell: Cell)
    requires 2 <= version <= 40 && centre in AlignmentCentres(version)
    requires Distance(centre, cell) <= 2 && OnTiming(Size(version), cell)
    ensures Distance(centre, cell) != 1 <==> (cell.row + cell.col) % 2 == 0
  {
    PositionRange(version, centre.row);
    PositionRange(version, centre.col);
    if cell.row == 6 {
      assert centre.row == 6;
      SameParity(centre.col, cell.col);
    } else {
      assert centre.col == 6;
      SameParity(centre.row, cell.row);
    }
  }

  lemma SameParity(x: int, y: int)
    requires x % 2 == 0 && Abs(x - y) <= 2
    ensures Abs(x - y) != 1 <==> (6 + y) % 2 == 0
    ensures Abs(x - y) != 1 <==> (y + 6) % 2 == 0
  {
  }

  // --------------------------------------------------------- mask and format info

  /** Mask 0 inverts the data modules of one diagonal parity. */
  predicate MaskBit(cell: Cell) {
    (cell.row + cell.col) % 2 == 0
  }

  /** Level L with mask 0: 111011111000100. */
  const FORMAT: seq<bool> :=
    [true, true, true, false, true, true, true, true, true, false, false, false, true, false, false]

  /** Where bit k of the copy around the top left finder goes; the timing lines are stepped over. */
  function FirstFormatCell(k: nat): Cell
    requires k < 15
  {
    if k < 6 then Cell(8, k)
    else if k == 6 then Cell(8, 7)
    else if k == 7 then Cell(8, 8)
    else if k == 8 then Cell(7, 8)
    else Cell(14 - k, 8)
  }

  /** The other copy is split between the two remaining finders. */
  function SecondFormatCell(size: nat, k: nat): Cell
    requires k < 15
  {
    if k < 7 then Cell(size - 1 - k, 8) else Cell(8, size - 15 + k)
  }

  predicate InFormat(size: nat, cell: Cell) {
    || (cell.row == 8 && ((0 <= cell.col <= 8 && cell.col != 6) || size - 8 <= cell.col < size))
    || (cell.col == 8 && ((0 <= cell.row <= 8 && cell.row != 6) || size - 7 <= cell.row < size))
  }

  /** The format bit that a format module shows. */
  function FormatIndex(size: nat, cell: Cell): (k: nat)
    requires size >= 21 && InFormat(size, cell)
    ensures k < 15 && (cell == FirstFormatCell(k) || cell == SecondFormatCell(size, k))
  {
    if cell.row == 8 && cell.col <= 5 then cell.col
    else if cell.row == 8 && cell.col == 7 then 6
    else if cell == Cell(8, 8) then 7
    else if cell == Cell(7, 8) then 8
    else if cell.col == 8 && cell.row <= 5 then 14 - cell.row
    else if cell.col == 8 then size - 1 - cell.row
    else cell.col + 15 - size
  }

  /** Both copies together fill exactly the format areas. */
  lemma FormatCells(size: nat, cell: Cell)
    requires size >= 21
    ensures InFormat(size, cell) <==>
      exists k: nat | k < 15 :: cell == FirstFormatCell(k) || cell == SecondFormatCell(size, k)
  {
    if InFormat(size, cell) {
      var k := FormatIndex(size, cell);
      assert cell == FirstFormatCell(k) || cell == SecondFormatCell(size, k);
    }
  }

  /** No pattern owns a format module, so writing the format info leaves every pattern alone. */
  lemma FormatClear(version: nat, cell: Cell)
    requires 1 <= version <= 40 && InFormat(Size(version), cell)
    ensures !IsFunction(version, cell)
  {
    if Covered(AlignmentCentres(version), cell) {
      var centre :| centre in AlignmentCentres(version) && Distance(centre, cell) <= 2;
      if version >= 2 {
        PositionRange(version, centre.row);
        PositionRange(version, centre.col);
      }
      assert false;
    }
  }

  /** Every module of the timing column belongs to a pattern: the walk may skip the column. */
  lemma TimingColumnTaken(version: nat, row: int)
    requires version >= 1 && 0 <= row < Size(version)
    ensures IsFunction(version, Cell(row, 6))
  {
    var size := Size(version);
    if row <= 7 {
      assert Distance(FinderCentre(size, 0), Cell(row, 6)) <= 4;
    } else if row < size - 8 {
      assert OnTiming(size, Cell(row, 6));
    } else {
      assert Distance(FinderCentre(size, 2), Cell(row, 6)) <= 4;
    }
  }

  // ---------------------------------------------------------- colours of patterns

  predicate FinderMarks(size: nat, corner: nat, cell: Cell)
    requires corner < 3
  {
    var d := Distance(FinderCentre(size, corner), cell);
    d <= 4 && FinderBlack(d)
  }

  ghost predicate AlignmentMarks(centres: set<Cell>, cell: Cell) {
    exists centre | centre in centres :: Distance(centre, cell) == 0 || Distance(centre, cell) == 2
  }

  /** Black where some pattern says so. */
  ghost predicate PatternBlack(version: nat, cell: Cell) {
    || FinderMarks(Size(version), 0, cell) || FinderMarks(Size(version), 1, cell) || FinderMarks(Size(version), 2, cell)
    || AlignmentMarks(AlignmentCentres(version), cell)
    || (OnTiming(Size(version), cell) && (cell.row + cell.col) % 2 == 0)
    || cell == DarkModule(version)
  }

  /** Inside a finder zone only that finder decides. */
  lemma FinderDecides(version: nat, corner: nat, cell: Cell)
    requires 1 <= version <= 40 && corner < 3
    requires Distance(FinderCentre(Size(version), corner), cell) <= 4 && OnGrid(Size(version), cell)
    ensures PatternBlack(version, cell) <==> FinderBlack(Distance(FinderCentre(Size(version), corner), cell))
  {
    forall centre | centre in AlignmentCentres(version)
      ensures Distance(centre, cell) > 2
    {
      if Distance(centre, cell) <= 2 {
        assert version >= 2;
        AlignmentClear(version, centre, cell);
      }
    }
  }

  lemma OnlyItsCentreMarks(version: nat, centre: Cell, cell: Cell)
    requires 2 <= version <= 40 && centre in AlignmentCentres(version) && Distance(centre, cell) <= 2
    ensures AlignmentMarks(AlignmentCentres(version), cell) <==> Distance(centre, cell) != 1
  {
    forall other | other in AlignmentCentres(version) && other != centre
      ensures Distance(other, cell) > 2
    {
      CentresApart(version, centre, other);
    }
  }

  /** Inside an alignment pattern its own rings decide, even where a timing line runs through. */
  lemma AlignmentDecides(version: nat, centre: Cell, cell: Cell)
    requires 2 <= version <= 40 && centre in AlignmentCentres(version) && Distance(centre, cell) <= 2
    ensures PatternBlack(version, cell) <==> Distance(centre, cell) != 1
  {
    AlignmentClear(version, centre, cell);
    OnlyItsCentreMarks(version, centre, cell);
    if OnTiming(Size(version), cell) {
      TimingAgrees(version, centre, cell);
    }
    assert forall corner: nat | corner < 3 :: !FinderMarks(Size(version), corner, cell);
  }

  /** On the timing lines nothing overrides their own colour. */
  lemma TimingDecides(version: nat, cell: Cell)
    requires 1 <= version <= 40 && OnTiming(Size(version), cell) && cell != DarkModule(version)
    ensures PatternBlack(version, cell) <==> (cell.row + cell.col) % 2 == 0
  {
    if Covered(AlignmentCentres(version), cell) {
      var centre :| centre in AlignmentCentres(version) && Distance(centre, cell) <= 2;
      assert version >= 2;
      AlignmentDecides(version, centre, cell);
      TimingAgrees(version, centre, cell);
    }
  }

  lemma DarkModuleBlack(version: nat)
    ensures PatternBlack(version, DarkModule(version))
  {
  }
}
