/** The symbol in figures: every coordinate, ring, position and bit written out, and the layout proved to
    be just that. */
module QrPicture {
  import opened QrLayout
  import opened QrWalk
  import opened QrBits
  import opened QrCapacity
  import opened Sequences

  type Grid = array2<bool>

  ghost predicate Sized(matrix: Grid, version: nat) {
    matrix.Length0 == 17 + 4 * version && matrix.Length1 == 17 + 4 * version
  }

  // ----------------------------------------------------------------------- the finders

  /** Black modules of a finder by their offsets from its top left corner; -1 and 7 are the separator. */
  predicate FinderInk(r: int, c: int) {
    || (0 <= r <= 6 && (c == 0 || c == 6))
    || (0 <= c <= 6 && (r == 0 || r == 6))
    || (2 <= r <= 4 && 2 <= c <= 4)
  }

  ghost predicate FindersShown(matrix: Grid, version: nat)
    requires version >= 1 && Sized(matrix, version)
    reads matrix
  {
    && (forall r, c | 0 <= r <= 7 && 0 <= c <= 7 :: matrix[r, c] == FinderInk(r, c))
    && (forall r, c | 0 <= r <= 7 && -1 <= c <= 6 :: matrix[r, 10 + 4 * version + c] == FinderInk(r, c))
    && (forall r, c | -1 <= r <= 6 && 0 <= c <= 7 :: matrix[10 + 4 * version + r, c] == FinderInk(r, c))
  }

  /** The rings of the layout are these offsets. */
  lemma InkIsRings(r: int, c: int)
    requires -1 <= r <= 7 && -1 <= c <= 7
    ensures Distance(Cell(3, 3), Cell(r, c)) <= 4
    ensures FinderBlack(Distance(Cell(3, 3), Cell(r, c))) == FinderInk(r, c)
  {
  }

  lemma Shifted(a: Cell, b: Cell, dr: int, dc: int)
    ensures Distance(Cell(a.row + dr, a.col + dc), Cell(b.row + dr, b.col + dc)) == Distance(a, b)
  {
  }

  lemma InkAround(centre: Cell, r: int, c: int)
    requires -1 <= r <= 7 && -1 <= c <= 7
    ensures var d := Distance(centre, Cell(centre.row - 3 + r, centre.col - 3 + c));
      d <= 4 && FinderBlack(d) == FinderInk(r, c)
  {
    InkIsRings(r, c);
    Shifted(Cell(3, 3), Cell(r, c), centre.row - 3, centre.col - 3);
  }

  lemma FinderZoneOwned(version: nat, corner: nat, cell: Cell)
    requires corner < 3 && Distance(FinderCentre(Size(version), corner), cell) <= 4
    ensures IsFunction(version, cell)
  {
  }

  /** A module of a finder zone has the colour of its ink. */
  lemma FinderModule(version: nat, corner: nat, r: int, c: int, cell: Cell)
    requires 1 <= version <= 40 && corner < 3 && -1 <= r <= 7 && -1 <= c <= 7 && OnGrid(17 + 4 * version, cell)
    requires FinderCentre(17 + 4 * version, corner) == Cell(cell.row + 3 - r, cell.col + 3 - c)
    ensures IsFunction(version, cell) && (PatternBlack(version, cell) <==> FinderInk(r, c))
  {
    var centre := FinderCentre(17 + 4 * version, corner);
    InkAround(centre, r, c);
    assert cell == Cell(centre.row - 3 + r, centre.col - 3 + c);
    FinderZoneOwned(version, corner, cell);
    FinderDecides(version, corner, cell);
  }

  // -------------------------------------------------------------- alignment patterns

  predicate AlignmentInk(dr: int, dc: int) {
    dr == -2 || dr == 2 || dc == -2 || dc == 2 || (dr == 0 && dc == 0)
  }

  /** The alignment positions of all versions in use. */
  function Positions(version: nat): seq<int>
    requires 1 <= version <= 16
  {
    [[], [6, 18], [6, 22], [6, 26], [6, 30], [6, 34], [6, 22, 38], [6, 24, 42], [6, 26, 46], [6, 28, 50],
     [6, 30, 54], [6, 32, 58], [6, 34, 62], [6, 26, 46, 66], [6, 26, 48, 70], [6, 26, 50, 74]][version - 1]
  }

  lemma PositionsTable(version: nat)
    requires 1 <= version <= 16
    ensures AlignmentPositions(version) == Positions(version)
  {
    if version >= 2 {
      var computed, listed := AlignmentPositions(version), Positions(version);
      assert |computed| == version / 7 + 2 == |listed|;
      forall i | 0 <= i < |computed|
        ensures computed[i] == listed[i]
      {
        PositionListed(version, i);
      }
    }
  }

  lemma PositionListed(version: nat, i: nat)
    requires 2 <= version <= 16 && i < version / 7 + 2
    ensures i < |Positions(version)| && AlignmentPosition(version, i) == Positions(version)[i]
  {
    LastPosition(version);
    if 0 < i < version / 7 + 1 {
      StepListed(version);
    }
  }

  lemma StepListed(version: nat)
    requires 7 <= version <= 16
    ensures AlignmentStep(version) == [16, 18, 20, 22, 24, 26, 28, 20, 22, 24][version - 7]
  {
  }

  /** A centre is left out iff it is one of the three finder corners. */
  predicate FinderCorner(version: nat, row: int, col: int) {
    || (row == 6 && col == 6)
    || (row == 6 && col == 10 + 4 * version)
    || (row == 10 + 4 * version && col == 6)
  }

  ghost predicate AlignmentsShown(matrix: Grid, version: nat, positions: seq<int>)
    requires version >= 1 && Sized(matrix, version)
    reads matrix
  {
    forall a, b, dr, dc | 0 <= a < |positions| && 0 <= b < |positions|
      && !FinderCorner(version, positions[a], positions[b]) && -2 <= dr <= 2 && -2 <= dc <= 2 ::
      AlignmentShownAt(matrix, version, positions[a], positions[b], dr, dc)
  }

  ghost predicate AlignmentShownAt(matrix: Grid, version: nat, row: int, col: int, dr: int, dc: int)
    requires version >= 1 && Sized(matrix, version)
    reads matrix
  {
    && 0 <= row + dr < 17 + 4 * version && 0 <= col + dc < 17 + 4 * version
    && matrix[row + dr, col + dc] == AlignmentInk(dr, dc)
  }

  lemma AlignmentModule(version: nat, row: int, col: int, dr: int, dc: int)
    requires 2 <= version <= 16 && -2 <= dr <= 2 && -2 <= dc <= 2
    requires row in AlignmentPositions(version) && col in AlignmentPositions(version)
    requires !FinderCorner(version, row, col)
    ensures var cell := Cell(row + dr, col + dc);
      && OnGrid(17 + 4 * version, cell) && IsFunction(version, cell)
      && (PatternBlack(version, cell) <==> AlignmentInk(dr, dc))
  {
    var centre, cell := Cell(row, col), Cell(row + dr, col + dc);
    PositionRange(version, row);
    PositionRange(version, col);
    assert !InFinder(17 + 4 * version, centre);
    assert centre in AlignmentCentres(version) && Distance(centre, cell) <= 2;
    AlignmentClear(version, centre, cell);
    AlignmentDecides(version, centre, cell);
  }

  // ------------------------------------------------------------- lines and dark module

  ghost predicate LinesShown(matrix: Grid, version: nat)
    requires version >= 1 && Sized(matrix, version)
    reads matrix
  {
    && (forall k | 8 <= k < 9 + 4 * version :: matrix[6, k] == (k % 2 == 0) && matrix[k, 6] == (k % 2 == 0))
    && matrix[9 + 4 * version, 8]
  }

  lemma LineModule(version: nat, k: nat)
    requires 1 <= version <= 40 && 8 <= k < 9 + 4 * version
    ensures IsFunction(version, Cell(6, k)) && (PatternBlack(version, Cell(6, k)) <==> k % 2 == 0)
    ensures IsFunction(version, Cell(k, 6)) && (PatternBlack(version, Cell(k, 6)) <==> k % 2 == 0)
  {
    LineCell(version, Cell(6, k), k);
    LineCell(version, Cell(k, 6), k);
  }

  lemma LineCell(version: nat, cell: Cell, k: nat)
    requires 1 <= version <= 40 && 8 <= k < 9 + 4 * version && (cell == Cell(6, k) || cell == Cell(k, 6))
    ensures IsFunction(version, cell) && (PatternBlack(version, cell) <==> k % 2 == 0)
  {
    assert OnTiming(Size(version), cell);
    TimingDecides(version, cell);
    SixMore(k);
    assert cell.row + cell.col == 6 + k;
  }

  lemma SixMore(k: nat)
    ensures (6 + k) % 2 == 0 <==> k % 2 == 0
  {
  }

  // --------------------------------------------------------------- all pattern modules

  /** The modules that belong to patterns: three corners of eight by eight, row and column 6, one single
      module, and five by five modules around every pair of positions but the corners. */
  ghost predicate PatternModule(version: nat, row: int, col: int)
    requires 1 <= version <= 16
  {
    || (row < 8 && col < 8) || (row < 8 && col >= 9 + 4 * version) || (row >= 9 + 4 * version && col < 8)
    || row == 6 || col == 6
    || (row == 9 + 4 * version && col == 8)
    || NearCentre(version, Positions(version), row, col)
  }

  ghost predicate NearCentre(version: nat, positions: seq<int>, row: int, col: int) {
    exists a, b | 0 <= a < |positions| && 0 <= b < |positions| ::
      && !FinderCorner(version, positions[a], positions[b])
      && -2 <= row - positions[a] <= 2 && -2 <= col - positions[b] <= 2
  }

  lemma PatternModules(version: nat, cell: Cell)
    requires 1 <= version <= 16 && OnGrid(17 + 4 * version, cell)
    ensures IsFunction(version, cell) <==> PatternModule(version, cell.row, cell.col)
  {
    FinderZones(version, cell);
    PositionsTable(version);
    CoveredInFigures(version, cell, Positions(version));
  }

  lemma FinderZones(version: nat, cell: Cell)
    requires version >= 1 && OnGrid(17 + 4 * version, cell)
    ensures InFinder(17 + 4 * version, cell) <==>
      || (cell.row < 8 && cell.col < 8) || (cell.row < 8 && cell.col >= 9 + 4 * version)
      || (cell.row >= 9 + 4 * version && cell.col < 8)
  {
  }

  lemma CoveredInFigures(version: nat, cell: Cell, positions: seq<int>)
    requires 1 <= version <= 40 && positions == AlignmentPositions(version)
    ensures Covered(AlignmentCentres(version), cell) <==> NearCentre(version, positions, cell.row, cell.col)
  {
    if Covered(AlignmentCentres(version), cell) {
      CoveredIsNear(version, cell, positions);
    }
    if NearCentre(version, positions, cell.row, cell.col) {
      NearIsCovered(version, cell, positions);
    }
  }

  lemma CoveredIsNear(version: nat, cell: Cell, positions: seq<int>)
    requires 1 <= version <= 40 && positions == AlignmentPositions(version) && Covered(AlignmentCentres(version), cell)
    ensures NearCentre(version, positions, cell.row, cell.col)
  {
    var centre :| centre in AlignmentCentres(version) && Distance(centre, cell) <= 2;
    CentreIff(version, positions, centre);
    var a :| 0 <= a < |positions| && positions[a] == centre.row;
    var b :| 0 <= b < |positions| && positions[b] == centre.col;
    WithinTwo(centre, cell);
    assert !FinderCorner(version, positions[a], positions[b]);
  }

  lemma NearIsCovered(version: nat, cell: Cell, positions: seq<int>)
    requires 1 <= version <= 40 && positions == AlignmentPositions(version)
    requires NearCentre(version, positions, cell.row, cell.col)
    ensures Covered(AlignmentCentres(version), cell)
  {
    var a, b :| 0 <= a < |positions| && 0 <= b < |positions| && !FinderCorner(version, positions[a], positions[b])
      && -2 <= cell.row - positions[a] <= 2 && -2 <= cell.col - positions[b] <= 2;
    var centre := Cell(positions[a], positions[b]);
    CentreIff(version, positions, centre);
    WithinTwo(centre, cell);
  }

  lemma WithinTwo(centre: Cell, cell: Cell)
    ensures Distance(centre, cell) <= 2 <==> -2 <= cell.row - centre.row <= 2 && -2 <= cell.col - centre.col <= 2
  {
  }

  lemma CentreIff(version: nat, positions: seq<int>, centre: Cell)
    requires 1 <= version <= 40 && positions == AlignmentPositions(version)
    ensures centre in AlignmentCentres(version) <==>
      centre.row in positions && centre.col in positions && !FinderCorner(version, centre.row, centre.col)
  {
    if centre.row in positions && centre.col in positions {
      CornerIff(version, centre.row, centre.col);
    }
    assert centre == Cell(centre.row, centre.col);
  }

  /** A centre lies in a finder zone iff it is one of the three corners. */
  lemma CornerIff(version: nat, row: int, col: int)
    requires 1 <= version <= 40 && row in AlignmentPositions(version) && col in AlignmentPositions(version)
    ensures InFinder(17 + 4 * version, Cell(row, col)) <==> FinderCorner(version, row, col)
  {
    if version >= 2 {
      PositionRange(version, row);
      PositionRange(version, col);
    }
  }

  // ------------------------------------------------------------------------ format info

  /** The fifteen format bits: row 8 from the left and column 8 upwards; column 8 from below and row 8
      to the right. */
  ghost predicate FormatInFigures(matrix: Grid, version: nat)
    requires version >= 1 && Sized(matrix, version)
    reads matrix
  {
    var n := 17 + 4 * version;
    && matrix[8, 0] && matrix[8, 1] && matrix[8, 2] && !matrix[8, 3] && matrix[8, 4] && matrix[8, 5]
    && matrix[8, 7] && matrix[8, 8] && matrix[7, 8]
    && !matrix[5, 8] && !matrix[4, 8] && !matrix[3, 8] && matrix[2, 8] && !matrix[1, 8] && !matrix[0, 8]
    && matrix[n - 1, 8] && matrix[n - 2, 8] && matrix[n - 3, 8] && !matrix[n - 4, 8] && matrix[n - 5, 8]
    && matrix[n - 6, 8] && matrix[n - 7, 8]
    && matrix[8, n - 8] && matrix[8, n - 7] && !matrix[8, n - 6] && !matrix[8, n - 5] && !matrix[8, n - 4]
    && matrix[8, n - 3] && !matrix[8, n - 2] && !matrix[8, n - 1]
  }

  // --------------------------------------------------------------------- order of the walk

  /** The two-column strip of a module, counted from the right; column 6 belongs to none. */
  function Strip(n: int, col: int): int {
    if col > 6 then (n - 1 - col) / 2 else (n - 2 - col) / 2
  }

  /** Strips from right to left; even ones are climbed, odd ones descended; right before left. */
  predicate Precedes(n: int, p: Cell, q: Cell) {
    || Strip(n, p.col) < Strip(n, q.col)
    || (Strip(n, p.col) == Strip(n, q.col)
        && if p.row == q.row then p.col > q.col
           else if Strip(n, p.col) % 2 == 0 then p.row > q.row else p.row < q.row)
  }

  ghost predicate InWalkOrder(n: int, cells: seq<Cell>) {
    forall i, j | 0 <= i < j < |cells| :: Precedes(n, cells[i], cells[j])
  }

  lemma StripOfSweep(size: nat, sweep: nat, k: nat)
    requires size % 2 == 1 && size >= 9 && sweep < Sweeps(size) && k < 2 * size
    ensures Strip(size, SweepCell(size, sweep, k).col) == sweep
  {
    assert 0 <= k % 2 <= 1;
  }

  lemma EarlierPrecedes(size: nat, s: nat, j: nat, t: nat, k: nat)
    requires size % 2 == 1 && size >= 9 && s < Sweeps(size) && t < Sweeps(size) && j < 2 * size && k < 2 * size
    requires s < t || (s == t && j < k)
    ensures Precedes(size, SweepCell(size, s, j), SweepCell(size, t, k))
  {
    StripOfSweep(size, s, j);
    StripOfSweep(size, t, k);
  }

  lemma {:induction false} WalkInOrder(size: nat, sweep: nat, k: nat)
    requires size % 2 == 1 && size >= 9 && sweep <= Sweeps(size) && k <= 2 * size
    requires sweep == Sweeps(size) ==> k == 0
    ensures InWalkOrder(size, Walk(size, sweep, k))
    decreases sweep, k
  {
    if k > 0 {
      var before, cell := Walk(size, sweep, k - 1), SweepCell(size, sweep, k - 1);
      WalkInOrder(size, sweep, k - 1);
      forall i | 0 <= i < |before|
        ensures Precedes(size, before[i], cell)
      {
        WalkMembers(size, sweep, k - 1, before[i]);
        var s: nat, j: nat :| j < 2 * size && (s < sweep || (s == sweep && j < k - 1))
                              && before[i] == SweepCell(size, s, j);
        EarlierPrecedes(size, s, j, sweep, k - 1);
      }
    } else if sweep > 0 {
      WalkInOrder(size, sweep - 1, 2 * size);
    }
  }

  lemma {:induction false} FreeInOrder(size: nat, walk: seq<Cell>, reserved: iset<Cell>)
    requires InWalkOrder(size, walk)
    ensures InWalkOrder(size, Free(walk, reserved))
  {
    if walk != [] {
      var init, last := walk[..|walk| - 1], walk[|walk| - 1];
      FreeInOrder(size, init, reserved);
      forall i | 0 <= i < |Free(init, reserved)|
        ensures Precedes(size, Free(init, reserved)[i], last)
      {
        FreeMembers(init, reserved, Free(init, reserved)[i]);
      }
    }
  }

  /** The data modules are all modules outside the patterns, each once, in the order of the walk. */
  lemma DataModulesInOrder(version: nat)
    requires version >= 1
    ensures InWalkOrder(17 + 4 * version, DataModules(version)) && NoDuplicates(DataModules(version))
    ensures forall cell :: cell in DataModules(version) <==>
      0 <= cell.row < 17 + 4 * version && 0 <= cell.col < 17 + 4 * version && !IsFunction(version, cell)
  {
    EveryModuleOnce(version);
    WalkInOrder(Size(version), Sweeps(Size(version)), 0);
    FreeInOrder(Size(version), Walk(Size(version), Sweeps(Size(version)), 0), FunctionModules(version));
  }
}
