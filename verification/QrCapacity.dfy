/** The data modules of a version: the walk meets each exactly once, and there are enough of
    them for every string the version was chosen for. */
module QrCapacity {
  import opened QrLayout
  import opened Sequences
  import opened QrWalk
  import QrBits

  ghost function FunctionModules(version: nat): iset<Cell> {
    iset cell: Cell | OnGrid(Size(version), cell) && IsFunction(version, cell)
  }

  /** The data modules in the order of the walk. */
  ghost function DataModules(version: nat): seq<Cell> {
    DataCells(Size(version), FunctionModules(version), Sweeps(Size(version)), 0)
  }

  /** The walk meets a module of the grid iff no pattern owns it. */
  lemma DataModuleIff(version: nat, cell: Cell)
    requires version >= 1
    ensures cell in DataModules(version) <==> OnGrid(Size(version), cell) && !IsFunction(version, cell)
  {
    if OnGrid(Size(version), cell) && cell.col == 6 {
      TimingColumnTaken(version, cell.row);
    }
    FreeModuleIff(Size(version), FunctionModules(version), cell);
  }

  /** Every module that is no pattern's is visited exactly once, and no other module is. */
  lemma EveryModuleOnce(version: nat)
    requires version >= 1
    ensures NoDuplicates(DataModules(version))
    ensures forall cell :: cell in DataModules(version) <==> OnGrid(Size(version), cell) && !IsFunction(version, cell)
  {
    forall cell
      ensures cell in DataModules(version) <==> OnGrid(Size(version), cell) && !IsFunction(version, cell)
    {
      DataModuleIff(version, cell);
    }
    DataCellsDistinct(Size(version), FunctionModules(version));
  }

  // ---------------------------------------------------------------- counting modules

  ghost function Rectangle(top: int, bottom: int, left: int, right: int): set<Cell> {
    set row, col | top <= row < bottom && left <= col < right :: Cell(row, col)
  }

  lemma {:induction false} RectangleSize(top: int, bottom: int, left: int, right: int)
    requires top <= bottom && left <= right
    ensures |Rectangle(top, bottom, left, right)| == (bottom - top) * (right - left)
    decreases bottom - top, right - left
  {
    if top == bottom || left == right {
      assert Rectangle(top, bottom, left, right) == {};
    } else if top + 1 < bottom {
      RectangleSize(top, bottom - 1, left, right);
      RectangleSize(bottom - 1, bottom, left, right);
      LastRow(top, bottom, left, right);
      OneMoreRow(bottom - top, right - left);
    } else {
      RectangleSize(top, bottom, left, right - 1);
      LastCell(top, left, right);
    }
  }

  lemma LastRow(top: int, bottom: int, left: int, right: int)
    requires top < bottom
    ensures Rectangle(top, bottom, left, right)
         == Rectangle(top, bottom - 1, left, right) + Rectangle(bottom - 1, bottom, left, right)
    ensures Rectangle(top, bottom - 1, left, right) !! Rectangle(bottom - 1, bottom, left, right)
  {
  }

  lemma LastCell(row: int, left: int, right: int)
    requires left < right
    ensures Rectangle(row, row + 1, left, right) == Rectangle(row, row + 1, left, right - 1) + {Cell(row, right - 1)}
    ensures Cell(row, right - 1) !in Rectangle(row, row + 1, left, right - 1)
  {
  }

  lemma OneMoreRow(rows: int, width: int)
    ensures (rows - 1) * width + 1 * width == rows * width
  {
  }

  ghost function CoveredIn(region: set<Cell>, centres: set<Cell>): set<Cell> {
    set cell | cell in region && Covered(centres, cell)
  }

  lemma SubsetSize<T>(a: set<T>, b: set<T>)
    requires a <= b
    ensures |a| <= |b|
  {
    assert b == a + (b - a);
  }

  lemma {:induction false} CoveredSize(region: set<Cell>, centres: set<Cell>)
    ensures |CoveredIn(region, centres)| <= 25 * |centres|
    decreases |centres|
  {
    if centres == {} {
      assert CoveredIn(region, centres) == {};
    } else {
      var centre :| centre in centres;
      var rest := centres - {centre};
      CoveredSize(region, rest);
      var box := Rectangle(centre.row - 2, centre.row + 3, centre.col - 2, centre.col + 3);
      RectangleSize(centre.row - 2, centre.row + 3, centre.col - 2, centre.col + 3);
      forall cell | cell in CoveredIn(region, centres)
        ensures cell in CoveredIn(region, rest) + box
      {
        var c :| c in centres && Distance(c, cell) <= 2;
        assert c == centre || c in rest;
      }
      SubsetSize(CoveredIn(region, centres), CoveredIn(region, rest) + box);
    }
  }

  lemma {:induction false} ElementsFit<T>(t: set<T>, s: seq<T>)
    requires forall x | x in t :: x in s
    ensures |t| <= |s|
  {
    if s == [] {
      assert t == {};
    } else {
      var init, last := s[..|s| - 1], s[|s| - 1];
      assert s == init + [last];
      ElementsFit(t - {last}, init);
    }
  }

  ghost function Pairs(rows: seq<int>, cols: seq<int>): (pairs: seq<Cell>)
    ensures |pairs| == |rows| * |cols|
  {
    if rows == [] then []
    else
      assert |rows| * |cols| == |rows[1..]| * |cols| + |cols|;
      seq(|cols|, i requires 0 <= i < |cols| => Cell(rows[0], cols[i])) + Pairs(rows[1..], cols)
  }

  lemma {:induction false} InPairs(rows: seq<int>, cols: seq<int>, cell: Cell)
    requires cell.row in rows && cell.col in cols
    ensures cell in Pairs(rows, cols)
  {
    if cell.row == rows[0] {
      var i :| 0 <= i < |cols| && cols[i] == cell.col;
      assert Pairs(rows, cols)[i] == cell;
    } else {
      InPairs(rows[1..], cols, cell);
    }
  }

  /** At most one pattern per pair of positions. */
  lemma CentreCount(version: nat)
    requires version >= 2
    ensures |AlignmentCentres(version)| <= (version / 7 + 2) * (version / 7 + 2)
  {
    var positions := AlignmentPositions(version);
    forall cell | cell in AlignmentCentres(version)
      ensures cell in Pairs(positions, positions)
    {
      InPairs(positions, positions, cell);
    }
    ElementsFit(AlignmentCentres(version), Pairs(positions, positions));
  }

  /** With two positions, three of the four pairs fall into finder zones. */
  lemma SmallCentreCount(version: nat)
    requires version < 7
    ensures |AlignmentCentres(version)| <= if version < 2 then 0 else 1
  {
    if version < 2 {
      assert AlignmentCentres(version) == {};
    } else {
      var last := Size(version) - 7;
      forall cell | cell in AlignmentCentres(version)
        ensures cell == Cell(last, last)
      {
        PositionRange(version, cell.row);
        PositionRange(version, cell.col);
      }
      SubsetSize(AlignmentCentres(version), {Cell(last, last)});
    }
  }

  /** Two rectangles clear of finders, timing lines and the dark module. */
  ghost function ClearRectangles(version: nat): set<Cell> {
    Rectangle(8, Size(version), 9, Size(version)) + Rectangle(8, Size(version) - 8, 0, 6)
  }

  lemma ClearRectanglesSize(version: nat)
    ensures |ClearRectangles(version)| == (4 * version + 9) * (4 * version + 8) + 6 * (4 * version + 1)
  {
    var size := Size(version);
    RectangleSize(8, size, 9, size);
    RectangleSize(8, size - 8, 0, 6);
    assert Rectangle(8, size, 9, size) !! Rectangle(8, size - 8, 0, 6);
  }

  lemma ClearCell(version: nat, cell: Cell)
    requires version >= 1 && cell in ClearRectangles(version)
    ensures OnGrid(Size(version), cell)
    ensures IsFunction(version, cell) ==> Covered(AlignmentCentres(version), cell)
  {
  }

  /** At least the rectangles, less 25 modules for every alignment pattern. */
  lemma ModuleCount(version: nat)
    requires version >= 1
    ensures |DataModules(version)|
         >= (4 * version + 9) * (4 * version + 8) + 6 * (4 * version + 1) - 25 * |AlignmentCentres(version)|
  {
    var both := ClearRectangles(version);
    var covered := CoveredIn(both, AlignmentCentres(version));
    ClearRectanglesSize(version);
    CoveredSize(both, AlignmentCentres(version));
    forall cell | cell in both - covered
      ensures cell in DataModules(version)
    {
      ClearCell(version, cell);
      DataModuleIff(version, cell);
    }
    ElementsFit(both - covered, DataModules(version));
    assert both == (both - covered) + covered;
  }

  /** A version chosen for a string has room for the bits that its decoder reads. */
  lemma EnoughModules(version: nat, dataLen: nat)
    requires QrBits.IsVersionFor(version, dataLen)
    ensures |DataModules(version)| >= 12 + 8 * (dataLen % 256)
  {
    ModuleCount(version);
    if version < 7 {
      SmallCentreCount(version);
      SmallVersions(version, dataLen, |AlignmentCentres(version)|);
    } else {
      CentreCount(version);
      LargeVersions(version, dataLen, |AlignmentCentres(version)|);
    }
  }

  lemma SmallVersions(version: nat, dataLen: nat, centres: nat)
    requires QrBits.IsVersionFor(version, dataLen) && version < 7
    requires centres <= if version < 2 then 0 else 1
    ensures (4 * version + 9) * (4 * version + 8) + 6 * (4 * version + 1) - 25 * centres >= 12 + 8 * (dataLen % 256)
  {
    assert version == 1 || version == 2 || version == 3 || version == 4 || version == 5 || version == 6;
  }

  lemma LargeVersions(version: nat, dataLen: nat, centres: nat)
    requires QrBits.IsVersionFor(version, dataLen) && version >= 7
    requires centres <= (version / 7 + 2) * (version / 7 + 2)
    ensures (4 * version + 9) * (4 * version + 8) + 6 * (4 * version + 1) - 25 * centres >= 12 + 8 * (dataLen % 256)
  {
    assert version == 7 || version == 8 || version == 9 || 10 <= version <= 16;
    assert version >= 10 ==> (4 * version + 9) * (4 * version + 8) >= 49 * 48;
  }
}
