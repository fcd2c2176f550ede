/** Reading the symbol that is handed out: the format info has taken some of its data modules. */
module QrReadBack {
  import opened Wrappers
  import opened Numbers
  import opened QrLayout
  import opened QrWalk
  import opened QrBits
  import opened QrCapacity
  import opened QrRoundTrip

  // ------------------------------------------------------- what a reader must find

  /** Reading bits and writing the number gives the bits. */
  lemma {:induction false} NumberRoundTrip(bits: seq<bool>)
    ensures BitsOf(FromBits(bits), |bits|) == bits
  {
    if bits != [] {
      NumberRoundTrip(bits[..|bits| - 1]);
      assert bits == bits[..|bits| - 1] + [bits[|bits| - 1]];
    }
  }

  /** A run of bits is the number iff it is its numeral. */
  lemma IsNumeral(bits: seq<bool>, x: nat)
    requires x < Pow2(|bits|)
    ensures FromBits(bits) == x <==> bits == BitsOf(x, |bits|)
  {
    NumberRoundTrip(bits);
    BitsRoundTrip(x, |bits|);
    SmallRemainder(x, Pow2(|bits|));
  }

  lemma SmallRemainder(x: nat, p: nat)
    requires x < p
    ensures x % p == x
  {
  }

  /** The first bits are those of the stream of this string, up to its last byte. */
  ghost predicate Agrees(bits: seq<bool>, data: seq<Byte>) {
    |bits| >= 12 + 8 * |data| && forall k | 0 <= k < 12 + 8 * |data| :: bits[k] == DataBit(data, k)
  }

  lemma ModeAgrees(bits: seq<bool>, data: seq<Byte>)
    requires |bits| >= 12
    ensures FromBits(bits[..4]) == 4 <==> forall k | 0 <= k < 4 :: bits[k] == DataBit(data, k)
  {
    Pow2Of8();
    IsNumeral(bits[..4], 4);
    assert BitsOf(4, 4) == [false, true, false, false];
    assert bits[..4] == bits[0..4];
    SliceIs(bits, 0, [false, true, false, false]);
  }

  lemma LengthAgrees(bits: seq<bool>, data: seq<Byte>)
    requires |bits| >= 12 && |data| <= 255
    ensures FromBits(bits[4..12]) == |data| <==> forall k | 4 <= k < 12 :: bits[k] == DataBit(data, k)
  {
    Pow2Of8();
    IsNumeral(bits[4..12], |data|);
    SliceIs(bits, 4, BitsOf(|data|, 8));
  }

  lemma ByteAgrees(bits: seq<bool>, data: seq<Byte>, i: nat)
    requires i < |data| && |bits| >= 20 + 8 * i
    ensures DecodeByte(bits, i) == data[i] <==> forall k | 12 + 8 * i <= k < 20 + 8 * i :: bits[k] == DataBit(data, k)
  {
    var start, word := 12 + 8 * i, BitsOf(data[i], 8);
    Pow2Of8();
    IsNumeral(bits[start..start + 8], data[i]);
    SliceIs(bits, start, word);
    forall k | start <= k < start + 8
      ensures DataBit(data, k) == word[k - start]
    {
      ByteBit(data, i, k - start);
    }
  }

  lemma SliceIs(bits: seq<bool>, start: nat, word: seq<bool>)
    requires start + |word| <= |bits|
    ensures bits[start..start + |word|] == word <==> forall k | start <= k < start + |word| ::
      bits[k] == word[k - start]
  {
    var slice := bits[start..start + |word|];
    if forall k | start <= k < start + |word| :: bits[k] == word[k - start] {
      assert forall j | 0 <= j < |word| :: slice[j] == bits[start + j];
    } else {
      var k :| start <= k < start + |word| && bits[k] != word[k - start];
      assert slice[k - start] != word[k - start];
    }
  }

  /** Bit j of byte i in the stream. */
  lemma ByteBit(data: seq<Byte>, i: nat, j: nat)
    requires i < |data| && j < 8
    ensures DataBit(data, 12 + 8 * i + j) == BitsOf(data[i], 8)[j]
  {
    assert (8 * i + j) / 8 == i && (8 * i + j) % 8 == j;
  }

  /** Past the header, agreement is agreement of the bytes. */
  lemma BytesAgree(bits: seq<bool>, data: seq<Byte>)
    requires |bits| >= 12 + 8 * |data|
    ensures (forall i | 0 <= i < |data| :: DecodeByte(bits, i) == data[i])
       <==> forall k | 12 <= k < 12 + 8 * |data| :: bits[k] == DataBit(data, k)
  {
    forall i | 0 <= i < |data|
      ensures DecodeByte(bits, i) == data[i] <==>
        forall k | 12 + 8 * i <= k < 20 + 8 * i :: bits[k] == DataBit(data, k)
    {
      ByteAgrees(bits, data, i);
    }
    if forall i | 0 <= i < |data| :: DecodeByte(bits, i) == data[i] {
      forall k | 12 <= k < 12 + 8 * |data|
        ensures bits[k] == DataBit(data, k)
      {
        var i := (k - 12) / 8;
        assert DecodeByte(bits, i) == data[i];
        assert 12 + 8 * i <= k < 20 + 8 * i;
      }
    }
  }

  /** A decoder finds this string iff it has at most 255 bytes and the stream begins as it should. */
  lemma DecodesIff(bits: seq<bool>, data: seq<Byte>)
    ensures Decode(bits) == Some(data) <==> |data| <= 255 && Agrees(bits, data)
  {
    if |bits| >= 12 {
      FromBitsBound(bits[4..12]);
      ModeAgrees(bits, data);
      if |data| <= 255 {
        LengthAgrees(bits, data);
        if |bits| >= 12 + 8 * |data| {
          BytesAgree(bits, data);
          DecodedParts(bits, data);
        }
      }
    }
  }

  lemma DecodedParts(bits: seq<bool>, data: seq<Byte>)
    requires |bits| >= 12 + 8 * |data|
    ensures Decode(bits) == Some(data) <==>
      && FromBits(bits[..4]) == 4 && FromBits(bits[4..12]) == |data|
      && forall i | 0 <= i < |data| :: DecodeByte(bits, i) == data[i]
  {
    if Decode(bits) == Some(data) {
      var length := FromBits(bits[4..12]);
      assert Decode(bits).value == seq(length, i requires 0 <= i < length => DecodeByte(bits, i));
      assert |data| == length;
      assert forall i | 0 <= i < |data| :: data[i] == Decode(bits).value[i];
    }
    if FromBits(bits[..4]) == 4 && FromBits(bits[4..12]) == |data|
       && forall i | 0 <= i < |data| :: DecodeByte(bits, i) == data[i] {
      DecodeParts(bits, data);
    }
  }

  // ------------------------------------------------------------ the returned symbol

  /** The colour of a format module. */
  function FormatBlack(size: nat, cell: Cell): bool
    requires size >= 21 && InFormat(size, cell)
  {
    FORMAT[FormatIndex(size, cell)]
  }

  /** What a reader of the returned symbol finds in the k-th data module: the format info where it has
      taken the module, without the mask it never had, and the symbol's own bit elsewhere. */
  ghost predicate FinalBit(data: seq<Byte>, version: nat, k: nat)
    requires version >= 1 && k < |DataModules(version)|
  {
    var cell := DataModules(version)[k];
    if InFormat(Size(version), cell) then FormatBlack(Size(version), cell) != MaskBit(cell)
    else SymbolBit(data, version, k)
  }

  ghost function FinalBits(data: seq<Byte>, version: nat): seq<bool>
    requires version >= 1
  {
    seq(|DataModules(version)|, k requires 0 <= k < |DataModules(version)| => FinalBit(data, version, k))
  }

  /** The string has at most 255 bytes, there is room for it, and what the format info and the budget
      put over its stream agrees with it. */
  ghost predicate SurvivesFormat(data: seq<Byte>, version: nat)
    requires version >= 1
  {
    && |data| <= 255
    && 12 + 8 * |data| <= |DataModules(version)|
    && forall k | 0 <= k < 12 + 8 * |data| :: FinalBit(data, version, k) == DataBit(data, k)
  }

  lemma FinalDecodesIff(data: seq<Byte>, version: nat)
    requires version >= 1
    ensures Decode(FinalBits(data, version)) == Some(data) <==> SurvivesFormat(data, version)
  {
    var bits := FinalBits(data, version);
    DecodesIff(bits, data);
    assert forall k | 0 <= k < |bits| :: bits[k] == FinalBit(data, version, k);
  }

  // ------------------------------------------------- where the format info strikes first

  lemma {:induction false} PrefixOfWalk(size: nat, reserved: iset<Cell>, k: nat, sweep: nat, j: nat)
    requires sweep > 0 || k <= j
    requires k <= 2 * size
    ensures |DataCells(size, reserved, 0, k)| <= |DataCells(size, reserved, sweep, j)|
    ensures DataCells(size, reserved, sweep, j)[..|DataCells(size, reserved, 0, k)|] == DataCells(size, reserved, 0, k)
    decreases sweep, j
  {
    var start := DataCells(size, reserved, 0, k);
    if sweep > 0 && j == 0 {
      PrefixOfWalk(size, reserved, k, sweep - 1, 2 * size);
    } else if sweep > 0 || k < j {
      PrefixOfWalk(size, reserved, k, sweep, j - 1);
      FreeStep(Walk(size, sweep, j - 1), SweepCell(size, sweep, j - 1), reserved);
    } else {
      assert start[..|start|] == start;
    }
  }

  /** The last two columns below row 7 belong to no pattern. */
  lemma LastColumnsFree(version: nat, cell: Cell)
    requires 1 <= version <= 40 && 8 <= cell.row < Size(version) && Size(version) - 2 <= cell.col < Size(version)
    ensures !IsFunction(version, cell)
  {
    if Covered(AlignmentCentres(version), cell) {
      var centre :| centre in AlignmentCentres(version) && Distance(centre, cell) <= 2;
      if version >= 2 {
        PositionRange(version, centre.col);
      }
      assert false;
    }
  }

  lemma FirstSweepCell(version: nat, k: nat)
    requires 1 <= version <= 40 && k < 2 * (Size(version) - 8)
    ensures SweepCell(Size(version), 0, k) !in FunctionModules(version)
  {
    var cell := SweepCell(Size(version), 0, k);
    assert 0 <= k / 2 < Size(version) - 8 && 0 <= k % 2 <= 1;
    LastColumnsFree(version, cell);
  }

  lemma {:induction false} FreeStart(size: nat, reserved: iset<Cell>, n: nat)
    requires forall i: nat | i < n :: SweepCell(size, 0, i) !in reserved
    ensures |DataCells(size, reserved, 0, n)| == n
    ensures forall i: nat | i < n :: DataCells(size, reserved, 0, n)[i] == SweepCell(size, 0, i)
  {
    if n > 0 {
      var before, cell := DataCells(size, reserved, 0, n - 1), SweepCell(size, 0, n - 1);
      FreeStart(size, reserved, n - 1);
      FreeStep(Walk(size, 0, n - 1), cell, reserved);
      assert DataCells(size, reserved, 0, n) == before + [cell];
    }
  }

  /** So the walk starts with all of their modules, two to a row from the bottom. */
  lemma FirstSweep(version: nat, n: nat)
    requires 1 <= version <= 40 && n <= 2 * (Size(version) - 8)
    ensures var cells := DataCells(Size(version), FunctionModules(version), 0, n);
      |cells| == n && forall i: nat | i < n :: cells[i] == SweepCell(Size(version), 0, i)
  {
    forall i: nat | i < n
      ensures SweepCell(Size(version), 0, i) !in FunctionModules(version)
    {
      FirstSweepCell(version, i);
    }
    FreeStart(Size(version), FunctionModules(version), n);
  }

  /** These are the first data modules of the symbol. */
  lemma FirstModule(version: nat, k: nat)
    requires 1 <= version <= 40 && k < 2 * (Size(version) - 8)
    ensures k < |DataModules(version)| && DataModules(version)[k] == SweepCell(Size(version), 0, k)
  {
    var cells := DataCells(Size(version), FunctionModules(version), 0, k + 1);
    FirstSweep(version, k + 1);
    PrefixOfWalk(Size(version), FunctionModules(version), k + 1, Sweeps(Size(version)), 0);
    InPrefix(DataModules(version), cells, k);
  }

  lemma InPrefix(cells: seq<Cell>, start: seq<Cell>, k: nat)
    requires |start| <= |cells| && cells[..|start|] == start && k < |start|
    ensures cells[k] == start[k]
  {
  }

  /** The format info takes the two modules that hold the fifth and sixth bit of byte number `version`. */
  lemma FirstTaken(version: nat)
    requires 1 <= version <= 40
    ensures var size, k := Size(version), 16 + 8 * version;
      && k + 2 <= |DataModules(version)|
      && DataModules(version)[k] == Cell(8, size - 1) && DataModules(version)[k + 1] == Cell(8, size - 2)
  {
    FirstModule(version, 16 + 8 * version);
    FirstModule(version, 17 + 8 * version);
    RowEight(version);
  }

  lemma RowEight(version: nat)
    requires version >= 1
    ensures SweepCell(Size(version), 0, 16 + 8 * version) == Cell(8, Size(version) - 1)
    ensures SweepCell(Size(version), 0, 17 + 8 * version) == Cell(8, Size(version) - 2)
  {
    assert (17 + 8 * version) / 2 == 8 + 4 * version && (17 + 8 * version) % 2 == 1;
  }

  /** Strings so short that they end before that are read back. */
  lemma BeforeFormat(data: seq<Byte>, version: nat)
    requires 1 <= version <= 40 && |data| <= version
    ensures Decode(FinalBits(data, version)) == Some(data)
  {
    FinalDecodesIff(data, version);
    FirstModule(version, 12 + 8 * version);
    forall k | 0 <= k < 12 + 8 * |data|
      ensures k < |DataModules(version)| && FinalBit(data, version, k) == DataBit(data, k)
    {
      FirstModule(version, k);
      AboveFormat(version, k);
    }
  }

  lemma AboveFormat(version: nat, k: nat)
    requires version >= 1 && k < 16 + 8 * version
    ensures !InFormat(Size(version), SweepCell(Size(version), 0, k))
  {
    assert k / 2 < Size(version) - 9 && 0 <= k % 2 <= 1;
  }

  /** There it writes 1 and 0, and a string that wants anything else is lost. */
  lemma ByteMustFit(data: seq<Byte>, version: nat)
    requires 1 <= version <= 40 && |data| > version && SurvivesFormat(data, version)
    ensures data[version] / 8 % 2 == 1 && data[version] / 4 % 2 == 0
  {
    FirstTaken(version);
    FirstTakenBits(data, version);
    SurvivesAt(data, version, 16 + 8 * version);
    SurvivesAt(data, version, 17 + 8 * version);
    StreamThere(data, version);
  }

  lemma StreamThere(data: seq<Byte>, i: nat)
    requires i < |data|
    ensures DataBit(data, 16 + 8 * i) == (data[i] / 8 % 2 == 1)
    ensures DataBit(data, 17 + 8 * i) == (data[i] / 4 % 2 == 1)
  {
    ByteBit(data, i, 4);
    ByteBit(data, i, 5);
    ByteBits(data[i]);
  }

  lemma SurvivesAt(data: seq<Byte>, version: nat, k: nat)
    requires version >= 1 && SurvivesFormat(data, version) && k < 12 + 8 * |data|
    ensures FinalBit(data, version, k) == DataBit(data, k)
  {
  }

  lemma FirstTakenBits(data: seq<Byte>, version: nat)
    requires 1 <= version <= 40 && 18 + 8 * version <= |DataModules(version)|
    requires DataModules(version)[16 + 8 * version] == Cell(8, Size(version) - 1)
    requires DataModules(version)[17 + 8 * version] == Cell(8, Size(version) - 2)
    ensures FinalBit(data, version, 16 + 8 * version) && !FinalBit(data, version, 17 + 8 * version)
  {
    FormatInCorner(version);
  }

  /** The last two format bits are white; the mask would have flipped the first of them. */
  lemma FormatInCorner(version: nat)
    requires version >= 1
    ensures var size := Size(version);
      && InFormat(size, Cell(8, size - 1)) && !FormatBlack(size, Cell(8, size - 1)) && MaskBit(Cell(8, size - 1))
      && InFormat(size, Cell(8, size - 2)) && !FormatBlack(size, Cell(8, size - 2)) && !MaskBit(Cell(8, size - 2))
  {
    var size := Size(version);
    assert FormatIndex(size, Cell(8, size - 1)) == 14 && FormatIndex(size, Cell(8, size - 2)) == 13;
    OddNumber(2 * version + 11);
    assert 8 + (size - 2) == 2 * (2 * version + 11) + 1;
  }

  lemma ByteBits(b: Byte)
    ensures BitsOf(b, 8)[4] == (b / 8 % 2 == 1) && BitsOf(b, 8)[5] == (b / 4 % 2 == 1)
  {
    ShiftPicksBit(b, 8, 3);
    ShiftPicksBit(b, 8, 2);
    assert Pow2(3) == 8 && Pow2(2) == 4;
  }

  const HTTP: seq<Byte> := [0x68, 0x74, 0x74, 0x70]

  /** No web address of at most 53 bytes is read back from its symbol. */
  lemma WebAddressLost(data: seq<Byte>, version: nat)
    requires IsVersionFor(version, |data|) && 4 <= |data| <= 53 && data[..4] == HTTP
    ensures Decode(FinalBits(data, version)) != Some(data)
  {
    SmallVersion(version, |data|);
    assert data[version] == data[..4][version] == HTTP[version];
    HttpBits(version);
    ByteLost(data, version);
  }

  lemma ByteLost(data: seq<Byte>, version: nat)
    requires 1 <= version <= 40 && |data| > version
    requires data[version] / 8 % 2 == 0 || data[version] / 4 % 2 == 1
    ensures Decode(FinalBits(data, version)) != Some(data)
  {
    FinalDecodesIff(data, version);
    if SurvivesFormat(data, version) {
      ByteMustFit(data, version);
    }
  }

  lemma HttpBits(i: nat)
    requires 1 <= i <= 3
    ensures HTTP[i] / 8 % 2 == 0
  {
    assert HTTP[1] == 0x74 && HTTP[2] == 0x74 && HTTP[3] == 0x70;
  }

  lemma SmallVersion(version: nat, dataLen: nat)
    requires IsVersionFor(version, dataLen) && dataLen <= 53
    ensures 1 <= version <= 3
  {
    assert CAPACITIES[3..] == [53, 78, 106, 134, 154, 192, 230, 271, 321, 367, 425, 458, 520, 586];
  }
}
