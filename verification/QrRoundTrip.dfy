/** What a reader gets back from the data modules of a symbol. */
module QrRoundTrip {
  import opened Wrappers
  import opened Numbers
  import opened QrBits
  import opened QrCapacity

  /** The k-th data module, once the mask is off: a bit of the padded stream, or white. */
  ghost predicate SymbolBit(data: seq<Byte>, version: nat, k: nat) {
    k < Budget(version) && Padded(DataBits(data), version)[k]
  }

  /** The bits in the first data modules of a symbol. */
  ghost function SymbolBits(data: seq<Byte>, version: nat, count: nat): seq<bool> {
    seq(count, k requires 0 <= k => SymbolBit(data, version, k))
  }

  /** The decoder: a 4-bit mode, an 8-bit length, and as many bytes. */
  function Decode(bits: seq<bool>): Option<seq<Byte>> {
    if |bits| < 12 || FromBits(bits[..4]) != 4 then None
    else
      var length := FromBits(bits[4..12]);
      if |bits| < 12 + 8 * length then None
      else Some(seq(length, i requires 0 <= i < length => DecodeByte(bits, i)))
  }

  function DecodeByte(bits: seq<bool>, i: nat): Byte
    requires 12 + 8 * i + 8 <= |bits|
  {
    FromBitsBound(bits[12 + 8 * i..20 + 8 * i]);
    FromBits(bits[12 + 8 * i..20 + 8 * i])
  }

  lemma {:induction false} FromBitsBound(bits: seq<bool>)
    ensures FromBits(bits) < Pow2(|bits|)
    ensures |bits| == 8 ==> FromBits(bits) < 256
  {
    if bits != [] {
      FromBitsBound(bits[..|bits| - 1]);
    }
    Pow2Of8();
  }

  lemma Pow2Of8()
    ensures Pow2(8) == 256 && Pow2(4) == 16
  {
    assert Pow2(4) == 16;
    assert Pow2(6) == 64;
  }

  /** The number of whole bytes that fit between the header and the budget. */
  function Room(version: nat): nat {
    14 + 16 * version
  }

  /** What the budget leaves of byte i: everything, the upper half, or nothing. */
  function Surviving(data: seq<Byte>, version: nat, i: nat): Byte
    requires i < |data|
  {
    if i < Room(version) then data[i]
    else if i == Room(version) then data[i] / 16 * 16
    else 0
  }

  // ------------------------------------------------------- cutting a byte in half

  function Zeros(n: nat): seq<bool> {
    seq(n, _ => false)
  }

  lemma {:induction false} TrailingZeros(bits: seq<bool>, n: nat)
    ensures FromBits(bits + Zeros(n)) == FromBits(bits) * Pow2(n)
  {
    if n == 0 {
      assert bits + Zeros(n) == bits;
    } else {
      var all := bits + Zeros(n);
      assert all[..|all| - 1] == bits + Zeros(n - 1);
      TrailingZeros(bits, n - 1);
      assert FromBits(bits) * Pow2(n) == 2 * (FromBits(bits) * Pow2(n - 1));
    }
  }

  lemma HalvedOnce(x: nat, n: nat)
    requires n > 0
    ensures x / Pow2(n) == x / 2 / Pow2(n - 1)
  {
    HalfMod(x, Pow2(n - 1));
  }

  lemma FirstBits(x: nat, width: nat, k: nat)
    requires k < width
    ensures BitsOf(x, width)[..k] == BitsOf(x / 2, width - 1)[..k]
  {
  }

  /** Leaving off the last n bits divides by two n times. */
  lemma {:induction false} LeadingBits(x: nat, width: nat, n: nat)
    requires n <= width
    ensures BitsOf(x, width)[..width - n] == BitsOf(x / Pow2(n), width - n)
  {
    if n == 0 {
      assert BitsOf(x, width)[..width] == BitsOf(x, width);
    } else {
      LeadingBits(x / 2, width - 1, n - 1);
      HalvedOnce(x, n);
      FirstBits(x, width, width - n);
    }
  }

  /** A number of which the first kept bits survive and the rest reads as zero. */
  lemma CutBits(x: nat, width: nat, bits: seq<bool>, kept: nat)
    requires |bits| == width && kept <= width
    requires forall j | 0 <= j < width :: bits[j] == (j < kept && BitsOf(x, width)[j])
    ensures FromBits(bits) == x / Pow2(width - kept) % Pow2(kept) * Pow2(width - kept)
  {
    assert bits == BitsOf(x, width)[..kept] + Zeros(width - kept);
    LeadingBits(x, width, width - kept);
    TrailingZeros(BitsOf(x, width)[..kept], width - kept);
    BitsRoundTrip(x / Pow2(width - kept), kept);
  }

  lemma CutByteCases(b: Byte)
    ensures b / Pow2(0) % Pow2(8) * Pow2(0) == b
    ensures b / Pow2(4) % Pow2(4) * Pow2(4) == b / 16 * 16
    ensures b / Pow2(8) % Pow2(0) * Pow2(8) == 0
  {
    Pow2Of8();
  }

  lemma StreamBit(data: seq<Byte>, version: nat, i: nat, j: nat)
    requires i < |data| && j < 8
    ensures SymbolBit(data, version, 12 + 8 * i + j) == (12 + 8 * i + j < Budget(version) && BitsOf(data[i], 8)[j])
  {
    assert (8 * i + j) / 8 == i && (8 * i + j) % 8 == j;
  }

  /** Byte i of the symbol is what the budget leaves of byte i of the string. */
  lemma ByteSurvives(data: seq<Byte>, version: nat, count: nat, i: nat)
    requires i < |data| && 20 + 8 * i <= count
    ensures DecodeByte(SymbolBits(data, version, count), i) == Surviving(data, version, i)
  {
    var bits := SymbolBits(data, version, count)[12 + 8 * i..20 + 8 * i];
    var kept := if i < Room(version) then 8 else if i == Room(version) then 4 else 0;
    forall j | 0 <= j < 8
      ensures bits[j] == (j < kept && BitsOf(data[i], 8)[j])
    {
      StreamBit(data, version, i, j);
    }
    CutBits(data[i], 8, bits, kept);
    CutByteCases(data[i]);
  }

  lemma HeaderSurvives(data: seq<Byte>, version: nat, count: nat)
    requires count >= 12
    ensures FromBits(SymbolBits(data, version, count)[..4]) == 4
    ensures FromBits(SymbolBits(data, version, count)[4..12]) == |data| % 256
  {
    var bits := SymbolBits(data, version, count);
    assert bits[..4] == [false, true, false, false];
    assert bits[..4] == BitsOf(4, 4);
    BitsRoundTrip(4, 4);
    assert bits[4..12] == BitsOf(|data|, 8);
    BitsRoundTrip(|data|, 8);
    Pow2Of8();
  }

  /** The bytes a reader finds. */
  function Readable(data: seq<Byte>, version: nat): seq<Byte> {
    seq(|data| % 256, i requires 0 <= i < |data| => Surviving(data, version, i))
  }

  /** For every string: the reader finds its length modulo 256 and what the budget leaves of its bytes. */
  lemma DecodedSymbol(data: seq<Byte>, version: nat, count: nat)
    requires count >= 12 + 8 * (|data| % 256)
    ensures Decode(SymbolBits(data, version, count)) == Some(Readable(data, version))
  {
    var bits := SymbolBits(data, version, count);
    HeaderSurvives(data, version, count);
    forall i | 0 <= i < |data| % 256
      ensures DecodeByte(bits, i) == Surviving(data, version, i)
    {
      ByteSurvives(data, version, count, i);
    }
    DecodeParts(bits, Readable(data, version));
  }

  lemma DecodeParts(bits: seq<bool>, bytes: seq<Byte>)
    requires |bits| >= 12 + 8 * |bytes|
    requires FromBits(bits[..4]) == 4 && FromBits(bits[4..12]) == |bytes|
    requires forall i | 0 <= i < |bytes| :: DecodeByte(bits, i) == bytes[i]
    ensures Decode(bits) == Some(bytes)
  {
    assert Decode(bits).value == bytes;
  }

  /** The strings that fit: at most 255 bytes, and nothing but zeros where the budget cuts. */
  predicate Fits(data: seq<Byte>, version: nat) {
    && |data| <= 255
    && (|data| > Room(version) ==> data[Room(version)] % 16 == 0)
    && forall i | Room(version) < i < |data| :: data[i] == 0
  }

  lemma ReadableIffFits(data: seq<Byte>, version: nat)
    ensures Readable(data, version) == data <==> Fits(data, version)
  {
    if |data| <= 255 {
      forall i | 0 <= i < |data|
        ensures Surviving(data, version, i) == data[i] <==>
          i < Room(version) || (if i == Room(version) then data[i] % 16 == 0 else data[i] == 0)
      {
      }
      if Readable(data, version) == data {
        assert forall i | 0 <= i < |data| :: data[i] == Readable(data, version)[i];
      }
    }
  }

  /** A symbol, read over all of its data modules, gives back exactly the strings that fit. */
  lemma ReadBackIffFits(data: seq<Byte>, version: nat)
    requires IsVersionFor(version, |data|)
    ensures Decode(SymbolBits(data, version, |DataModules(version)|)) == Some(data) <==> Fits(data, version)
  {
    EnoughModules(version, |data|);
    DecodedSymbol(data, version, |DataModules(version)|);
    ReadableIffFits(data, version);
  }

  /** The lengths at which every string fits: those of up to 94 bytes, and 107 to 110. */
  lemma ShortStringsFit(length: nat, version: nat)
    requires IsVersionFor(version, length)
    ensures (forall data: seq<Byte> | |data| == length :: Fits(data, version)) <==> length <= 94 || 107 <= length <= 110
  {
    RoomFor(length, version);
    if length > Room(version) {
      var data := Letters(length);
      assert |data| == length && data[Room(version)] == 97 && !Fits(data, version);
    }
  }

  lemma RoomFor(length: nat, version: nat)
    requires IsVersionFor(version, length)
    ensures length <= Room(version) <==> length <= 94 || 107 <= length <= 110
  {
    assert CAPACITIES[1..] == [17, 32, 53, 78, 106, 134, 154, 192, 230, 271, 321, 367, 425, 458, 520, 586];
  }

  /** As many bytes of the letter a. */
  function Letters(length: nat): seq<Byte> {
    seq(length, _ => 97)
  }

  /** The shortest length at which a string is lost: 95 letters get a symbol of version 5, from which
      they are not read back. */
  lemma NinetyFiveLost()
    ensures var data := Letters(95);
      IsVersionFor(5, |data|) && Decode(SymbolBits(data, 5, |DataModules(5)|)) != Some(data)
  {
    var data := Letters(95);
    assert CAPACITIES[4] == 78 && CAPACITIES[5] == 106;
    assert data[Room(5)] == 97;
    ReadBackIffFits(data, 5);
  }
}
