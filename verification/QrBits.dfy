/** The bit stream of a symbol: byte mode header, data and padding, and its decoder. */
module QrBits {
  import opened Numbers

  type Byte = x: int | 0 <= x < 256

  // ------------------------------------------------------------------- bit strings

  /** The low bits of a number, most significant first. */
  function BitsOf(x: nat, width: nat): (bits: seq<bool>)
    ensures |bits| == width
  {
    if width == 0 then [] else BitsOf(x / 2, width - 1) + [x % 2 == 1]
  }

  /** The number written by a bit string. */
  function FromBits(bits: seq<bool>): nat {
    if bits == [] then 0
    else 2 * FromBits(bits[..|bits| - 1]) + if bits[|bits| - 1] then 1 else 0
  }

  lemma {:induction false} BitsRoundTrip(x: nat, width: nat)
    ensures FromBits(BitsOf(x, width)) == x % Pow2(width)
  {
    if width > 0 {
      BitsRoundTrip(x / 2, width - 1);
      var bits := BitsOf(x, width);
      assert bits[..width - 1] == BitsOf(x / 2, width - 1);
      HalfMod(x, Pow2(width - 1));
    }
  }

  /** Shifting right by i and masking with 1 picks the i-th bit from the end. */
  lemma {:induction false} ShiftPicksBit(x: nat, width: nat, i: nat)
    requires i < width
    ensures BitsOf(x, width)[width - 1 - i] == ((x / Pow2(i)) % 2 == 1)
  {
    if i > 0 {
      ShiftPicksBit(x / 2, width - 1, i - 1);
      HalfMod(x, Pow2(i - 1));
    }
  }

  // -------------------------------------------------------------------- the stream

  const CAPACITIES: seq<nat> := [0, 17, 32, 53, 78, 106, 134, 154, 192, 230, 271, 321, 367, 425, 458, 520, 586]

  /** The smallest version whose tabulated capacity admits the length, and 10 for anything longer. */
  ghost predicate IsVersionFor(version: nat, dataLen: nat) {
    if dataLen <= 586 then
      1 <= version <= 16 && dataLen <= CAPACITIES[version] && (version > 1 ==> CAPACITIES[version - 1] < dataLen)
    else version == 10
  }

  /** The version for this many bytes, in figures. */
  function VersionShown(dataLen: nat): nat {
    if dataLen <= 17 then 1 else if dataLen <= 32 then 2 else if dataLen <= 53 then 3 else if dataLen <= 78 then 4
    else if dataLen <= 106 then 5 else if dataLen <= 134 then 6 else if dataLen <= 154 then 7
    else if dataLen <= 192 then 8 else if dataLen <= 230 then 9 else if dataLen <= 271 then 10
    else if dataLen <= 321 then 11 else if dataLen <= 367 then 12 else if dataLen <= 425 then 13
    else if dataLen <= 458 then 14 else if dataLen <= 520 then 15 else if dataLen <= 586 then 16 else 10
  }

  /** It is the version that the table of capacities gives. */
  lemma VersionFigures(version: nat, dataLen: nat)
    requires IsVersionFor(version, dataLen)
    ensures version == VersionShown(dataLen)
  {
    assert CAPACITIES[..9] == [0, 17, 32, 53, 78, 106, 134, 154, 192];
    assert CAPACITIES[9..] == [230, 271, 321, 367, 425, 458, 520, 586];
  }

  method SelectVersion(dataLen: nat) returns (version: nat)
    ensures IsVersionFor(version, dataLen)
    ensures version == VersionShown(dataLen)
  {
    for v := 1 to |CAPACITIES|
      invariant v > 1 ==> CAPACITIES[v - 1] < dataLen
    {
      if dataLen <= CAPACITIES[v] {
        VersionFigures(v, dataLen);
        return v;
      }
    }
    VersionFigures(10, dataLen);
    return 10;
  }

  /** Mode 0100, an 8-bit length, the bytes, and a terminator that fills the last half byte. */
  function DataBit(data: seq<Byte>, k: nat): bool
    requires k < 16 + 8 * |data|
  {
    if k < 4 then k == 1
    else if k < 12 then BitsOf(|data|, 8)[k - 4]
    else if k < 12 + 8 * |data| then BitsOf(data[(k - 12) / 8], 8)[(k - 12) % 8]
    else false
  }

  function DataBits(data: seq<Byte>): seq<bool> {
    seq(16 + 8 * |data|, k requires 0 <= k < 16 + 8 * |data| => DataBit(data, k))
  }

  /** The loop that appends the eight bits of a number by shifting and masking. */
  method AppendByte(prefix: seq<bool>, x: nat) returns (bits: seq<bool>)
    ensures bits == prefix + BitsOf(x, 8)
  {
    bits := prefix;
    var i := 7;
    while i >= 0
      invariant -1 <= i <= 7
      invariant bits == prefix + BitsOf(x, 8)[..7 - i]
    {
      ShiftPicksBit(x, 8, i);
      bits := bits + [(x / Pow2(i)) % 2 == 1];
      i := i - 1;
    }
  }

  /** The stream up to some bit. */
  ghost predicate IsStream(bits: seq<bool>, data: seq<Byte>) {
    |bits| <= 16 + 8 * |data| && forall k | 0 <= k < |bits| :: bits[k] == DataBit(data, k)
  }

  lemma Header(data: seq<Byte>)
    ensures IsStream([false, true, false, false] + BitsOf(|data|, 8), data)
  {
  }

  lemma NextByte(bits: seq<bool>, data: seq<Byte>, j: nat)
    requires j < |data| && IsStream(bits, data) && |bits| == 12 + 8 * j
    ensures IsStream(bits + BitsOf(data[j], 8), data)
  {
    forall i | 0 <= i < 8
      ensures BitsOf(data[j], 8)[i] == DataBit(data, 12 + 8 * j + i)
    {
      assert (8 * j + i) / 8 == j && (8 * j + i) % 8 == i;
    }
  }

  lemma NextZero(bits: seq<bool>, data: seq<Byte>)
    requires IsStream(bits, data) && 12 + 8 * |data| <= |bits| < 16 + 8 * |data|
    ensures IsStream(bits + [false], data)
  {
  }

  /** A bit of a byte by its weight. */
  lemma BitByWeight(x: nat, j: nat)
    requires j < 8
    ensures BitsOf(x, 8)[j] == (x / [128, 64, 32, 16, 8, 4, 2, 1][j] % 2 == 1)
  {
    ShiftPicksBit(x, 8, 7 - j);
    assert Pow2(4) == 16 && Pow2(1) == 2 && Pow2(2) == 4 && Pow2(3) == 8;
    assert Pow2(5) == 32 && Pow2(6) == 64 && Pow2(7) == 128;
  }

  /** The stream in figures: 0100, the length, the bytes, each from its highest bit, and 0000. */
  lemma StreamFigures(data: seq<Byte>)
    ensures var bits, weights := DataBits(data), [128, 64, 32, 16, 8, 4, 2, 1];
      && |bits| == 16 + 8 * |data|
      && !bits[0] && bits[1] && !bits[2] && !bits[3]
      && (forall k | 4 <= k < 12 :: bits[k] == (|data| / weights[k - 4] % 2 == 1))
      && (forall k | 12 <= k < 12 + 8 * |data| :: bits[k] == (data[(k - 12) / 8] / weights[(k - 12) % 8] % 2 == 1))
      && (forall k | 12 + 8 * |data| <= k < |bits| :: !bits[k])
  {
    var bits, weights := DataBits(data), [128, 64, 32, 16, 8, 4, 2, 1];
    forall k | 4 <= k < 12
      ensures bits[k] == (|data| / weights[k - 4] % 2 == 1)
    {
      BitByWeight(|data|, k - 4);
    }
    forall k | 12 <= k < 12 + 8 * |data|
      ensures bits[k] == (data[(k - 12) / 8] / weights[(k - 12) % 8] % 2 == 1)
    {
      BitByWeight(data[(k - 12) / 8], (k - 12) % 8);
    }
  }

  method EncodeData(data: seq<Byte>) returns (bits: seq<bool>)
    ensures bits == DataBits(data)
    ensures |bits| == 16 + 8 * |data| && !bits[0] && bits[1] && !bits[2] && !bits[3]
    ensures forall k | 4 <= k < 12 :: bits[k] == (|data| / [128, 64, 32, 16, 8, 4, 2, 1][k - 4] % 2 == 1)
    ensures forall k | 12 <= k < 12 + 8 * |data| ::
      bits[k] == (data[(k - 12) / 8] / [128, 64, 32, 16, 8, 4, 2, 1][(k - 12) % 8] % 2 == 1)
    ensures forall k | 12 + 8 * |data| <= k < |bits| :: !bits[k]
  {
    StreamFigures(data);
    bits := AppendByte([false, true, false, false], |data|);
    Header(data);
    for j := 0 to |data|
      invariant IsStream(bits, data) && |bits| == 12 + 8 * j
    {
      NextByte(bits, data, j);
      bits := AppendByte(bits, data[j]);
    }
    var i := 0;
    while i < 4 && |bits| < 128
      invariant 0 <= i <= 4 && |bits| == 12 + 8 * |data| + i && IsStream(bits, data)
    {
      NextZero(bits, data);
      bits := bits + [false];
      i := i + 1;
    }
    while |bits| % 8 != 0
      invariant 12 + 8 * |data| <= |bits| <= 16 + 8 * |data| && IsStream(bits, data)
      decreases 16 + 8 * |data| - |bits|
    {
      NextZero(bits, data);
      bits := bits + [false];
    }
  }

  /** The number of bits of a symbol that carry data or padding. */
  function Budget(version: nat): nat {
    128 * (version + 1)
  }

  /** Pad codewords alternate between 0xEC and 0x11. */
  function PadWord(n: nat): (word: seq<bool>)
    ensures |word| == 8
  {
    BitsOf(if n % 2 == 0 then 0xEC else 0x11, 8)
  }

  function PadBit(k: nat): bool {
    PadWord(k / 8)[k % 8]
  }

  /** The stream cut or padded to the budget. */
  function Padded(bits: seq<bool>, version: nat): (padded: seq<bool>)
    ensures |padded| == Budget(version)
  {
    seq(Budget(version), k requires 0 <= k => if k < |bits| then bits[k] else PadBit(k - |bits|))
  }

  /** A prefix of the padded stream: the data, then pad codewords. */
  ghost predicate IsPadding(padded: seq<bool>, data: seq<bool>) {
    |padded| >= |data| && forall k | 0 <= k < |padded| ::
      padded[k] == if k < |data| then data[k] else PadBit(k - |data|)
  }

  const FIRST_PAD := [true, true, true, false, true, true, false, false]
  const SECOND_PAD := [false, false, false, true, false, false, false, true]

  lemma NextPad(padded: seq<bool>, data: seq<bool>, n: nat)
    requires IsPadding(padded, data) && |padded| == |data| + 8 * n
    ensures IsPadding(padded + if n % 2 == 0 then FIRST_PAD else SECOND_PAD, data)
  {
    FirstCodeword();
    SecondCodeword();
    PadWordNext(padded, data, n, PadWord(n));
  }

  lemma PadWordNext(padded: seq<bool>, data: seq<bool>, n: nat, word: seq<bool>)
    requires IsPadding(padded, data) && |padded| == |data| + 8 * n && word == PadWord(n)
    ensures IsPadding(padded + word, data)
  {
    var more := padded + word;
    forall k | |padded| <= k < |more|
      ensures more[k] == PadBit(k - |data|)
    {
      PadAt(n, k - |padded|);
    }
  }

  lemma PadAt(n: nat, i: nat)
    requires i < 8
    ensures PadBit(8 * n + i) == PadWord(n)[i]
  {
    assert (8 * n + i) / 8 == n && (8 * n + i) % 8 == i;
  }

  lemma FirstCodeword()
    ensures BitsOf(0xEC, 8) == FIRST_PAD
  {
    assert BitsOf(14, 4) == [true, true, true, false];
    assert BitsOf(59, 6) == [true, true, true, false, true, true];
  }

  lemma SecondCodeword()
    ensures BitsOf(0x11, 8) == SECOND_PAD
  {
    assert BitsOf(1, 4) == [false, false, false, true];
    assert BitsOf(4, 6) == [false, false, false, true, false, false];
  }

  lemma CutPadding(padded: seq<bool>, data: seq<bool>, version: nat)
    requires IsPadding(padded, data) && |padded| >= Budget(version)
    ensures padded[..Budget(version)] == Padded(data, version)
  {
  }

  /** The bits of 0xEC and 0x11 in turn: the ones among each sixteen. */
  predicate PadInk(k: nat) {
    k % 16 in {0, 1, 2, 4, 5, 11, 15}
  }

  lemma PadWordShown(n: nat, i: nat)
    requires i < 8
    ensures PadWord(n)[i] == PadInk(8 * n + i)
  {
    FirstCodeword();
    SecondCodeword();
    assert (8 * n + i) % 16 == 8 * (n % 2) + i;
  }

  lemma PaddingFigures(data: seq<bool>, version: nat)
    ensures var padded := Padded(data, version);
      && |padded| == 128 * version + 128
      && (forall k | 0 <= k < |padded| && k < |data| :: padded[k] == data[k])
      && (forall k | |data| <= k < |padded| :: padded[k] == PadInk(k - |data|))
  {
    var padded := Padded(data, version);
    forall k | |data| <= k < |padded|
      ensures padded[k] == PadInk(k - |data|)
    {
      PadWordShown((k - |data|) / 8, (k - |data|) % 8);
    }
  }

  method AddEcc(data: seq<bool>, version: nat) returns (padded: seq<bool>)
    ensures padded == Padded(data, version)
    ensures |padded| == 128 * version + 128
    ensures forall k | 0 <= k < |padded| && k < |data| :: padded[k] == data[k]
    ensures forall k | |data| <= k < |padded| :: padded[k] == PadInk(k - |data|)
  {
    var totalBits := (16 + version * 16) * 8;
    padded := data;
    ghost var n := 0;
    while |padded| < totalBits
      invariant IsPadding(padded, data) && |padded| == |data| + 8 * n
      invariant |padded| < totalBits ==> n % 2 == 0
      decreases totalBits - |padded|
    {
      NextPad(padded, data, n);
      padded := padded + FIRST_PAD;
      if |padded| >= totalBits {
        break;
      }
      NextPad(padded, data, n + 1);
      padded := padded + SECOND_PAD;
      n := n + 2;
    }
    CutPadding(padded, data, version);
    PaddingFigures(data, version);
    if |padded| > totalBits {
      padded := padded[..totalBits];
    }
  }
}
