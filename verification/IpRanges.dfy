/** Which addresses a short link may not point to: a table of CIDR ranges scanned by masked equality. */
module IpRanges {
  import opened Numbers

  type Byte = x: int | 0 <= x < 256

  /** Four bytes for IPv4, sixteen for IPv6. */
  type Ip = seq<Byte>

  // ------------------------------------------------------------ addresses as numbers

  function Pow256(n: nat): (p: nat)
    ensures p >= 1
  {
    if n == 0 then 1 else 256 * Pow256(n - 1)
  }

  function Number(bytes: seq<Byte>): (n: nat)
    ensures n < Pow256(|bytes|)
  {
    if bytes == [] then 0
    else
      HeadBound(bytes[0], Pow256(|bytes| - 1), Number(bytes[1..]));
      (bytes[0]) * Pow256(|bytes| - 1) + Number(bytes[1..])
  }

  lemma HeadBound(head: nat, p: nat, tail: nat)
    requires head < 256 && tail < p
    ensures head * p + tail < 256 * p
  {
    assert (255 - head) * p >= 0;
  }

  // --------------------------------------------------------------------- the masks

  /** Bitwise conjunction of two numbers. */
  function And(x: nat, y: nat): (z: nat)
    ensures z <= x && z <= y
  {
    if x == 0 || y == 0 then 0 else (x % 2) * (y % 2) + 2 * And(x / 2, y / 2)
  }

  lemma {:induction false} AndOnes(x: nat, width: nat)
    requires x < Pow2(width)
    ensures And(x, Pow2(width) - 1) == x
  {
    if x > 0 {
      assert Pow2(width) == 2 * Pow2(width - 1);
      assert (Pow2(width) - 1) % 2 == 1 && (Pow2(width) - 1) / 2 == Pow2(width - 1) - 1;
      AndOnes(x / 2, width - 1);
    }
  }

  /** A mask of leading ones clears the n low bits and keeps the others. */
  lemma {:induction false} AndLeadingOnes(x: nat, width: nat, n: nat)
    requires x < Pow2(width) && n <= width
    ensures Pow2(n) <= Pow2(width)
    ensures And(x, Pow2(width) - Pow2(n)) == x / Pow2(n) * Pow2(n)
  {
    if n == 0 {
      AndOnes(x, width);
    } else {
      var p := Pow2(n - 1);
      AndLeadingOnes(x / 2, width - 1, n - 1);
      EvenMask(x, Pow2(width - 1) - p);
      assert And(x, Pow2(width) - Pow2(n)) == 2 * (x / 2 / p * p);
      Doubled(x, p);
    }
  }

  lemma Doubled(x: nat, p: nat)
    requires p >= 1
    ensures x / (2 * p) * (2 * p) == 2 * (x / 2 / p * p)
  {
    HalfMod(x, p);
    var q := x / 2 / p;
    assert q * (2 * p) == 2 * (q * p);
  }

  lemma EvenMask(x: nat, mask: nat)
    ensures And(x, 2 * mask) == 2 * And(x / 2, mask)
  {
    if x > 0 && mask > 0 {
      assert (2 * mask) % 2 == 0 && (2 * mask) / 2 == mask;
    }
  }

  /** The mask byte that keeps this many leading bits. */
  function MaskByte(bits: nat): (mask: Byte)
    requires bits <= 8
  {
    PowersOf2();
    256 - Pow2(8 - bits)
  }

  lemma PowersOf2()
    ensures forall n: nat | n <= 8 :: Pow2(n) <= 256
    ensures Pow2(8) == 256 && Pow2(0) == 1
  {
    assert Pow2(4) == 16;
    assert Pow2(6) == 64;
    forall n: nat | n <= 8
      ensures Pow2(n) <= 256
    {
      AndLeadingOnes(0, 8, n);
    }
  }

  /** The first mask byte of a prefix that ends inside it. */
  function FirstMask(prefix: int): Byte
    requires prefix < 8
  {
    MaskByte(if prefix < 0 then 0 else prefix)
  }

  function MaskAt(prefix: int, i: nat): Byte {
    var bits := prefix - 8 * i;
    MaskByte(if bits <= 0 then 0 else if bits >= 8 then 8 else bits)
  }

  /** ParseCIDR hands out the network address: nothing is set beyond the prefix. */
  predicate Canonical(address: seq<Byte>, prefix: int) {
    forall i | 0 <= i < |address| :: And(address[i], MaskAt(prefix, i)) == address[i]
  }

  predicate MaskedEqual(address: seq<Byte>, prefix: int, ip: seq<Byte>)
    requires |address| == |ip|
  {
    forall i | 0 <= i < |ip| :: And(address[i], MaskAt(prefix, i)) == And(ip[i], MaskAt(prefix, i))
  }

  /** The number of addresses in a network. */
  function NetworkSize(width: nat, prefix: int): (size: nat)
    ensures size >= 1
  {
    if width == 0 || prefix >= 8 * width then 1
    else if prefix >= 8 then NetworkSize(width - 1, prefix - 8)
    else Pow2(8 - if prefix < 0 then 0 else prefix) * Pow256(width - 1)
  }

  lemma BlockStart(a: nat, b: nat, block: nat)
    requires block >= 1 && a == a / block * block
    ensures a == b / block * block <==> a <= b < a + block
  {
    InBlock(b, block, a / block);
    InBlock(b, block, b / block);
  }

  lemma KeptBits(b: Byte, bits: nat)
    requires bits <= 8
    ensures And(b, MaskByte(bits)) == b / Pow2(8 - bits) * Pow2(8 - bits)
  {
    KeptUnder(b, MaskByte(bits), 8 - bits);
  }

  lemma KeptUnder(b: Byte, mask: Byte, n: nat)
    requires n <= 8 && mask == 256 - Pow2(n)
    ensures And(b, mask) == b / Pow2(n) * Pow2(n)
  {
    PowersOf2();
    AndLeadingOnes(b, 8, n);
  }

  /** Keeping the leading bits of a byte means lying in the block that starts at the masked value. */
  lemma ByteBlock(a: Byte, b: Byte, bits: nat)
    requires bits <= 8 && And(a, MaskByte(bits)) == a
    ensures a == And(b, MaskByte(bits)) <==> a <= b < a + Pow2(8 - bits)
    ensures a + Pow2(8 - bits) <= 256
  {
    KeptBits(a, bits);
    KeptBits(b, bits);
    BlockOf(a, b, Pow2(8 - bits), And(b, MaskByte(bits)));
    BlockEnds(a, Pow2(8 - bits), 8 - bits);
  }

  lemma BlockOf(a: nat, b: nat, block: nat, kept: nat)
    requires block >= 1 && a == a / block * block && kept == b / block * block
    ensures a == kept <==> a <= b < a + block
  {
    BlockStart(a, b, block);
  }

  lemma BlockEnds(a: Byte, block: nat, n: nat)
    requires n <= 8 && block == Pow2(n) && a == a / block * block
    ensures a + block <= 256
  {
    BlockFits(a / block, n);
  }

  lemma BlockFits(q: nat, n: nat)
    requires n <= 8 && q * Pow2(n) < 256
    ensures q * Pow2(n) + Pow2(n) <= 256
  {
    PowersOf2();
    PowersSplit(8, n);
    BlockFitsIn(q, Pow2(n), Pow2(8 - n), 256);
  }

  lemma BlockFitsIn(q: nat, block: nat, blocks: nat, total: nat)
    requires blocks * block == total && q * block < total
    ensures q * block + block <= total
  {
    if q >= blocks {
      Scaled(blocks, q, block);
    } else {
      Scaled(q + 1, blocks, block);
    }
  }

  lemma {:induction false} PowersSplit(m: nat, n: nat)
    requires n <= m
    ensures Pow2(m - n) * Pow2(n) == Pow2(m)
  {
    if n < m {
      PowersSplit(m - 1, n);
      assert Pow2(m - n) * Pow2(n) == 2 * (Pow2(m - 1 - n) * Pow2(n));
    }
  }

  lemma ZeroAddress(address: seq<Byte>, prefix: int)
    requires prefix <= 0 && Canonical(address, prefix)
    ensures Number(address) == 0
  {
    if address != [] {
      assert And(address[0], MaskAt(prefix, 0)) == address[0];
      TailCanonical(address, prefix);
      ZeroAddress(address[1..], prefix - 8);
    }
  }

  lemma TailCanonical(address: seq<Byte>, prefix: int)
    requires address != [] && Canonical(address, prefix)
    ensures Canonical(address[1..], prefix - 8)
  {
    forall i | 0 <= i < |address| - 1
      ensures And(address[1..][i], MaskAt(prefix - 8, i)) == address[1..][i]
    {
      assert MaskAt(prefix - 8, i) == MaskAt(prefix, i + 1);
      assert And(address[i + 1], MaskAt(prefix, i + 1)) == address[i + 1];
    }
  }

  lemma TailMaskedEqual(address: seq<Byte>, prefix: int, ip: seq<Byte>)
    requires |address| == |ip| && ip != []
    ensures MaskedEqual(address, prefix, ip)
       <==> And(address[0], MaskAt(prefix, 0)) == And(ip[0], MaskAt(prefix, 0))
            && MaskedEqual(address[1..], prefix - 8, ip[1..])
  {
    forall i | 0 <= i < |ip| - 1
      ensures And(address[1..][i], MaskAt(prefix - 8, i)) == And(ip[1..][i], MaskAt(prefix - 8, i))
         <==> And(address[i + 1], MaskAt(prefix, i + 1)) == And(ip[i + 1], MaskAt(prefix, i + 1))
    {
      assert MaskAt(prefix - 8, i) == MaskAt(prefix, i + 1);
    }
    if MaskedEqual(address[1..], prefix - 8, ip[1..]) {
      forall i | 1 <= i < |ip|
        ensures And(address[i], MaskAt(prefix, i)) == And(ip[i], MaskAt(prefix, i))
      {
        assert And(address[1..][i - 1], MaskAt(prefix - 8, i - 1)) == And(ip[1..][i - 1], MaskAt(prefix - 8, i - 1));
      }
    }
  }

  lemma HeadFirst(a: nat, b: nat, p: nat, tail: nat)
    requires tail < p
    ensures a * p <= b * p + tail <==> a <= b
  {
    if a <= b {
      Scaled(a, b, p);
    } else {
      Scaled(b + 1, a, p);
    }
  }

  /** Numbers in base 256 compare by their heads first. */
  lemma HeadDecides(a: nat, b: nat, p: nat, tail: nat, block: nat)
    requires tail < p
    ensures a * p <= b * p + tail < a * p + block * p <==> a <= b < a + block
  {
    HeadFirst(a, b, p, tail);
    HeadFirst(a + block, b, p, tail);
    assert (a + block) * p == a * p + block * p;
  }

  lemma SameHead(a: nat, b: nat, p: nat, s: nat, t: nat, size: nat)
    requires s < p && t < p && s + size <= p && size >= 1
    ensures a * p + s <= b * p + t < a * p + s + size <==> a == b && s <= t < s + size
  {
    if a < b {
      Scaled(a + 1, b, p);
    } else if b < a {
      Scaled(b + 1, a, p);
    }
  }

  /** The case of a whole leading byte: the rest of the address decides. */
  lemma WholeByte(address: seq<Byte>, prefix: int, ip: seq<Byte>)
    requires |address| == |ip| && ip != [] && prefix >= 8
    requires Number(address[1..]) + NetworkSize(|ip| - 1, prefix - 8) <= Pow256(|ip| - 1)
    ensures Number(address) <= Number(ip) < Number(address) + NetworkSize(|ip|, prefix)
       <==> address[0] == ip[0]
            && Number(address[1..]) <= Number(ip[1..]) < Number(address[1..]) + NetworkSize(|ip| - 1, prefix - 8)
    ensures Number(address) + NetworkSize(|ip|, prefix) <= Pow256(|ip|)
  {
    var p, size := Pow256(|ip| - 1), NetworkSize(|ip| - 1, prefix - 8);
    assert NetworkSize(|ip|, prefix) == size;
    SameHead(address[0], ip[0], p, Number(address[1..]), Number(ip[1..]), size);
    HeadBound(address[0], p, Number(address[1..]) + size - 1);
  }

  lemma BlockOfHeads(a: nat, b: nat, p: nat, tail: nat, block: nat)
    requires tail < p && a + block <= 256
    ensures a * p <= b * p + tail < a * p + block * p <==> a <= b < a + block
    ensures a * p + block * p <= 256 * p
  {
    HeadDecides(a, b, p, tail, block);
    Scaled(a + block, 256, p);
    assert (a + block) * p == a * p + block * p;
  }

  /** The case of a prefix that ends inside the leading byte. */
  lemma PartByte(address: seq<Byte>, prefix: int, ip: seq<Byte>)
    requires |address| == |ip| && ip != [] && prefix < 8 && Number(address[1..]) == 0
    requires And(address[0], FirstMask(prefix)) == address[0]
    ensures Number(address) <= Number(ip) < Number(address) + NetworkSize(|ip|, prefix)
       <==> address[0] == And(ip[0], FirstMask(prefix))
    ensures Number(address) + NetworkSize(|ip|, prefix) <= Pow256(|ip|)
  {
    var bits := if prefix < 0 then 0 else prefix;
    ByteBlock(address[0], ip[0], bits);
    BlockOfHeads(address[0], ip[0], Pow256(|ip| - 1), Number(ip[1..]), Pow2(8 - bits));
    assert NetworkSize(|ip|, prefix) == Pow2(8 - bits) * Pow256(|ip| - 1);
  }

  lemma WholeMask(b: Byte, prefix: int)
    requires prefix >= 8
    ensures And(b, MaskAt(prefix, 0)) == b
  {
    KeptBits(b, 8);
    PowersOf2();
  }

  lemma PartPrefix(address: seq<Byte>, prefix: int, ip: seq<Byte>)
    requires |address| == |ip| && ip != [] && prefix < 8 && Canonical(address, prefix)
    ensures MaskedEqual(address, prefix, ip)
       <==> Number(address) <= Number(ip) < Number(address) + NetworkSize(|ip|, prefix)
    ensures Number(address) + NetworkSize(|ip|, prefix) <= Pow256(|ip|)
  {
    FirstByteDecides(address, prefix, ip);
    TailCanonical(address, prefix);
    ZeroAddress(address[1..], prefix - 8);
    PartByte(address, prefix, ip);
  }

  /** Beyond a prefix that ends inside the leading byte the masks are zero. */
  lemma FirstByteDecides(address: seq<Byte>, prefix: int, ip: seq<Byte>)
    requires |address| == |ip| && ip != [] && prefix < 8 && Canonical(address, prefix)
    ensures And(address[0], FirstMask(prefix)) == address[0]
    ensures MaskedEqual(address, prefix, ip) <==> address[0] == And(ip[0], FirstMask(prefix))
  {
    assert MaskAt(prefix, 0) == FirstMask(prefix);
    assert And(address[0], MaskAt(prefix, 0)) == address[0];
    TailMaskedEqual(address, prefix, ip);
    AllMatch(address[1..], prefix - 8, ip[1..]);
  }

  lemma WholeByteDecides(address: seq<Byte>, prefix: int, ip: seq<Byte>)
    requires |address| == |ip| && ip != [] && prefix >= 8
    ensures MaskedEqual(address, prefix, ip) <==> address[0] == ip[0] && MaskedEqual(address[1..], prefix - 8, ip[1..])
  {
    TailMaskedEqual(address, prefix, ip);
    WholeMask(address[0], prefix);
    WholeMask(ip[0], prefix);
  }

  /** Masked equality byte by byte is membership in an interval of numbers. */
  lemma {:induction false} MaskedEqualIsInterval(address: seq<Byte>, prefix: int, ip: seq<Byte>)
    requires |address| == |ip| && Canonical(address, prefix)
    ensures MaskedEqual(address, prefix, ip)
       <==> Number(address) <= Number(ip) < Number(address) + NetworkSize(|ip|, prefix)
    ensures Number(address) + NetworkSize(|ip|, prefix) <= Pow256(|ip|)
  {
    if ip != [] {
      if prefix >= 8 {
        TailCanonical(address, prefix);
        MaskedEqualIsInterval(address[1..], prefix - 8, ip[1..]);
        WholeByte(address, prefix, ip);
        WholeByteDecides(address, prefix, ip);
      } else {
        PartPrefix(address, prefix, ip);
      }
    }
  }

  lemma AllMatch(address: seq<Byte>, prefix: int, ip: seq<Byte>)
    requires |address| == |ip| && prefix <= 0
    ensures MaskedEqual(address, prefix, ip)
  {
    forall i | 0 <= i < |ip|
      ensures And(address[i], MaskAt(prefix, i)) == And(ip[i], MaskAt(prefix, i))
    {
      assert MaskAt(prefix, i) == 0;
    }
  }

  lemma {:induction false} Pow256IsPow2(n: nat)
    ensures Pow256(n) == Pow2(8 * n)
  {
    if n > 0 {
      Pow256IsPow2(n - 1);
      PowersSplit(8 * n, 8 * n - 8);
      PowersOf2();
    }
  }

  /** A prefix leaves 2^(width - prefix) addresses, with the width in bits. */
  lemma {:induction false} NetworkSizeIsPower(width: nat, prefix: nat)
    requires prefix <= 8 * width
    ensures NetworkSize(width, prefix) == Pow2(8 * width - prefix)
  {
    if width > 0 && prefix < 8 * width {
      if prefix >= 8 {
        NetworkSizeIsPower(width - 1, prefix - 8);
      } else {
        Pow256IsPow2(width - 1);
        PowersSplit(8 * width - prefix, 8 * (width - 1));
      }
    }
  }

  // ------------------------------------------------------------------------ the table

  datatype Network = Network(address: Ip, prefix: nat)

  /** An IPv6 address of which only the ends are not zero. */
  function V6(first: Byte, second: Byte, last: Byte): Ip {
    [first, second, 0, 0, 0, 0, 0, 0, 0, 0, 0, 0, 0, 0, 0, last]
  }

  const RANGES: seq<Network> := [
    Network([127, 0, 0, 0], 8),
    Network([10, 0, 0, 0], 8),
    Network([172, 16, 0, 0], 12),
    Network([192, 168, 0, 0], 16),
    Network([169, 254, 0, 0], 16),
    Network([224, 0, 0, 0], 4),
    Network([240, 0, 0, 0], 4),
    Network([0, 0, 0, 0], 8),
    Network([100, 64, 0, 0], 10),
    Network([192, 0, 0, 0], 24),
    Network([192, 0, 2, 0], 24),
    Network([198, 51, 100, 0], 24),
    Network([203, 0, 113, 0], 24),
    Network([198, 18, 0, 0], 15),
    Network(V6(0, 0, 1), 128),
    Network(V6(0xFC, 0, 0), 7),
    Network(V6(0xFE, 0x80, 0), 10),
    Network(V6(0xFF, 0, 0), 8),
    Network(V6(0, 0, 0), 128)
  ]

  lemma AlignedByte(b: Byte, prefix: int, i: nat)
    requires b == 0 || prefix >= 8 * i + 8 || (8 * i <= prefix && b % Pow2(8 * i + 8 - prefix) == 0)
    ensures And(b, MaskAt(prefix, i)) == b
  {
    var bits := if prefix <= 8 * i then 0 else if prefix >= 8 * i + 8 then 8 else prefix - 8 * i;
    assert MaskAt(prefix, i) == MaskByte(bits);
    KeptBits(b, bits);
    if b == 0 || bits == 8 {
      ExactMultiple(b, 1);
    } else {
      ExactMultiple(b, Pow2(8 - bits));
    }
  }

  lemma ExactMultiple(b: nat, p: nat)
    requires p >= 1 && b % p == 0
    ensures b / p * p == b
  {
  }

  lemma TableCanonical(r: nat)
    requires r < |RANGES|
    ensures Canonical(RANGES[r].address, RANGES[r].prefix)
  {
    var address, prefix := RANGES[r].address, RANGES[r].prefix;
    assert Pow2(4) == 16 && Pow2(6) == 64 && Pow2(1) == 2;
    forall i | 0 <= i < |address|
      ensures And(address[i], MaskAt(prefix, i)) == address[i]
    {
      AlignedByte(address[i], prefix, i);
    }
  }

  /** The four bytes of an IPv4 address, also when it comes mapped into IPv6 (section 2.5.5.2 of RFC 4291). */
  function Normalise(ip: Ip): Ip {
    if |ip| == 16 && (forall i | 0 <= i < 10 :: ip[i] == 0) && ip[10] == 0xFF && ip[11] == 0xFF then ip[12..] else ip
  }

  function Mapped(v4: Ip): Ip
    requires |v4| == 4
  {
    [0, 0, 0, 0, 0, 0, 0, 0, 0, 0, 0xFF, 0xFF] + v4
  }

  /** Membership of a network, by number. */
  predicate InNetwork(network: Network, ip: Ip) {
    |ip| == |network.address|
    && Number(network.address) <= Number(ip) < Number(network.address) + NetworkSize(|ip|, network.prefix)
  }

  /** What the table as a whole excludes. */
  predicate Reserved(ip: Ip) {
    InTable(Normalise(ip))
  }

  predicate InTable(bytes: Ip) {
    exists r | 0 <= r < |RANGES| :: InNetwork(RANGES[r], bytes)
  }

  predicate Contains(network: Network, ip: Ip)
    requires Canonical(network.address, network.prefix)
    ensures Contains(network, ip) <==> InNetwork(network, Normalise(ip))
  {
    var bytes := Normalise(ip);
    if |bytes| == |network.address| then
      MaskedEqualIsInterval(network.address, network.prefix, bytes);
      MaskedEqual(network.address, network.prefix, bytes)
    else false
  }

  lemma NormaliseTwice(ip: Ip)
    ensures Normalise(Normalise(ip)) == Normalise(ip)
  {
  }

  method IsPrivateOrReservedIp(ip: Ip) returns (reserved: bool)
    ensures reserved == Reserved(ip)
    ensures |ip| == 4 ==> reserved == ExcludedV4(ip[0], ip[1], ip[2], ip[3])
    ensures |ip| == 16 && !IsMapped(ip) ==> reserved == ExcludedV6(ip)
    ensures |ip| == 16 && IsMapped(ip) ==> reserved == ExcludedV4(ip[12], ip[13], ip[14], ip[15])
    ensures |ip| != 4 && |ip| != 16 ==> !reserved
  {
    ReservedInFigures(ip);
    forall r | 0 <= r < |RANGES|
      ensures Canonical(RANGES[r].address, RANGES[r].prefix)
    {
      TableCanonical(r);
    }
    NormaliseTwice(ip);
    reserved := InSome(RANGES, Normalise(ip));
  }

  /** The scan, for any table of networks. */
  method InSome(networks: seq<Network>, bytes: Ip) returns (found: bool)
    requires forall r | 0 <= r < |networks| :: Canonical(networks[r].address, networks[r].prefix)
    requires Normalise(bytes) == bytes
    ensures found == exists r | 0 <= r < |networks| :: InNetwork(networks[r], bytes)
  {
    for r := 0 to |networks|
      invariant forall k | 0 <= k < r :: !InNetwork(networks[k], bytes)
    {
      if Contains(networks[r], bytes) {
        return true;
      }
    }
    return false;
  }

  /** A mapped address gets the verdict of the address inside. */
  lemma MappedVerdict(v4: Ip)
    requires |v4| == 4
    ensures Reserved(Mapped(v4)) <==> Reserved(v4)
  {
    MappedNormalised(v4);
  }

  lemma MappedNormalised(v4: Ip)
    requires |v4| == 4
    ensures Normalise(Mapped(v4)) == v4 == Normalise(v4)
  {
    assert Mapped(v4)[12..] == v4;
  }

  // -------------------------------------------------------------- the table in figures

  /** The weight of the lowest bit that a prefix keeps of byte i; 256 if it keeps none. */
  function Unit(prefix: int, i: nat): (unit: nat)
    ensures unit >= 1
  {
    if prefix <= 8 * i then 256 else if prefix >= 8 * i + 8 then 1 else Pow2(8 * i + 8 - prefix)
  }

  lemma KeptByUnit(b: Byte, prefix: int, i: nat)
    ensures And(b, MaskAt(prefix, i)) == b / Unit(prefix, i) * Unit(prefix, i)
  {
    PowersOf2();
    KeptBits(b, if prefix <= 8 * i then 0 else if prefix >= 8 * i + 8 then 8 else prefix - 8 * i);
  }

  lemma SameMultiple(x: nat, y: nat, unit: nat)
    requires unit >= 1
    ensures x / unit * unit == y / unit * unit <==> x / unit == y / unit
  {
    if x / unit < y / unit {
      ScaledNext(x / unit, y / unit, unit);
    }
    if y / unit < x / unit {
      ScaledNext(y / unit, x / unit, unit);
    }
  }

  predicate AgreeInUnits(network: Network, ip: Ip) {
    |ip| == |network.address| && forall i | 0 <= i < |ip| ::
      network.address[i] / Unit(network.prefix, i) == ip[i] / Unit(network.prefix, i)
  }

  /** A network holds the addresses that agree with it in every unit. */
  lemma InNetworkByUnits(network: Network, ip: Ip)
    requires |ip| == |network.address| && Canonical(network.address, network.prefix)
    ensures InNetwork(network, ip) <==> AgreeInUnits(network, ip)
  {
    MaskedEqualIsInterval(network.address, network.prefix, ip);
    forall i | 0 <= i < |ip|
      ensures And(network.address[i], MaskAt(network.prefix, i)) == And(ip[i], MaskAt(network.prefix, i))
         <==> network.address[i] / Unit(network.prefix, i) == ip[i] / Unit(network.prefix, i)
    {
      KeptByUnit(network.address[i], network.prefix, i);
      KeptByUnit(ip[i], network.prefix, i);
      SameMultiple(network.address[i], ip[i], Unit(network.prefix, i));
    }
  }

  lemma TableByUnits(ip: Ip)
    ensures InTable(ip) <==> exists r | 0 <= r < |RANGES| :: AgreeInUnits(RANGES[r], ip)
  {
    forall r | 0 <= r < |RANGES|
      ensures InNetwork(RANGES[r], ip) <==> AgreeInUnits(RANGES[r], ip)
    {
      TableCanonical(r);
      if |ip| == |RANGES[r].address| {
        InNetworkByUnits(RANGES[r], ip);
      }
    }
  }

  /** The excluded IPv4 addresses. */
  predicate ExcludedV4(a: Byte, b: Byte, c: Byte, d: Byte) {
    || a in {0, 10, 127} || a >= 224
    || (a == 100 && 64 <= b < 128) || (a == 169 && b == 254) || (a == 172 && 16 <= b < 32)
    || (a == 192 && b == 168) || (a == 192 && b == 0 && c in {0, 2})
    || (a == 198 && b in {18, 19}) || (a == 198 && b == 51 && c == 100) || (a == 203 && b == 0 && c == 113)
  }

  /** Row r of the table, for an IPv4 address. */
  predicate RowShownV4(r: nat, a: Byte, b: Byte, c: Byte, d: Byte) {
    if r == 0 then a == 127 else if r == 1 then a == 10 else if r == 2 then a == 172 && 16 <= b < 32
    else if r == 3 then a == 192 && b == 168 else if r == 4 then a == 169 && b == 254
    else if r == 5 then 224 <= a < 240 else if r == 6 then 240 <= a else if r == 7 then a == 0
    else if r == 8 then a == 100 && 64 <= b < 128 else if r == 9 then a == 192 && b == 0 && c == 0
    else if r == 10 then a == 192 && b == 0 && c == 2 else if r == 11 then a == 198 && b == 51 && c == 100
    else if r == 12 then a == 203 && b == 0 && c == 113 else r == 13 && a == 198 && 18 <= b < 20
  }

  lemma WholeUnits()
    ensures Unit(8, 0) == 1 && Unit(8, 1) == 256 && Unit(8, 2) == 256 && Unit(8, 3) == 256
    ensures Unit(16, 0) == 1 && Unit(16, 1) == 1 && Unit(16, 2) == 256 && Unit(16, 3) == 256
    ensures Unit(24, 0) == 1 && Unit(24, 1) == 1 && Unit(24, 2) == 1 && Unit(24, 3) == 256
  {
  }

  lemma PartUnits()
    ensures Unit(4, 0) == 16 && Unit(4, 1) == 256 && Unit(4, 2) == 256 && Unit(4, 3) == 256
    ensures Unit(10, 0) == 1 && Unit(10, 1) == 64 && Unit(10, 2) == 256 && Unit(10, 3) == 256
    ensures Unit(12, 0) == 1 && Unit(12, 1) == 16 && Unit(12, 2) == 256 && Unit(12, 3) == 256
    ensures Unit(15, 0) == 1 && Unit(15, 1) == 2 && Unit(15, 2) == 256 && Unit(15, 3) == 256
  {
    assert Pow2(4) == 16 && Pow2(6) == 64 && Pow2(1) == 2;
  }

  lemma LongRowsV4(r: nat, a: Byte, b: Byte, c: Byte, d: Byte)
    requires r in {9, 10, 11, 12}
    ensures AgreeInUnits(RANGES[r], [a, b, c, d]) <==> RowShownV4(r, a, b, c, d)
  {
    WholeUnits();
  }

  lemma WholeRowsV4(r: nat, a: Byte, b: Byte, c: Byte, d: Byte)
    requires r in {0, 1, 3, 4, 7}
    ensures AgreeInUnits(RANGES[r], [a, b, c, d]) <==> RowShownV4(r, a, b, c, d)
  {
    WholeUnits();
  }

  lemma ShortRowsV4(r: nat, a: Byte, b: Byte, c: Byte, d: Byte)
    requires r in {5, 6}
    ensures AgreeInUnits(RANGES[r], [a, b, c, d]) <==> RowShownV4(r, a, b, c, d)
  {
    PartUnits();
  }

  lemma PartRowsV4(r: nat, a: Byte, b: Byte, c: Byte, d: Byte)
    requires r in {2, 8, 13}
    ensures AgreeInUnits(RANGES[r], [a, b, c, d]) <==> RowShownV4(r, a, b, c, d)
  {
    PartUnits();
  }

  lemma TableV4(a: Byte, b: Byte, c: Byte, d: Byte)
    ensures InTable([a, b, c, d]) <==> ExcludedV4(a, b, c, d)
  {
    forall r: nat | r < |RANGES|
      ensures AgreeInUnits(RANGES[r], [a, b, c, d]) <==> RowShownV4(r, a, b, c, d)
    {
      if r in {2, 8, 13} {
        PartRowsV4(r, a, b, c, d);
      } else if r in {5, 6} {
        ShortRowsV4(r, a, b, c, d);
      } else if r in {9, 10, 11, 12} {
        LongRowsV4(r, a, b, c, d);
      } else if r < 14 {
        WholeRowsV4(r, a, b, c, d);
      }
    }
    TableByUnits([a, b, c, d]);
    SomeRow(RANGES, [a, b, c, d], a, b, c, d);
  }

  lemma SomeRow(networks: seq<Network>, ip: Ip, a: Byte, b: Byte, c: Byte, d: Byte)
    requires |networks| >= 14
    requires forall r: nat | r < |networks| :: AgreeInUnits(networks[r], ip) <==> RowShownV4(r, a, b, c, d)
    ensures (exists r | 0 <= r < |networks| :: AgreeInUnits(networks[r], ip)) <==> ExcludedV4(a, b, c, d)
  {
    if ExcludedV4(a, b, c, d) {
      var r: nat := if a == 127 then 0 else if a == 10 then 1 else if a == 172 then 2
        else if a == 192 && b == 168 then 3 else if a == 169 then 4 else if a >= 240 then 6 else if a >= 224 then 5
        else if a == 0 then 7 else if a == 100 then 8 else if a == 192 && c == 0 then 9 else if a == 192 then 10
        else if a == 198 && b == 51 then 11 else if a == 203 then 12 else 13;
      assert RowShownV4(r, a, b, c, d);
      assert AgreeInUnits(networks[r], ip);
    }
  }

  predicate IsMapped(ip: Ip)
    requires |ip| == 16
  {
    ip[..12] == [0, 0, 0, 0, 0, 0, 0, 0, 0, 0, 255, 255]
  }

  /** The excluded IPv6 addresses: ::, ::1, fc00::/7, fe80::/10 and ff00::/8. */
  predicate ExcludedV6(ip: Ip)
    requires |ip| == 16
  {
    || (ip[15] <= 1 && forall i | 0 <= i < 15 :: ip[i] == 0)
    || ip[0] in {0xFC, 0xFD, 0xFF} || (ip[0] == 0xFE && 0x80 <= ip[1] < 0xC0)
  }

  lemma ShortRowV6(network: Network, ip: Ip)
    requires |ip| == 16 == |network.address| && network.prefix <= 16
    requires forall i | 2 <= i < 16 :: network.address[i] == 0
    ensures AgreeInUnits(network, ip) <==>
      && network.address[0] / Unit(network.prefix, 0) == ip[0] / Unit(network.prefix, 0)
      && network.address[1] / Unit(network.prefix, 1) == ip[1] / Unit(network.prefix, 1)
  {
    forall i | 2 <= i < 16
      ensures network.address[i] / Unit(network.prefix, i) == ip[i] / Unit(network.prefix, i)
    {
      assert Unit(network.prefix, i) == 256;
    }
  }

  lemma FullRowV6(network: Network, ip: Ip)
    requires |ip| == 16 == |network.address| && network.prefix == 128
    requires forall i | 0 <= i < 15 :: network.address[i] == 0
    ensures AgreeInUnits(network, ip) <==> ip[15] == network.address[15] && forall i | 0 <= i < 15 :: ip[i] == 0
  {
    forall i | 0 <= i < 16
      ensures Unit(128, i) == 1
    {
    }
    if AgreeInUnits(network, ip) {
      forall i | 0 <= i < 16
        ensures network.address[i] == ip[i]
      {
        assert network.address[i] / Unit(128, i) == ip[i] / Unit(128, i);
      }
    }
  }

  lemma UnitsV6()
    ensures Unit(7, 0) == 2 && Unit(7, 1) == 256 && Unit(10, 0) == 1 && Unit(10, 1) == 64
    ensures Unit(8, 0) == 1 && Unit(8, 1) == 256
  {
    assert Pow2(1) == 2 && Pow2(6) == 64;
  }

  lemma UniqueLocalRow(ip: Ip)
    requires |ip| == 16
    ensures AgreeInUnits(RANGES[15], ip) <==> ip[0] in {0xFC, 0xFD}
  {
    UnitsV6();
    ShortRowV6(RANGES[15], ip);
  }

  lemma LinkLocalRow(ip: Ip)
    requires |ip| == 16
    ensures AgreeInUnits(RANGES[16], ip) <==> ip[0] == 0xFE && 0x80 <= ip[1] < 0xC0
  {
    UnitsV6();
    ShortRowV6(RANGES[16], ip);
  }

  lemma MulticastRow(ip: Ip)
    requires |ip| == 16
    ensures AgreeInUnits(RANGES[17], ip) <==> ip[0] == 0xFF
  {
    UnitsV6();
    ShortRowV6(RANGES[17], ip);
  }

  lemma FullRowsV6(ip: Ip)
    requires |ip| == 16
    ensures AgreeInUnits(RANGES[14], ip) <==> ip[15] == 1 && forall i | 0 <= i < 15 :: ip[i] == 0
    ensures AgreeInUnits(RANGES[18], ip) <==> ip[15] == 0 && forall i | 0 <= i < 15 :: ip[i] == 0
  {
    FullRowV6(RANGES[14], ip);
    FullRowV6(RANGES[18], ip);
  }

  lemma TableV6(ip: Ip)
    requires |ip| == 16
    ensures InTable(ip) <==> ExcludedV6(ip)
  {
    UniqueLocalRow(ip);
    LinkLocalRow(ip);
    MulticastRow(ip);
    FullRowsV6(ip);
    TableByUnits(ip);
    WidthsDiffer(ip);
    RowOfV6(RANGES, ip);
  }

  lemma WidthsDiffer(ip: Ip)
    requires |ip| == 16
    ensures |RANGES| == 19 && forall r | 0 <= r < 14 :: !AgreeInUnits(RANGES[r], ip)
  {
  }

  lemma RowOfV6(networks: seq<Network>, ip: Ip)
    requires |networks| == 19
    requires forall r | 0 <= r < 14 :: !AgreeInUnits(networks[r], ip)
    ensures (exists r | 0 <= r < |networks| :: AgreeInUnits(networks[r], ip)) <==>
      || AgreeInUnits(networks[14], ip) || AgreeInUnits(networks[15], ip) || AgreeInUnits(networks[16], ip)
      || AgreeInUnits(networks[17], ip) || AgreeInUnits(networks[18], ip)
  {
  }

  /** The excluded addresses of either form; a mapped address is judged by its last four bytes. */
  lemma ReservedInFigures(ip: Ip)
    ensures |ip| == 4 ==> (Reserved(ip) <==> ExcludedV4(ip[0], ip[1], ip[2], ip[3]))
    ensures |ip| == 16 && !IsMapped(ip) ==> (Reserved(ip) <==> ExcludedV6(ip))
    ensures |ip| == 16 && IsMapped(ip) ==> (Reserved(ip) <==> ExcludedV4(ip[12], ip[13], ip[14], ip[15]))
    ensures |ip| != 4 && |ip| != 16 ==> !Reserved(ip)
  {
    if |ip| == 4 {
      assert ip == [ip[0], ip[1], ip[2], ip[3]];
      TableV4(ip[0], ip[1], ip[2], ip[3]);
    } else if |ip| == 16 {
      MappedIff(ip);
      if IsMapped(ip) {
        assert ip[12..] == [ip[12], ip[13], ip[14], ip[15]];
        TableV4(ip[12], ip[13], ip[14], ip[15]);
      } else {
        TableV6(ip);
      }
    }
  }

  lemma MappedIff(ip: Ip)
    requires |ip| == 16
    ensures Normalise(ip) == if IsMapped(ip) then ip[12..] else ip
  {
    if IsMapped(ip) {
      assert forall i | 0 <= i < 12 :: ip[i] == ip[..12][i];
    }
    if (forall i | 0 <= i < 10 :: ip[i] == 0) && ip[10] == 0xFF && ip[11] == 0xFF {
      assert ip[..12] == [0, 0, 0, 0, 0, 0, 0, 0, 0, 0, 255, 255];
    }
  }
}
