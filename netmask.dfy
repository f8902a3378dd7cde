/**
 * Netmask and address helpers of the agent: `maskToPrefix`, `prefixToMask`
 * and `hexLEToIPv4` (main.go).
 */
module Netmask {
  import opened Wrappers
  import opened Text
  import opened IPv4

  function Pow2(n: nat): (r: nat)
    ensures r >= 1
  {
    if n == 0 then 1 else 2 * Pow2(n - 1)
  }

  /** Bit `i` of `b`: whether `b & (1 << i)` is non-zero. */
  function Bit(b: nat, i: nat): nat {
    (b / Pow2(i)) % 2
  }

  /** The number of consecutive one bits of `b` from bit `i` downwards. */
  function OnesFrom(b: nat, i: int): (r: nat)
    requires -1 <= i <= 7
    ensures r <= i + 1
    decreases i + 1
  {
    if i < 0 || Bit(b, i) != 1 then 0 else 1 + OnesFrom(b, i - 1)
  }

  /** The leading one bits of an octet. */
  function LeadingOnes(b: nat): (r: nat)
    ensures r <= 8
  {
    OnesFrom(b, 7)
  }

  /** The leading-one counts of the octets, added up. */
  function SumLeadingOnes(o: seq<nat>): (r: nat)
    ensures r <= 8 * |o|
  {
    if o == [] then 0 else SumLeadingOnes(o[..|o| - 1]) + LeadingOnes(o[|o| - 1])
  }

  /** What `maskToPrefix` computes: 0 for text that is not a dotted quad, else the
      leading-one bits of each octet added up. */
  function PrefixOf(mask: string): (r: nat)
    ensures r <= 32
    ensures ParseIPv4(TrimSpace(mask)).None? ==> r == 0
  {
    match ParseIPv4(TrimSpace(mask))
    case None => 0
    case Some(o) => SumLeadingOnes(o)
  }

  /** `maskToPrefix`: parse the mask, then count the leading one bits of each octet. */
  method MaskToPrefix(mask: string) returns (count: nat)
    ensures count == PrefixOf(mask)
  {
    var ip4 := ParseIPv4(TrimSpace(mask));
    if ip4.None? {
      return 0;
    }
    count := CountLeadingOnes(ip4.value);
  }

  /** The bit-counting loops of `maskToPrefix`: for each octet, count one bits from
      the top and stop at the first zero. */
  method CountLeadingOnes(m: seq<nat>) returns (count: nat)
    ensures count == SumLeadingOnes(m)
  {
    count := 0;
    var j := 0;
    while j < |m|
      invariant 0 <= j <= |m|
      invariant count == SumLeadingOnes(m[..j])
    {
      var b := m[j];
      ghost var before := count;
      var i := 7;
      while i >= 0
        invariant -1 <= i <= 7
        invariant count == before + (7 - i)
        invariant LeadingOnes(b) == (7 - i) + OnesFrom(b, i)
      {
        if Bit(b, i) == 1 {
          count := count + 1;
        } else {
          break;
        }
        i := i - 1;
      }
      assert m[..j + 1][..j] == m[..j];
      j := j + 1;
    }
    assert m[..j] == m;
  }

  /** `byte(x)`: the low eight bits. */
  function Byte(x: nat): nat {
    x % 256
  }

  /** The four octets `prefixToMask` takes from `^uint32(0) << (32 - pfx)`. */
  function MaskOctets(pfx: nat): (o: seq<nat>)
    requires 1 <= pfx <= 32
    ensures IsQuad(o)
  {
    WordBytes((0xFFFF_FFFF * Pow2(32 - pfx)) % 0x1_0000_0000)
  }

  /** The four bytes of a word, most significant first. */
  function WordBytes(m: nat): (o: seq<nat>)
    ensures IsQuad(o)
  {
    [Byte(m / 0x100_0000), Byte(m / 0x1_0000), Byte(m / 0x100), Byte(m)]
  }

  /** `prefixToMask`: the dotted netmask of a prefix length. */
  function PrefixToMask(pfx: nat): (r: string)
    requires pfx <= 32
  {
    if pfx == 0 then "0.0.0.0" else FormatIPv4(MaskOctets(pfx))
  }

  lemma {:induction false} Pow2Add(a: nat, b: nat)
    ensures Pow2(a + b) == Pow2(a) * Pow2(b)
    decreases b
  {
    if b > 0 {
      Pow2Add(a, b - 1);
      assert Pow2(a + b) == 2 * Pow2(a + b - 1);
    }
  }

  lemma Pow2Values()
    ensures Pow2(0) == 1 && Pow2(1) == 2 && Pow2(2) == 4 && Pow2(3) == 8 && Pow2(4) == 16
    ensures Pow2(5) == 32 && Pow2(6) == 64 && Pow2(7) == 128 && Pow2(8) == 256
    ensures Pow2(16) == 0x1_0000 && Pow2(24) == 0x100_0000
  {
    assert Pow2(1) == 2 * Pow2(0);
    assert Pow2(2) == 2 * Pow2(1);
    assert Pow2(3) == 2 * Pow2(2);
    assert Pow2(4) == 2 * Pow2(3);
    assert Pow2(5) == 2 * Pow2(4);
    assert Pow2(6) == 2 * Pow2(5);
    assert Pow2(7) == 2 * Pow2(6);
    assert Pow2(8) == 2 * Pow2(7);
    Pow2Add(8, 8);
    Pow2Add(16, 8);
  }

  lemma Pow2Below31(t: nat)
    requires t <= 31
    ensures Pow2(t) <= 0x8000_0000
  {
    var a, b := Pow2(t), Pow2(31 - t);
    assert a * b == 0x8000_0000 by {
      Pow2Add(t, 31 - t);
      Pow2Values();
      Pow2Add(24, 7);
    }
    AtMostProduct(a, b);
  }

  lemma AtMostProduct(a: nat, b: nat)
    requires b >= 1
    ensures a <= a * b
  {
    assert a * b == a + a * (b - 1);
  }

  /** The shifted all-ones word is 2^32 - 2^(32 - pfx). */
  lemma MaskWord(pfx: nat)
    requires 1 <= pfx <= 32
    ensures (0xFFFF_FFFF * Pow2(32 - pfx)) % 0x1_0000_0000 == 0x1_0000_0000 - Pow2(32 - pfx)
  {
    var w := Pow2(32 - pfx);
    Pow2Below31(32 - pfx);
    var x := 0xFFFF_FFFF * w;
    assert x == (w - 1) * 0x1_0000_0000 + (0x1_0000_0000 - w);
  }

  /** The four bytes of a word, most significant first. */
  lemma WordOctets(m: nat, a: nat, b: nat, c: nat, d: nat)
    requires a < 256 && b < 256 && c < 256 && d < 256
    requires m == a * 0x100_0000 + b * 0x1_0000 + c * 0x100 + d
    ensures WordBytes(m) == [a, b, c, d]
  {
    assert m / 0x100_0000 == a;
    assert m / 0x1_0000 == a * 0x100 + b;
    assert m / 0x100 == a * 0x1_0000 + b * 0x100 + c;
  }

  /** The partial octet `256 - 2^u` of a mask, by table. */
  function PartialByte(u: nat): nat
    requires u <= 7
  {
    [255, 254, 252, 248, 240, 224, 192, 128][u]
  }

  lemma PartialValue(u: nat)
    requires u <= 7
    ensures 1 <= Pow2(u) <= 128
    ensures 256 - Pow2(u) == PartialByte(u)
  {
    Pow2Values();
  }

  /** A partial octet `256 - 2^u` has `8 - u` leading ones. */
  lemma PartialOnes(u: nat)
    requires u <= 7
    ensures LeadingOnes(PartialByte(u)) == 8 - u
  {
    var t := [255, 254, 252, 248, 240, 224, 192, 128];
    assert PartialByte(u) == t[u];
    OnesOf255();
    OnesOf254();
    OnesOf252();
    OnesOf248();
    OnesOf240();
    OnesOf224();
    OnesOf192();
    OnesOf128();
  }

  lemma OnesOf254()
    ensures LeadingOnes(254) == 7
  {
    assert Bit(254, 0) == 0;
  }

  lemma OnesOf252()
    ensures LeadingOnes(252) == 6
  {
    assert Bit(252, 1) == 0;
  }

  lemma OnesOf248()
    ensures LeadingOnes(248) == 5
  {
    assert Bit(248, 2) == 0;
  }

  lemma OnesOf240()
    ensures LeadingOnes(240) == 4
  {
    assert Bit(240, 3) == 0;
  }

  lemma OnesOf224()
    ensures LeadingOnes(224) == 3
  {
    assert Bit(224, 4) == 0;
  }

  lemma OnesOf192()
    ensures LeadingOnes(192) == 2
  {
    assert Bit(192, 5) == 0;
  }

  lemma OnesOf128()
    ensures LeadingOnes(128) == 1
  {
    assert Bit(128, 6) == 0;
  }

  lemma OnesOf255()
    ensures LeadingOnes(255) == 8
  {
  }

  lemma OnesOf0()
    ensures LeadingOnes(0) == 0
  {
  }

  lemma SumLeadingOnes4(a: nat, b: nat, c: nat, d: nat)
    ensures SumLeadingOnes([a, b, c, d]) == LeadingOnes(a) + LeadingOnes(b) + LeadingOnes(c) + LeadingOnes(d)
  {
    assert [a, b, c, d][..3] == [a, b, c];
    assert [a, b, c][..2] == [a, b];
    assert [a, b][..1] == [a];
    assert [a][..0] == [];
    assert SumLeadingOnes([a]) == LeadingOnes(a);
    assert SumLeadingOnes([a, b]) == LeadingOnes(a) + LeadingOnes(b);
    assert SumLeadingOnes([a, b, c]) == LeadingOnes(a) + LeadingOnes(b) + LeadingOnes(c);
  }

  /** The mask word of `pfx` written as its four octets: `k` full octets, one partial octet
      `256 - 2^u`, then zeros. */
  lemma MaskOctetsBand(pfx: nat, k: nat, u: nat)
    requires 1 <= pfx <= 32 && k == (pfx - 1) / 8 && u == 8 * k + 8 - pfx
    ensures u <= 7 && k <= 3
    ensures MaskOctets(pfx) == Band(k, PartialByte(u))
  {
    BandIndices(pfx, k, u);
    var q := Pow2(u);
    assert MaskOctets(pfx) == Band(k, 256 - q) by {
      PartialValue(u);
      var w := Pow2(8 * (3 - k));
      assert Pow2(32 - pfx) == w * q by {
        Pow2Add(8 * (3 - k), u);
      }
      assert w == [0x100_0000, 0x1_0000, 0x100, 1][k] by {
        Pow2Values();
      }
      MaskBytes(pfx);
      BandOctets(0x1_0000_0000 - Pow2(32 - pfx), k, q, w);
    }
    assert 256 - q == PartialByte(u) by {
      PartialValue(u);
    }
  }

  /** `k` full octets, the partial octet `p`, then zeros. */
  function Band(k: nat, p: nat): seq<nat>
    requires k <= 3
  {
    if k == 0 then [p, 0, 0, 0]
    else if k == 1 then [255, p, 0, 0]
    else if k == 2 then [255, 255, p, 0]
    else [255, 255, 255, p]
  }

  lemma BandIndices(pfx: nat, k: nat, u: nat)
    requires 1 <= pfx <= 32 && k == (pfx - 1) / 8 && u == 8 * k + 8 - pfx
    ensures u <= 7 && k <= 3 && 32 - pfx == 8 * (3 - k) + u
  {
  }

  lemma MaskBytes(pfx: nat)
    requires 1 <= pfx <= 32
    ensures Pow2(32 - pfx) < 0x1_0000_0000
    ensures MaskOctets(pfx) == WordBytes(0x1_0000_0000 - Pow2(32 - pfx))
  {
    Pow2Below31(32 - pfx);
    MaskWord(pfx);
  }

  lemma BandOctets(m: nat, k: nat, q: nat, w: nat)
    requires k <= 3 && 1 <= q <= 128 && w == [0x100_0000, 0x1_0000, 0x100, 1][k]
    requires m == 0x1_0000_0000 - w * q
    ensures WordBytes(m) == Band(k, 256 - q)
  {
    if k == 0 {
      WordOctets(m, 256 - q, 0, 0, 0);
    } else if k == 1 {
      WordOctets(m, 255, 256 - q, 0, 0);
    } else if k == 2 {
      WordOctets(m, 255, 255, 256 - q, 0);
    } else {
      WordOctets(m, 255, 255, 255, 256 - q);
    }
  }

  lemma MaskOctetsOnes(pfx: nat)
    requires 1 <= pfx <= 32
    ensures SumLeadingOnes(MaskOctets(pfx)) == pfx
  {
    var k := (pfx - 1) / 8;
    var u := 8 * k + 8 - pfx;
    MaskOctetsBand(pfx, k, u);
    BandOnes(k, u);
  }

  /** A band of `k` full octets and a partial one with `8 - u` ones has `8k + 8 - u`. */
  lemma BandOnes(k: nat, u: nat)
    requires k <= 3 && u <= 7
    ensures SumLeadingOnes(Band(k, PartialByte(u))) == 8 * k + 8 - u
  {
    PartialOnes(u);
    BandSum(k, PartialByte(u), 8 - u);
  }

  /** The leading ones of a band: eight per full octet, plus those of the partial one. */
  lemma BandSum(k: nat, p: nat, n: nat)
    requires k <= 3 && LeadingOnes(p) == n
    ensures SumLeadingOnes(Band(k, p)) == 8 * k + n
  {
    OnesOf255();
    OnesOf0();
    if k == 0 {
      SumLeadingOnes4(p, 0, 0, 0);
    } else if k == 1 {
      SumLeadingOnes4(255, p, 0, 0);
    } else if k == 2 {
      SumLeadingOnes4(255, 255, p, 0);
    } else {
      SumLeadingOnes4(255, 255, 255, p);
    }
  }

  lemma ZeroMask()
    ensures PrefixToMask(0) == FormatIPv4([0, 0, 0, 0])
  {
    Join4("0", "0", "0", "0", '.');
  }

  /** `maskToPrefix` undoes `prefixToMask` for every prefix length from 0 to 32. */
  lemma PrefixRoundTrip(pfx: nat)
    requires pfx <= 32
    ensures PrefixOf(PrefixToMask(pfx)) == pfx
  {
    var o := if pfx == 0 then [0, 0, 0, 0] else MaskOctets(pfx);
    if pfx == 0 {
      ZeroMask();
      SumLeadingOnes4(0, 0, 0, 0);
      OnesOf0();
    } else {
      MaskOctetsOnes(pfx);
    }
    assert PrefixToMask(pfx) == FormatIPv4(o);
    ParseFormat(o);
    FormatTrimmed(o);
    TrimSpaceOfTrimmed(FormatIPv4(o));
  }

  /** Three familiar masks. */
  lemma PrefixToMaskExamples()
    ensures PrefixToMask(0) == "0.0.0.0"
    ensures PrefixToMask(24) == "255.255.255.0"
    ensures PrefixToMask(32) == "255.255.255.255"
  {
    assert PrefixToMask(0) == "0.0.0.0" by {
      Join4("0", "0", "0", "0", '.');
    }
    assert PrefixToMask(24) == "255.255.255.0" by {
      Mask24();
    }
    assert PrefixToMask(32) == "255.255.255.255" by {
      Mask32();
    }
  }

  lemma Dec255()
    ensures NatToDec(255) == "255"
  {
    assert NatToDec(2) == "2";
    assert NatToDec(25) == "2" + "5";
  }

  lemma Mask24()
    ensures PrefixToMask(24) == "255.255.255.0"
  {
    assert MaskOctets(24) == [255, 255, 255, 0] by {
      assert Pow2(8) == 256;
      var m := (0xFFFF_FFFF * 256) % 0x1_0000_0000;
      assert m == 0xFFFF_FF00;
    }
    Dec255();
    Join4("255", "255", "255", "0", '.');
  }

  lemma Mask32()
    ensures PrefixToMask(32) == "255.255.255.255"
  {
    assert MaskOctets(32) == [255, 255, 255, 255] by {
      assert Pow2(0) == 1;
    }
    Dec255();
    Join4("255", "255", "255", "255", '.');
  }

  /** `strconv.ParseUint(s, 16, 8)` on a two-character slice, with the error dropped: the
      byte value of two hexadecimal digits, or 0 when either character is not one. */
  function HexByte(s: string): (r: nat)
    requires |s| == 2
    ensures r < 256
    ensures HexDigitValue(s[0]).None? || HexDigitValue(s[1]).None? ==> r == 0
  {
    match (HexDigitValue(s[0]), HexDigitValue(s[1]))
    case (Some(hi), Some(lo)) => 16 * hi + lo
    case _ => 0
  }

  /** `hexLEToIPv4`: an eight-digit little-endian hexadecimal word from the route table as a
      dotted quad, lowest byte first; "" for text of any other length. */
  function HexLEToIPv4(s: string): (r: string)
  {
    if |s| != 8 then ""
    else FormatIPv4([HexByte(s[6..8]), HexByte(s[4..6]), HexByte(s[2..4]), HexByte(s[0..2])])
  }

  lemma HexLEToIPv4Shape(s: string)
    ensures HexLEToIPv4(s) == "" <==> |s| != 8
    ensures |s| == 8 ==> IsIPv4(HexLEToIPv4(s))
  {
    if |s| == 8 {
      var o := [HexByte(s[6..8]), HexByte(s[4..6]), HexByte(s[2..4]), HexByte(s[0..2])];
      FormatIsIPv4(o);
      FormatEnds(o);
    }
  }

  /** The upper-case hexadecimal digit the kernel prints for `d`. */
  function HexDigitUpper(d: nat): (c: char)
    requires d < 16
    ensures HexDigitValue(c) == Some(d)
  {
    if d < 10 then DigitChar(d) else (d - 10 + 'A' as int) as char
  }

  /** A byte as two upper-case hexadecimal digits. */
  function Hex2(b: nat): (r: string)
    requires b < 256
    ensures |r| == 2
  {
    [HexDigitUpper(b / 16), HexDigitUpper(b % 16)]
  }

  /** How `/proc/net/route` writes an address: its 32-bit word in little-endian order as
      eight hexadecimal digits, so the last octet comes first. */
  function RouteHex(o: seq<nat>): (r: string)
    requires IsQuad(o)
    ensures |r| == 8
  {
    Hex2(o[3]) + Hex2(o[2]) + Hex2(o[1]) + Hex2(o[0])
  }

  lemma HexByteOfHex2(b: nat)
    requires b < 256
    ensures HexByte(Hex2(b)) == b
  {
  }

  /** `hexLEToIPv4` reads back the address the route table wrote. */
  lemma HexLEToIPv4OfRouteHex(o: seq<nat>)
    requires IsQuad(o)
    ensures HexLEToIPv4(RouteHex(o)) == FormatIPv4(o)
  {
    var s := RouteHex(o);
    assert s[0..2] == Hex2(o[3]) && s[2..4] == Hex2(o[2]);
    assert s[4..6] == Hex2(o[1]) && s[6..8] == Hex2(o[0]);
    HexByteOfHex2(o[0]);
    HexByteOfHex2(o[1]);
    HexByteOfHex2(o[2]);
    HexByteOfHex2(o[3]);
    assert [HexByte(s[6..8]), HexByte(s[4..6]), HexByte(s[2..4]), HexByte(s[0..2])] == o;
  }
}
