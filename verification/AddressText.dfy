// packages/k8s-baseline/src/cidr-coverage.ts: IPv6 numbers and whole blocks
// printed, and read back by the parsers.
module AddressText {
  import opened Text
  import opened Bits
  import opened Cidr
  import opened CidrCoverage

  // ----- hexadecimal digits

  const LOWER_DIGITS := "0123456789abcdef"
  const UPPER_DIGITS := "0123456789ABCDEF"

  lemma DigitOf(d: nat)
    requires d < 16
    ensures IsHexDigit(LOWER_DIGITS[d]) && HexDigitValue(LOWER_DIGITS[d]) == d
    ensures IsHexDigit(UPPER_DIGITS[d]) && HexDigitValue(UPPER_DIGITS[d]) == d
    ensures LOWER_DIGITS[d] != ':' && UPPER_DIGITS[d] != ':'
  {
  }

  /**
   * The characters read as hexadecimal digits are those sixteen, in either case, and each has its place as its
   * value.
   */
  lemma HexDigitIff(c: char)
    ensures IsHexDigit(c) <==> c in LOWER_DIGITS || c in UPPER_DIGITS
    ensures IsHexDigit(c) ==> c == LOWER_DIGITS[HexDigitValue(c)] || c == UPPER_DIGITS[HexDigitValue(c)]
  {
    if IsDigit(c) {
      var d := (c - '0') as nat;
      assert LOWER_DIGITS[d] == c;
    } else if 'a' <= c <= 'f' {
      var d := 10 + (c - 'a') as nat;
      assert LOWER_DIGITS[d] == c;
    } else if 'A' <= c <= 'F' {
      var d := 10 + (c - 'A') as nat;
      assert UPPER_DIGITS[d] == c;
    }
  }

  // ----- hextets

  /** `n` in base 16, in lower or upper case, without leading zeros. */
  function HexText(n: nat, upper: bool): (h: string)
    ensures h != ""
  {
    if n < 16 then [HexDigit(n, upper)] else HexText(n / 16, upper) + [HexDigit(n % 16, upper)]
  }

  function HexDigit(d: nat, upper: bool): char
    requires d < 16
  {
    if upper then UPPER_DIGITS[d] else LOWER_DIGITS[d]
  }

  predicate AllHex(h: string) { forall i | 0 <= i < |h| :: IsHexDigit(h[i]) }

  lemma HexSnoc(front: string, c: char)
    requires AllHex(front) && IsHexDigit(c)
    ensures AllHex(front + [c]) && HexValue(front + [c]) == 16 * HexValue(front) + HexDigitValue(c)
  {
    hide IsHexDigit, HexDigitValue, Pow2;
    var h := front + [c];
    assert h[..|h| - 1] == front;
  }

  lemma HexDigitRead(d: nat, upper: bool)
    requires d < 16
    ensures IsHexDigit(HexDigit(d, upper)) && HexDigitValue(HexDigit(d, upper)) == d && HexDigit(d, upper) != ':'
  {
    DigitOf(d);
    hide HexDigitValue, IsHexDigit;
  }

  lemma {:induction false} HexTextRoundTrip(n: nat, upper: bool)
    ensures AllHex(HexText(n, upper)) && HexValue(HexText(n, upper)) == n && ':' !in HexText(n, upper)
  {
    HexDigitRead(n % 16, upper);
    hide HexDigit, HexDigitValue, IsHexDigit, AllHex, HexValue, Pow2;
    NoHex();
    if n >= 16 {
      HexTextRoundTrip(n / 16, upper);
      HexSnoc(HexText(n / 16, upper), HexDigit(n % 16, upper));
    } else {
      HexSnoc("", HexDigit(n, upper));
      assert "" + [HexDigit(n, upper)] == [HexDigit(n, upper)];
    }
  }

  lemma NoHex()
    ensures AllHex("") && HexValue("") == 0
  {
  }

  /** Four digits hold the numbers of 16 bits. */
  lemma HexTextIsHextet(n: nat, upper: bool)
    requires n < 65536
    ensures IsHextet(HexText(n, upper))
  {
    HexTextRoundTrip(n, upper);
    if n >= 16 {
      var a := n / 16;
      assert |HexText(n, upper)| == |HexText(a, upper)| + 1;
      if a >= 16 {
        var b := a / 16;
        assert |HexText(a, upper)| == |HexText(b, upper)| + 1;
        assert b < 256 && (b >= 16 ==> |HexText(b, upper)| == |HexText(b / 16, upper)| + 1 == 2);
      }
    }
  }

  /** Letter case does not matter. */
  lemma {:induction false} HexCase(h: string, g: string)
    requires AllHex(h) && AllHex(g) && Lower(h) == Lower(g)
    ensures HexValue(h) == HexValue(g)
  {
    assert |h| == |Lower(h)| == |g|;
    if h != "" {
      var n := |h| - 1;
      assert Lower(h[..n]) == Lower(h)[..n] == Lower(g[..n]);
      assert LowerChar(h[n]) == Lower(h)[n] == LowerChar(g[n]);
      HexCase(h[..n], g[..n]);
    }
  }

  // ----- whole addresses

  /** The last `n` groups of 16 bits of a number, each printed. */
  function GroupTexts(v: nat, n: nat, upper: bool): (hs: seq<string>)
    ensures |hs| == n
  {
    if n == 0 then [] else GroupTexts(v / 65536, n - 1, upper) + [HexText(v % 65536, upper)]
  }

  lemma Quotient(v: nat, p: nat)
    requires v < p * 65536
    ensures v / 65536 < p && v / 65536 * 65536 + v % 65536 == v
  {
  }

  lemma {:induction false} GroupTextsValue(v: nat, n: nat, upper: bool)
    requires v < Pow2(16 * n)
    ensures AllHextets(GroupTexts(v, n, upper)) && GroupsValue(GroupTexts(v, n, upper), n) == v
  {
    if n > 0 {
      Pow2Sum(16 * (n - 1));
      assert 16 * (n - 1) + 16 == 16 * n;
      Quotient(v, Pow2(16 * (n - 1)));
      hide Pow2, HexValue, HexText, IsHextet;
      GroupTextsValue(v / 65536, n - 1, upper);
      HexTextIsHextet(v % 65536, upper);
      HexTextRoundTrip(v % 65536, upper);
      GroupsPrefix(GroupTexts(v / 65536, n - 1, upper), HexText(v % 65536, upper), n - 1);
    }
  }

  lemma {:induction false} GroupsPrefix(hs: seq<string>, h: string, n: nat)
    requires AllHextets(hs) && IsHextet(h) && n <= |hs|
    ensures AllHextets(hs + [h]) && GroupsValue(hs + [h], n) == GroupsValue(hs, n)
  {
    if n > 0 {
      GroupsPrefix(hs, h, n - 1);
    }
  }

  /** The full form of an IPv6 address. */
  function Ipv6Text(v: nat, upper: bool): string { Join(GroupTexts(v, 8, upper), ':') }

  /** Every IPv6 number printed in full, in either letter case, is read back as that number and as no other. */
  lemma PrintedIpv6(v: nat, upper: bool)
    requires v < 0x1_0000_0000_0000_0000_0000_0000_0000_0000
    ensures forall w: nat :: Ipv6Denotes(Ipv6Text(v, upper), w) <==> w == v
  {
    Pow2At(0, 128);
    GroupTextsValue(v, 8, upper);
    FullDenotes(Ipv6Text(v, upper), GroupTexts(v, 8, upper));
    forall w: nat | Ipv6Denotes(Ipv6Text(v, upper), w) ensures w == v {
      Ipv6Unique(Ipv6Text(v, upper), v, w);
    }
  }

  lemma Pow2Add32(a: nat)
    ensures Pow2(a + 32) == Pow2(a) * 0x1_0000_0000
  {
    Pow2Sum(a);
    Pow2Sum(a + 16);
    hide Pow2;
  }

  lemma Pow2At(a: nat, b: nat)
    requires a == 0 && b == a + 128
    ensures Pow2(a + 32) == 0x1_0000_0000 && Pow2(b) == 0x1_0000_0000_0000_0000_0000_0000_0000_0000
  {
    assert Pow2(a) == 1;
    hide Pow2;
    Pow2Add32(a);
    Pow2Add32(a + 32);
    Pow2Add32(a + 64);
    Pow2Add32(a + 96);
  }

  // ----- blocks

  function AddressText(family: Family, v: nat): string {
    match family
    case Ipv4 => Ipv4Text(v)
    case Ipv6 => Ipv6Text(v, false)
  }

  lemma FamilyLimits(zero: nat)
    requires zero == 0
    ensures FamilyBits(Ipv4) == zero + 32 && FamilyBits(Ipv6) == zero + 128
    ensures FamilyMax(Ipv4) == 0xFFFF_FFFF && FamilyMax(Ipv6) == 0xFFFF_FFFF_FFFF_FFFF_FFFF_FFFF_FFFF_FFFF
  {
    Pow2At(zero, zero + 128);
    assert zero + 32 == 32;
    hide Pow2;
  }

  /** Every aligned block, its address and prefix length printed, is read as that block and as no other. */
  lemma PrintedBlock(family: Family, start: nat, prefixLen: nat, bits: nat)
    requires bits == (if family == Ipv4 then 32 else 128) && prefixLen <= bits
    requires start <= FamilyMax(family) && start % Pow2(bits - prefixLen) == 0
    ensures var b := Block(family, start, start + Pow2(bits - prefixLen) - 1, prefixLen);
            forall c :: CidrDenotes(CidrText(AddressText(family, start), Decimal(prefixLen)), c) <==> c == b
  {
    var b := Block(family, start, start + Pow2(bits - prefixLen) - 1, prefixLen);
    FamilyLimits(0);
    assert IsBlock(b);
    hide Pow2, FamilyMax, Ipv6Text, Ipv4Text, Decimal, IsBlock, CidrDenotes, Ipv6Denotes;
    if family == Ipv6 {
      PrintedIpv6(start, false);
    }
    BlockIsRead(AddressText(family, start), b);
  }

  lemma BlockIsRead(addr: string, b: Block)
    requires AddressDenotes(b.family, addr, b.start) && IsBlock(b)
    ensures forall c :: CidrDenotes(CidrText(addr, Decimal(b.prefixLen)), c) <==> c == b
  {
    var text := CidrText(addr, Decimal(b.prefixLen));
    assert CidrDenotes(text, b);
    hide CidrDenotes, IsBlock, Decimal, AddressDenotes, CidrText;
    forall c | CidrDenotes(text, c) ensures c == b {
      CidrUnique(text, b, c);
    }
  }

  /** The block of prefix length 0 is the whole space of its family, and covers it alone. */
  lemma WholeSpace(family: Family, zero: nat)
    requires zero == 0
    ensures var raw := CidrText(AddressText(family, zero), Decimal(zero));
            FamilyCovered([raw], family) && AllParse([raw]) && CoversInternet([raw])
  {
    FamilyLimits(zero);
    var bits := if family == Ipv4 then 32 else 128;
    assert FamilyMax(family) == Pow2(FamilyBits(family)) - 1 && FamilyBits(family) == bits;
    hide *;
    WholeSpaceOf(family, zero, bits);
  }

  lemma WholeSpaceOf(family: Family, zero: nat, bits: nat)
    requires zero == 0 && bits == (if family == Ipv4 then 32 else 128) && FamilyMax(family) == Pow2(bits) - 1
    ensures var raw := CidrText(AddressText(family, zero), Decimal(zero));
            FamilyCovered([raw], family) && AllParse([raw]) && CoversInternet([raw])
  {
    hide *;
    PrintedBlock(family, zero, zero, bits);
    CoversAlone(CidrText(AddressText(family, zero), Decimal(zero)), Block(family, zero, Pow2(bits - zero) - 1, zero));
  }

  lemma CoversAlone(raw: string, b: Block)
    requires CidrDenotes(raw, b) && b.start == 0 && b.end == FamilyMax(b.family)
    ensures FamilyCovered([raw], b.family) && AllParse([raw]) && CoversInternet([raw])
  {
    assert Parses(raw);
    CidrUnique(raw, BlockOf(raw), b);
    hide Pow2, FamilyMax, CidrDenotes, Parses;
    forall a: nat | a <= FamilyMax(b.family) ensures InSomeBlock([raw], b.family, a) {
      assert raw in [raw] && Holds(BlockOf(raw), b.family, a);
    }
    assert b.family == Ipv4 || b.family == Ipv6;
  }

  /** What it means to be covered: every number of 32, or of 128, bits lies in the block of some entry. */
  lemma CoveredIff(values: seq<string>)
    ensures FamilyCovered(values, Ipv4) <==>
            forall a: nat | a < 0x1_0000_0000 :: InSomeBlock(values, Ipv4, a)
    ensures FamilyCovered(values, Ipv6) <==>
            forall a: nat | a < 0x1_0000_0000_0000_0000_0000_0000_0000_0000 :: InSomeBlock(values, Ipv6, a)
  {
    FamilyLimits(0);
    hide Pow2, FamilyMax, InSomeBlock;
  }
}
