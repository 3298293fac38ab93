// packages/k8s-baseline/src/cidr-coverage.ts: IPv4 and IPv6 text, CIDR blocks,
// and the sweep that decides whether a list of blocks covers an address family.
module Cidr {
  import opened Wrappers
  import opened Bits
  import opened Text

  datatype Family = Ipv4 | Ipv6

  datatype Block = Block(family: Family, start: nat, end: nat, prefixLen: nat)

  function FamilyBits(family: Family): nat { if family == Ipv4 then 32 else 128 }

  function FamilyMax(family: Family): nat { Pow2(FamilyBits(family)) - 1 }

  // ----- IPv4 text

  /** The dotted quad that denotes `v`. */
  function Ipv4Octets(v: nat): seq<nat> {
    [v / 0x100 / 0x100 / 0x100, v / 0x100 / 0x100 % 0x100, v / 0x100 % 0x100, v % 0x100]
  }

  function Ipv4Parts(v: nat): seq<string> {
    var o := Ipv4Octets(v);
    [Decimal(o[0]), Decimal(o[1]), Decimal(o[2]), Decimal(o[3])]
  }

  function Ipv4Text(v: nat): string { Join(Ipv4Parts(v), '.') }

  ghost predicate Ipv4Denotes(addr: string, v: nat) {
    v < 0x1_0000_0000 && addr == Ipv4Text(v)
  }

  ghost predicate IsOctet(part: string) {
    IsCanonicalDecimal(part) && DecimalValue(part) <= 255
  }

  /** The tests the parser makes on one octet accept exactly the printed numbers 0 to 255. */
  lemma OctetText(part: string)
    ensures IsOctet(part) <==> exists n: nat :: n <= 255 && part == Decimal(n)
    ensures IsOctet(part) ==> |part| <= 3 && part == Decimal(DecimalValue(part))
  {
    if IsOctet(part) {
      DecimalValueRoundTrip(part);
      DecimalLength(DecimalValue(part));
    }
    forall n: nat | n <= 255 && part == Decimal(n) ensures IsOctet(part) {
      DecimalRoundTrip(n);
    }
  }

  lemma Ipv4TextSplits(v: nat)
    requires v < 0x1_0000_0000
    ensures Split(Ipv4Text(v), '.') == Ipv4Parts(v)
    ensures forall i | 0 <= i < 4 :: IsOctet(Ipv4Parts(v)[i])
    ensures forall i | 0 <= i < 4 :: DecimalValue(Ipv4Parts(v)[i]) == Ipv4Octets(v)[i]
  {
    var o := Ipv4Octets(v);
    forall i | 0 <= i < 4
      ensures '.' !in Ipv4Parts(v)[i] && IsOctet(Ipv4Parts(v)[i]) && DecimalValue(Ipv4Parts(v)[i]) == o[i]
    {
      DecimalRoundTrip(o[i]);
    }
    SplitJoin(Ipv4Parts(v), '.');
  }

  function FourOctets(a: nat, b: nat, c: nat, d: nat): nat {
    ((a * 0x100 + b) * 0x100 + c) * 0x100 + d
  }

  lemma OctetsDetermine(v: nat)
    ensures var o := Ipv4Octets(v); v == FourOctets(o[0], o[1], o[2], o[3])
  {
    var a := v / 0x100;
    var b := a / 0x100;
    assert v == a * 0x100 + v % 0x100 && a == b * 0x100 + a % 0x100;
  }

  lemma OctetsOfFour(a: nat, b: nat, c: nat, d: nat)
    requires a <= 255 && b <= 255 && c <= 255 && d <= 255
    ensures FourOctets(a, b, c, d) < 0x1_0000_0000
    ensures Ipv4Octets(FourOctets(a, b, c, d)) == [a, b, c, d]
  {
  }

  lemma Ipv4Unique(addr: string, v: nat, w: nat)
    requires Ipv4Denotes(addr, v) && Ipv4Denotes(addr, w)
    ensures v == w
  {
    Ipv4TextSplits(v);
    Ipv4TextSplits(w);
    OctetsDetermine(v);
    OctetsDetermine(w);
    assert forall i | 0 <= i < 4 :: Ipv4Octets(v)[i] == Ipv4Octets(w)[i];
  }

  ghost predicate AllOctets(parts: seq<string>) {
    forall i | 0 <= i < |parts| :: IsOctet(parts[i])
  }

  /** The number the dotted octets `parts` stand for, first octet most significant. */
  ghost function QuadValue(parts: seq<string>): nat
    requires |parts| == 4 && AllOctets(parts)
  {
    FourOctets(DecimalValue(parts[0]), DecimalValue(parts[1]), DecimalValue(parts[2]), DecimalValue(parts[3]))
  }

  lemma QuadText(parts: seq<string>)
    requires |parts| == 4 && AllOctets(parts)
    ensures QuadValue(parts) < 0x1_0000_0000
    ensures Ipv4Parts(QuadValue(parts)) == parts
  {
    var a, b, c, d := DecimalValue(parts[0]), DecimalValue(parts[1]), DecimalValue(parts[2]), DecimalValue(parts[3]);
    OctetsOfFour(a, b, c, d);
    OctetText(parts[0]);
    OctetText(parts[1]);
    OctetText(parts[2]);
    OctetText(parts[3]);
  }

  lemma NotIpv4(addr: string)
    requires |Split(addr, '.')| != 4 || !AllOctets(Split(addr, '.'))
    ensures forall v: nat :: !Ipv4Denotes(addr, v)
  {
    forall v: nat ensures !Ipv4Denotes(addr, v) {
      if v < 0x1_0000_0000 {
        Ipv4TextSplits(v);
      }
    }
  }

  method ParseOctet(part: string) returns (r: Option<nat>)
    ensures r.Some? <==> IsOctet(part)
    ensures r.Some? ==> r.value == DecimalValue(part) <= 255
  {
    OctetText(part);
    if !(1 <= |part| <= 3 && AllDigits(part)) {
      return None;
    }
    if |part| > 1 && part[0] == '0' {
      return None;
    }
    var n := DecimalValue(part);
    if n > 255 {
      return None;
    }
    return Some(n);
  }

  /** Accepts exactly the printed form of each 32-bit number, and returns that number. */
  method ParseIpv4(addr: string) returns (r: Option<nat>)
    ensures r.Some? ==> Ipv4Denotes(addr, r.value)
    ensures r.None? ==> forall v: nat :: !Ipv4Denotes(addr, v)
  {
    var parts := Split(addr, '.');
    if |parts| != 4 {
      NotIpv4(addr);
      return None;
    }
    var value := CombineOctets(parts);
    if value.None? {
      NotIpv4(addr);
      return None;
    }
    QuadText(parts);
    JoinSplit(addr, '.');
    return value;
  }

  method CombineOctets(parts: seq<string>) returns (r: Option<nat>)
    requires |parts| == 4
    ensures r.Some? <==> AllOctets(parts)
    ensures r.Some? ==> r.value == QuadValue(parts)
  {
    ghost var vs: seq<nat> := seq(4, k requires 0 <= k < 4 => OctetOrZero(parts[k]));
    var value: nat := 0;
    for i := 0 to 4
      invariant forall k | 0 <= k < i :: IsOctet(parts[k])
      invariant value == BytesValue(vs, i)
    {
      var n := ParseOctet(parts[i]);
      if n.None? {
        return None;
      }
      assert Pow2(8) == 0x100;
      value := AppendBits(value, n.value, 8);
    }
    FourBytes(vs);
    return Some(value);
  }

  ghost function OctetOrZero(part: string): nat {
    if IsOctet(part) then DecimalValue(part) else 0
  }

  function BytesValue(vs: seq<nat>, n: nat): nat
    requires n <= |vs|
  {
    if n == 0 then 0 else BytesValue(vs, n - 1) * 0x100 + vs[n - 1]
  }

  lemma FourBytes(vs: seq<nat>)
    requires |vs| == 4
    ensures BytesValue(vs, 4) == FourOctets(vs[0], vs[1], vs[2], vs[3])
  {
    assert BytesValue(vs, 1) == vs[0];
    assert BytesValue(vs, 2) == vs[0] * 0x100 + vs[1];
    assert BytesValue(vs, 3) == (vs[0] * 0x100 + vs[1]) * 0x100 + vs[2];
  }

  /** `(value << k) | n` for a group of `k` bits. */
  method AppendBits(value: nat, n: nat, k: nat) returns (r: nat)
    requires n < Pow2(k)
    ensures k == 8 ==> r == value * 0x100 + n
    ensures k == 16 ==> r == value * 0x1_0000 + n
  {
    OrDisjoint(value, n, k);
    assert Pow2(8) == 0x100 && Pow2(16) == 0x1_0000;
    r := Or(Shl(value, k), n);
  }

  // ----- IPv6 text

  predicate IsHexDigit(c: char) { IsDigit(c) || 'a' <= c <= 'f' || 'A' <= c <= 'F' }

  function HexDigitValue(c: char): (d: nat)
    requires IsHexDigit(c)
  {
    if IsDigit(c) then (c - '0') as nat
    else if 'a' <= c then 10 + (c - 'a') as nat
    else 10 + (c - 'A') as nat
  }

  predicate IsHextet(h: string) {
    1 <= |h| <= 4 && forall i | 0 <= i < |h| :: IsHexDigit(h[i])
  }

  predicate AllHextets(hs: seq<string>) { forall i | 0 <= i < |hs| :: IsHextet(hs[i]) }

  /** `parseInt(h, 16)`. */
  function HexValue(h: string): (v: nat)
    requires forall i | 0 <= i < |h| :: IsHexDigit(h[i])
    ensures v < Pow2(4 * |h|)
  {
    if h == "" then 0
    else
      var front := h[..|h| - 1];
      assert Pow2(4 * |h|) == 16 * Pow2(4 * |front|) by {
        assert Pow2(4 * |front| + 1) == 2 * Pow2(4 * |front|);
        assert Pow2(4 * |front| + 2) == 2 * Pow2(4 * |front| + 1);
        assert Pow2(4 * |front| + 3) == 2 * Pow2(4 * |front| + 2);
      }
      16 * HexValue(front) + HexDigitValue(h[|h| - 1])
  }

  lemma HextetBound(h: string)
    requires IsHextet(h)
    ensures HexValue(h) < 0x1_0000
  {
    assert Pow2(4) == 16 && Pow2(8) == 256 && Pow2(12) == 4096 && Pow2(16) == 0x1_0000;
  }

  /** The number built from the first `n` groups of 16 bits, most significant first. */
  function GroupsValue(hs: seq<string>, n: nat): (v: nat)
    requires n <= |hs| && AllHextets(hs)
    ensures v < Pow2(16 * n)
  {
    if n == 0 then 0
    else
      HextetBound(hs[n - 1]);
      Pow2Sum(16 * (n - 1));
      GroupsValue(hs, n - 1) * 0x1_0000 + HexValue(hs[n - 1])
  }

  function HextetsValue(hs: seq<string>): (v: nat)
    requires AllHextets(hs)
    ensures v < Pow2(16 * |hs|)
  {
    GroupsValue(hs, |hs|)
  }

  lemma Pow2Sum(a: nat)
    ensures Pow2(a + 16) == Pow2(a) * 0x1_0000
  {
    assert Pow2(a + 4) == 16 * Pow2(a) by {
      assert Pow2(a + 1) == 2 * Pow2(a) && Pow2(a + 2) == 2 * Pow2(a + 1) && Pow2(a + 3) == 2 * Pow2(a + 2);
    }
    assert Pow2(a + 8) == 16 * Pow2(a + 4) by {
      assert Pow2(a + 5) == 2 * Pow2(a + 4) && Pow2(a + 6) == 2 * Pow2(a + 5) && Pow2(a + 7) == 2 * Pow2(a + 6);
    }
    assert Pow2(a + 12) == 16 * Pow2(a + 8) by {
      assert Pow2(a + 9) == 2 * Pow2(a + 8) && Pow2(a + 10) == 2 * Pow2(a + 9) && Pow2(a + 11) == 2 * Pow2(a + 10);
    }
    assert Pow2(a + 13) == 2 * Pow2(a + 12) && Pow2(a + 14) == 2 * Pow2(a + 13) && Pow2(a + 15) == 2 * Pow2(a + 14);
  }

  function Zeros(n: nat): (z: seq<string>)
    ensures |z| == n && AllHextets(z)
  {
    seq(n, _ => "0")
  }

  /**
   * Section 2.2 of RFC 4291, without the dotted-quad tail: eight hextets, or
   * fewer than eight with one `::` standing for the missing zeros.
   */
  ghost predicate FullForm(addr: string, hs: seq<string>) {
    |hs| == 8 && AllHextets(hs) && addr == Join(hs, ':')
  }

  ghost predicate CompressedForm(addr: string, head: seq<string>, tail: seq<string>) {
    && |head| + |tail| < 8 && AllHextets(head) && AllHextets(tail)
    && addr == Join(head, ':') + "::" + Join(tail, ':')
  }

  ghost function Expanded(head: seq<string>, tail: seq<string>): (hs: seq<string>)
    requires |head| + |tail| < 8 && AllHextets(head) && AllHextets(tail)
    ensures |hs| == 8 && AllHextets(hs)
  {
    head + Zeros(8 - |head| - |tail|) + tail
  }

  ghost predicate Ipv6Denotes(addr: string, v: nat) {
    || (exists hs :: FullForm(addr, hs) && v == HextetsValue(hs))
    || (exists head, tail :: CompressedForm(addr, head, tail) && v == HextetsValue(Expanded(head, tail)))
  }

  /** The number of matches of the regular expression `::`, left to right. */
  function PairCount(s: string): nat {
    if |s| < 2 then 0
    else if s[0] == ':' && s[1] == ':' then 1 + PairCount(s[2..])
    else PairCount(s[1..])
  }

  /** The position of the first `::`. */
  function FirstPair(s: string): (i: nat)
    requires PairCount(s) > 0
    ensures i + 2 <= |s| && s[i] == ':' && s[i + 1] == ':'
  {
    if s[0] == ':' && s[1] == ':' then 0 else 1 + FirstPair(s[1..])
  }

  ghost predicate ColonBounded(s: string) {
    s == "" || (s[0] != ':' && s[|s| - 1] != ':')
  }

  lemma {:induction false} JoinHasNoPair(hs: seq<string>)
    requires AllHextets(hs)
    ensures PairCount(Join(hs, ':')) == 0 && ColonBounded(Join(hs, ':'))
    ensures hs != [] ==> Join(hs, ':') != ""
    ensures forall c | c in Join(hs, ':') :: IsHexDigit(c) || c == ':'
  {
    if |hs| == 1 {
      WordHasNoPair(hs[0], "");
      assert hs[0] + "" == hs[0];
    } else if |hs| > 1 {
      var rest := Join(hs[1..], ':');
      JoinHasNoPair(hs[1..]);
      var tail := ":" + rest;
      assert tail[1..] == rest && PairCount(tail) == 0;
      WordHasNoPair(hs[0], tail);
      assert Join(hs, ':') == hs[0] + tail;
    }
  }

  lemma {:induction false} WordHasNoPair(w: string, rest: string)
    requires ':' !in w
    ensures PairCount(w + rest) == PairCount(rest)
  {
    if w == "" {
      assert w + rest == rest;
    } else {
      assert (w + rest)[1..] == w[1..] + rest;
      WordHasNoPair(w[1..], rest);
    }
  }

  lemma {:induction false} PairSplits(a: string, b: string)
    requires PairCount(a) == 0 && (a == "" || a[|a| - 1] != ':') && PairCount(b) == 0
    ensures var s := a + "::" + b; PairCount(s) == 1 && FirstPair(s) == |a|
  {
    var s := a + "::" + b;
    if a == "" {
      assert s[2..] == b;
    } else {
      assert s[1..] == a[1..] + "::" + b;
      PairSplits(a[1..], b);
    }
  }

  /** The lists of groups the parser cuts an accepted text into. */
  function Groups(part: string): seq<string> {
    if part == "" then [] else Split(part, ':')
  }

  lemma GroupsOfJoin(hs: seq<string>)
    requires AllHextets(hs)
    ensures Groups(Join(hs, ':')) == hs
  {
    JoinHasNoPair(hs);
    if hs != [] {
      SplitJoin(hs, ':');
    }
  }

  lemma JoinOfGroups(part: string)
    ensures Join(Groups(part), ':') == part
  {
    JoinSplit(part, ':');
  }

  lemma FullFormScan(addr: string, hs: seq<string>)
    requires FullForm(addr, hs)
    ensures '.' !in addr && '/' !in addr && ':' in addr && PairCount(addr) == 0 && Split(addr, ':') == hs
  {
    JoinHasNoPair(hs);
    SplitJoin(hs, ':');
    assert addr[|hs[0]|] == ':';
  }

  lemma CompressedFormScan(addr: string, head: seq<string>, tail: seq<string>)
    requires CompressedForm(addr, head, tail)
    ensures '.' !in addr && '/' !in addr && ':' in addr && PairCount(addr) == 1
    ensures var i := FirstPair(addr); Groups(addr[..i]) == head && Groups(addr[i + 2..]) == tail
  {
    hide Join, Groups, AllHextets, PairCount, FirstPair;
    JoinHasNoPair(head);
    JoinHasNoPair(tail);
    var a, b := Join(head, ':'), Join(tail, ':');
    PairSplits(a, b);
    assert addr[..|a|] == a && addr[|a| + 2..] == b && addr[|a|] == ':';
    GroupsOfJoin(head);
    GroupsOfJoin(tail);
  }

  lemma Ipv6Unique(addr: string, v: nat, w: nat)
    requires Ipv6Denotes(addr, v) && Ipv6Denotes(addr, w)
    ensures v == w
  {
    forall hs | FullForm(addr, hs) ensures PairCount(addr) == 0 && Split(addr, ':') == hs {
      FullFormScan(addr, hs);
    }
    forall head, tail | CompressedForm(addr, head, tail)
      ensures PairCount(addr) == 1
      ensures Groups(addr[..FirstPair(addr)]) == head && Groups(addr[FirstPair(addr) + 2..]) == tail
    {
      CompressedFormScan(addr, head, tail);
    }
  }

  /** Every eight hextets, with any run of one or more zero groups written `::`, denote one number. */
  lemma CompressionKeepsValue(head: seq<string>, zeros: seq<string>, tail: seq<string>)
    requires AllHextets(head) && AllHextets(zeros) && AllHextets(tail)
    requires |zeros| > 0 && |head| + |zeros| + |tail| == 8
    requires forall i | 0 <= i < |zeros| :: HexValue(zeros[i]) == 0
    ensures AllHextets(head + zeros + tail)
    ensures Ipv6Denotes(Join(head + zeros + tail, ':'), HextetsValue(head + zeros + tail))
    ensures Ipv6Denotes(Join(head, ':') + "::" + Join(tail, ':'), HextetsValue(head + zeros + tail))
  {
    var full := head + zeros + tail;
    assert FullForm(Join(full, ':'), full);
    assert CompressedForm(Join(head, ':') + "::" + Join(tail, ':'), head, tail);
    assert HexValue("0") == 0;
    SameGroupsSameValue(full, Expanded(head, tail), 8);
  }

  lemma {:induction false} SameGroupsSameValue(hs: seq<string>, gs: seq<string>, n: nat)
    requires AllHextets(hs) && AllHextets(gs) && n <= |hs| == |gs|
    requires forall i | 0 <= i < |hs| :: HexValue(hs[i]) == HexValue(gs[i])
    ensures GroupsValue(hs, n) == GroupsValue(gs, n)
  {
    if n > 0 {
      SameGroupsSameValue(hs, gs, n - 1);
    }
  }

  method CheckHextets(hextets: seq<string>) returns (ok: bool)
    ensures ok <==> AllHextets(hextets)
  {
    for i := 0 to |hextets|
      invariant forall k | 0 <= k < i :: IsHextet(hextets[k])
    {
      if !IsHextet(hextets[i]) {
        return false;
      }
    }
    return true;
  }

  lemma HextetBits()
    ensures Pow2(16) == 0x1_0000
  {
    Pow2Sum(0);
    assert Pow2(0) == 1;
  }

  method CombineHextets(full: seq<string>) returns (value: nat)
    requires AllHextets(full)
    ensures value == HextetsValue(full)
  {
    HextetBits();
    hide Pow2, HexValue;
    value := 0;
    for i := 0 to |full|
      invariant value == GroupsValue(full, i)
    {
      HextetBound(full[i]);
      value := AppendBits(value, HexValue(full[i]), 16);
    }
  }

  /** Accepts exactly the full and compressed forms, and returns the number they denote. */
  method ParseIpv6(addr: string) returns (r: Option<nat>)
    ensures r.Some? ==> Ipv6Denotes(addr, r.value)
    ensures r.None? ==> forall v: nat :: !Ipv6Denotes(addr, v)
  {
    var full := ExpandText(addr);
    if full.None? {
      NotIpv6(addr);
      return None;
    }
    var value := CombineHextets(full.value);
    return Some(value);
  }

  /** The eight groups a text stands for. */
  ghost predicate StandsFor(addr: string, hs: seq<string>) {
    && |hs| == 8 && AllHextets(hs) && Ipv6Denotes(addr, HextetsValue(hs))
  }

  method ExpandText(addr: string) returns (r: Option<seq<string>>)
    ensures r.Some? ==> StandsFor(addr, r.value)
    ensures r.None? ==> !PassesScan(addr)
  {
    if '.' in addr {
      return None;
    }
    var doubleColonCount := PairCount(addr);
    if doubleColonCount > 1 {
      return None;
    }
    var head, tail := SplitGroups(addr);
    var hextets := head + tail;
    if doubleColonCount == 0 && |hextets| != 8 {
      return None;
    }
    if doubleColonCount == 1 && |hextets| >= 8 {
      return None;
    }
    var ok := CheckHextets(hextets);
    if !ok {
      return None;
    }
    HextetsOfParts(head, tail);
    var zeros := 8 - (|head| + |tail|);
    var full := head + Zeros(if doubleColonCount == 1 then zeros else 0) + tail;
    if doubleColonCount == 1 {
      CompressedDenotes(addr, head, tail);
      assert full == Expanded(head, tail);
    } else {
      FullDenotes(addr, head);
      assert full == head;
    }
    return Some(full);
  }

  method SplitGroups(addr: string) returns (head: seq<string>, tail: seq<string>)
    requires PairCount(addr) <= 1
    ensures head + tail == TextGroups(addr)
    ensures PairCount(addr) == 1 ==> addr == Join(head, ':') + "::" + Join(tail, ':')
    ensures PairCount(addr) == 0 ==> addr == Join(head, ':') && tail == []
  {
    if PairCount(addr) == 1 {
      var i := FirstPair(addr);
      head := Groups(addr[..i]);
      tail := Groups(addr[i + 2..]);
      JoinOfGroups(addr[..i]);
      JoinOfGroups(addr[i + 2..]);
      assert addr == addr[..i] + "::" + addr[i + 2..];
    } else {
      head := Split(addr, ':');
      tail := [];
      JoinSplit(addr, ':');
    }
  }

  lemma HextetsOfParts(head: seq<string>, tail: seq<string>)
    requires AllHextets(head + tail)
    ensures AllHextets(head) && AllHextets(tail)
  {
    assert head == (head + tail)[..|head|] && tail == (head + tail)[|head|..];
  }

  lemma FullDenotes(addr: string, hs: seq<string>)
    requires FullForm(addr, hs)
    ensures Ipv6Denotes(addr, HextetsValue(hs))
  {
  }

  lemma CompressedDenotes(addr: string, head: seq<string>, tail: seq<string>)
    requires CompressedForm(addr, head, tail)
    ensures Ipv6Denotes(addr, HextetsValue(Expanded(head, tail)))
  {
  }

  /** The groups the parser cuts a text into, when the text has at most one `::`. */
  function TextGroups(addr: string): seq<string> {
    if PairCount(addr) == 1 then
      var i := FirstPair(addr);
      Groups(addr[..i]) + Groups(addr[i + 2..])
    else Split(addr, ':')
  }

  ghost predicate PassesScan(addr: string) {
    && '.' !in addr && PairCount(addr) <= 1
    && AllHextets(TextGroups(addr))
    && (PairCount(addr) == 0 ==> |TextGroups(addr)| == 8)
    && (PairCount(addr) == 1 ==> |TextGroups(addr)| < 8)
  }

  lemma DenotingTextPasses(addr: string, v: nat)
    requires Ipv6Denotes(addr, v)
    ensures PassesScan(addr) && '/' !in addr && ':' in addr
  {
    if hs :| FullForm(addr, hs) && v == HextetsValue(hs) {
      FullFormScan(addr, hs);
    } else {
      var head, tail :| CompressedForm(addr, head, tail) && v == HextetsValue(Expanded(head, tail));
      CompressedFormScan(addr, head, tail);
    }
  }

  lemma NotIpv6(addr: string)
    requires !PassesScan(addr)
    ensures forall v: nat :: !Ipv6Denotes(addr, v)
  {
    forall v: nat | Ipv6Denotes(addr, v) ensures false {
      DenotingTextPasses(addr, v);
    }
  }

  // ----- CIDR blocks

  /** The text `addr` denotes the number `v` in the given family. */
  ghost predicate AddressDenotes(family: Family, addr: string, v: nat) {
    match family
    case Ipv4 => Ipv4Denotes(addr, v)
    case Ipv6 => Ipv6Denotes(addr, v)
  }

  /** The aligned block of `2^(bits - prefixLen)` addresses that starts at `start`. */
  ghost predicate IsBlock(b: Block) {
    && b.prefixLen <= FamilyBits(b.family)
    && b.start % Pow2(FamilyBits(b.family) - b.prefixLen) == 0
    && b.end == b.start + Pow2(FamilyBits(b.family) - b.prefixLen) - 1
  }

  function CidrText(addr: string, suffix: string): string { addr + ['/'] + suffix }

  ghost predicate CidrDenotes(cidr: string, b: Block) {
    IsBlock(b) && exists addr :: cidr == CidrText(addr, Decimal(b.prefixLen)) && AddressDenotes(b.family, addr, b.start)
  }

  lemma AddressFamily(family: Family, addr: string, v: nat)
    requires AddressDenotes(family, addr, v)
    ensures '/' !in addr
    ensures family == Ipv6 <==> ':' in addr
  {
    if family == Ipv6 {
      DenotingTextPasses(addr, v);
    } else {
      Ipv4TextSplits(v);
      var p := Ipv4Parts(v);
      assert Join(p[3..], '.') == p[3];
      assert Join(p[2..], '.') == p[2] + "." + p[3];
      assert Join(p[1..], '.') == p[1] + "." + (p[2] + "." + p[3]);
      assert addr == p[0] + "." + (p[1] + "." + (p[2] + "." + p[3]));
      forall c | c in addr ensures IsDigit(c) || c == '.' {
        assert c == '.' || c in p[0] || c in p[1] || c in p[2] || c in p[3];
      }
    }
  }

  /** A denoting text splits at its slash in one way only. */
  lemma CidrParts(addr: string, suffix: string, b: Block)
    requires '/' !in addr && CidrDenotes(CidrText(addr, suffix), b)
    ensures suffix == Decimal(b.prefixLen) && AddressDenotes(b.family, addr, b.start)
  {
    var a :| CidrText(addr, suffix) == CidrText(a, Decimal(b.prefixLen)) && AddressDenotes(b.family, a, b.start);
    AddressFamily(b.family, a, b.start);
    SeparatorInjective(addr, suffix, a, Decimal(b.prefixLen), '/');
  }

  lemma AddressUnique(f: Family, g: Family, addr: string, v: nat, w: nat)
    requires AddressDenotes(f, addr, v) && AddressDenotes(g, addr, w)
    ensures f == g && v == w
  {
    AddressFamily(f, addr, v);
    AddressFamily(g, addr, w);
    if f == Ipv4 {
      Ipv4Unique(addr, v, w);
    } else {
      Ipv6Unique(addr, v, w);
    }
  }

  lemma DecimalUnique(m: nat, n: nat)
    requires Decimal(m) == Decimal(n)
    ensures m == n
  {
    DecimalRoundTrip(m);
    DecimalRoundTrip(n);
  }

  /** One CIDR text denotes at most one block. */
  lemma CidrUnique(cidr: string, b: Block, c: Block)
    requires CidrDenotes(cidr, b) && CidrDenotes(cidr, c)
    ensures b == c
  {
    var addr :| cidr == CidrText(addr, Decimal(b.prefixLen)) && AddressDenotes(b.family, addr, b.start);
    AddressFamily(b.family, addr, b.start);
    CidrParts(addr, Decimal(b.prefixLen), c);
    DecimalUnique(b.prefixLen, c.prefixLen);
    AddressUnique(b.family, c.family, addr, b.start, c.start);
  }

  function IndexOf(s: string, c: char): (i: nat)
    ensures i <= |s| && c !in s[..i]
    ensures i < |s| ==> s[i] == c
  {
    if s == "" || s[0] == c then 0 else 1 + IndexOf(s[1..], c)
  }

  method ParsePrefix(text: string) returns (r: Option<nat>)
    ensures r.Some? ==> text == Decimal(r.value)
    ensures r.None? ==> forall n: nat | n <= 999 :: text != Decimal(n)
  {
    forall n: nat | n <= 999 && text == Decimal(n)
      ensures |text| <= 3 && IsCanonicalDecimal(text)
    {
      DecimalRoundTrip(n);
      DecimalLength(n);
    }
    if !(1 <= |text| <= 3 && AllDigits(text)) {
      return None;
    }
    if |text| > 1 && text[0] == '0' {
      return None;
    }
    DecimalValueRoundTrip(text);
    return Some(DecimalValue(text));
  }

  method ParseAddress(addr: string) returns (family: Family, r: Option<nat>)
    ensures family == Ipv6 <==> ':' in addr
    ensures r.Some? ==> AddressDenotes(family, addr, r.value)
    ensures r.None? ==> forall f, v: nat :: !AddressDenotes(f, addr, v)
  {
    forall f, v: nat | AddressDenotes(f, addr, v) ensures f == Ipv6 <==> ':' in addr {
      AddressFamily(f, addr, v);
    }
    if ':' in addr {
      family := Ipv6;
      r := ParseIpv6(addr);
    } else {
      family := Ipv4;
      r := ParseIpv4(addr);
    }
  }

  /** The block check: host bits clear, and the last address has them all set. */
  method AlignedBlock(family: Family, value: nat, prefixLen: nat) returns (r: Option<Block>)
    requires prefixLen <= FamilyBits(family)
    ensures r.Some? <==> value % Pow2(FamilyBits(family) - prefixLen) == 0
    ensures r.Some? ==>
            IsBlock(r.value) && r.value.family == family && r.value.start == value && r.value.prefixLen == prefixLen
  {
    var hostBits := FamilyBits(family) - prefixLen;
    var mask := if hostBits == 0 then 0 else Shl(1, hostBits) - 1;
    var size := Pow2(hostBits);
    assert mask == size - 1;
    AndMask(value, hostBits);
    if And(value, mask) != 0 {
      return None;
    }
    var k := value / size;
    assert value == k * size;
    OrDisjoint(k, mask, hostBits);
    return Some(Block(family, value, Or(value, mask), prefixLen));
  }

  /** Accepts exactly the canonical texts of aligned blocks, and returns the block. */
  method ParseCidr(cidr: string) returns (r: Option<Block>)
    ensures r.Some? ==> CidrDenotes(cidr, r.value)
    ensures r.None? ==> forall b :: !CidrDenotes(cidr, b)
  {
    var slash := IndexOf(cidr, '/');
    if slash == |cidr| {
      NoSlash(cidr);
      return None;
    }
    var addrPart, prefixPart := cidr[..slash], cidr[slash + 1..];
    assert cidr == CidrText(addrPart, prefixPart);
    var prefixLen := ParsePrefix(prefixPart);
    if prefixLen.None? {
      NotCidr(addrPart, prefixPart);
      return None;
    }
    var family, value := ParseAddress(addrPart);
    if value.None? {
      NotCidr(addrPart, prefixPart);
      return None;
    }
    OnlyReading(family, addrPart, value.value, prefixLen.value);
    if prefixLen.value > FamilyBits(family) {
      NotCidr(addrPart, prefixPart);
      return None;
    }
    r := AlignedBlock(family, value.value, prefixLen.value);
    if r.None? {
      NotCidr(addrPart, prefixPart);
    }
  }

  lemma OnlyReading(family: Family, addr: string, value: nat, n: nat)
    requires AddressDenotes(family, addr, value)
    ensures forall f, v: nat, m: nat ::
            AddressDenotes(f, addr, v) && Decimal(n) == Decimal(m) ==> f == family && v == value && m == n
  {
    forall f, v: nat, m: nat | AddressDenotes(f, addr, v) && Decimal(n) == Decimal(m)
      ensures f == family && v == value && m == n
    {
      AddressUnique(f, family, addr, v, value);
      DecimalUnique(n, m);
    }
  }

  lemma NoSlash(cidr: string)
    requires '/' !in cidr
    ensures forall b :: !CidrDenotes(cidr, b)
  {
    forall b ensures !CidrDenotes(cidr, b) {
      forall addr ensures cidr != CidrText(addr, Decimal(b.prefixLen)) {
        assert CidrText(addr, Decimal(b.prefixLen))[|addr|] == '/';
      }
    }
  }

  lemma NotCidr(addr: string, suffix: string)
    requires '/' !in addr
    requires forall f, v: nat, n: nat ::
               AddressDenotes(f, addr, v) && suffix == Decimal(n) && n <= FamilyBits(f) ==>
                 v % Pow2(FamilyBits(f) - n) != 0
    ensures forall b :: !CidrDenotes(CidrText(addr, suffix), b)
  {
    forall b ensures !CidrDenotes(CidrText(addr, suffix), b) {
      if CidrDenotes(CidrText(addr, suffix), b) {
        CidrParts(addr, suffix, b);
      }
    }
  }
}
