// packages/k8s-baseline/src/cidr-coverage.ts, analyzeCidrCoverage: does a list of
// CIDR texts cover a whole address family?
module CidrCoverage {
  import opened Wrappers
  import opened Bits
  import opened Cidr
  import opened Sorting

  datatype CoverageResult = CoverageResult(malformed: Option<string>, coversInternet: bool, family: Option<Family>)

  // ----- specification: every address lies in some listed block

  ghost predicate Parses(raw: string) { exists b :: CidrDenotes(raw, b) }

  ghost function BlockOf(raw: string): (b: Block)
    requires Parses(raw)
    ensures CidrDenotes(raw, b)
  {
    var b :| CidrDenotes(raw, b); b
  }

  predicate Holds(b: Block, family: Family, a: nat) {
    b.family == family && b.start <= a <= b.end
  }

  ghost predicate InSomeBlock(values: seq<string>, family: Family, a: nat) {
    exists raw :: raw in values && Parses(raw) && Holds(BlockOf(raw), family, a)
  }

  ghost predicate FamilyCovered(values: seq<string>, family: Family) {
    forall a: nat | a <= FamilyMax(family) :: InSomeBlock(values, family, a)
  }

  ghost predicate AllParse(values: seq<string>) {
    forall raw | raw in values :: Parses(raw)
  }

  /** `raw` is the first entry that is not a CIDR text. */
  ghost predicate FirstMalformed(values: seq<string>, raw: string) {
    exists i :: 0 <= i < |values| && values[i] == raw && !Parses(raw) && AllParse(values[..i])
  }

  ghost predicate CoversInternet(values: seq<string>) {
    && AllParse(values)
    && (FamilyCovered(values, Ipv4) || FamilyCovered(values, Ipv6))
  }

  // ----- the sweep over sorted blocks

  predicate StartsBefore(a: Block, b: Block) { a.start <= b.start }

  ghost predicate InSome(blocks: seq<Block>, a: nat) {
    exists b :: b in blocks && b.start <= a <= b.end
  }

  lemma SortedBlocks(blocks: seq<Block>)
    ensures Sorted(Sort(blocks, StartsBefore), StartsBefore)
    ensures forall b :: b in Sort(blocks, StartsBefore) <==> b in blocks
    ensures |Sort(blocks, StartsBefore)| == |blocks|
  {
    SortSorted(blocks, StartsBefore);
    SortMembers(blocks, StartsBefore);
    SortMultiset(blocks, StartsBefore);
  }

  /** Merges adjacent and overlapping blocks; complete in spite of the early exit at the first gap. */
  method CoversFrom0(blocks: seq<Block>, familyMax: nat) returns (covers: bool)
    requires blocks != []
    ensures covers <==> forall a: nat | a <= familyMax :: InSome(blocks, a)
  {
    var sorted := Sort(blocks, StartsBefore);
    SortedBlocks(blocks);
    if sorted[0].start != 0 {
      assert !InSome(blocks, 0);
      return false;
    }
    var covered := sorted[0].end;
    var i := 1;
    while i < |sorted|
      invariant 1 <= i <= |sorted|
      invariant forall k | 0 <= k < i :: sorted[k].end <= covered
      invariant forall a: nat | a <= covered :: InSome(blocks, a)
    {
      var next := sorted[i];
      if next.start > covered + 1 {
        break;
      }
      assert next in blocks;
      if next.end > covered {
        forall a: nat | covered < a <= next.end ensures InSome(blocks, a) {
          assert next.start <= a;
        }
        covered := next.end;
      }
      i := i + 1;
    }
    if covered < familyMax {
      GapAfter(sorted, i, covered);
      assert !InSome(blocks, covered + 1);
    }
    return covered >= familyMax;
  }

  /** Where the sweep stops, the next address is in no block at all. */
  lemma GapAfter(sorted: seq<Block>, i: nat, covered: nat)
    requires Sorted(sorted, StartsBefore) && i <= |sorted|
    requires forall k | 0 <= k < i :: sorted[k].end <= covered
    requires i < |sorted| ==> sorted[i].start > covered + 1
    ensures !InSome(sorted, covered + 1)
  {
    forall b | b in sorted ensures !(b.start <= covered + 1 <= b.end) {
      var k :| 0 <= k < |sorted| && sorted[k] == b;
      assert k > i ==> StartsBefore(sorted[i], sorted[k]);
    }
  }

  // ----- the whole analysis

  /** The blocks of one family, as collected from the parsed entries. */
  ghost predicate Collected(blocks: seq<Block>, values: seq<string>, family: Family) {
    && (forall b | b in blocks :: exists raw :: raw in values && Parses(raw) && BlockOf(raw) == b && b.family == family)
    && (forall raw | raw in values && Parses(raw) && BlockOf(raw).family == family :: BlockOf(raw) in blocks)
  }

  lemma CollectedCovers(blocks: seq<Block>, values: seq<string>, family: Family)
    requires Collected(blocks, values, family)
    ensures FamilyCovered(values, family) <==> forall a: nat | a <= FamilyMax(family) :: InSome(blocks, a)
  {
    forall a: nat ensures InSomeBlock(values, family, a) <==> InSome(blocks, a) {
      if InSomeBlock(values, family, a) {
        var raw :| raw in values && Parses(raw) && Holds(BlockOf(raw), family, a);
        assert BlockOf(raw) in blocks;
      }
      if InSome(blocks, a) {
        var b :| b in blocks && b.start <= a <= b.end;
        var raw :| raw in values && Parses(raw) && BlockOf(raw) == b && b.family == family;
        assert Holds(BlockOf(raw), family, a);
      }
    }
  }

  lemma CollectNext(blocks: seq<Block>, values: seq<string>, family: Family, raw: string, b: Block)
    requires Collected(blocks, values, family) && CidrDenotes(raw, b)
    ensures Collected(if b.family == family then blocks + [b] else blocks, values + [raw], family)
  {
    CidrUnique(raw, BlockOf(raw), b);
    var now := if b.family == family then blocks + [b] else blocks;
    forall c | c in now ensures exists r :: r in values + [raw] && Parses(r) && BlockOf(r) == c && c.family == family {
      if c in blocks {
        var r :| r in values && Parses(r) && BlockOf(r) == c && c.family == family;
        assert r in values + [raw];
      } else {
        assert raw in values + [raw] && BlockOf(raw) == c;
      }
    }
  }

  method CoversFamily(blocks: seq<Block>, family: Family, ghost values: seq<string>) returns (covers: bool)
    requires Collected(blocks, values, family)
    ensures covers <==> FamilyCovered(values, family)
  {
    CollectedCovers(blocks, values, family);
    if blocks == [] {
      assert !InSome(blocks, 0);
      return false;
    }
    covers := CoversFrom0(blocks, FamilyMax(family));
  }

  ghost predicate Gathered(ipv4: seq<Block>, ipv6: seq<Block>, values: seq<string>) {
    AllParse(values) && Collected(ipv4, values, Ipv4) && Collected(ipv6, values, Ipv6)
  }

  lemma GatheredMeans(ipv4: seq<Block>, ipv6: seq<Block>, values: seq<string>)
    ensures Gathered(ipv4, ipv6, values) <==>
            AllParse(values) && Collected(ipv4, values, Ipv4) && Collected(ipv6, values, Ipv6)
  {
    hide AllParse, Collected;
  }

  lemma ParsesNext(values: seq<string>, i: nat, b: Block)
    requires i < |values| && AllParse(values[..i]) && CidrDenotes(values[i], b)
    ensures AllParse(values[..i + 1])
  {
    assert Parses(values[i]);
    hide CidrDenotes, Parses;
    assert values[..i + 1] == values[..i] + [values[i]];
  }

  lemma GatherNext(ipv4: seq<Block>, ipv6: seq<Block>, values: seq<string>, i: nat, b: Block)
    requires i < |values| && Gathered(ipv4, ipv6, values[..i]) && CidrDenotes(values[i], b)
    ensures b.family == Ipv4 ==> Gathered(ipv4 + [b], ipv6, values[..i + 1])
    ensures b.family == Ipv6 ==> Gathered(ipv4, ipv6 + [b], values[..i + 1])
  {
    hide *;
    GatheredMeans(ipv4, ipv6, values[..i]);
    ParsesNext(values, i, b);
    CollectNext(ipv4, values[..i], Ipv4, values[i], b);
    CollectNext(ipv6, values[..i], Ipv6, values[i], b);
    assert values[..i + 1] == values[..i] + [values[i]];
    if b.family == Ipv4 {
      GatheredMeans(ipv4 + [b], ipv6, values[..i + 1]);
    } else {
      GatheredMeans(ipv4, ipv6 + [b], values[..i + 1]);
    }
  }

  method ParseAll(values: seq<string>) returns (malformed: Option<string>, ipv4: seq<Block>, ipv6: seq<Block>)
    ensures malformed.Some? ==> FirstMalformed(values, malformed.value)
    ensures malformed.None? ==> Gathered(ipv4, ipv6, values)
  {
    malformed, ipv4, ipv6 := None, [], [];
    for i := 0 to |values|
      invariant malformed.None?
      invariant Gathered(ipv4, ipv6, values[..i])
    {
      var parsed := ParseCidr(values[i]);
      if parsed.None? {
        malformed := Some(values[i]);
        return;
      }
      GatherNext(ipv4, ipv6, values, i, parsed.value);
      if parsed.value.family == Ipv4 {
        ipv4 := ipv4 + [parsed.value];
      } else {
        ipv6 := ipv6 + [parsed.value];
      }
    }
    assert values[..|values|] == values;
  }

  method AnalyzeCidrCoverage(values: seq<string>) returns (r: CoverageResult)
    ensures r.malformed.None? <==> AllParse(values)
    ensures r.malformed.Some? ==> FirstMalformed(values, r.malformed.value)
    ensures r.coversInternet <==> CoversInternet(values)
    ensures r.family == if !CoversInternet(values) then None
                        else if FamilyCovered(values, Ipv4) then Some(Ipv4) else Some(Ipv6)
  {
    var malformed, ipv4, ipv6 := ParseAll(values);
    if malformed.Some? {
      return CoverageResult(malformed, false, None);
    }
    var covers4 := CoversFamily(ipv4, Ipv4, values);
    if covers4 {
      return CoverageResult(None, true, Some(Ipv4));
    }
    var covers6 := CoversFamily(ipv6, Ipv6, values);
    if covers6 {
      return CoverageResult(None, true, Some(Ipv6));
    }
    return CoverageResult(None, false, None);
  }

  // ----- what the verdict depends on

  /** Neither the order of the entries nor repetitions change the verdict. */
  lemma VerdictIgnoresOrderAndRepeats(values: seq<string>, others: seq<string>)
    requires forall raw :: raw in values <==> raw in others
    ensures CoversInternet(values) <==> CoversInternet(others)
  {
    forall family ensures FamilyCovered(values, family) <==> FamilyCovered(others, family) {
      forall a: nat ensures InSomeBlock(values, family, a) <==> InSomeBlock(others, family, a) {
      }
    }
  }

  /** Replacing an entry by two entries for its halves never changes the verdict. */
  lemma SplittingKeepsVerdict(before: seq<string>, whole: string, low: string, high: string, after: seq<string>)
    requires Parses(whole) && Parses(low) && Parses(high)
    requires BlockOf(low).family == BlockOf(whole).family == BlockOf(high).family
    requires BlockOf(low).start == BlockOf(whole).start && BlockOf(high).end == BlockOf(whole).end
    requires BlockOf(low).end + 1 == BlockOf(high).start
    ensures CoversInternet(before + [whole] + after) <==> CoversInternet(before + [low, high] + after)
  {
    var values, others := before + [whole] + after, before + [low, high] + after;
    assert AllParse(values) <==> AllParse(before + after) by {
      assert forall raw :: raw in values <==> raw in before + after || raw == whole;
    }
    assert AllParse(others) <==> AllParse(before + after) by {
      assert forall raw :: raw in others <==> raw in before + after || raw == low || raw == high;
    }
    forall family, a: nat ensures InSomeBlock(values, family, a) <==> InSomeBlock(others, family, a) {
      SplittingKeepsAddress(before + after, values, others, whole, low, high, family, a);
    }
    assert forall family :: FamilyCovered(values, family) <==> FamilyCovered(others, family);
  }

  lemma SplittingKeepsAddress(rest: seq<string>, values: seq<string>, others: seq<string>,
                              whole: string, low: string, high: string, family: Family, a: nat)
    requires Parses(whole) && Parses(low) && Parses(high)
    requires BlockOf(low).family == BlockOf(whole).family == BlockOf(high).family
    requires BlockOf(low).start == BlockOf(whole).start && BlockOf(high).end == BlockOf(whole).end
    requires BlockOf(low).end + 1 == BlockOf(high).start
    requires forall raw :: raw in values <==> raw in rest || raw == whole
    requires forall raw :: raw in others <==> raw in rest || raw == low || raw == high
    ensures InSomeBlock(values, family, a) <==> InSomeBlock(others, family, a)
  {
    BlockSpans(low);
    BlockSpans(high);
    assert Holds(BlockOf(whole), family, a) <==> Holds(BlockOf(low), family, a) || Holds(BlockOf(high), family, a);
    if InSomeBlock(values, family, a) {
      var raw :| raw in values && Parses(raw) && Holds(BlockOf(raw), family, a);
      assert low in others && high in others;
    }
    if InSomeBlock(others, family, a) {
      var raw :| raw in others && Parses(raw) && Holds(BlockOf(raw), family, a);
      assert whole in values;
    }
  }

  lemma BlockSpans(raw: string)
    requires Parses(raw)
    ensures BlockOf(raw).start <= BlockOf(raw).end
  {
  }

  // ----- counting: a cover needs at least as many addresses as the family has

  function Size(b: Block): nat { if b.end < b.start then 0 else b.end + 1 - b.start }

  ghost function SizeSum(values: seq<string>, family: Family): nat {
    if values == [] then 0
    else
      (if Parses(values[0]) && BlockOf(values[0]).family == family then Size(BlockOf(values[0])) else 0)
      + SizeSum(values[1..], family)
  }

  /** How many addresses below `n` the block holds. */
  function CountBelow(b: Block, n: nat): nat {
    if n <= b.start || b.end < b.start then 0 else if n > b.end then Size(b) else n - b.start
  }

  ghost function Below(raw: string, family: Family, n: nat): nat {
    if Parses(raw) && BlockOf(raw).family == family then CountBelow(BlockOf(raw), n) else 0
  }

  ghost function CountSum(values: seq<string>, family: Family, n: nat): nat {
    if values == [] then 0 else Below(values[0], family, n) + CountSum(values[1..], family, n)
  }

  lemma {:induction false} CountAtMostSize(values: seq<string>, family: Family, n: nat)
    ensures CountSum(values, family, n) <= SizeSum(values, family)
  {
    if values != [] {
      CountAtMostSize(values[1..], family, n);
    }
  }

  /** An address held by some block raises the count by at least one. */
  lemma {:induction false} CountGrows(values: seq<string>, family: Family, n: nat)
    ensures CountSum(values, family, n) <= CountSum(values, family, n + 1)
    ensures InSomeBlock(values, family, n) ==> CountSum(values, family, n) + 1 <= CountSum(values, family, n + 1)
  {
    if values != [] {
      CountGrows(values[1..], family, n);
      assert Below(values[0], family, n) <= Below(values[0], family, n + 1);
      if InSomeBlock(values, family, n) && !InSomeBlock(values[1..], family, n) {
        assert Below(values[0], family, n) + 1 <= Below(values[0], family, n + 1);
      }
    }
  }

  lemma {:induction false} CoveredPrefixCounts(values: seq<string>, family: Family, n: nat)
    requires forall a: nat | a < n :: InSomeBlock(values, family, a)
    ensures CountSum(values, family, n) >= n
  {
    if n > 0 {
      CoveredPrefixCounts(values, family, n - 1);
      CountGrows(values, family, n - 1);
    }
  }

  lemma CoverageNeedsSize(values: seq<string>, family: Family)
    requires FamilyCovered(values, family)
    ensures SizeSum(values, family) >= Pow2(FamilyBits(family))
  {
    CoveredPrefixCounts(values, family, Pow2(FamilyBits(family)));
    CountAtMostSize(values, family, Pow2(FamilyBits(family)));
  }
}
