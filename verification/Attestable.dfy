// Which policies can trust any Node at all, and inputs on which the decision
// kernel reaches its rarer branches.
module Attestable {
  import opened Wrappers
  import opened Text
  import opened Sorting
  import opened TrustedNodeLabel
  import opened Attestation
  import opened LabelFixpoint
  import opened NodeDocument
  import opened JsonPatch
  import opened LabelAgreement

  // ----- an input that meets every demand of a policy

  const INSTANCE := "i-00000000"
  const GROUP := "workers"

  function ZoneOf(p: Policy): string { p.region + ['a'] }

  function ProviderIdOf(p: Policy): string { "aws:///" + ZoneOf(p) + "/" + INSTANCE }

  function WitnessNode(p: Policy, labels: map<string, string>): NodeSnapshot {
    NodeSnapshot("node", "uid", "1", ProviderIdOf(p), labels, p.expectedTaints)
  }

  function WitnessGroup(now: int): AutoScalingGroup {
    AutoScalingGroup(GROUP, [AsgInstance(INSTANCE, "InService", "Healthy")], Int(now))
  }

  function WitnessNodeGroup(p: Policy, now: int): NodeGroup {
    NodeGroup(p.clusterName, p.nodeGroupName, "ACTIVE", [GROUP], Int(1), Int(1), Int(1), Int(now))
  }

  function WitnessInstance(p: Policy, now: int): Ec2Instance
    requires p.allowedInstanceTypes != []
  {
    Ec2Instance(INSTANCE, p.awsAccountId, p.region, ZoneOf(p), p.allowedInstanceTypes[0], "running", Int(now))
  }

  /** Everything as the policy wants it, captured at the moment of the decision. */
  function Witness(p: Policy, labels: map<string, string>, now: int): Input
    requires p.allowedInstanceTypes != []
  {
    Input(Int(now), p, WitnessNode(p, labels), WitnessNodeGroup(p, now), [WitnessGroup(now)], WitnessInstance(p, now))
  }

  /** The two labels that attestation reads. */
  function BasicLabels(p: Policy): map<string, string>
    requires p.allowedInstanceTypes != []
  {
    map[ZONE_LABEL := ZoneOf(p), INSTANCE_TYPE_LABEL := p.allowedInstanceTypes[0]]
  }

  predicate HasBasicLabels(p: Policy, labels: map<string, string>)
    requires p.allowedInstanceTypes != []
  {
    && ZONE_LABEL in labels && labels[ZONE_LABEL] == ZoneOf(p)
    && INSTANCE_TYPE_LABEL in labels && labels[INSTANCE_TYPE_LABEL] == p.allowedInstanceTypes[0]
  }

  lemma {:induction false} SplitLast(s: string, c: char, sep: char)
    requires c != sep
    ensures var parts := Split(s, sep);
            Split(s + [c], sep) == parts[..|parts| - 1] + [parts[|parts| - 1] + [c]]
  {
    var parts := Split(s, sep);
    if s == "" {
      assert (s + [c])[1..] == "";
      assert [c] + "" == [c] && "" + [c] == [c];
    } else {
      SplitLast(s[1..], c, sep);
      var rest := Split(s[1..], sep);
      assert (s + [c])[1..] == s[1..] + [c] && (s + [c])[0] == s[0];
      var longer := rest[..|rest| - 1] + [rest[|rest| - 1] + [c]];
      assert Split(s[1..] + [c], sep) == longer;
      if s[0] != sep {
        FirstLonger(s[0], rest, longer, c);
      }
    }
  }

  lemma FirstLonger(h: char, rest: seq<string>, longer: seq<string>, c: char)
    requires rest != [] && longer == rest[..|rest| - 1] + [rest[|rest| - 1] + [c]]
    ensures var parts := [[h] + rest[0]] + rest[1..];
            [[h] + longer[0]] + longer[1..] == parts[..|parts| - 1] + [parts[|parts| - 1] + [c]]
  {
    var parts := [[h] + rest[0]] + rest[1..];
    if |rest| == 1 {
      assert [h] + (rest[0] + [c]) == ([h] + rest[0]) + [c];
    } else {
      assert longer[1..] == rest[1..][..|rest| - 2] + [rest[|rest| - 1] + [c]];
    }
  }

  /** A region with a letter after it is a zone. */
  lemma RegionHasZone(region: string)
    requires IsRegion(region)
    ensures IsZone(region + ['a'])
  {
    SplitLast(region, 'a', '-');
    var parts := Split(region, '-');
    var last := parts[|parts| - 1];
    hide Split, AllLower;
    assert (last + ['a'])[0] == last[0] && (last + ['a'])[1] == 'a';
  }

  lemma InstanceText()
    ensures IsInstanceId(INSTANCE) && IsBoundedIdentifier(GROUP)
    ensures IsBoundedIdentifier("node") && BoundedToken("uid") && BoundedToken("1") && IsNodeName("node")
  {
  }

  lemma WitnessShape(p: Policy, labels: map<string, string>, now: int)
    requires PolicyWellFormed(p) && |labels| <= MAX_NODE_LABELS
    ensures NodeWellFormed(WitnessNode(p, labels)) && SnapshotsWellFormed(Witness(p, labels, now))
  {
    InstanceText();
    hide IsInstanceId, IsBoundedIdentifier, IsRegion, IsAccountId, IsValidProtectedLabelKey, IsLabelText;
  }

  lemma WitnessMembers(p: Policy, now: int)
    requires p.allowedInstanceTypes != []
    ensures GroupsMatch(WitnessNodeGroup(p, now), [WitnessGroup(now)]) && HealthyMember([WitnessGroup(now)], INSTANCE)
  {
    var groups := [WitnessGroup(now)];
    assert GroupNames(groups) == [GROUP];
    assert OnlyPlace(groups, INSTANCE, 0, 0);
  }

  lemma WitnessPlacement(p: Policy, labels: map<string, string>, now: int)
    requires p.allowedInstanceTypes != [] && HasBasicLabels(p, labels)
    ensures InstanceMatches(p, WitnessInstance(p, now), WitnessNode(p, labels), ZoneOf(p), INSTANCE)
  {
    assert IsLower('a') && ZoneOf(p) == p.region + ['a'];
  }

  lemma KeysDiffer(taints: seq<Taint>, i: nat, j: nat)
    requires !SomeTaintKeyTwice(taints) && i < |taints| && j < |taints| && i != j
    ensures taints[i].key != taints[j].key
  {
    assert if i < j then taints[i].key != taints[j].key else taints[j].key != taints[i].key;
  }

  lemma WitnessTaints(p: Policy)
    requires !SomeTaintKeyTwice(p.expectedTaints)
    ensures forall t | t in p.expectedTaints :: CarriesOnce(p.expectedTaints, t)
  {
    hide SomeTaintKeyTwice;
    var taints := p.expectedTaints;
    forall t | t in taints ensures CarriesOnce(taints, t) {
      var i :| 0 <= i < |taints| && taints[i] == t;
      forall j | 0 <= j < |taints| && taints[j].key == t.key ensures j == i {
        if j != i {
          KeysDiffer(taints, i, j);
        }
      }
    }
  }

  lemma WitnessFresh(p: Policy, labels: map<string, string>, now: int)
    requires PolicyWellFormed(p) && 0 <= now <= MAX_SAFE_INTEGER
    ensures forall t | IsPieceTime(Witness(p, labels, now), t) :: t == Int(now)
    ensures Fresh(Witness(p, labels, now))
  {
  }

  lemma WitnessAttested(p: Policy, labels: map<string, string>, now: int)
    requires PolicyWellFormed(p) && !SomeTaintKeyTwice(p.expectedTaints)
    requires |labels| <= MAX_NODE_LABELS && HasBasicLabels(p, labels) && 0 <= now <= MAX_SAFE_INTEGER
    ensures Attested(Witness(p, labels, now), ZoneOf(p), INSTANCE)
  {
    RegionOf(p);
    hide PolicyWellFormed, NodeWellFormed, SnapshotsWellFormed, Fresh, GroupsMatch, HealthyMember, InstanceMatches,
         CarriesOnce;
    WitnessShape(p, labels, now);
    WitnessFresh(p, labels, now);
    WitnessMembers(p, now);
    WitnessPlacement(p, labels, now);
    WitnessTaints(p);
    InstanceText();
    RegionHasZone(p.region);
    hide IsZone, IsInstanceId;
  }

  lemma RegionOf(p: Policy)
    requires PolicyWellFormed(p)
    ensures IsRegion(p.region) && p.allowedInstanceTypes != []
  {
  }

  lemma TwoBasicLabels(p: Policy)
    requires p.allowedInstanceTypes != []
    ensures HasBasicLabels(p, BasicLabels(p)) && |BasicLabels(p)| == 2
  {
    assert ZONE_LABEL[0] != INSTANCE_TYPE_LABEL[0];
  }

  /** A policy that passes validation can trust some Node exactly when no two of its expected taints share a key. */
  lemma TrustableIff(p: Policy)
    requires PolicyWellFormed(p)
    ensures (exists input: Input :: input.policy == p && SomehowAttested(input)) <==>
            !SomeTaintKeyTwice(p.expectedTaints)
  {
    RegionOf(p);
    if !SomeTaintKeyTwice(p.expectedTaints) {
      TwoBasicLabels(p);
      WitnessAttested(p, BasicLabels(p), 0);
      assert SomehowAttested(Witness(p, BasicLabels(p), 0));
    }
    if SomeTaintKeyTwice(p.expectedTaints) {
      forall input: Input | input.policy == p ensures !SomehowAttested(input) {
        RepeatedKeyIsNeverAttested(input);
      }
    }
  }

  // ----- concrete policies

  const KEY := "node-restriction.kubernetes.io/trusted"

  function Example(region: string, taints: seq<Taint>): Policy {
    Policy("main", "workers", "111122223333", region, KEY, "yes", ["m5.large"], taints, Int(60000), Int(1000))
  }

  const ONE_TAINT := [Taint("dedicated", "agents", NoSchedule)]

  const REPEATED_KEY := [Taint("dedicated", "agents", NoSchedule), Taint("dedicated", "agents", NoExecute)]

  lemma SplitThree(a: string, b: string, c: string, sep: char)
    requires sep !in a && sep !in b && sep !in c
    ensures Split(a + [sep] + (b + [sep] + c), sep) == [a, b, c]
  {
    hide Split;
    SplitPair(a, b + [sep] + c, sep);
    SplitPair(b, c, sep);
    SplitWord(c, sep);
    assert [b] + [c] == [b, c] && [a] + [b, c] == [a, b, c];
  }

  lemma RestrictedLabels()
    ensures IsDnsLabel("node-restriction") && IsDnsLabel("kubernetes") && IsDnsLabel("io")
    ensures |RESTRICTED| == 30 && '/' !in RESTRICTED && '/' !in "trusted"
    ensures IsLabelText("trusted") && IsLabelText("yes") && IsLabelText("dedicated") && |"agents"| <= 63
  {
  }

  lemma KeyText()
    ensures KEY == RESTRICTED + ['/'] + "trusted"
    ensures RESTRICTED == "node-restriction" + ['.'] + ("kubernetes" + ['.'] + "io")
  {
  }

  lemma SplitTwo(a: string, b: string, sep: char)
    requires sep !in a && sep !in b
    ensures Split(a + [sep] + b, sep) == [a, b]
  {
    hide Split;
    SplitPair(a, b, sep);
    SplitWord(b, sep);
    assert [a] + [b] == [a, b];
  }

  lemma KeyFromParts(key: string, prefix: string, name: string, labels: seq<string>)
    requires Split(key, '/') == [prefix, name] && Split(prefix, '.') == labels
    requires prefix == RESTRICTED && |prefix| <= 253 && IsLabelText(name)
    requires forall i | 0 <= i < |labels| :: IsDnsLabel(labels[i])
    ensures IsValidProtectedLabelKey(key)
  {
    hide Split, IsDnsLabel, IsLabelText, EndsWith;
  }

  lemma LabelsHaveNoSeparators(part: string, name: string)
    requires IsDnsLabel(part) && IsLabelText(name)
    ensures '.' !in part && '/' !in name
  {
  }

  /** A key made of the restricted prefix, in its three labels, and a name. */
  lemma RestrictedKey(prefix: string, a: string, b: string, c: string, name: string)
    requires prefix == RESTRICTED && prefix == a + ['.'] + (b + ['.'] + c) && |prefix| <= 253 && '/' !in prefix
    requires IsDnsLabel(a) && IsDnsLabel(b) && IsDnsLabel(c) && IsLabelText(name)
    ensures IsValidProtectedLabelKey(prefix + ['/'] + name)
  {
    hide Split, IsDnsLabel, IsLabelText, IsValidProtectedLabelKey;
    LabelsHaveNoSeparators(a, name);
    LabelsHaveNoSeparators(b, name);
    LabelsHaveNoSeparators(c, name);
    SplitThree(a, b, c, '.');
    SplitTwo(prefix, name, '/');
    KeyFromParts(prefix + ['/'] + name, prefix, name, [a, b, c]);
  }

  lemma KeyIsValid()
    ensures IsValidProtectedLabelKey(KEY)
  {
    KeyText();
    RestrictedLabels();
    hide *;
    RestrictedKey(RESTRICTED, "node-restriction", "kubernetes", "io", "trusted");
  }

  lemma ExampleTexts()
    ensures IsBoundedIdentifier("main") && IsBoundedIdentifier("workers") && IsAccountId("111122223333")
    ensures IsBoundedIdentifier("m5.large")
  {
  }

  lemma ExampleWellFormed(region: string, taints: seq<Taint>)
    requires IsRegion(region) && taints in {ONE_TAINT, REPEATED_KEY}
    ensures PolicyWellFormed(Example(region, taints))
  {
    ExampleTexts();
    KeyIsValid();
    RestrictedLabels();
    hide IsRegion, IsBoundedIdentifier, IsAccountId, IsValidProtectedLabelKey, IsLabelText;
    assert Distinct(["m5.large"]);
  }

  /** A region of any length, between its fixed ends. */
  lemma RegionText(middle: string)
    requires AllLower(middle)
    ensures IsRegion(Region(middle))
  {
    assert '-' !in "eu" && '-' !in middle && '-' !in "1" && AllLower("eu") && IsDigit("1"[0]);
    SplitThree("eu", middle, "1", '-');
    hide Split, AllLower;
  }

  function Region(middle: string): string { "eu" + ['-'] + (middle + ['-'] + "1") }

  /** Validation lets a policy through under which no Node is ever trusted. */
  lemma AcceptedButNeverTrusts()
    ensures var p := Example(Region("west"), REPEATED_KEY);
            PolicyWellFormed(p) && forall input: Input | input.policy == p :: !SomehowAttested(input)
  {
    RegionText("west");
    var p := Example(Region("west"), REPEATED_KEY);
    ExampleWellFormed(Region("west"), REPEATED_KEY);
    hide PolicyWellFormed, SomehowAttested;
    assert p.expectedTaints[0].key == p.expectedTaints[1].key;
    TrustableIff(p);
  }

  // ----- the branches at the bounds

  function Padding(n: nat): map<string, string> { map i | 0 <= i < n :: Decimal(i) := "" }

  lemma FreshKey(n: nat)
    ensures Decimal(n) !in Padding(n)
  {
    forall i | 0 <= i < n ensures Decimal(i) != Decimal(n) {
      DecimalRoundTrip(i);
      DecimalRoundTrip(n);
    }
  }

  lemma {:induction false} PaddingSize(n: nat)
    ensures |Padding(n)| == n
  {
    if n > 0 {
      PaddingSize(n - 1);
      FreshKey(n - 1);
      hide Decimal;
      var small := Padding(n - 1);
      assert Padding(n).Keys == small.Keys + {Decimal(n - 1)};
      assert |Padding(n).Keys| == |small.Keys| + 1;
    }
  }

  /** The two labels that are read, and `n` others. */
  function Padded(p: Policy, n: nat): map<string, string>
    requires p.allowedInstanceTypes != []
  {
    Padding(n) + BasicLabels(p)
  }

  lemma PaddedLabels(p: Policy, n: nat)
    requires PolicyWellFormed(p)
    ensures HasBasicLabels(p, Padded(p, n)) && |Padded(p, n)| == n + 2 && p.protectedLabelKey !in Padded(p, n)
  {
    TwoBasicLabels(p);
    PaddingSize(n);
    SlashKeys(p);
    hide PolicyWellFormed, Decimal;
    var padding, basic := Padding(n), BasicLabels(p);
    assert padding.Keys !! basic.Keys && p.protectedLabelKey !in padding && p.protectedLabelKey !in basic;
    hide Padding, BasicLabels;
    DisjointMaps(padding, basic);
  }

  lemma DisjointMaps(m: map<string, string>, n: map<string, string>)
    requires m.Keys !! n.Keys
    ensures |m + n| == |m| + |n| && (m + n).Keys == m.Keys + n.Keys
  {
    assert (m + n).Keys == m.Keys + n.Keys;
    assert |m.Keys + n.Keys| == |m.Keys| + |n.Keys|;
  }

  lemma KeyHasSlash(key: string)
    requires IsValidProtectedLabelKey(key)
    ensures '/' in key
  {
    if '/' !in key {
      SplitWord(key, '/');
    }
  }

  lemma SlashKeys(p: Policy)
    requires PolicyWellFormed(p)
    ensures p.protectedLabelKey != ZONE_LABEL && p.protectedLabelKey != INSTANCE_TYPE_LABEL
    ensures forall i: nat ::
            Decimal(i) != ZONE_LABEL && Decimal(i) != INSTANCE_TYPE_LABEL && Decimal(i) != p.protectedLabelKey
  {
    ProtectedKeyIsNotAttested(p.protectedLabelKey);
    KeyHasSlash(p.protectedLabelKey);
    hide PolicyWellFormed, Decimal;
    forall i: nat
      ensures Decimal(i) != ZONE_LABEL && Decimal(i) != INSTANCE_TYPE_LABEL && Decimal(i) != p.protectedLabelKey
    {
      assert ZONE_LABEL[0] == 't' && INSTANCE_TYPE_LABEL[0] == 'n';
    }
  }

  /** A planned addition to a Node that already has exactly 256 labels: the bound of the fixpoint is reached. */
  lemma FullNodeIsLabelled(p: Policy, version: string)
    requires PolicyWellFormed(p) && !SomeTaintKeyTwice(p.expectedTaints) && BoundedToken(version)
    ensures p.allowedInstanceTypes != []
    ensures var input := Witness(p, Padded(p, MAX_NODE_LABELS - 2), 0);
            && PlanTrustedNodeLabel(input).Patch? && |input.node.labels| == MAX_NODE_LABELS
            && PlanTrustedNodeLabel(input.(node := AfterAdd(p, input.node, version))) == Deny(InputBoundsExceeded)
  {
    RegionOf(p);
    PaddedLabels(p, MAX_NODE_LABELS - 2);
    var input := Witness(p, Padded(p, MAX_NODE_LABELS - 2), 0);
    PlannedWitness(p, Padded(p, MAX_NODE_LABELS - 2), 0);
    hide PlanTrustedNodeLabel, PolicyWellFormed, Padded, SomeTaintKeyTwice;
    AddFixpoint(input, version);
  }

  lemma PlannedWitness(p: Policy, labels: map<string, string>, now: int)
    requires PolicyWellFormed(p) && !SomeTaintKeyTwice(p.expectedTaints) && |labels| <= MAX_NODE_LABELS
    requires p.allowedInstanceTypes != [] && HasBasicLabels(p, labels) && 0 <= now <= MAX_SAFE_INTEGER
    requires p.protectedLabelKey !in labels
    ensures PlanTrustedNodeLabel(Witness(p, labels, now)).Patch?
  {
    var input := Witness(p, labels, now);
    WitnessAttested(p, labels, now);
    assert SomehowAttested(input);
    hide PlanTrustedNodeLabel, PolicyWellFormed, Attested, SomehowAttested;
    DecisionTable(input);
  }

  function Letters(n: nat): string { seq(n, i => 'w') }

  lemma LettersAreLower(n: nat)
    requires n > 0
    ensures AllLower(Letters(n)) && |Region(Letters(n))| == n + 5
  {
  }

  lemma RegionIsPlanned(region: string)
    requires IsRegion(region)
    ensures var p := Example(region, ONE_TAINT);
            && PlanTrustedNodeLabel(Witness(p, BasicLabels(p), 0)).Patch?
            && |Witness(p, BasicLabels(p), 0).node.providerId| == |region| + 19
  {
    var p := Example(region, ONE_TAINT);
    ExampleWellFormed(region, ONE_TAINT);
    OneTaintIsAlone();
    PolicyIsPlanned(p);
  }

  lemma OneTaintIsAlone()
    ensures !SomeTaintKeyTwice(ONE_TAINT)
  {
  }

  lemma PolicyIsPlanned(p: Policy)
    requires PolicyWellFormed(p) && !SomeTaintKeyTwice(p.expectedTaints)
    ensures p.allowedInstanceTypes != [] && PlanTrustedNodeLabel(Witness(p, BasicLabels(p), 0)).Patch?
    ensures |Witness(p, BasicLabels(p), 0).node.providerId| == |p.region| + 19
  {
    TwoBasicLabels(p);
    SlashKeys(p);
    ProviderIdLength(p);
    hide PolicyWellFormed, PlanTrustedNodeLabel, SomeTaintKeyTwice;
    assert p.protectedLabelKey !in BasicLabels(p);
    hide BasicLabels, HasBasicLabels;
    PlannedWitness(p, BasicLabels(p), 0);
  }

  /** A planned addition whose provider ID is as long as one likes: nothing in the policy bounds it. */
  lemma LongProviderIdIsPlanned(n: nat)
    requires n > 0
    ensures var p := Example(Region(Letters(n)), ONE_TAINT);
            && PlanTrustedNodeLabel(Witness(p, BasicLabels(p), 0)).Patch?
            && |Witness(p, BasicLabels(p), 0).node.providerId| == n + 24
  {
    LettersAreLower(n);
    RegionText(Letters(n));
    hide Letters, Region, IsRegion, Witness, PlanTrustedNodeLabel, BasicLabels;
    RegionIsPlanned(Region(Letters(n)));
  }

  lemma ProviderIdLength(p: Policy)
    ensures |ProviderIdOf(p)| == |p.region| + 19
  {
  }

  /** An addition that is planned and that the adapter's gate then refuses. */
  lemma PlannedButNotSent()
    ensures var p := Example(Region(Letters(234)), ONE_TAINT);
            var d := PlanTrustedNodeLabel(Witness(p, BasicLabels(p), 0));
            d.Patch? && !IsExactPatch(d.patch, p.protectedLabelKey, p.protectedLabelValue)
  {
    var p := Example(Region(Letters(234)), ONE_TAINT);
    hide PlanTrustedNodeLabel, IsExactPatch, Example, Region, Witness, BasicLabels;
    LongProviderIdIsPlanned(234);
    PlannedAddPassesGate(Witness(p, BasicLabels(p), 0));
  }

  // ----- a revocation that takes the last label

  /** A Node with the protected label alone and a provider ID that cannot be read. */
  function OnlyLabelled(p: Policy): NodeSnapshot {
    NodeSnapshot("node", "uid", "1", "x", map[p.protectedLabelKey := p.protectedLabelValue], [])
  }

  lemma OnlyLabelledIsReadable(p: Policy)
    ensures ParseNode(PrintNode(OnlyLabelled(p))) == Some(OnlyLabelled(p))
    ensures OnlyLabelled(p).labels.Keys == {p.protectedLabelKey}
  {
    InstanceText();
    assert OnlyLabelled(p).labels.Keys == {p.protectedLabelKey};
    assert |OnlyLabelled(p).labels.Keys| == 1;
    hide ParseNode, PrintNode;
    PrintedNode(OnlyLabelled(p));
  }

  lemma OnlyLabelledIsRevoked(p: Policy, reason: DenyReason)
    requires PolicyWellFormed(p)
    ensures PlanFailure(p, OnlyLabelled(p), reason, None).Revoke?
    ensures IsExactPatch(PlanFailure(p, OnlyLabelled(p), reason, None).patch, p.protectedLabelKey,
                         p.protectedLabelValue)
  {
    InstanceText();
    assert OnlyLabelled(p).labels.Keys == {p.protectedLabelKey};
    assert |OnlyLabelled(p).labels.Keys| == 1;
    hide IsBoundedIdentifier, IsExactPatch, IsValidProtectedLabelKey, IsLabelText;
    PlannedRevokePassesGate(p, OnlyLabelled(p), reason, None);
  }

  /**
   * For every policy there is a Node whose planned revocation the adapter sends and the server may store in a form
   * that the adapter cannot read.
   */
  lemma LastLabelBlinds(p: Policy, reason: DenyReason, version: string)
    requires PolicyWellFormed(p)
    ensures var doc, d := PrintNode(OnlyLabelled(p)), PlanFailure(p, OnlyLabelled(p), reason, None);
            && ParseNode(doc) == Some(OnlyLabelled(p))
            && d.Revoke? && IsExactPatch(d.patch, p.protectedLabelKey, p.protectedLabelValue)
            && IsNodeObject(doc) && IsNodeObject(WithoutLabel(doc, p.protectedLabelKey))
            && ApplyPatch(doc, d.patch) == Some(WithoutLabel(doc, p.protectedLabelKey))
            && IsNodeObject(LabelsDropped(WithoutLabel(doc, p.protectedLabelKey)))
            && SameUpToEmptyLabels(WithoutLabel(doc, p.protectedLabelKey),
                                   LabelsDropped(WithoutLabel(doc, p.protectedLabelKey)))
            && ParseNode(WithVersion(LabelsDropped(WithoutLabel(doc, p.protectedLabelKey)), version)).None?
  {
    var node := OnlyLabelled(p);
    var doc := PrintNode(node);
    OnlyLabelledIsReadable(p);
    OnlyLabelledIsRevoked(p, reason);
    LastLabelForms(p, node, doc, version);
    hide ParseNode, IsExactPatch, IsNodeObject, WithoutLabel, PlanFailure, PolicyWellFormed, LabelsDropped, WithVersion,
         SameUpToEmptyLabels, ApplyPatch, OnlyLabelled, PrintNode;
    RevokedDocument(p, node, reason, None, doc);
  }
}
