// What the decision kernel attests, stated without its control flow, and which
// decision follows from it.
module Attestation {
  import opened Wrappers
  import opened Text
  import opened TrustedNodeLabel
  import opened Sorting

  // ----- the declarative attestation

  ghost predicate SomeTaintKeyTwice(expected: seq<Taint>) {
    exists i, j | 0 <= i < j < |expected| :: expected[i].key == expected[j].key
  }

  ghost predicate TaintsDistinct(expected: seq<Taint>) {
    forall i, j | 0 <= i < j < |expected| ::
      expected[i].key != expected[j].key || expected[i].effect != expected[j].effect
  }

  ghost predicate UniqueIdentifiers(values: seq<string>, maximum: nat) {
    0 < |values| <= maximum && Distinct(values) && forall v | v in values :: IsBoundedIdentifier(v)
  }

  ghost predicate PolicyWellFormed(p: Policy) {
    && IsBoundedIdentifier(p.clusterName) && IsBoundedIdentifier(p.nodeGroupName)
    && IsAccountId(p.awsAccountId) && IsRegion(p.region)
    && IsValidProtectedLabelKey(p.protectedLabelKey) && IsLabelText(p.protectedLabelValue)
    && UniqueIdentifiers(p.allowedInstanceTypes, MAX_ALLOWED_INSTANCE_TYPES)
    && 0 < |p.expectedTaints| <= MAX_EXPECTED_TAINTS && TaintsDistinct(p.expectedTaints)
    && (forall t | t in p.expectedTaints :: IsLabelText(t.key) && |t.value| <= 63)
    && IsSafeInteger(p.maxEvidenceAgeMs) && 1 <= p.maxEvidenceAgeMs.n <= MAX_EVIDENCE_AGE_MS
    && IsSafeInteger(p.maxEvidenceSkewMs) && 0 <= p.maxEvidenceSkewMs.n <= p.maxEvidenceAgeMs.n
  }

  ghost predicate NodeWellFormed(n: NodeSnapshot) {
    && IsBoundedIdentifier(n.name) && BoundedToken(n.uid) && BoundedToken(n.resourceVersion)
    && |n.labels| <= MAX_NODE_LABELS && |n.taints| <= MAX_NODE_TAINTS
  }

  ghost predicate SnapshotsWellFormed(input: Input) {
    && UniqueIdentifiers(input.nodeGroup.autoScalingGroupNames, MAX_ASGS)
    && |input.autoScalingGroups| <= MAX_ASGS
    && (forall g | g in input.autoScalingGroups ::
          |g.instances| <= MAX_ASG_INSTANCES && forall m | m in g.instances :: IsInstanceId(m.instanceId))
    && HasValidScalingBounds(input.nodeGroup)
  }

  /** A capture time of some piece of the evidence. */
  ghost predicate IsPieceTime(input: Input, t: Number) {
    || t == input.nodeGroup.capturedAt
    || (exists g | 0 <= g < |input.autoScalingGroups| :: t == input.autoScalingGroups[g].capturedAt)
    || t == input.ec2Instance.capturedAt
  }

  /** Every capture time is a safe integer, not in the future, not too old, and close to every other. */
  ghost predicate Fresh(input: Input)
    requires input.policy.maxEvidenceAgeMs.Int? && input.policy.maxEvidenceSkewMs.Int?
  {
    && IsSafeInteger(input.now)
    && (forall t | IsPieceTime(input, t) ::
          IsSafeInteger(t) && 0 <= input.now.n - t.n <= input.policy.maxEvidenceAgeMs.n)
    && (forall t, u | IsPieceTime(input, t) && IsPieceTime(input, u) ::
          t.Int? && u.Int? && t.n - u.n <= input.policy.maxEvidenceSkewMs.n)
  }

  /** The captured groups are exactly the attested groups, each once. */
  ghost predicate GroupsMatch(nodeGroup: NodeGroup, groups: seq<AutoScalingGroup>) {
    var names := GroupNames(groups);
    Distinct(names) && forall n :: n in names <==> n in nodeGroup.autoScalingGroupNames
  }

  ghost predicate At(groups: seq<AutoScalingGroup>, g: int, m: int, instanceId: string) {
    0 <= g < |groups| && 0 <= m < |groups[g].instances| && groups[g].instances[m].instanceId == instanceId
  }

  ghost predicate OnlyPlace(groups: seq<AutoScalingGroup>, instanceId: string, g: int, m: int) {
    At(groups, g, m, instanceId) && forall g', m' :: At(groups, g', m', instanceId) ==> g' == g && m' == m
  }

  /** The instance occurs at exactly one place in all groups, and is healthy there. */
  ghost predicate HealthyMember(groups: seq<AutoScalingGroup>, instanceId: string) {
    exists g, m :: OnlyPlace(groups, instanceId, g, m)
      && groups[g].instances[m].lifecycleState == "InService"
      && groups[g].instances[m].healthStatus == "Healthy"
  }

  ghost predicate InstanceMatches(policy: Policy, ec2: Ec2Instance, node: NodeSnapshot, zone: string,
                                  instanceId: string)
  {
    && ec2.instanceId == instanceId && ec2.accountId == policy.awsAccountId && ec2.region == policy.region
    && ec2.availabilityZone == zone && (exists c :: IsLower(c) && zone == policy.region + [c])
    && ec2.instanceType in policy.allowedInstanceTypes && ec2.state == "running"
    && HasLabel(node, ZONE_LABEL, zone) && HasLabel(node, INSTANCE_TYPE_LABEL, ec2.instanceType)
  }

  ghost predicate CarriesOnce(taints: seq<Taint>, t: Taint) {
    exists i :: 0 <= i < |taints| && taints[i] == t && forall j | 0 <= j < |taints| :: taints[j].key == t.key ==> j == i
  }

  ghost predicate Attested(input: Input, zone: string, instanceId: string) {
    && PolicyWellFormed(input.policy) && NodeWellFormed(input.node) && SnapshotsWellFormed(input)
    && IsZone(zone) && IsInstanceId(instanceId) && input.node.providerId == "aws:///" + zone + "/" + instanceId
    && Fresh(input)
    && input.nodeGroup.clusterName == input.policy.clusterName
    && input.nodeGroup.nodeGroupName == input.policy.nodeGroupName
    && input.nodeGroup.status in {"ACTIVE", "UPDATING"}
    && GroupsMatch(input.nodeGroup, input.autoScalingGroups)
    && HealthyMember(input.autoScalingGroups, instanceId)
    && InstanceMatches(input.policy, input.ec2Instance, input.node, zone, instanceId)
    && (forall t | t in input.policy.expectedTaints :: CarriesOnce(input.node.taints, t))
  }

  // ----- each check against its declarative counterpart

  lemma UniqueIdentifiersCheck(values: seq<string>, maximum: nat)
    ensures IsUniqueNonEmpty(values, maximum) <==> UniqueIdentifiers(values, maximum)
  {
    SetSizeDistinct(values);
    assert forall i | 0 <= i < |values| :: values[i] in values;
  }

  /** Because no key holds the separator, the combined text tells key and effect apart. */
  lemma TaintIdentityInjective(s: Taint, t: Taint)
    requires IsLabelText(s.key) && IsLabelText(t.key)
    ensures TaintIdentity(s) == TaintIdentity(t) <==> s.key == t.key && s.effect == t.effect
  {
    if TaintIdentity(s) == TaintIdentity(t) {
      SeparatorInjective(s.key, EffectText(s.effect), t.key, EffectText(t.effect), '\0');
      assert EffectText(NoSchedule)[0] != EffectText(PreferNoSchedule)[0];
      assert |EffectText(NoSchedule)| != |EffectText(NoExecute)|;
    }
  }

  function TaintIdentities(taints: seq<Taint>): seq<string> {
    seq(|taints|, i requires 0 <= i < |taints| => TaintIdentity(taints[i]))
  }

  lemma TaintIdentitySet(taints: seq<Taint>)
    ensures Elements(TaintIdentities(taints)) == set t | t in taints :: TaintIdentity(t)
  {
    hide TaintIdentity;
    var ids := TaintIdentities(taints);
    forall t | t in taints ensures TaintIdentity(t) in ids {
      var i :| 0 <= i < |taints| && taints[i] == t;
      assert ids[i] == TaintIdentity(t);
    }
  }

  lemma TaintsDistinctCheck(expected: seq<Taint>)
    requires forall t | t in expected :: IsLabelText(t.key)
    ensures |set t | t in expected :: TaintIdentity(t)| == |expected| <==> TaintsDistinct(expected)
  {
    hide IsLabelText, TaintIdentity, EffectText, Elements;
    var ids := TaintIdentities(expected);
    SetSizeDistinct(ids);
    TaintIdentitySet(expected);
    forall i, j | 0 <= i < j < |expected|
      ensures ids[i] == ids[j] <==> expected[i].key == expected[j].key && expected[i].effect == expected[j].effect
    {
      TaintIdentityInjective(expected[i], expected[j]);
    }
  }

  lemma InputCheck(input: Input)
    ensures InputFailure(input).None? <==>
            PolicyWellFormed(input.policy) && NodeWellFormed(input.node) && SnapshotsWellFormed(input)
  {
    UniqueIdentifiersCheck(input.policy.allowedInstanceTypes, MAX_ALLOWED_INSTANCE_TYPES);
    UniqueIdentifiersCheck(input.nodeGroup.autoScalingGroupNames, MAX_ASGS);
    if forall t | t in input.policy.expectedTaints :: IsLabelText(t.key) {
      TaintsDistinctCheck(input.policy.expectedTaints);
    }
  }

  lemma ProviderCheck(s: string, zone: string, instanceId: string)
    ensures ParseProviderId(s) == Some((zone, instanceId)) <==>
            IsZone(zone) && IsInstanceId(instanceId) && s == "aws:///" + zone + "/" + instanceId
  {
    if IsZone(zone) && IsInstanceId(instanceId) && s == "aws:///" + zone + "/" + instanceId {
      ZoneHasNoSlash(zone);
      assert s[7..] == zone + ['/'] + instanceId;
      SplitPair(zone, instanceId, '/');
      SplitWord(instanceId, '/');
    }
    if ParseProviderId(s) == Some((zone, instanceId)) {
      JoinSplit(s[7..], '/');
      assert Join([zone, instanceId][1..], '/') == instanceId;
      assert s == s[..7] + s[7..];
    }
  }

  lemma ZoneHasNoSlash(zone: string)
    requires IsZone(zone)
    ensures '/' !in zone
  {
    JoinSplit(zone, '-');
    var parts := Split(zone, '-');
    assert forall i | 0 <= i < |parts| :: '/' !in parts[i];
    JoinWithout(parts, '-', '/');
  }

  lemma {:induction false} JoinWithout(parts: seq<string>, sep: char, c: char)
    requires c != sep && forall i | 0 <= i < |parts| :: c !in parts[i]
    ensures c !in Join(parts, sep)
  {
    if |parts| > 1 {
      JoinWithout(parts[1..], sep, c);
    }
  }

  lemma {:induction false} ExtremesOf(ts: seq<Number>) returns (l: nat, e: nat)
    requires ts != [] && forall i | 0 <= i < |ts| :: ts[i].Int?
    ensures l < |ts| && ts[l].n == Latest(ts) && e < |ts| && ts[e].n == Earliest(ts)
    ensures forall i | 0 <= i < |ts| :: Earliest(ts) <= ts[i].n <= Latest(ts)
  {
    l, e := 0, 0;
    if |ts| > 1 {
      var rest := ts[1..];
      var l', e' := ExtremesOf(rest);
      assert forall i | 0 < i < |ts| :: ts[i] == rest[i - 1];
      l := if ts[0].n == Latest(ts) then 0 else l' + 1;
      e := if ts[0].n == Earliest(ts) then 0 else e' + 1;
    }
  }

  function TimesOf(input: Input): seq<Number> {
    Timestamps(input.nodeGroup, input.autoScalingGroups, input.ec2Instance)
  }

  lemma TimestampsArePieces(input: Input)
    ensures TimesOf(input) != []
    ensures forall t :: t in TimesOf(input) <==> IsPieceTime(input, t)
  {
    var ts, groups := TimesOf(input), input.autoScalingGroups;
    forall t ensures t in ts <==> IsPieceTime(input, t) {
      if g :| 0 <= g < |groups| && t == groups[g].capturedAt {
        assert ts[1 + g] == t;
      }
      assert ts[0] == input.nodeGroup.capturedAt && ts[1 + |groups|] == input.ec2Instance.capturedAt;
      if i :| 0 <= i < |ts| && ts[i] == t {
        assert 1 <= i <= |groups| ==> t == groups[i - 1].capturedAt;
      }
    }
  }

  /** Comparing the two extremes compares every pair. */
  lemma EvidenceCheck(input: Input)
    requires input.policy.maxEvidenceAgeMs.Int? && input.policy.maxEvidenceSkewMs.Int?
    ensures TimesOf(input) != []
    ensures EvidenceFailure(input.now, input.policy, TimesOf(input)).None? <==> Fresh(input)
  {
    TimestampsArePieces(input);
    var ts := TimesOf(input);
    hide Timestamps, IsPieceTime;
    forall i | 0 <= i < |ts| ensures IsPieceTime(input, ts[i]) {
      assert ts[i] in ts;
    }
    if forall i | 0 <= i < |ts| :: IsSafeInteger(ts[i]) {
      var l, e := ExtremesOf(ts);
      assert ts[l].n - ts[e].n == Latest(ts) - Earliest(ts);
    }
  }

  // ----- occurrences of the instance

  ghost predicate OnlyMatch(instances: seq<AsgInstance>, id: string, m: int) {
    && 0 <= m < |instances| && instances[m].instanceId == id
    && forall k | 0 <= k < |instances| :: instances[k].instanceId == id ==> k == m
  }

  lemma {:induction false} NoMatch(instances: seq<AsgInstance>, id: string)
    ensures Matching(instances, id) == [] <==> forall m | 0 <= m < |instances| :: instances[m].instanceId != id
  {
    if instances != [] {
      NoMatch(instances[1..], id);
      assert forall m | 0 < m < |instances| :: instances[m] == instances[1..][m - 1];
    }
  }

  lemma {:induction false} OneMatch(instances: seq<AsgInstance>, id: string, m: int)
    requires OnlyMatch(instances, id, m)
    ensures Matching(instances, id) == [instances[m]]
  {
    var rest := instances[1..];
    assert forall k | 0 <= k < |rest| :: rest[k] == instances[k + 1];
    if m == 0 {
      NoMatch(rest, id);
    } else {
      OneMatch(rest, id, m - 1);
    }
  }

  lemma {:induction false} MatchPlace(instances: seq<AsgInstance>, id: string) returns (m: int)
    requires |Matching(instances, id)| == 1
    ensures OnlyMatch(instances, id, m)
  {
    var rest := instances[1..];
    NoMatch(rest, id);
    assert forall k | 0 < k < |instances| :: instances[k] == rest[k - 1];
    if instances[0].instanceId == id {
      m := 0;
    } else {
      var k := MatchPlace(rest, id);
      m := k + 1;
    }
  }

  lemma {:induction false} NoPlace(groups: seq<AutoScalingGroup>, id: string)
    ensures Memberships(groups, id) == [] <==> forall g, m :: !At(groups, g, m, id)
  {
    if groups != [] {
      var rest := groups[1..];
      NoPlace(rest, id);
      NoMatch(groups[0].instances, id);
      assert forall m | 0 <= m < |groups[0].instances| ::
             groups[0].instances[m].instanceId == id ==> At(groups, 0, m, id);
      assert forall g, m :: At(rest, g, m, id) ==> At(groups, g + 1, m, id);
      forall g, m | At(groups, g, m, id) ensures g == 0 || At(rest, g - 1, m, id) {
      }
    }
  }

  lemma {:induction false} OnePlace(groups: seq<AutoScalingGroup>, id: string, g: int, m: int)
    requires OnlyPlace(groups, id, g, m)
    ensures Memberships(groups, id) == [groups[g].instances[m]]
  {
    var rest := groups[1..];
    forall g', m' | At(rest, g', m', id) ensures g' == g - 1 && m' == m {
      assert At(groups, g' + 1, m', id);
    }
    forall k | 0 <= k < |groups[0].instances| && groups[0].instances[k].instanceId == id ensures g == 0 && k == m {
      assert At(groups, 0, k, id);
    }
    if g == 0 {
      OneMatch(groups[0].instances, id, m);
      NoPlace(rest, id);
    } else {
      NoMatch(groups[0].instances, id);
      assert At(rest, g - 1, m, id);
      OnePlace(rest, id, g - 1, m);
    }
  }

  lemma {:induction false} SomePlace(groups: seq<AutoScalingGroup>, id: string) returns (g: int, m: int)
    requires |Memberships(groups, id)| == 1
    ensures OnlyPlace(groups, id, g, m)
  {
    var rest, first := groups[1..], groups[0].instances;
    NoPlace(rest, id);
    NoMatch(first, id);
    forall g', m' | At(groups, g', m', id) ensures g' == 0 || At(rest, g' - 1, m', id) {
    }
    if |Matching(first, id)| == 1 {
      g := 0;
      m := MatchPlace(first, id);
      assert At(groups, 0, m, id);
    } else {
      var g0;
      g0, m := SomePlace(rest, id);
      g := g0 + 1;
      assert At(groups, g, m, id);
      forall g', m' | At(groups, g', m', id) ensures g' == g && m' == m {
        if g' > 0 {
          assert At(rest, g' - 1, m', id);
        }
      }
    }
  }

  lemma MemberCheck(groups: seq<AutoScalingGroup>, id: string)
    ensures HealthyMember(groups, id) <==>
            var ms := Memberships(groups, id);
            |ms| == 1 && ms[0].lifecycleState == "InService" && ms[0].healthStatus == "Healthy"
  {
    if HealthyMember(groups, id) {
      var g, m :| OnlyPlace(groups, id, g, m)
        && groups[g].instances[m].lifecycleState == "InService" && groups[g].instances[m].healthStatus == "Healthy";
      OnePlace(groups, id, g, m);
    }
    if |Memberships(groups, id)| == 1 {
      var g, m := SomePlace(groups, id);
      OnePlace(groups, id, g, m);
    }
  }

  // ----- taints

  lemma {:induction false} NoKey(taints: seq<Taint>, key: string)
    ensures WithKey(taints, key) == [] <==> forall i | 0 <= i < |taints| :: taints[i].key != key
  {
    if taints != [] {
      NoKey(taints[1..], key);
      assert forall i | 0 < i < |taints| :: taints[i] == taints[1..][i - 1];
    }
  }

  ghost predicate OnlyKey(taints: seq<Taint>, key: string, i: int) {
    0 <= i < |taints| && taints[i].key == key && forall j | 0 <= j < |taints| :: taints[j].key == key ==> j == i
  }

  lemma {:induction false} OneKey(taints: seq<Taint>, key: string, i: int)
    requires OnlyKey(taints, key, i)
    ensures WithKey(taints, key) == [taints[i]]
  {
    var rest := taints[1..];
    assert forall k | 0 <= k < |rest| :: rest[k] == taints[k + 1];
    if i == 0 {
      NoKey(rest, key);
    } else {
      OneKey(rest, key, i - 1);
    }
  }

  lemma {:induction false} KeyPlace(taints: seq<Taint>, key: string) returns (i: int)
    requires |WithKey(taints, key)| == 1
    ensures OnlyKey(taints, key, i)
  {
    var rest := taints[1..];
    NoKey(rest, key);
    assert forall k | 0 < k < |taints| :: taints[k] == rest[k - 1];
    if taints[0].key == key {
      i := 0;
    } else {
      var k := KeyPlace(rest, key);
      i := k + 1;
    }
  }

  lemma TaintCheck(taints: seq<Taint>, t: Taint)
    ensures CarriesOnce(taints, t) <==> WithKey(taints, t.key) == [t]
  {
    if CarriesOnce(taints, t) {
      var i :| 0 <= i < |taints| && taints[i] == t && forall j | 0 <= j < |taints| :: taints[j].key == t.key ==> j == i;
      OneKey(taints, t.key, i);
    }
    if WithKey(taints, t.key) == [t] {
      var i := KeyPlace(taints, t.key);
      OneKey(taints, t.key, i);
    }
  }

  lemma {:induction false} TaintsCheck(expected: seq<Taint>, taints: seq<Taint>)
    ensures AttestTaints(expected, taints).None? <==> forall t | t in expected :: CarriesOnce(taints, t)
  {
    if expected != [] {
      TaintCheck(taints, expected[0]);
      TaintsCheck(expected[1..], taints);
      assert expected == [expected[0]] + expected[1..];
    }
  }

  // ----- the decision table

  lemma ZoneCheck(zone: string, region: string)
    ensures |zone| == |region| + 1 && region <= zone && IsLower(zone[|zone| - 1])
            <==> exists c :: IsLower(c) && zone == region + [c]
  {
    if |zone| == |region| + 1 && region <= zone {
      assert zone == region + [zone[|zone| - 1]];
    }
  }

  lemma MembershipCheck(nodeGroup: NodeGroup, groups: seq<AutoScalingGroup>, instanceId: string)
    requires Distinct(nodeGroup.autoScalingGroupNames)
    ensures AttestMembership(nodeGroup, groups, instanceId).None? <==>
            GroupsMatch(nodeGroup, groups) && HealthyMember(groups, instanceId)
  {
    var allowed := nodeGroup.autoScalingGroupNames;
    var names := GroupNames(groups);
    SetSizeDistinct(allowed);
    SetSizeDistinct(names);
    MemberCheck(groups, instanceId);
    if GroupsMatch(nodeGroup, groups) {
      assert Elements(names) == Elements(allowed);
    }
  }

  lemma PlacementCheck(policy: Policy, ec2: Ec2Instance, node: NodeSnapshot, zone: string, instanceId: string)
    ensures AttestEc2AndNode(policy, ec2, node, instanceId, zone).None? <==>
            InstanceMatches(policy, ec2, node, zone, instanceId)
  {
    ZoneCheck(zone, policy.region);
  }

  lemma AttestationCheck(input: Input, zone: string, instanceId: string)
    requires PolicyWellFormed(input.policy) && NodeWellFormed(input.node) && SnapshotsWellFormed(input)
    requires ParseProviderId(input.node.providerId) == Some((zone, instanceId))
    ensures AttestationFailure(input, zone, instanceId).None? <==> Attested(input, zone, instanceId)
  {
    assert input.policy.maxEvidenceAgeMs.Int? && input.policy.maxEvidenceSkewMs.Int?;
    assert Distinct(input.nodeGroup.autoScalingGroupNames);
    hide PolicyWellFormed, NodeWellFormed, SnapshotsWellFormed, Fresh, GroupsMatch, HealthyMember, InstanceMatches,
         CarriesOnce;
    hide EvidenceFailure, AttestMembership, AttestEc2AndNode, AttestTaints, ParseProviderId, IsZone, IsInstanceId,
         Distinct;
    ProviderCheck(input.node.providerId, zone, instanceId);
    EvidenceCheck(input);
    MembershipCheck(input.nodeGroup, input.autoScalingGroups, instanceId);
    PlacementCheck(input.policy, input.ec2Instance, input.node, zone, instanceId);
    TaintsCheck(input.policy.expectedTaints, input.node.taints);
  }

  ghost predicate SomehowAttested(input: Input) {
    exists zone, instanceId :: Attested(input, zone, instanceId)
  }

  lemma AttestedAssesses(input: Input, zone: string, instanceId: string)
    requires Attested(input, zone, instanceId)
    ensures Assess(input) == Ok(instanceId)
  {
    InputCheck(input);
    ProviderCheck(input.node.providerId, zone, instanceId);
    AttestationCheck(input, zone, instanceId);
  }

  /** The checks pass exactly for the inputs that are attested, and name the attested instance. */
  lemma AssessIffAttested(input: Input)
    ensures Assess(input).Ok? <==> SomehowAttested(input)
    ensures Assess(input).Ok? ==> exists zone :: Attested(input, zone, Assess(input).value)
  {
    if zone, instanceId :| Attested(input, zone, instanceId) {
      AttestedAssesses(input, zone, instanceId);
    }
    if Assess(input).Ok? {
      InputCheck(input);
      var (zone, instanceId) := ParseProviderId(input.node.providerId).value;
      AttestationCheck(input, zone, instanceId);
    }
  }

  /** The whole decision, for every input: which of the four actions is taken, and for which instance. */
  lemma DecisionTable(input: Input)
    ensures var d := PlanTrustedNodeLabel(input);
            && (d.Patch? <==> SomehowAttested(input) && input.policy.protectedLabelKey !in input.node.labels)
            && (d.Noop? <==> SomehowAttested(input) && Labelled(input.policy, input.node))
            && (d.Revoke? <==>
                !SomehowAttested(input) && Labelled(input.policy, input.node)
                && CanSafelyRevoke(input.policy, input.node))
            && (LabelConflicts(input.policy, input.node) ==> d == Deny(ProtectedLabelConflict))
            && (d.Noop? ==> exists zone :: Attested(input, zone, d.instanceId))
            && (d.Patch? ==> d.plan.instanceId.Some? && exists zone :: Attested(input, zone, d.plan.instanceId.value))
  {
    AssessIffAttested(input);
  }

  /** Whatever is trusted was attested on evidence every piece of which is recent, and close to every other. */
  lemma TrustedOnFreshEvidence(input: Input)
    requires PlanTrustedNodeLabel(input).Patch? || PlanTrustedNodeLabel(input).Noop?
    ensures var now, maxAge := input.now, input.policy.maxEvidenceAgeMs;
            var maxSkew, ec2, group := input.policy.maxEvidenceSkewMs, input.ec2Instance, input.nodeGroup;
            && now.Int? && maxAge.Int? && maxSkew.Int? && ec2.capturedAt.Int? && group.capturedAt.Int?
            && 0 <= now.n - ec2.capturedAt.n <= maxAge.n && 0 <= now.n - group.capturedAt.n <= maxAge.n
            && -maxSkew.n <= ec2.capturedAt.n - group.capturedAt.n <= maxSkew.n
            && forall g | g in input.autoScalingGroups ::
                 && g.capturedAt.Int? && 0 <= now.n - g.capturedAt.n <= maxAge.n
                 && -maxSkew.n <= g.capturedAt.n - group.capturedAt.n <= maxSkew.n
                 && -maxSkew.n <= g.capturedAt.n - ec2.capturedAt.n <= maxSkew.n
  {
    DecisionTable(input);
    hide PlanTrustedNodeLabel, NodeWellFormed, SnapshotsWellFormed, GroupsMatch, HealthyMember, InstanceMatches,
         CarriesOnce, IsZone, IsInstanceId;
    var zone, instanceId :| Attested(input, zone, instanceId);
    assert IsPieceTime(input, input.nodeGroup.capturedAt) && IsPieceTime(input, input.ec2Instance.capturedAt);
    forall g | g in input.autoScalingGroups ensures IsPieceTime(input, g.capturedAt) {
      var i :| 0 <= i < |input.autoScalingGroups| && input.autoScalingGroups[i] == g;
    }
  }

  /** No Node carries two expected taints of one key, so none is attested under a policy that asks for them. */
  lemma RepeatedKeyIsNeverAttested(input: Input)
    requires PolicyWellFormed(input.policy) && SomeTaintKeyTwice(input.policy.expectedTaints)
    ensures !SomehowAttested(input)
  {
    var expected, taints := input.policy.expectedTaints, input.node.taints;
    var i, j :| 0 <= i < j < |expected| && expected[i].key == expected[j].key;
    assert expected[i] in expected && expected[j] in expected;
    TaintCheck(taints, expected[i]);
    TaintCheck(taints, expected[j]);
    assert !(CarriesOnce(taints, expected[i]) && CarriesOnce(taints, expected[j]));
  }

  /** A policy that expects two taints with one key passes validation, and then no Node is ever trusted under it. */
  lemma RepeatedTaintKeyFailsClosed(input: Input)
    requires PolicyWellFormed(input.policy) && SomeTaintKeyTwice(input.policy.expectedTaints)
    ensures PlanTrustedNodeLabel(input).Deny? || PlanTrustedNodeLabel(input).Revoke?
  {
    RepeatedKeyIsNeverAttested(input);
    DecisionTable(input);
  }
}
