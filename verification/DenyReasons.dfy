// packages/k8s-baseline/src/trusted-node-label-reconciler-core.ts: which reason a
// Node is denied for, told from the evidence alone.
module DenyReasons {
  import opened Wrappers
  import opened Text
  import opened Sorting
  import opened JsonPatch
  import opened TrustedNodeLabel
  import opened Attestation
  import opened TextRules
  import opened KernelTexts

  // ----- times

  predicate IsSafe(x: Number) { x.Int? && -9007199254740991 <= x.n <= 9007199254740991 }

  ghost predicate TimesAreSafe(input: Input) { IsSafe(input.now) && forall t | IsPieceTime(input, t) :: IsSafe(t) }

  ghost predicate SomeLater(input: Input)
    requires TimesAreSafe(input)
  {
    exists t :: IsPieceTime(input, t) && t.n > input.now.n
  }

  ghost predicate SomeOlder(input: Input)
    requires TimesAreSafe(input) && input.policy.maxEvidenceAgeMs.Int?
  {
    exists t :: IsPieceTime(input, t) && input.now.n - t.n > input.policy.maxEvidenceAgeMs.n
  }

  ghost predicate SomeApart(input: Input)
    requires TimesAreSafe(input) && input.policy.maxEvidenceSkewMs.Int?
  {
    exists t, u :: IsPieceTime(input, t) && IsPieceTime(input, u) && t.n - u.n > input.policy.maxEvidenceSkewMs.n
  }

  ghost predicate HasAges(policy: Policy) { policy.maxEvidenceAgeMs.Int? && policy.maxEvidenceSkewMs.Int? }

  /** The reason that lies in the times of the evidence. */
  ghost predicate TimesDeny(input: Input, reason: DenyReason)
    requires HasAges(input.policy)
  {
    match reason
    case InputMalformed => !TimesAreSafe(input)
    case EvidenceFromFuture => TimesAreSafe(input) && SomeLater(input)
    case EvidenceStale => TimesAreSafe(input) && !SomeLater(input) && SomeOlder(input)
    case EvidenceSkewExceeded => TimesAreSafe(input) && !SomeLater(input) && !SomeOlder(input) && SomeApart(input)
    case _ => false
  }

  lemma TimesDenyIff(input: Input, reason: DenyReason)
    requires HasAges(input.policy)
    ensures TimesOf(input) != []
    ensures EvidenceFailure(input.now, input.policy, TimesOf(input)) == Some(reason) <==> TimesDeny(input, reason)
  {
    TimestampsArePieces(input);
    var ts := TimesOf(input);
    hide Timestamps, IsPieceTime;
    forall t | IsPieceTime(input, t) ensures exists i | 0 <= i < |ts| :: ts[i] == t {
      assert t in ts;
    }
    forall i | 0 <= i < |ts| ensures IsPieceTime(input, ts[i]) {
      assert ts[i] in ts;
    }
    if forall i | 0 <= i < |ts| :: IsSafeInteger(ts[i]) {
      var l, e := ExtremesOf(ts);
      assert ts[l].n - ts[e].n == Latest(ts) - Earliest(ts);
    }
  }

  // ----- membership

  ghost predicate IsNamed(nodeGroup: NodeGroup, group: AutoScalingGroup) {
    group.name in nodeGroup.autoScalingGroupNames
  }

  ghost predicate SomeUnnamed(nodeGroup: NodeGroup, groups: seq<AutoScalingGroup>) {
    exists g | 0 <= g < |groups| :: !IsNamed(nodeGroup, groups[g])
  }

  ghost predicate IsNowhere(groups: seq<AutoScalingGroup>, instanceId: string) {
    forall g, m :: !At(groups, g, m, instanceId)
  }

  ghost predicate IsOnce(groups: seq<AutoScalingGroup>, instanceId: string) {
    exists g, m :: OnlyPlace(groups, instanceId, g, m)
  }

  /** The reason that lies in the groups and in where the instance is found in them. */
  ghost predicate MembershipDenies(nodeGroup: NodeGroup, groups: seq<AutoScalingGroup>, instanceId: string,
                                   reason: DenyReason)
  {
    match reason
    case AsgNotAttested => SomeUnnamed(nodeGroup, groups)
    case AsgEvidenceIncomplete => !SomeUnnamed(nodeGroup, groups) && !GroupsMatch(nodeGroup, groups)
    case MembershipMissing => GroupsMatch(nodeGroup, groups) && IsNowhere(groups, instanceId)
    case MembershipAmbiguous =>
      GroupsMatch(nodeGroup, groups) && !IsNowhere(groups, instanceId) && !IsOnce(groups, instanceId)
    case MembershipUnhealthy =>
      GroupsMatch(nodeGroup, groups) && IsOnce(groups, instanceId) && !HealthyMember(groups, instanceId)
    case _ => false
  }

  lemma OnceIff(groups: seq<AutoScalingGroup>, instanceId: string)
    ensures IsNowhere(groups, instanceId) <==> |Memberships(groups, instanceId)| == 0
    ensures IsOnce(groups, instanceId) <==> |Memberships(groups, instanceId)| == 1
  {
    NoPlace(groups, instanceId);
    if IsOnce(groups, instanceId) {
      var g, m :| OnlyPlace(groups, instanceId, g, m);
      OnePlace(groups, instanceId, g, m);
    }
    if |Memberships(groups, instanceId)| == 1 {
      var g, m := SomePlace(groups, instanceId);
    }
  }

  lemma NamedIff(nodeGroup: NodeGroup, groups: seq<AutoScalingGroup>)
    ensures SomeUnnamed(nodeGroup, groups) <==>
            exists n | n in GroupNames(groups) :: n !in Elements(nodeGroup.autoScalingGroupNames)
    ensures GroupsMatch(nodeGroup, groups) ==> !SomeUnnamed(nodeGroup, groups)
  {
    var names := GroupNames(groups);
    if SomeUnnamed(nodeGroup, groups) {
      var g :| 0 <= g < |groups| && !IsNamed(nodeGroup, groups[g]);
      assert names[g] in names;
    }
    if n :| n in names && n !in Elements(nodeGroup.autoScalingGroupNames) {
      var g :| 0 <= g < |names| && names[g] == n;
      assert !IsNamed(nodeGroup, groups[g]);
    }
  }

  lemma GroupsMatchIff(nodeGroup: NodeGroup, groups: seq<AutoScalingGroup>)
    requires Distinct(nodeGroup.autoScalingGroupNames) && !SomeUnnamed(nodeGroup, groups)
    ensures var names, allowed := GroupNames(groups), Elements(nodeGroup.autoScalingGroupNames);
            (|Elements(names)| != |names| || |names| != |allowed|
             || exists n | n in nodeGroup.autoScalingGroupNames :: n !in names)
            <==> !GroupsMatch(nodeGroup, groups)
  {
    NamedIff(nodeGroup, groups);
    SetSizeDistinct(nodeGroup.autoScalingGroupNames);
    SetSizeDistinct(GroupNames(groups));
    if GroupsMatch(nodeGroup, groups) {
      assert Elements(GroupNames(groups)) == Elements(nodeGroup.autoScalingGroupNames);
    }
  }

  lemma MembershipDeniesIff(nodeGroup: NodeGroup, groups: seq<AutoScalingGroup>, instanceId: string, reason: DenyReason)
    requires Distinct(nodeGroup.autoScalingGroupNames)
    ensures AttestMembership(nodeGroup, groups, instanceId) == Some(reason) <==>
            MembershipDenies(nodeGroup, groups, instanceId, reason)
  {
    NamedIff(nodeGroup, groups);
    if !SomeUnnamed(nodeGroup, groups) {
      GroupsMatchIff(nodeGroup, groups);
    }
    OnceIff(groups, instanceId);
    MemberCheck(groups, instanceId);
    hide SomeUnnamed, GroupsMatch, IsNowhere, IsOnce, HealthyMember, Memberships, GroupNames, Distinct;
  }

  // ----- the instance and its Node

  predicate HasText(node: NodeSnapshot, key: string, value: string) { key in node.labels && node.labels[key] == value }

  /** The reason that lies in the instance or the Node's two labels about it; all earlier comparisons hold. */
  ghost predicate PlacementDenies(policy: Policy, ec2: Ec2Instance, node: NodeSnapshot, zone: string,
                                  instanceId: string, reason: DenyReason)
  {
    var id, account, region, place, kind, state, zoneLabel, kindLabel :=
      ec2.instanceId == instanceId, ec2.accountId == policy.awsAccountId, ec2.region == policy.region,
      ec2.availabilityZone == zone && exists c :: IsLower(c) && zone == policy.region + [c],
      ec2.instanceType in policy.allowedInstanceTypes, ec2.state == "running",
      HasText(node, "topology.kubernetes.io/zone", ec2.availabilityZone),
      HasText(node, "node.kubernetes.io/instance-type", ec2.instanceType);
    match reason
    case InstanceIdMismatch => !id
    case AccountMismatch => id && !account
    case RegionMismatch => id && account && !region
    case AvailabilityZoneMismatch => id && account && region && !place
    case InstanceTypeDenied => id && account && region && place && !kind
    case InstanceNotRunning => id && account && region && place && kind && !state
    case NodeZoneLabelMismatch => id && account && region && place && kind && state && !zoneLabel
    case NodeInstanceTypeLabelMismatch => id && account && region && place && kind && state && zoneLabel && !kindLabel
    case _ => false
  }

  lemma PlacementDeniesIff(policy: Policy, ec2: Ec2Instance, node: NodeSnapshot, zone: string, instanceId: string,
                           reason: DenyReason)
    ensures AttestEc2AndNode(policy, ec2, node, instanceId, zone) == Some(reason) <==>
            PlacementDenies(policy, ec2, node, zone, instanceId, reason)
  {
    ZoneCheck(zone, policy.region);
  }

  // ----- taints

  ghost predicate FirstBadTaint(expected: seq<Taint>, taints: seq<Taint>, i: nat) {
    && i < |expected| && !CarriesOnce(taints, expected[i])
    && forall j | 0 <= j < i :: CarriesOnce(taints, expected[j])
  }

  ghost predicate LacksKey(taints: seq<Taint>, key: string) { forall i | 0 <= i < |taints| :: taints[i].key != key }

  ghost predicate DeniedAt(expected: seq<Taint>, taints: seq<Taint>, i: nat, reason: DenyReason) {
    && FirstBadTaint(expected, taints, i)
    && reason == if LacksKey(taints, expected[i].key) then ExpectedTaintMissing else ExpectedTaintConflict
  }

  /** The first expected taint that is not carried alone with its key is missing, or in conflict with another. */
  ghost predicate TaintsDeny(expected: seq<Taint>, taints: seq<Taint>, reason: DenyReason) {
    exists i: nat :: DeniedAt(expected, taints, i, reason)
  }

  lemma {:induction false} TaintsDenyIff(expected: seq<Taint>, taints: seq<Taint>, reason: DenyReason)
    ensures AttestTaints(expected, taints) == Some(reason) <==> TaintsDeny(expected, taints, reason)
  {
    if expected != [] {
      var rest := expected[1..];
      TaintCheck(taints, expected[0]);
      NoKey(taints, expected[0].key);
      TaintsDenyIff(rest, taints, reason);
      hide CarriesOnce, LacksKey;
      assert LacksKey(taints, expected[0].key) <==> WithKey(taints, expected[0].key) == [] by {
        LacksIff(taints, expected[0].key);
      }
      if CarriesOnce(taints, expected[0]) {
        if i: nat :| DeniedAt(rest, taints, i, reason) {
          assert DeniedAt(expected, taints, i + 1, reason);
        }
        if i: nat :| DeniedAt(expected, taints, i, reason) {
          assert i > 0 && DeniedAt(rest, taints, i - 1, reason);
        }
      } else {
        var own := if LacksKey(taints, expected[0].key) then ExpectedTaintMissing else ExpectedTaintConflict;
        assert DeniedAt(expected, taints, 0, own);
        assert forall i: nat | FirstBadTaint(expected, taints, i) :: i == 0;
      }
    }
  }

  lemma LacksIff(taints: seq<Taint>, key: string)
    ensures LacksKey(taints, key) <==> WithKey(taints, key) == []
  {
    NoKey(taints, key);
  }

  // ----- shape and bounds

  ghost predicate TextsRead(input: Input) {
    var p, n := input.policy, input.node;
    && IsIdentifier(p.clusterName) && IsIdentifier(p.nodeGroupName)
    && |p.awsAccountId| == 12 && AllIn(p.awsAccountId, DIGITS)
    && (exists d :: d in DIGITS && IsPlacementOf(p.region, [d])) && IsName(p.protectedLabelValue)
    && IsIdentifier(n.name) && 1 <= |n.uid| <= 128 && 1 <= |n.resourceVersion| <= 128
  }

  ghost predicate SizesFit(input: Input) {
    var p, n, groups := input.policy, input.node, input.autoScalingGroups;
    && AreNames(p.allowedInstanceTypes, 16) && AreNames(input.nodeGroup.autoScalingGroupNames, 8)
    && 1 <= |p.expectedTaints| <= 16 && |n.labels| <= 256 && |n.taints| <= 64 && |groups| <= 8
    && forall g | g in groups :: |g.instances| <= 2048 && AreInstances(g.instances)
  }

  /** The reason that lies in the shape of the input, tested in this order. */
  ghost predicate InputDenies(input: Input, reason: DenyReason) {
    match reason
    case InputMalformed =>
      || !TextsRead(input)
      || (IsProtectedKey(input.policy.protectedLabelKey) && SizesFit(input) && !InputFits(input))
    case ProtectedLabelKeyInvalid => TextsRead(input) && !IsProtectedKey(input.policy.protectedLabelKey)
    case InputBoundsExceeded =>
      TextsRead(input) && IsProtectedKey(input.policy.protectedLabelKey) && !SizesFit(input)
    case _ => false
  }

  ghost predicate InputFits(input: Input) {
    PolicyFits(input.policy) && NodeFits(input.node) && SnapshotsFit(input.nodeGroup, input.autoScalingGroups)
  }

  lemma TextsReadIff(input: Input)
    ensures TextsRead(input) <==> !PolicyTextMalformed(input.policy) && !NodeIdentityMalformed(input.node)
  {
    var p := input.policy;
    IdentifierIff(p.clusterName);
    IdentifierIff(p.nodeGroupName);
    AccountIdIff(p.awsAccountId);
    RegionIff(p.region);
    LabelTextIff(p.protectedLabelValue);
    IdentifierIff(input.node.name);
    hide IsBoundedIdentifier, IsIdentifier, IsAccountId, AllIn, IsRegion, IsPlacementOf, IsLabelText, IsName, DIGITS;
  }

  lemma SizesFitIff(input: Input)
    ensures SizesFit(input) <==>
            !EvidenceBoundsExceeded(input.policy, input.nodeGroup, input.autoScalingGroups)
              && !NodeBoundsExceeded(input.node)
  {
    UniqueIdentifiersCheck(input.policy.allowedInstanceTypes, 16);
    UniqueIdentifiersCheck(input.nodeGroup.autoScalingGroupNames, 8);
    NamesIff(input.policy.allowedInstanceTypes, 16);
    NamesIff(input.nodeGroup.autoScalingGroupNames, 8);
    forall g: AutoScalingGroup
      ensures (exists m | m in g.instances :: !IsInstanceId(m.instanceId)) <==> !AreInstances(g.instances)
    {
      InstancesIff(g.instances);
    }
    hide UniqueIdentifiers, IsUniqueNonEmpty, AreNames, IsInstanceId, AreInstances;
  }

  lemma InputDeniesIff(input: Input, reason: DenyReason)
    ensures InputFailure(input) == Some(reason) <==> InputDenies(input, reason)
  {
    InputFitsIff(input);
    TextsReadIff(input);
    SizesFitIff(input);
    ProtectedKeyIff(input.policy.protectedLabelKey);
    hide PolicyTextMalformed, NodeIdentityMalformed, EvidenceBoundsExceeded, NodeBoundsExceeded, LimitsMalformed,
         IsValidProtectedLabelKey, IsProtectedKey, TextsRead, SizesFit, PolicyFits, NodeFits, SnapshotsFit;
  }

  // ----- all checks together

  predicate IsOwnGroup(input: Input) {
    && input.nodeGroup.clusterName == input.policy.clusterName
    && input.nodeGroup.nodeGroupName == input.policy.nodeGroupName
  }

  predicate IsUsable(nodeGroup: NodeGroup) { nodeGroup.status == "ACTIVE" || nodeGroup.status == "UPDATING" }

  /** The first reason against a Node whose input is well formed: times, node group, membership, instance, taints. */
  ghost predicate EvidenceDenies(input: Input, zone: string, instanceId: string, reason: DenyReason)
    requires HasAges(input.policy)
  {
    var group, groups := input.nodeGroup, input.autoScalingGroups;
    || TimesDeny(input, reason)
    || (Fresh(input)
        && if !IsOwnGroup(input) then reason == NodeGroupMismatch
           else if !IsUsable(group) then reason == NodeGroupUnavailable
           else
             || MembershipDenies(group, groups, instanceId, reason)
             || (GroupsMatch(group, groups) && HealthyMember(groups, instanceId)
                 && (PlacementDenies(input.policy, input.ec2Instance, input.node, zone, instanceId, reason)
                     || (InstanceMatches(input.policy, input.ec2Instance, input.node, zone, instanceId)
                         && TaintsDeny(input.policy.expectedTaints, input.node.taints, reason)))))
  }

  lemma EvidenceDeniesIff(input: Input, zone: string, instanceId: string, reason: DenyReason)
    requires HasAges(input.policy) && Distinct(input.nodeGroup.autoScalingGroupNames)
    ensures AttestationFailure(input, zone, instanceId) == Some(reason) <==>
            EvidenceDenies(input, zone, instanceId, reason)
  {
    EvidenceCheck(input);
    TimesDenyIff(input, reason);
    MembershipCheck(input.nodeGroup, input.autoScalingGroups, instanceId);
    MembershipDeniesIff(input.nodeGroup, input.autoScalingGroups, instanceId, reason);
    PlacementCheck(input.policy, input.ec2Instance, input.node, zone, instanceId);
    PlacementDeniesIff(input.policy, input.ec2Instance, input.node, zone, instanceId, reason);
    TaintsDenyIff(input.policy.expectedTaints, input.node.taints, reason);
    hide EvidenceFailure, AttestMembership, AttestEc2AndNode, AttestTaints, Fresh, GroupsMatch, HealthyMember,
         InstanceMatches, TimesDeny, MembershipDenies, PlacementDenies, TaintsDeny, Distinct;
  }

  ghost predicate Reads(input: Input, zone: string, instanceId: string) {
    ParseProviderId(input.node.providerId) == Some((zone, instanceId))
  }

  lemma FittingAges(input: Input)
    requires InputFits(input)
    ensures HasAges(input.policy) && Distinct(input.nodeGroup.autoScalingGroupNames)
  {
    hide TextsFit, AreTaints, TaintsDistinct, IsIdentifier, AreInstances;
  }

  /** The reason for denying a Node, and whether the plan names its instance, for every input. */
  lemma DeniedForIff(input: Input, reason: DenyReason, named: Option<string>)
    ensures Assess(input) == Err(Failure(reason, named)) <==>
            || (InputDenies(input, reason) && named == None)
            || (InputFits(input) && (forall zone, id :: !Reads(input, zone, id))
                && reason == ProviderIdMalformed && named == None)
            || (InputFits(input)
                && exists zone, id ::
                     Reads(input, zone, id) && named == Some(id) && HasAges(input.policy)
                     && EvidenceDenies(input, zone, id, reason))
  {
    hide *;
    FitsIff(input);
    InputDeniesIff(input, reason);
    if InputFits(input) {
      FittingDenied(input, reason, named);
      NoneDenied(input, reason);
    } else {
      UnfitDenied(input, reason, named);
    }
  }

  lemma FitsIff(input: Input)
    ensures InputFits(input) <==> InputFailure(input) == None
  {
    InputFitsIff(input);
    hide InputFailure, PolicyFits, NodeFits, SnapshotsFit;
  }

  lemma NoneDenied(input: Input, reason: DenyReason)
    requires InputFailure(input) == None
    ensures !InputDenies(input, reason)
  {
    InputDeniesIff(input, reason);
    hide InputFailure, InputDenies;
  }

  lemma UnfitDenied(input: Input, reason: DenyReason, named: Option<string>)
    requires InputFailure(input) != None
    ensures Assess(input) == Err(Failure(reason, named)) <==> InputFailure(input) == Some(reason) && named == None
  {
    hide InputFailure;
  }

  lemma FittingDenied(input: Input, reason: DenyReason, named: Option<string>)
    requires InputFits(input)
    ensures Assess(input) == Err(Failure(reason, named)) <==>
            || ((forall zone, id :: !Reads(input, zone, id)) && reason == ProviderIdMalformed && named == None)
            || (exists zone, id ::
                  Reads(input, zone, id) && named == Some(id) && HasAges(input.policy)
                  && EvidenceDenies(input, zone, id, reason))
  {
    FittingAges(input);
    FitsIff(input);
    hide InputFailure, InputFits, ParseProviderId, AttestationFailure, EvidenceDenies;
    if ParseProviderId(input.node.providerId).Some? {
      var (zone, id) := ParseProviderId(input.node.providerId).value;
      assert Reads(input, zone, id);
      EvidenceDeniesIff(input, zone, id, reason);
    }
  }

  // ----- what is planned

  predicate HasOther(policy: Policy, node: NodeSnapshot) {
    policy.protectedLabelKey in node.labels && node.labels[policy.protectedLabelKey] != policy.protectedLabelValue
  }

  /** A removal is only planned for keys, values and identities that can be sent safely. */
  lemma RevocableIff(policy: Policy, node: NodeSnapshot)
    ensures CanSafelyRevoke(policy, node) <==>
            && IsProtectedKey(policy.protectedLabelKey) && IsName(policy.protectedLabelValue) && IsIdentifier(node.name)
            && 1 <= |node.uid| <= 128 && 1 <= |node.resourceVersion| <= 128 && 1 <= |node.providerId| <= 256
            && |node.labels| <= 256
  {
    ProtectedKeyIff(policy.protectedLabelKey);
    LabelTextIff(policy.protectedLabelValue);
    IdentifierIff(node.name);
    hide IsValidProtectedLabelKey, IsProtectedKey, IsLabelText, IsName, IsBoundedIdentifier, IsIdentifier;
  }

  /** The three tests that every planned patch begins with. */
  predicate BeginsWithTests(patch: seq<PatchOp>, node: NodeSnapshot) {
    && |patch| >= 3 && patch[0] == Test("/metadata/uid", node.uid)
    && patch[1] == Test("/metadata/resourceVersion", node.resourceVersion)
    && patch[2] == Test("/spec/providerID", node.providerId)
  }

  /** The plan names the Node as it was read, and the pair of the policy. */
  predicate IsPlanOf(plan: Plan, mutation: Mutation, policy: Policy, node: NodeSnapshot, instanceId: Option<string>) {
    && plan.mutation == mutation && plan.nodeName == node.name && plan.nodeUid == node.uid
    && plan.resourceVersion == node.resourceVersion && plan.providerId == node.providerId
    && plan.instanceId == instanceId && plan.protectedLabelKey == policy.protectedLabelKey
    && plan.protectedLabelValue == policy.protectedLabelValue
  }

  /** What comes of a Node that is attested. */
  lemma SuccessIs(policy: Policy, node: NodeSnapshot, instanceId: string)
    ensures var d := PlanSuccess(policy, node, instanceId);
            if HasOther(policy, node) then d == Deny(ProtectedLabelConflict)
            else if HasText(node, policy.protectedLabelKey, policy.protectedLabelValue) then d == Noop(instanceId)
            else
              && d.Patch? && IsPlanOf(d.plan, AddLabel, policy, node, Some(instanceId))
              && BeginsWithTests(d.patch, node) && |d.patch| == 4
              && d.patch[3] == Add("/metadata/labels/" + Escape(policy.protectedLabelKey), policy.protectedLabelValue)
  {
    hide Escape;
  }

  /** What comes of a Node that fails a check. */
  lemma FailureIs(policy: Policy, node: NodeSnapshot, reason: DenyReason, instanceId: Option<string>)
    ensures var d := PlanFailure(policy, node, reason, instanceId);
            var path := "/metadata/labels/" + Escape(policy.protectedLabelKey);
            if HasOther(policy, node) then d == Deny(ProtectedLabelConflict)
            else if HasText(node, policy.protectedLabelKey, policy.protectedLabelValue) && CanSafelyRevoke(policy, node)
            then
              && d.Revoke? && d.reason == reason && IsPlanOf(d.plan, RemoveLabel, policy, node, instanceId)
              && BeginsWithTests(d.patch, node) && |d.patch| == 5
              && d.patch[3] == Test(path, policy.protectedLabelValue) && d.patch[4] == Remove(path)
            else d == Deny(reason)
  {
    hide Escape, CanSafelyRevoke;
  }

  // ----- the re-check, and the capacity of a node group

  /** What changed on the Node since it was planned for, told in this order. */
  lemma StalenessIff(plan: Plan, current: NodeSnapshot, reason: PlanStaleness)
    ensures ValidateReconciliationPlan(plan, current) == Some(reason) <==>
            var name, uid, version, provider :=
              current.name == plan.nodeName, current.uid == plan.nodeUid,
              current.resourceVersion == plan.resourceVersion, current.providerId == plan.providerId;
            match reason
            case NodeNameChanged => !name
            case NodeUidChanged => name && !uid
            case ResourceVersionChanged => name && uid && !version
            case ProviderIdChanged => name && uid && version && !provider
            case ProtectedLabelChanged =>
              && name && uid && version && provider
              && if plan.mutation == AddLabel then plan.protectedLabelKey in current.labels
                 else !HasText(current, plan.protectedLabelKey, plan.protectedLabelValue)
  {
  }

  /** No Nodes wanted and none seen; some wanted and none seen; fewer seen than wanted; at least as many. */
  lemma CapacityIff(desired: Number, observed: nat, state: CapacityState)
    ensures ClassifyNodeGroupCapacity(desired, observed) == state <==>
            var counted := IsCount(desired) && observed <= 9007199254740991;
            match state
            case Invalid => !counted
            case ZeroCapacity => counted && desired.n == 0 && observed == 0
            case AwaitingNodes => counted && desired.n > 0 && observed == 0
            case Reconciling => counted && 0 < observed < desired.n
            case Ready => counted && observed > 0 && observed >= desired.n
  {
  }
}
