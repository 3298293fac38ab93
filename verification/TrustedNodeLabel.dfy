// packages/k8s-baseline/src/trusted-node-label-reconciler-core.ts: the decision
// kernel that attests one Node and plans at most one label change.
module TrustedNodeLabel {
  import opened Wrappers
  import opened Text
  import opened Sorting
  import opened JsonPatch

  // ----- data

  datatype TaintEffect = NoSchedule | PreferNoSchedule | NoExecute

  datatype Taint = Taint(key: string, value: string, effect: TaintEffect)

  datatype NodeSnapshot = NodeSnapshot(
    name: string, uid: string, resourceVersion: string, providerId: string,
    labels: map<string, string>, taints: seq<Taint>)

  /** A JavaScript number, as far as `Number.isSafeInteger` tells: fractions, NaN and infinities are `NotInteger`. */
  datatype Number = Int(n: int) | NotInteger

  datatype Policy = Policy(
    clusterName: string, nodeGroupName: string, awsAccountId: string, region: string,
    protectedLabelKey: string, protectedLabelValue: string,
    allowedInstanceTypes: seq<string>, expectedTaints: seq<Taint>,
    maxEvidenceAgeMs: Number, maxEvidenceSkewMs: Number)

  datatype NodeGroup = NodeGroup(
    clusterName: string, nodeGroupName: string, status: string, autoScalingGroupNames: seq<string>,
    minSize: Number, desiredSize: Number, maxSize: Number, capturedAt: Number)

  datatype AsgInstance = AsgInstance(instanceId: string, lifecycleState: string, healthStatus: string)

  datatype AutoScalingGroup = AutoScalingGroup(name: string, instances: seq<AsgInstance>, capturedAt: Number)

  datatype Ec2Instance = Ec2Instance(
    instanceId: string, accountId: string, region: string, availabilityZone: string,
    instanceType: string, state: string, capturedAt: Number)

  datatype Input = Input(
    now: Number, policy: Policy, node: NodeSnapshot, nodeGroup: NodeGroup,
    autoScalingGroups: seq<AutoScalingGroup>, ec2Instance: Ec2Instance)

  datatype DenyReason =
    | InputMalformed | InputBoundsExceeded | ProtectedLabelKeyInvalid | ProviderIdMalformed
    | EvidenceFromFuture | EvidenceStale | EvidenceSkewExceeded | EvidenceUnavailable
    | NodeGroupMismatch | NodeGroupUnavailable
    | AsgNotAttested | AsgEvidenceIncomplete
    | MembershipMissing | MembershipAmbiguous | MembershipUnhealthy
    | InstanceIdMismatch | AccountMismatch | RegionMismatch | AvailabilityZoneMismatch
    | InstanceTypeDenied | InstanceNotRunning | NodeZoneLabelMismatch | NodeInstanceTypeLabelMismatch
    | ExpectedTaintMissing | ExpectedTaintConflict | ProtectedLabelConflict

  datatype Mutation = AddLabel | RemoveLabel

  datatype Plan = Plan(
    mutation: Mutation, nodeName: string, nodeUid: string, resourceVersion: string, providerId: string,
    instanceId: Option<string>, protectedLabelKey: string, protectedLabelValue: string)

  datatype Decision =
    | Deny(reason: DenyReason)
    | Noop(instanceId: string)
    | Patch(plan: Plan, patch: seq<PatchOp>)
    | Revoke(reason: DenyReason, plan: Plan, patch: seq<PatchOp>)

  const MAX_ASGS := 8
  const MAX_ASG_INSTANCES := 2048
  const MAX_ALLOWED_INSTANCE_TYPES := 16
  const MAX_EXPECTED_TAINTS := 16
  const MAX_NODE_LABELS := 256
  const MAX_NODE_TAINTS := 64
  const MAX_EVIDENCE_AGE_MS := 10 * 60 * 1000
  const MAX_SAFE_INTEGER := 9007199254740991

  const ZONE_LABEL := "topology.kubernetes.io/zone"
  const INSTANCE_TYPE_LABEL := "node.kubernetes.io/instance-type"

  // ----- regular expressions as predicates on characters

  predicate AllLower(s: string) { |s| > 0 && forall i | 0 <= i < |s| :: IsLower(s[i]) }

  predicate LowerHex(c: char) { IsDigit(c) || 'a' <= c <= 'f' }

  predicate IsInstanceId(s: string) {
    && (|s| == 10 || |s| == 19) && s[0] == 'i' && s[1] == '-'
    && forall i | 2 <= i < |s| :: LowerHex(s[i])
  }

  /** The hyphenated head of a region name, followed by a last part that `last` accepts. */
  predicate IsPlacement(s: string, last: string -> bool) {
    var parts := Split(s, '-');
    || (|parts| == 3 && |parts[0]| == 2 && AllLower(parts[0]) && AllLower(parts[1]) && last(parts[2]))
    || (|parts| == 4 && |parts[0]| == 2 && AllLower(parts[0]) && parts[1] == "gov" && AllLower(parts[2])
        && last(parts[3]))
  }

  predicate IsRegion(s: string) { IsPlacement(s, p => |p| == 1 && IsDigit(p[0])) }

  predicate IsZone(s: string) { IsPlacement(s, p => |p| == 2 && IsDigit(p[0]) && IsLower(p[1])) }

  predicate IsAccountId(s: string) { |s| == 12 && AllDigits(s) }

  predicate LowerAlnum(c: char) { IsDigit(c) || IsLower(c) }

  predicate IsDnsLabel(s: string) {
    && 1 <= |s| <= 63 && LowerAlnum(s[0]) && LowerAlnum(s[|s| - 1])
    && forall i | 0 <= i < |s| :: LowerAlnum(s[i]) || s[i] == '-'
  }

  predicate LabelChar(c: char) { IsAlnum(c) || c == '_' || c == '.' || c == '-' }

  /** The pattern of both label names and label values. */
  predicate IsLabelText(s: string) {
    && 1 <= |s| <= 63 && IsAlnum(s[0]) && IsAlnum(s[|s| - 1])
    && forall i | 0 <= i < |s| :: LabelChar(s[i])
  }

  predicate IsBoundedIdentifier(s: string) {
    && 1 <= |s| <= 100 && IsAlnum(s[0])
    && forall i | 0 <= i < |s| :: LabelChar(s[i]) || s[i] == ':' || s[i] == '/'
  }

  const RESTRICTED := "node-restriction.kubernetes.io"

  predicate IsValidProtectedLabelKey(key: string) {
    var parts := Split(key, '/');
    && |parts| == 2
    && |parts[0]| <= 253
    && (forall i | 0 <= i < |Split(parts[0], '.')| :: IsDnsLabel(Split(parts[0], '.')[i]))
    && IsLabelText(parts[1])
    && (parts[0] == RESTRICTED || EndsWith(parts[0], "." + RESTRICTED))
  }

  /** The captures of the provider-ID pattern: availability zone and instance ID. */
  function ParseProviderId(s: string): Option<(string, string)> {
    if |s| < 7 || s[..7] != "aws:///" then None
    else
      var parts := Split(s[7..], '/');
      if |parts| == 2 && IsZone(parts[0]) && IsInstanceId(parts[1]) then Some((parts[0], parts[1])) else None
  }

  // ----- shape and bounds

  predicate IsSafeInteger(x: Number) { x.Int? && -MAX_SAFE_INTEGER <= x.n <= MAX_SAFE_INTEGER }

  predicate IsNonNegativeInteger(x: Number) { IsSafeInteger(x) && x.n >= 0 }

  predicate IsUniqueNonEmpty(values: seq<string>, maximum: nat) {
    && 0 < |values| <= maximum
    && (forall i | 0 <= i < |values| :: IsBoundedIdentifier(values[i]))
    && |Elements(values)| == |values|
  }

  predicate HasValidScalingBounds(g: NodeGroup) {
    && IsNonNegativeInteger(g.minSize) && IsNonNegativeInteger(g.desiredSize) && IsNonNegativeInteger(g.maxSize)
    && g.minSize.n <= g.desiredSize.n <= g.maxSize.n
  }

  function EffectText(effect: TaintEffect): string {
    match effect
    case NoSchedule => "NoSchedule"
    case PreferNoSchedule => "PreferNoSchedule"
    case NoExecute => "NoExecute"
  }

  /** The key under which two expected taints count as duplicates. */
  function TaintIdentity(t: Taint): string { t.key + ['\0'] + EffectText(t.effect) }

  predicate BoundedToken(s: string) { 1 <= |s| <= 128 }

  predicate CanSafelyRevoke(policy: Policy, node: NodeSnapshot) {
    && IsValidProtectedLabelKey(policy.protectedLabelKey)
    && IsLabelText(policy.protectedLabelValue)
    && IsBoundedIdentifier(node.name)
    && BoundedToken(node.uid)
    && BoundedToken(node.resourceVersion)
    && 1 <= |node.providerId| <= 256
    && |node.labels| <= MAX_NODE_LABELS
  }

  predicate PolicyTextMalformed(policy: Policy) {
    || !IsBoundedIdentifier(policy.clusterName)
    || !IsBoundedIdentifier(policy.nodeGroupName)
    || !IsAccountId(policy.awsAccountId)
    || !IsRegion(policy.region)
    || !IsLabelText(policy.protectedLabelValue)
  }

  predicate NodeIdentityMalformed(node: NodeSnapshot) {
    !IsBoundedIdentifier(node.name) || !BoundedToken(node.uid) || !BoundedToken(node.resourceVersion)
  }

  predicate NodeBoundsExceeded(node: NodeSnapshot) {
    |node.labels| > MAX_NODE_LABELS || |node.taints| > MAX_NODE_TAINTS
  }

  predicate EvidenceBoundsExceeded(policy: Policy, nodeGroup: NodeGroup, groups: seq<AutoScalingGroup>) {
    || !IsUniqueNonEmpty(policy.allowedInstanceTypes, MAX_ALLOWED_INSTANCE_TYPES)
    || !IsUniqueNonEmpty(nodeGroup.autoScalingGroupNames, MAX_ASGS)
    || |policy.expectedTaints| == 0
    || |policy.expectedTaints| > MAX_EXPECTED_TAINTS
    || |groups| > MAX_ASGS
    || exists g | g in groups ::
         |g.instances| > MAX_ASG_INSTANCES || exists m | m in g.instances :: !IsInstanceId(m.instanceId)
  }

  predicate LimitsMalformed(policy: Policy, nodeGroup: NodeGroup) {
    || (exists t | t in policy.expectedTaints :: !IsLabelText(t.key) || |t.value| > 63)
    || |set t | t in policy.expectedTaints :: TaintIdentity(t)| != |policy.expectedTaints|
    || !HasValidScalingBounds(nodeGroup)
    || !IsSafeInteger(policy.maxEvidenceAgeMs)
    || policy.maxEvidenceAgeMs.n < 1
    || policy.maxEvidenceAgeMs.n > MAX_EVIDENCE_AGE_MS
    || !IsSafeInteger(policy.maxEvidenceSkewMs)
    || policy.maxEvidenceSkewMs.n < 0
    || policy.maxEvidenceSkewMs.n > policy.maxEvidenceAgeMs.n
  }

  function InputFailure(input: Input): Option<DenyReason> {
    var policy, node := input.policy, input.node;
    if PolicyTextMalformed(policy) || NodeIdentityMalformed(node) then Some(InputMalformed)
    else if !IsValidProtectedLabelKey(policy.protectedLabelKey) then Some(ProtectedLabelKeyInvalid)
    else if EvidenceBoundsExceeded(policy, input.nodeGroup, input.autoScalingGroups) || NodeBoundsExceeded(node)
    then Some(InputBoundsExceeded)
    else if LimitsMalformed(policy, input.nodeGroup) then Some(InputMalformed)
    else None
  }

  // ----- evidence

  function Timestamps(nodeGroup: NodeGroup, groups: seq<AutoScalingGroup>, ec2: Ec2Instance): seq<Number> {
    [nodeGroup.capturedAt]
    + seq(|groups|, i requires 0 <= i < |groups| => groups[i].capturedAt)
    + [ec2.capturedAt]
  }

  function Latest(ts: seq<Number>): int
    requires ts != [] && forall i | 0 <= i < |ts| :: ts[i].Int?
  {
    if |ts| == 1 then ts[0].n else var m := Latest(ts[1..]); if ts[0].n > m then ts[0].n else m
  }

  function Earliest(ts: seq<Number>): int
    requires ts != [] && forall i | 0 <= i < |ts| :: ts[i].Int?
  {
    if |ts| == 1 then ts[0].n else var m := Earliest(ts[1..]); if ts[0].n < m then ts[0].n else m
  }

  function EvidenceFailure(now: Number, policy: Policy, ts: seq<Number>): Option<DenyReason>
    requires policy.maxEvidenceAgeMs.Int? && policy.maxEvidenceSkewMs.Int? && ts != []
  {
    if !IsSafeInteger(now) || exists i | 0 <= i < |ts| :: !IsSafeInteger(ts[i]) then Some(InputMalformed)
    else if exists i | 0 <= i < |ts| :: ts[i].n > now.n then Some(EvidenceFromFuture)
    else if exists i | 0 <= i < |ts| :: now.n - ts[i].n > policy.maxEvidenceAgeMs.n then Some(EvidenceStale)
    else if Latest(ts) - Earliest(ts) > policy.maxEvidenceSkewMs.n then Some(EvidenceSkewExceeded)
    else None
  }

  // ----- attestation

  function GroupNames(groups: seq<AutoScalingGroup>): seq<string> {
    seq(|groups|, i requires 0 <= i < |groups| => groups[i].name)
  }

  function Matching(instances: seq<AsgInstance>, instanceId: string): seq<AsgInstance> {
    if instances == [] then []
    else (if instances[0].instanceId == instanceId then [instances[0]] else []) + Matching(instances[1..], instanceId)
  }

  function Memberships(groups: seq<AutoScalingGroup>, instanceId: string): seq<AsgInstance> {
    if groups == [] then [] else Matching(groups[0].instances, instanceId) + Memberships(groups[1..], instanceId)
  }

  function AttestMembership(nodeGroup: NodeGroup, groups: seq<AutoScalingGroup>, instanceId: string): Option<DenyReason>
  {
    var allowed := Elements(nodeGroup.autoScalingGroupNames);
    var names := GroupNames(groups);
    var memberships := Memberships(groups, instanceId);
    if exists n | n in names :: n !in allowed then Some(AsgNotAttested)
    else if |Elements(names)| != |names|
       || |names| != |allowed|
       || (exists n | n in nodeGroup.autoScalingGroupNames :: n !in names)
    then Some(AsgEvidenceIncomplete)
    else if |memberships| == 0 then Some(MembershipMissing)
    else if |memberships| != 1 then Some(MembershipAmbiguous)
    else if memberships[0].lifecycleState != "InService" || memberships[0].healthStatus != "Healthy"
    then Some(MembershipUnhealthy)
    else None
  }

  predicate HasLabel(node: NodeSnapshot, key: string, value: string) {
    key in node.labels && node.labels[key] == value
  }

  function AttestEc2AndNode(policy: Policy, ec2: Ec2Instance, node: NodeSnapshot, instanceId: string,
                            zone: string): Option<DenyReason>
  {
    if ec2.instanceId != instanceId then Some(InstanceIdMismatch)
    else if ec2.accountId != policy.awsAccountId then Some(AccountMismatch)
    else if ec2.region != policy.region then Some(RegionMismatch)
    else if ec2.availabilityZone != zone
       || |zone| != |policy.region| + 1
       || !(policy.region <= zone)
       || !IsLower(zone[|zone| - 1])
    then Some(AvailabilityZoneMismatch)
    else if ec2.instanceType !in policy.allowedInstanceTypes then Some(InstanceTypeDenied)
    else if ec2.state != "running" then Some(InstanceNotRunning)
    else if !HasLabel(node, ZONE_LABEL, ec2.availabilityZone) then Some(NodeZoneLabelMismatch)
    else if !HasLabel(node, INSTANCE_TYPE_LABEL, ec2.instanceType) then Some(NodeInstanceTypeLabelMismatch)
    else None
  }

  function WithKey(taints: seq<Taint>, key: string): seq<Taint> {
    if taints == [] then [] else (if taints[0].key == key then [taints[0]] else []) + WithKey(taints[1..], key)
  }

  function AttestTaints(expected: seq<Taint>, taints: seq<Taint>): Option<DenyReason> {
    if expected == [] then None
    else
      var sameKey := WithKey(taints, expected[0].key);
      if |sameKey| == 0 then Some(ExpectedTaintMissing)
      else if |sameKey| != 1 || sameKey[0] != expected[0] then Some(ExpectedTaintConflict)
      else AttestTaints(expected[1..], taints)
  }

  /** The first failing check after the shape of the input and the provider ID, in the source's order. */
  function AttestationFailure(input: Input, zone: string, instanceId: string): Option<DenyReason>
    requires input.policy.maxEvidenceAgeMs.Int? && input.policy.maxEvidenceSkewMs.Int?
  {
    var evidence := EvidenceFailure(input.now, input.policy,
                                    Timestamps(input.nodeGroup, input.autoScalingGroups, input.ec2Instance));
    var membership := AttestMembership(input.nodeGroup, input.autoScalingGroups, instanceId);
    var placement := AttestEc2AndNode(input.policy, input.ec2Instance, input.node, instanceId, zone);
    if evidence.Some? then evidence
    else if input.nodeGroup.clusterName != input.policy.clusterName
       || input.nodeGroup.nodeGroupName != input.policy.nodeGroupName
    then Some(NodeGroupMismatch)
    else if input.nodeGroup.status != "ACTIVE" && input.nodeGroup.status != "UPDATING" then Some(NodeGroupUnavailable)
    else if membership.Some? then membership
    else if placement.Some? then placement
    else AttestTaints(input.policy.expectedTaints, input.node.taints)
  }

  // ----- decisions

  function LabelPath(key: string): string { "/metadata/labels/" + Escape(key) }

  function IdentityTests(node: NodeSnapshot): seq<PatchOp> {
    [Test("/metadata/uid", node.uid),
     Test("/metadata/resourceVersion", node.resourceVersion),
     Test("/spec/providerID", node.providerId)]
  }

  function PlanFor(mutation: Mutation, policy: Policy, node: NodeSnapshot, instanceId: Option<string>): Plan {
    Plan(mutation, node.name, node.uid, node.resourceVersion, node.providerId, instanceId,
         policy.protectedLabelKey, policy.protectedLabelValue)
  }

  predicate LabelConflicts(policy: Policy, node: NodeSnapshot) {
    policy.protectedLabelKey in node.labels && node.labels[policy.protectedLabelKey] != policy.protectedLabelValue
  }

  predicate Labelled(policy: Policy, node: NodeSnapshot) {
    HasLabel(node, policy.protectedLabelKey, policy.protectedLabelValue)
  }

  function PlanFailure(policy: Policy, node: NodeSnapshot, reason: DenyReason, instanceId: Option<string>): Decision {
    if LabelConflicts(policy, node) then Deny(ProtectedLabelConflict)
    else if !Labelled(policy, node) || !CanSafelyRevoke(policy, node) then Deny(reason)
    else
      var path := LabelPath(policy.protectedLabelKey);
      Revoke(reason, PlanFor(RemoveLabel, policy, node, instanceId),
             IdentityTests(node) + [Test(path, policy.protectedLabelValue), Remove(path)])
  }

  function PlanSuccess(policy: Policy, node: NodeSnapshot, instanceId: string): Decision {
    if LabelConflicts(policy, node) then Deny(ProtectedLabelConflict)
    else if Labelled(policy, node) then Noop(instanceId)
    else
      Patch(PlanFor(AddLabel, policy, node, Some(instanceId)),
            IdentityTests(node) + [Add(LabelPath(policy.protectedLabelKey), policy.protectedLabelValue)])
  }

  /** Why a Node is not attested, and the instance it names when its provider ID could be read. */
  datatype Failure = Failure(reason: DenyReason, instanceId: Option<string>)

  /** All checks, in the source's order; the attested instance when none fails. */
  function Assess(input: Input): Result<string, Failure> {
    var shape := InputFailure(input);
    if shape.Some? then Err(Failure(shape.value, None))
    else
      var provider := ParseProviderId(input.node.providerId);
      if provider.None? then Err(Failure(ProviderIdMalformed, None))
      else
        var (zone, instanceId) := provider.value;
        var failure := AttestationFailure(input, zone, instanceId);
        if failure.Some? then Err(Failure(failure.value, Some(instanceId))) else Ok(instanceId)
  }

  function PlanTrustedNodeLabel(input: Input): Decision {
    match Assess(input)
    case Err(f) => PlanFailure(input.policy, input.node, f.reason, f.instanceId)
    case Ok(instanceId) => PlanSuccess(input.policy, input.node, instanceId)
  }

  // ----- the re-check before a patch is sent

  datatype PlanStaleness =
    | NodeNameChanged | NodeUidChanged | ResourceVersionChanged | ProviderIdChanged | ProtectedLabelChanged

  function ValidateReconciliationPlan(plan: Plan, current: NodeSnapshot): Option<PlanStaleness> {
    if current.name != plan.nodeName then Some(NodeNameChanged)
    else if current.uid != plan.nodeUid then Some(NodeUidChanged)
    else if current.resourceVersion != plan.resourceVersion then Some(ResourceVersionChanged)
    else if current.providerId != plan.providerId then Some(ProviderIdChanged)
    else if (plan.mutation == AddLabel && plan.protectedLabelKey in current.labels)
       || (plan.mutation == RemoveLabel && !HasLabel(current, plan.protectedLabelKey, plan.protectedLabelValue))
    then Some(ProtectedLabelChanged)
    else None
  }

  datatype CapacityState = Invalid | ZeroCapacity | AwaitingNodes | Reconciling | Ready

  function ClassifyNodeGroupCapacity(desiredSize: Number, observed: nat): CapacityState {
    if !IsNonNegativeInteger(desiredSize) || !IsNonNegativeInteger(Int(observed)) then Invalid
    else if desiredSize.n == 0 && observed == 0 then ZeroCapacity
    else if desiredSize.n > 0 && observed == 0 then AwaitingNodes
    else if observed < desiredSize.n then Reconciling
    else Ready
  }
}
