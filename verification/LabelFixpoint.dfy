// With fixed evidence a Node is changed at most once: what an applied plan does
// to the next decision.
module LabelFixpoint {
  import opened Wrappers
  import opened Text
  import opened TrustedNodeLabel

  /** The Node after a write that gave it these labels and a new version. */
  function Relabelled(node: NodeSnapshot, labels: map<string, string>, version: string): NodeSnapshot {
    node.(labels := labels, resourceVersion := version)
  }

  function AfterAdd(policy: Policy, node: NodeSnapshot, version: string): NodeSnapshot {
    Relabelled(node, node.labels[policy.protectedLabelKey := policy.protectedLabelValue], version)
  }

  function AfterRevoke(policy: Policy, node: NodeSnapshot, version: string): NodeSnapshot {
    Relabelled(node, node.labels - {policy.protectedLabelKey}, version)
  }

  lemma ProtectedPrefix(key: string)
    requires IsValidProtectedLabelKey(key)
    ensures |key| > 30 && forall i | 0 <= i < 30 :: key[i] != '/'
  {
    var parts := Split(key, '/');
    JoinSplit(key, '/');
    assert Join(parts[1..], '/') == parts[1];
    assert |RESTRICTED| == 30;
    assert |parts[0]| >= 30 && key == parts[0] + ['/'] + parts[1];
  }

  /** A protected key is never one of the two labels the attestation reads. */
  lemma ProtectedKeyIsNotAttested(key: string)
    requires IsValidProtectedLabelKey(key)
    ensures key != ZONE_LABEL && key != INSTANCE_TYPE_LABEL
  {
    ProtectedPrefix(key);
    assert ZONE_LABEL[22] == '/' && INSTANCE_TYPE_LABEL[18] == '/';
  }

  ghost predicate SameExcept(m: map<string, string>, n: map<string, string>, key: string) {
    forall k | k != key :: (k in m <==> k in n) && (k in m ==> m[k] == n[k])
  }

  lemma PlacementIgnoresProtectedLabel(policy: Policy, ec2: Ec2Instance, node: NodeSnapshot, next: NodeSnapshot,
                                       zone: string, instanceId: string)
    requires IsValidProtectedLabelKey(policy.protectedLabelKey)
    requires SameExcept(next.labels, node.labels, policy.protectedLabelKey)
    ensures AttestEc2AndNode(policy, ec2, next, instanceId, zone)
            == AttestEc2AndNode(policy, ec2, node, instanceId, zone)
  {
    ProtectedKeyIsNotAttested(policy.protectedLabelKey);
    assert HasLabel(next, ZONE_LABEL, ec2.availabilityZone) == HasLabel(node, ZONE_LABEL, ec2.availabilityZone);
    assert HasLabel(next, INSTANCE_TYPE_LABEL, ec2.instanceType)
           == HasLabel(node, INSTANCE_TYPE_LABEL, ec2.instanceType);
  }

  lemma AttestationIgnoresProtectedLabel(input: Input, next: Input, zone: string, instanceId: string)
    requires InputFailure(input).None? && next == input.(node := next.node) && next.node.taints == input.node.taints
    requires SameExcept(next.node.labels, input.node.labels, input.policy.protectedLabelKey)
    ensures AttestationFailure(next, zone, instanceId) == AttestationFailure(input, zone, instanceId)
  {
    PlacementIgnoresProtectedLabel(input.policy, input.ec2Instance, input.node, next.node, zone, instanceId);
  }

  /** Changing only the protected label and the version changes no check, as long as the label count stays in bounds. */
  lemma ChecksIgnoreProtectedLabel(input: Input, labels: map<string, string>, version: string)
    requires BoundedToken(input.node.resourceVersion) && BoundedToken(version)
    requires |input.node.labels| <= MAX_NODE_LABELS && |labels| <= MAX_NODE_LABELS
    requires SameExcept(labels, input.node.labels, input.policy.protectedLabelKey)
    ensures Assess(input.(node := Relabelled(input.node, labels, version))) == Assess(input)
  {
    var next := input.(node := Relabelled(input.node, labels, version));
    assert InputFailure(next) == InputFailure(input);
    if InputFailure(input).None? && ParseProviderId(input.node.providerId).Some? {
      var (zone, instanceId) := ParseProviderId(input.node.providerId).value;
      AttestationIgnoresProtectedLabel(input, next, zone, instanceId);
    }
  }

  /**
   * Applying a planned addition makes the next plan a no-op exactly when the Node
   * had fewer than 256 labels; at 256 the next plan denies the Node it has just labelled.
   */
  lemma AddFixpoint(input: Input, version: string)
    requires PlanTrustedNodeLabel(input).Patch? && BoundedToken(version)
    ensures var next := PlanTrustedNodeLabel(input.(node := AfterAdd(input.policy, input.node, version)));
            next == if |input.node.labels| < MAX_NODE_LABELS
                    then Noop(PlanTrustedNodeLabel(input).plan.instanceId.value)
                    else Deny(InputBoundsExceeded)
  {
    var node := AfterAdd(input.policy, input.node, version);
    assert |node.labels| == |input.node.labels| + 1;
    PassedBounds(input);
    if |input.node.labels| < MAX_NODE_LABELS {
      ChecksIgnoreProtectedLabel(input, node.labels, version);
    } else {
      OverfullNode(input, node);
    }
  }

  /** What an assessment that succeeded says about the bounds. */
  lemma PassedBounds(input: Input)
    requires Assess(input).Ok?
    ensures IsValidProtectedLabelKey(input.policy.protectedLabelKey)
    ensures !PolicyTextMalformed(input.policy) && !NodeIdentityMalformed(input.node)
            && |input.node.labels| <= MAX_NODE_LABELS
  {
  }

  lemma OverfullNode(input: Input, node: NodeSnapshot)
    requires Assess(input).Ok? && |node.labels| > MAX_NODE_LABELS && !NodeIdentityMalformed(node)
    ensures Assess(input.(node := node)) == Err(Failure(InputBoundsExceeded, None))
  {
    PassedBounds(input);
  }

  /** Applying a planned revocation makes the next plan a denial for the same reason. */
  lemma RevokeFixpoint(input: Input, version: string)
    requires PlanTrustedNodeLabel(input).Revoke? && BoundedToken(version)
    ensures PlanTrustedNodeLabel(input.(node := AfterRevoke(input.policy, input.node, version)))
            == Deny(PlanTrustedNodeLabel(input).reason)
  {
    RevokeShrinks(input.policy, input.node, version);
    FailureRevokes(input.policy, input.node, Assess(input));
    ChecksIgnoreProtectedLabel(input, AfterRevoke(input.policy, input.node, version).labels, version);
  }

  lemma RevokeShrinks(policy: Policy, node: NodeSnapshot, version: string)
    ensures var next := AfterRevoke(policy, node, version);
            |next.labels| <= |node.labels| && SameExcept(next.labels, node.labels, policy.protectedLabelKey)
  {
    var next := AfterRevoke(policy, node, version);
    assert node.labels.Keys == next.labels.Keys + (node.labels.Keys * {policy.protectedLabelKey});
    assert |next.labels.Keys| <= |node.labels.Keys|;
  }

  lemma FailureRevokes(policy: Policy, node: NodeSnapshot, assessment: Result<string, Failure>)
    requires assessment.Err? && PlanFailure(policy, node, assessment.error.reason, assessment.error.instanceId).Revoke?
    ensures BoundedToken(node.resourceVersion) && |node.labels| <= MAX_NODE_LABELS
  {
  }

  /** The same for the two failures the controller plans without calling the kernel. */
  lemma FailureFixpoint(policy: Policy, node: NodeSnapshot, reason: DenyReason, instanceId: Option<string>,
                        version: string)
    requires PlanFailure(policy, node, reason, instanceId).Revoke?
    ensures PlanFailure(policy, AfterRevoke(policy, node, version), reason, instanceId) == Deny(reason)
  {
  }
}
