// packages/k8s-baseline/src/trusted-node-label-controller.ts: how often the
// controller changes a Node when its evidence stays the same and nobody else
// writes.
module NodeFixpoint {
  import opened Wrappers
  import opened Json
  import opened TrustedNodeLabel
  import opened LabelFixpoint
  import opened NodeDocument
  import opened LabelAgreement
  import opened NodeProtocol
  import opened NodeController

  /** What the controller is told about the cloud, the same in every cycle. */
  datatype Cloud = Cloud(
    now: Number, nodeGroup: NodeGroup, groups: seq<AutoScalingGroup>, instances: map<string, Ec2Instance>)

  /** How the controller judges a Node on it. */
  function CauseOf(policy: Policy, cloud: Cloud, node: NodeSnapshot): Cause {
    match ParseProviderId(node.providerId)
    case None => Failed(node, ProviderIdMalformed, None)
    case Some((_, id)) =>
      if id in cloud.instances then
        Evidence(Input(cloud.now, policy, node, cloud.nodeGroup, cloud.groups, cloud.instances[id]))
      else Failed(node, EvidenceUnavailable, Some(id))
  }

  predicate CallsForChange(policy: Policy, cloud: Cloud, node: NodeSnapshot) {
    var d := DecisionOf(policy, CauseOf(policy, cloud, node));
    d.Patch? || d.Revoke?
  }

  /** The controller's own steps, each for the decision this evidence leads to; nobody else writes. */
  predicate ByCloud(policy: Policy, cloud: Cloud, step: Step) {
    match step
    case Idle => true
    case AddStep(input, _, _) => CauseOf(policy, cloud, input.node) == Evidence(input)
    case RevokeStep(node, reason, instanceId, _, _) =>
      && DecisionOf(policy, CauseOf(policy, cloud, node)).Revoke?
      && ReasonOf(policy, CauseOf(policy, cloud, node)) == (reason, instanceId)
    case _ => false
  }

  /** A run from any state in which only the controller changes Nodes. */
  ghost predicate QuietRun(ctx: Context, cloud: Cloud, states: seq<State>, steps: seq<Step>) {
    && ValidContext(ctx) && |states| == |steps| + 1 && Coherent(states[0])
    && forall i | 0 <= i < |steps| ::
         Next(ctx, states[i], states[i + 1], steps[i]) && ByCloud(ctx.policy, cloud, steps[i])
  }

  predicate ChangesNode(step: Step) { step.AddStep? || step.RevokeStep? }

  function NodeOfStep(step: Step): NodeSnapshot
    requires ChangesNode(step)
  {
    match step
    case AddStep(input, _, _) => input.node
    case RevokeStep(node, _, _, _, _) => node
  }

  /** The stored Node cannot be read, or nothing is to be done about it. */
  predicate Settled(ctx: Context, cloud: Cloud, s: State, name: string) {
    && name in s.store
    && (ParseNode(s.store[name]).Some? ==> !CallsForChange(ctx.policy, cloud, ParseNode(s.store[name]).value))
  }

  // ----- one step settles its Node

  lemma UnboundedVersion(policy: Policy, cloud: Cloud, node: NodeSnapshot)
    requires !BoundedToken(node.resourceVersion)
    ensures !CallsForChange(policy, cloud, node)
  {
    hide IsBoundedIdentifier, IsValidProtectedLabelKey, IsLabelText, AttestationFailure, ParseProviderId;
  }

  lemma AddSettles(policy: Policy, cloud: Cloud, input: Input, version: string)
    requires CauseOf(policy, cloud, input.node) == Evidence(input) && PlanTrustedNodeLabel(input).Patch?
    ensures !CallsForChange(policy, cloud, AfterAdd(policy, input.node, version))
  {
    var next := AfterAdd(policy, input.node, version);
    if BoundedToken(version) {
      hide PlanTrustedNodeLabel, ParseProviderId;
      AddFixpoint(input, version);
      assert CauseOf(policy, cloud, next) == Evidence(input.(node := next));
    } else {
      hide PlanTrustedNodeLabel, CallsForChange, CauseOf;
      UnboundedVersion(policy, cloud, next);
    }
  }

  lemma RevokeSettles(policy: Policy, cloud: Cloud, node: NodeSnapshot, version: string)
    requires DecisionOf(policy, CauseOf(policy, cloud, node)).Revoke?
    ensures !CallsForChange(policy, cloud, AfterRevoke(policy, node, version))
  {
    var next := AfterRevoke(policy, node, version);
    var cause := CauseOf(policy, cloud, node);
    if BoundedToken(version) {
      hide PlanTrustedNodeLabel, PlanFailure, ParseProviderId;
      match cause
      case Evidence(input) =>
        RevokeFixpoint(input, version);
        assert CauseOf(policy, cloud, next) == Evidence(input.(node := next));
      case Failed(_, reason, instanceId) =>
        FailureFixpoint(policy, node, reason, instanceId, version);
        assert CauseOf(policy, cloud, next) == Failed(next, reason, instanceId);
    } else {
      hide PlanTrustedNodeLabel, PlanFailure, CallsForChange, CauseOf;
      UnboundedVersion(policy, cloud, next);
    }
  }

  /** A step of the controller changes one Node, which called for it and then no longer calls for anything. */
  lemma StepSettles(ctx: Context, cloud: Cloud, s: State, s': State, step: Step)
    requires ValidContext(ctx) && Coherent(s) && Next(ctx, s, s', step)
    requires ByCloud(ctx.policy, cloud, step) && ChangesNode(step)
    ensures !Settled(ctx, cloud, s, NodeOfStep(step).name) && Settled(ctx, cloud, s', NodeOfStep(step).name)
    ensures s'.store.Keys == s.store.Keys
    ensures forall n | n in s.store && n != NodeOfStep(step).name :: s'.store[n] == s.store[n]
  {
    match step
    case AddStep(input, version, _) =>
      AddFacts(ctx, s, s', input, version);
      AddedIsSettled(ctx, cloud, s, s', input, version);
    case RevokeStep(node, reason, instanceId, stored, version) =>
      RevokeFacts(ctx, s, s', node, reason, instanceId, stored, version);
      RevokedIsSettled(ctx, cloud, s, s', node, stored, version);
  }

  lemma WriteSettles(ctx: Context, cloud: Cloud, s: State, s': State, node: NodeSnapshot, stored: Json,
                     version: string)
    requires node.name in s.store && ParseNode(s.store[node.name]) == Some(node)
    requires CallsForChange(ctx.policy, cloud, node)
    requires IsNodeObject(stored) && s' == Write(s, node.name, stored, version)
    requires ParseNode(WithVersion(stored, version)).Some? ==>
               !CallsForChange(ctx.policy, cloud, ParseNode(WithVersion(stored, version)).value)
    ensures !Settled(ctx, cloud, s, node.name) && Settled(ctx, cloud, s', node.name)
    ensures s'.store.Keys == s.store.Keys
    ensures forall n | n in s.store && n != node.name :: s'.store[n] == s.store[n]
  {
    hide ParseNode, CallsForChange, WithVersion, IsNodeObject;
  }

  lemma AddedIsSettled(ctx: Context, cloud: Cloud, s: State, s': State, input: Input, version: string)
    requires ValidContext(ctx) && CauseOf(ctx.policy, cloud, input.node) == Evidence(input)
    requires PlanTrustedNodeLabel(input).Patch? && input.node.name in s.store
    requires IsNodeObject(s.store[input.node.name]) && ParseNode(s.store[input.node.name]) == Some(input.node)
    requires ctx.rule.labelKey !in LabelsOf(s.store[input.node.name])
    requires IsNodeObject(WithLabel(s.store[input.node.name], ctx.rule.labelKey, ctx.rule.labelValue))
    requires s' == Write(s, input.node.name,
                         WithLabel(s.store[input.node.name], ctx.rule.labelKey, ctx.rule.labelValue),
                         version)
    ensures !Settled(ctx, cloud, s, input.node.name) && Settled(ctx, cloud, s', input.node.name)
    ensures s'.store.Keys == s.store.Keys
    ensures forall n | n in s.store && n != input.node.name :: s'.store[n] == s.store[n]
  {
    assert ctx.rule.labelKey == ctx.policy.protectedLabelKey && ctx.rule.labelValue == ctx.policy.protectedLabelValue;
    assert CallsForChange(ctx.policy, cloud, input.node);
    hide *;
    var doc := s.store[input.node.name];
    LabelsRead(doc, input.node);
    AddSettles(ctx.policy, cloud, input, version);
    AddReadBack(ctx.policy, input.node, doc, version);
    WriteSettles(ctx, cloud, s, s', input.node, WithLabel(doc, ctx.rule.labelKey, ctx.rule.labelValue), version);
  }

  lemma LabelsRead(doc: Json, node: NodeSnapshot)
    requires ParseNode(doc) == Some(node)
    ensures IsNodeObject(doc) && LabelsOf(doc).Keys == node.labels.Keys
  {
    ParsedNode(doc, node);
  }

  lemma RevokedIsSettled(ctx: Context, cloud: Cloud, s: State, s': State, node: NodeSnapshot, stored: Json,
                         version: string)
    requires ValidContext(ctx) && DecisionOf(ctx.policy, CauseOf(ctx.policy, cloud, node)).Revoke?
    requires node.name in s.store && IsNodeObject(s.store[node.name]) && ParseNode(s.store[node.name]) == Some(node)
    requires ctx.rule.labelKey in LabelsOf(s.store[node.name])
    requires IsNodeObject(WithoutLabel(s.store[node.name], ctx.rule.labelKey))
    requires SameUpToEmptyLabels(WithoutLabel(s.store[node.name], ctx.rule.labelKey), stored)
    requires IsNodeObject(stored) && s' == Write(s, node.name, stored, version)
    ensures !Settled(ctx, cloud, s, node.name) && Settled(ctx, cloud, s', node.name)
    ensures s'.store.Keys == s.store.Keys
    ensures forall n | n in s.store && n != node.name :: s'.store[n] == s.store[n]
  {
    assert ctx.rule.labelKey == ctx.policy.protectedLabelKey;
    assert CallsForChange(ctx.policy, cloud, node);
    hide *;
    var doc := s.store[node.name];
    LabelsRead(doc, node);
    RevokeSettles(ctx.policy, cloud, node, version);
    RevokeReadBack(ctx.policy, node, doc, stored, version);
    WriteSettles(ctx, cloud, s, s', node, stored, version);
  }

  // ----- over a run

  lemma QuietNext(ctx: Context, cloud: Cloud, states: seq<State>, steps: seq<Step>, i: nat)
    requires QuietRun(ctx, cloud, states, steps) && i < |steps|
    ensures ValidContext(ctx) && |states| == |steps| + 1 && Coherent(states[0])
    ensures Next(ctx, states[i], states[i + 1], steps[i]) && ByCloud(ctx.policy, cloud, steps[i])
  {
    hide Next, Coherent, ByCloud, ValidContext;
  }

  lemma {:induction false} QuietCoherent(ctx: Context, cloud: Cloud, states: seq<State>, steps: seq<Step>, i: nat)
    requires QuietRun(ctx, cloud, states, steps) && i <= |steps|
    ensures |states| == |steps| + 1 && Coherent(states[i])
  {
    hide Next, Coherent, ByCloud, ValidContext;
    if i > 0 {
      QuietCoherent(ctx, cloud, states, steps, i - 1);
      QuietNext(ctx, cloud, states, steps, i - 1);
      StepCoherent(ctx, states[i - 1], states[i], steps[i - 1]);
    }
  }

  lemma StepKeepsSettled(ctx: Context, cloud: Cloud, s: State, s': State, step: Step, name: string)
    requires ValidContext(ctx) && Coherent(s) && Next(ctx, s, s', step) && ByCloud(ctx.policy, cloud, step)
    requires Settled(ctx, cloud, s, name)
    ensures Settled(ctx, cloud, s', name)
  {
    if ChangesNode(step) {
      hide Next, Coherent, ByCloud, ParseNode, CallsForChange, ValidContext;
      StepSettles(ctx, cloud, s, s', step);
    } else {
      QuietStep(ctx, cloud, s, s', step);
    }
  }

  lemma QuietStep(ctx: Context, cloud: Cloud, s: State, s': State, step: Step)
    requires Next(ctx, s, s', step) && ByCloud(ctx.policy, cloud, step) && !ChangesNode(step)
    ensures s' == s
  {
    hide CauseOf, DecisionOf, AddNext, RevokeNext, ParseNode;
  }

  lemma {:induction false} StaysSettled(ctx: Context, cloud: Cloud, states: seq<State>, steps: seq<Step>, name: string,
                                        i: nat, j: nat)
    requires QuietRun(ctx, cloud, states, steps) && i <= j <= |steps| == |states| - 1
    requires Settled(ctx, cloud, states[i], name)
    ensures Settled(ctx, cloud, states[j], name)
  {
    hide *;
    if i < j {
      StaysSettled(ctx, cloud, states, steps, name, i, j - 1);
      QuietCoherent(ctx, cloud, states, steps, j - 1);
      QuietNext(ctx, cloud, states, steps, j - 1);
      StepKeepsSettled(ctx, cloud, states[j - 1], states[j], steps[j - 1], name);
    }
  }

  /**
   * As long as the evidence stays the same and nobody else writes, the controller changes each Node at most once, in
   * any number of cycles and from any state.
   */
  lemma AtMostOneChange(ctx: Context, cloud: Cloud, states: seq<State>, steps: seq<Step>, i: nat, j: nat)
    requires QuietRun(ctx, cloud, states, steps) && i < j < |steps|
    requires ChangesNode(steps[i]) && ChangesNode(steps[j])
    ensures NodeOfStep(steps[i]).name != NodeOfStep(steps[j]).name
  {
    hide *;
    QuietCoherent(ctx, cloud, states, steps, i);
    QuietCoherent(ctx, cloud, states, steps, j);
    QuietNext(ctx, cloud, states, steps, i);
    QuietNext(ctx, cloud, states, steps, j);
    StepSettles(ctx, cloud, states[i], states[i + 1], steps[i]);
    StepSettles(ctx, cloud, states[j], states[j + 1], steps[j]);
    if NodeOfStep(steps[i]).name == NodeOfStep(steps[j]).name {
      StaysSettled(ctx, cloud, states, steps, NodeOfStep(steps[i]).name, i + 1, j);
    }
  }
}
