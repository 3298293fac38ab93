// The age of the evidence when an addition takes effect. The kernel checks it
// when it plans; neither the re-check, nor the patch, nor the admission rule
// looks at a clock again.
module EvidenceAge {
  import opened Wrappers
  import opened Json
  import opened JsonPatch
  import opened TrustedNodeLabel
  import opened Attestation
  import opened Attestable
  import opened NodeDocument
  import opened LabelAgreement
  import opened NodeProtocol
  import opened NodeController

  /** No piece of the evidence is older than the policy allows, or of the future, at that time. */
  ghost predicate CurrentAt(input: Input, at: int)
    requires input.policy.maxEvidenceAgeMs.Int?
  {
    forall t | IsPieceTime(input, t) :: t.Int? && 0 <= at - t.n <= input.policy.maxEvidenceAgeMs.n
  }

  /** The capture time of the oldest piece of evidence. */
  ghost predicate IsOldest(input: Input, oldest: Number) {
    IsPieceTime(input, oldest) && forall t | IsPieceTime(input, t) :: t.Int? && oldest.Int? && oldest.n <= t.n
  }

  /** A planned addition was made on evidence that was fresh when it was planned. */
  lemma PlannedOnFreshEvidence(input: Input)
    requires PlanTrustedNodeLabel(input).Patch?
    ensures input.now.Int? && input.policy.maxEvidenceAgeMs.Int? && input.policy.maxEvidenceSkewMs.Int?
    ensures Fresh(input) && CurrentAt(input, input.now.n)
  {
    DecisionTable(input);
    hide PlanTrustedNodeLabel, NodeWellFormed, SnapshotsWellFormed, GroupsMatch, HealthyMember, InstanceMatches,
         CarriesOnce;
    hide IsZone, IsInstanceId, IsPieceTime;
    var zone, instanceId :| Attested(input, zone, instanceId);
  }

  /**
   * The evidence of a planned addition is still current when the addition is applied exactly when the delay is no
   * longer than what was left of the allowed age of the oldest piece when the plan was made.
   */
  lemma CurrentAtApplicationIff(input: Input, at: int) returns (oldest: Number)
    requires PlanTrustedNodeLabel(input).Patch? && PlannedBefore(input, at)
    ensures input.policy.maxEvidenceAgeMs.Int? && IsOldest(input, oldest) && oldest.Int?
    ensures CurrentAt(input, at) <==>
            at - input.now.n <= input.policy.maxEvidenceAgeMs.n - (input.now.n - oldest.n)
  {
    PlannedOnFreshEvidence(input);
    TimestampsArePieces(input);
    hide PlanTrustedNodeLabel, IsPieceTime, Timestamps;
    var ts := TimesOf(input);
    forall i | 0 <= i < |ts| ensures IsPieceTime(input, ts[i]) {
      assert ts[i] in ts;
    }
    var l, e := ExtremesOf(ts);
    oldest := ts[e];
  }

  // ----- the protocol applies it at any time

  /** One Node, as it was read. */
  function Before(node: NodeSnapshot): State {
    State(map[node.name := PrintNode(node)], map[node.resourceVersion := PrintNode(node)])
  }

  lemma BeforeIsInitial(ctx: Context, node: NodeSnapshot)
    requires IsNodeName(node.name) && |node.labels| <= 256 && |node.taints| <= 64 && ctx.rule.labelKey !in node.labels
    ensures Init(ctx, Before(node)) && ReadEarlier(Before(node), node)
    ensures ParseNode(Before(node).store[node.name]) == Some(node)
  {
    PrintedNode(node);
    ParsedNode(PrintNode(node), node);
    hide ParseNode, PrintNode, IsNodeObject, NameOf, UidOf, Version, LabelsOf, IdentityMatches, IsNodeName;
  }

  lemma ServerAccepts(ctx: Context, s: State, name: string, patch: seq<PatchOp>, stored: Json, version: string)
    requires name in s.store && IsNodeObject(s.store[name]) && ApplyPatch(s.store[name], patch) == Some(stored)
    requires IsNodeObject(stored) && UpdateAllowed(ctx.rule, ctx.controller, s.store[name], stored)
             && version !in s.issued
    ensures Accepts(ctx, s, name, patch, stored, version)
  {
    hide IsNodeObject, ApplyPatch, UpdateAllowed;
  }

  /** A planned addition to a Node that has not changed is accepted by everyone, whenever it arrives. */
  lemma PlannedAdditionIsAccepted(ctx: Context, s: State, input: Input, version: string)
    requires ValidContext(ctx) && input.policy == ctx.policy && PlanTrustedNodeLabel(input).Patch?
    requires |input.node.providerId| <= 256 && version !in s.issued
    requires input.node.name in s.store && ParseNode(s.store[input.node.name]) == Some(input.node)
    ensures IsNodeObject(s.store[input.node.name])
    ensures var stored := WithLabel(s.store[input.node.name], ctx.rule.labelKey, ctx.rule.labelValue);
            && IsExactPatch(PlanTrustedNodeLabel(input).patch, ctx.rule.labelKey, ctx.rule.labelValue)
            && IsNodeObject(stored)
            && Accepts(ctx, s, input.node.name, PlanTrustedNodeLabel(input).patch, stored, version)
  {
    var doc := s.store[input.node.name];
    PlannedAddShape(input);
    ParsedNode(doc, input.node);
    AddedStrings(LabelsOf(doc), input.node.labels, ctx.rule.labelKey, ctx.rule.labelValue);
    ReplacedLabels(doc, LabelsOf(doc)[ctx.rule.labelKey := Str(ctx.rule.labelValue)]);
    AddAgreement(ctx.rule, ctx.controller, input, doc);
    var stored := WithLabel(doc, ctx.rule.labelKey, ctx.rule.labelValue);
    assert IsNodeObject(stored);
    hide PlanTrustedNodeLabel, ParseNode, IsExactPatch, UpdateAllowed, IsNodeObject, WithLabel, ApplyPatch, Accepts,
         LabelsOf;
    ServerAccepts(ctx, s, input.node.name, PlanTrustedNodeLabel(input).patch, stored, version);
  }

  /** The witness of a policy, as a Node the adapter can read and the controller plans to label. */
  lemma ReadableWitness(p: Policy) returns (input: Input)
    requires PolicyWellFormed(p) && !SomeTaintKeyTwice(p.expectedTaints) && |p.region| + 19 <= 256
    ensures input.policy == p && input.now == Int(0) && PlanTrustedNodeLabel(input).Patch?
    ensures forall t | IsPieceTime(input, t) :: t == Int(0)
    ensures IsNodeName(input.node.name) && |input.node.labels| <= 256 && |input.node.taints| <= 64
    ensures |input.node.providerId| <= 256 && input.node.resourceVersion == "1"
            && p.protectedLabelKey !in input.node.labels
  {
    RegionOf(p);
    var labels := BasicLabels(p);
    TwoBasicLabels(p);
    SlashKeys(p);
    ProviderIdLength(p);
    assert p.protectedLabelKey !in labels;
    input := Witness(p, labels, 0);
    WitnessFresh(p, labels, 0);
    WitnessReadable(p, labels);
    hide PolicyWellFormed, SomeTaintKeyTwice, PlanTrustedNodeLabel, IsNodeName, BasicLabels, HasBasicLabels;
    PlannedWitness(p, labels, 0);
  }

  lemma WitnessReadable(p: Policy, labels: map<string, string>)
    requires PolicyWellFormed(p)
    ensures IsNodeName(WitnessNode(p, labels).name) && |WitnessNode(p, labels).taints| <= 64
  {
    InstanceText();
  }

  lemma AdditionIsStep(ctx: Context, s: State, input: Input, version: string, at: int) returns (s': State)
    requires ValidContext(ctx) && input.policy == ctx.policy && PlanTrustedNodeLabel(input).Patch?
    requires |input.node.providerId| <= 256 && version !in s.issued && PlannedBefore(input, at)
    requires ReadEarlier(s, input.node)
    requires input.node.name in s.store && ParseNode(s.store[input.node.name]) == Some(input.node)
    ensures Next(ctx, s, s', AddStep(input, version, at))
  {
    PlannedAdditionIsAccepted(ctx, s, input, version);
    hide Next, PlanTrustedNodeLabel, ParseNode, IsExactPatch, Accepts, IsNodeObject, WithLabel, ReadEarlier;
    var stored := WithLabel(s.store[input.node.name], ctx.rule.labelKey, ctx.rule.labelValue);
    AddIsStep(ctx, s, input, stored, version, at);
    s' := Write(s, input.node.name, stored, version);
  }

  /**
   * In every deployment whose policy can trust a Node at all there is a run in which an addition takes effect any
   * given time after the evidence for it was captured.
   */
  lemma AnyDelayIsPossible(ctx: Context, delay: nat) returns (states: seq<State>, input: Input, version: string)
    requires ValidContext(ctx) && PolicyWellFormed(ctx.policy) && !SomeTaintKeyTwice(ctx.policy.expectedTaints)
    requires |ctx.policy.region| + 19 <= 256
    ensures Run(ctx, states, [AddStep(input, version, delay)])
    ensures PlanTrustedNodeLabel(input).Patch? && input.now == Int(0)
    ensures (forall t | IsPieceTime(input, t) :: t == Int(0)) && input.policy == ctx.policy
  {
    input := ReadableWitness(ctx.policy);
    version := "2";
    hide PolicyWellFormed, SomeTaintKeyTwice, PlanTrustedNodeLabel, IsNodeName, Next, IsPieceTime;
    BeforeIsInitial(ctx, input.node);
    var s := Before(input.node);
    assert version !in s.issued;
    hide Init, Before, ReadEarlier, ParseNode;
    var s' := AdditionIsStep(ctx, s, input, version, delay);
    states := [s, s'];
  }

  // ----- a concrete late application

  const DEPLOYMENT := Context(
    Admission(KEY, "yes", "aws:label-mutator", "node-label-mutators"), Example(Region("west"), ONE_TAINT),
    UserInfo("aws:label-mutator:1", ["node-label-mutators"]))

  lemma DeploymentIsValid()
    ensures ValidContext(DEPLOYMENT) && PolicyWellFormed(DEPLOYMENT.policy)
    ensures !SomeTaintKeyTwice(DEPLOYMENT.policy.expectedTaints) && |DEPLOYMENT.policy.region| + 19 <= 256
    ensures DEPLOYMENT.policy.maxEvidenceAgeMs == Int(60000)
  {
    LettersOfWest();
    RegionText("west");
    ExampleWellFormed(Region("west"), ONE_TAINT);
    ControllerName();
    hide PolicyWellFormed, IsRegion, AllLower;
  }

  lemma LettersOfWest()
    ensures AllLower("west") && |Region("west")| == 9
  {
  }

  lemma ControllerName()
    ensures ControllerIdentity(DEPLOYMENT.rule, DEPLOYMENT.controller)
  {
    assert "aws:label-mutator" <= "aws:label-mutator:1";
  }

  /** An addition on evidence that the policy allows for a minute, applied a millisecond after that minute. */
  lemma StaleEvidenceIsApplied() returns (states: seq<State>, input: Input, version: string)
    ensures Run(DEPLOYMENT, states, [AddStep(input, version, 60001)])
    ensures input.policy.maxEvidenceAgeMs == Int(60000) && CurrentAt(input, 60000) && !CurrentAt(input, 60001)
  {
    DeploymentIsValid();
    hide ValidContext, PolicyWellFormed, SomeTaintKeyTwice, Run, PlanTrustedNodeLabel;
    states, input, version := AnyDelayIsPossible(DEPLOYMENT, 60001);
    assert IsPieceTime(input, input.nodeGroup.capturedAt);
  }
}
