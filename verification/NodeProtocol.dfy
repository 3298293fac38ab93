// The trusted-node-label protocol as a state machine: an API server that stamps
// every write with a fresh resourceVersion, arbitrary other writers held only by
// the admission rule, and a controller that may act on reads of any age.
// packages/k8s-baseline/src/trusted-node-label-controller.ts and
// packages/k8s-baseline/src/trusted-node-label-reconciler.ts.
module NodeProtocol {
  import opened Wrappers
  import opened Json
  import opened JsonPatch
  import opened TrustedNodeLabel
  import opened Attestation
  import opened NodeDocument
  import opened LabelAgreement

  /** The configuration of one deployment; `controller` is the identity that patches. */
  datatype Context = Context(rule: Admission, policy: Policy, controller: UserInfo)

  ghost predicate ValidContext(ctx: Context) {
    SameLabel(ctx.rule, ctx.policy) && ControllerIdentity(ctx.rule, ctx.controller)
  }

  /** `store` holds the Nodes by name; `issued` remembers which document every version ever issued stands for. */
  datatype State = State(store: map<string, Json>, issued: map<string, Json>)

  ghost predicate Coherent(s: State) {
    && (forall v | v in s.issued :: IsNodeObject(s.issued[v]) && Version(s.issued[v]) == v)
    && (forall n | n in s.store ::
          && IsNodeObject(s.store[n]) && NameOf(s.store[n]) == n
          && Version(s.store[n]) in s.issued && s.issued[Version(s.store[n])] == s.store[n])
  }

  /** Storing `doc` under a new version. */
  function Write(s: State, name: string, doc: Json, version: string): State
    requires IsNodeObject(doc)
  {
    State(s.store[name := WithVersion(doc, version)], s.issued[version := WithVersion(doc, version)])
  }

  /** `at` is when an addition is applied, on the clock the controller planned with. */
  datatype Step =
    | Idle
    | CreateStep(name: string, doc: Json, version: string)
    | UpdateStep(user: UserInfo, name: string, doc: Json, version: string)
    | DeleteStep(name: string)
    | AddStep(input: Input, version: string, at: int)
    | RevokeStep(node: NodeSnapshot, reason: DenyReason, instanceId: Option<string>, stored: Json, version: string)

  /** The controller has read this snapshot at some time, however long ago. */
  predicate ReadEarlier(s: State, node: NodeSnapshot) {
    node.resourceVersion in s.issued && ParseNode(s.issued[node.resourceVersion]) == Some(node)
  }

  /** An atomic patch request: gate, RFC 6902, admission of the form to be stored, then a stamped write. */
  predicate PatchRequest(ctx: Context, s: State, s': State, name: string, patch: seq<PatchOp>, stored: Json,
                         version: string)
  {
    && IsExactPatch(patch, ctx.rule.labelKey, ctx.rule.labelValue)
    && name in s.store
    && ApplyPatch(s.store[name], patch).Some?
    && var doc := ApplyPatch(s.store[name], patch).value;
    && IsNodeObject(doc) && SameUpToEmptyLabels(doc, stored)
    && IsNodeObject(stored) && UpdateAllowed(ctx.rule, ctx.controller, s.store[name], stored)
    && version !in s.issued
    && s' == Write(s, name, stored, version)
  }

  /** What the API server and the admission rule let any other writer do; `Idle` stands for reads. */
  predicate OthersMay(ctx: Context, s: State, step: Step) {
    match step
    case Idle => true
    case CreateStep(name, doc, version) =>
      && name !in s.store && IsNodeObject(doc) && NameOf(doc) == name && version !in s.issued
      && CreateAllowed(ctx.rule, doc)
    case UpdateStep(user, name, doc, version) =>
      && !ControllerIdentity(ctx.rule, user)
      && name in s.store && IsNodeObject(s.store[name])
      && IsNodeObject(doc) && NameOf(doc) == name && UidOf(doc) == UidOf(s.store[name]) && version !in s.issued
      && UpdateAllowed(ctx.rule, user, s.store[name], doc)
    case DeleteStep(_) => true
    case _ => false
  }

  function OthersDo(ctx: Context, s: State, step: Step): State
    requires OthersMay(ctx, s, step)
  {
    match step
    case Idle => s
    case CreateStep(name, doc, version) => Write(s, name, doc, version)
    case UpdateStep(_, name, doc, version) => Write(s, name, doc, version)
    case DeleteStep(name) => s.(store := s.store - {name})
  }

  predicate Next(ctx: Context, s: State, s': State, step: Step) {
    match step
    case AddStep(input, version, at) => AddNext(ctx, s, s', input, version) && PlannedBefore(input, at)
    case RevokeStep(node, reason, instanceId, stored, version) =>
      RevokeNext(ctx, s, s', node, reason, instanceId, stored, version)
    case _ => OthersMay(ctx, s, step) && s' == OthersDo(ctx, s, step)
  }

  /** An addition is applied no earlier than it was planned. Nothing else about that time is checked. */
  predicate PlannedBefore(input: Input, at: int) { input.now.Int? && input.now.n <= at }

  predicate AddNext(ctx: Context, s: State, s': State, input: Input, version: string) {
    && input.policy == ctx.policy && ReadEarlier(s, input.node)
    && PlanTrustedNodeLabel(input).Patch?
    && var d := PlanTrustedNodeLabel(input);
    && d.plan.nodeName in s.store && IsNodeObject(s.store[d.plan.nodeName])
    && PatchRequest(ctx, s, s', d.plan.nodeName, d.patch,
                    WithLabel(s.store[d.plan.nodeName], ctx.rule.labelKey, ctx.rule.labelValue), version)
  }

  predicate RevokeNext(ctx: Context, s: State, s': State, node: NodeSnapshot, reason: DenyReason,
                             instanceId: Option<string>, stored: Json, version: string) {
    && ReadEarlier(s, node)
    && PlanFailure(ctx.policy, node, reason, instanceId).Revoke?
    && var d := PlanFailure(ctx.policy, node, reason, instanceId);
    && PatchRequest(ctx, s, s', d.plan.nodeName, d.patch, stored, version)
  }

  ghost predicate Trusted(ctx: Context, s: State, name: string) {
    name in s.store && HasKey(s.store[name], ctx.rule.labelKey)
  }

  ghost predicate Init(ctx: Context, s: State) {
    Coherent(s) && forall name :: !Trusted(ctx, s, name)
  }

  /** A run of any length, with the controller's steps and other writers' steps in any order. */
  ghost predicate Run(ctx: Context, states: seq<State>, steps: seq<Step>) {
    && ValidContext(ctx)
    && |states| == |steps| + 1
    && Init(ctx, states[0])
    && forall i | 0 <= i < |steps| :: Next(ctx, states[i], states[i + 1], steps[i])
  }

  // ----- one step

  lemma WriteCoherent(s: State, name: string, doc: Json, version: string)
    requires Coherent(s) && IsNodeObject(doc) && NameOf(doc) == name && version !in s.issued
    ensures Coherent(Write(s, name, doc, version))
  {
    Stamped(doc, version);
  }

  /** A Node that matches a planned identity is, version by version, the very Node that was read. */
  lemma MatchedNodeIsTheReadNode(s: State, name: string, node: NodeSnapshot)
    requires Coherent(s) && name in s.store && ReadEarlier(s, node) && IdentityMatches(s.store[name], node)
    ensures ParseNode(s.store[name]) == Some(node)
  {
    assert Version(s.store[name]) == node.resourceVersion;
  }

  /** The write replaced exactly the Node that was read as `node`, kept its uid, and touched no other Node. */
  ghost predicate Hit(s: State, s': State, node: NodeSnapshot) {
    && node.name in s.store && ParseNode(s.store[node.name]) == Some(node)
    && node.name in s'.store && s'.store == s.store[node.name := s'.store[node.name]]
    && IsNodeObject(s.store[node.name]) && IsNodeObject(s'.store[node.name])
    && UidOf(s'.store[node.name]) == UidOf(s.store[node.name])
  }

  lemma WriteHits(s: State, s': State, node: NodeSnapshot, stored: Json, version: string)
    requires node.name in s.store && ParseNode(s.store[node.name]) == Some(node)
    requires IsNodeObject(s.store[node.name]) && IsNodeObject(stored) && UidOf(stored) == UidOf(s.store[node.name])
    requires s' == Write(s, node.name, stored, version)
    ensures Hit(s, s', node) && LabelsOf(s'.store[node.name]) == LabelsOf(stored)
  {
    Stamped(stored, version);
  }

  lemma AddFacts(ctx: Context, s: State, s': State, input: Input, version: string)
    requires ValidContext(ctx) && Coherent(s) && AddNext(ctx, s, s', input, version)
    ensures input.node.name in s.store && IsNodeObject(s.store[input.node.name])
    ensures ParseNode(s.store[input.node.name]) == Some(input.node)
    ensures ctx.rule.labelKey !in LabelsOf(s.store[input.node.name])
    ensures IsNodeObject(WithLabel(s.store[input.node.name], ctx.rule.labelKey, ctx.rule.labelValue))
    ensures version !in s.issued
    ensures s' == Write(s, input.node.name, WithLabel(s.store[input.node.name], ctx.rule.labelKey, ctx.rule.labelValue),
                        version)
  {
    PlannedAddShape(input);
    var doc := s.store[input.node.name];
    AddPatchEffect(doc, input.node, ctx.rule.labelKey, ctx.rule.labelValue);
    MatchedNodeIsTheReadNode(s, input.node.name, input.node);
    ParsedNode(doc, input.node);
  }

  /** A successful addition hits exactly the version it was planned on and adds exactly the one label. */
  lemma AddHitsPlannedVersion(ctx: Context, s: State, s': State, input: Input, version: string)
    requires ValidContext(ctx) && Coherent(s) && AddNext(ctx, s, s', input, version)
    ensures Coherent(s') && Hit(s, s', input.node)
    ensures ctx.rule.labelKey !in LabelsOf(s.store[input.node.name])
    ensures LabelsOf(s'.store[input.node.name])
            == LabelsOf(s.store[input.node.name])[ctx.rule.labelKey := Str(ctx.rule.labelValue)]
  {
    AddFacts(ctx, s, s', input, version);
    hide AddNext, ParseNode;
    var doc := s.store[input.node.name];
    ReplacedLabels(doc, LabelsOf(doc)[ctx.rule.labelKey := Str(ctx.rule.labelValue)]);
    var labelled := WithLabel(doc, ctx.rule.labelKey, ctx.rule.labelValue);
    WriteHits(s, s', input.node, labelled, version);
    WriteCoherent(s, input.node.name, labelled, version);
  }

  lemma RevokeFacts(ctx: Context, s: State, s': State, node: NodeSnapshot, reason: DenyReason,
                    instanceId: Option<string>, stored: Json, version: string)
    requires ValidContext(ctx) && Coherent(s) && RevokeNext(ctx, s, s', node, reason, instanceId, stored, version)
    ensures node.name in s.store && IsNodeObject(s.store[node.name]) && ParseNode(s.store[node.name]) == Some(node)
    ensures ctx.rule.labelKey in LabelsOf(s.store[node.name])
    ensures IsNodeObject(WithoutLabel(s.store[node.name], ctx.rule.labelKey))
    ensures SameUpToEmptyLabels(WithoutLabel(s.store[node.name], ctx.rule.labelKey), stored)
    ensures IsNodeObject(stored) && version !in s.issued && s' == Write(s, node.name, stored, version)
  {
    PlannedRevokeShape(ctx.policy, node, reason, instanceId);
    RemovePatchEffect(s.store[node.name], node, ctx.rule.labelKey, ctx.rule.labelValue);
    MatchedNodeIsTheReadNode(s, node.name, node);
  }

  /** A successful revocation hits exactly the version it was planned on and removes exactly the one label. */
  lemma RevokeHitsPlannedVersion(ctx: Context, s: State, s': State, node: NodeSnapshot, reason: DenyReason,
                                 instanceId: Option<string>, stored: Json, version: string)
    requires ValidContext(ctx) && Coherent(s) && RevokeNext(ctx, s, s', node, reason, instanceId, stored, version)
    ensures Coherent(s') && Hit(s, s', node)
    ensures ctx.rule.labelKey in LabelsOf(s.store[node.name])
    ensures LabelsOf(s'.store[node.name]) == LabelsOf(s.store[node.name]) - {ctx.rule.labelKey}
  {
    RevokeFacts(ctx, s, s', node, reason, instanceId, stored, version);
    var doc := s.store[node.name];
    ReplacedLabels(doc, LabelsOf(doc) - {ctx.rule.labelKey});
    DroppedLabels(WithoutLabel(doc, ctx.rule.labelKey), stored);
    WriteHits(s, s', node, stored, version);
    WriteCoherent(s, node.name, stored, version);
  }

  lemma StepCoherent(ctx: Context, s: State, s': State, step: Step)
    requires ValidContext(ctx) && Coherent(s) && Next(ctx, s, s', step)
    ensures Coherent(s')
  {
    match step
    case CreateStep(name, doc, version) => WriteCoherent(s, name, doc, version);
    case UpdateStep(user, name, doc, version) => WriteCoherent(s, name, doc, version);
    case AddStep(input, version, _) => AddHitsPlannedVersion(ctx, s, s', input, version);
    case RevokeStep(node, reason, instanceId, stored, version) =>
      RevokeHitsPlannedVersion(ctx, s, s', node, reason, instanceId, stored, version);
    case Idle =>
    case DeleteStep(_) =>
  }

  /** Between two states the Node kept its identity and its protected label. */
  ghost predicate KeptLabel(ctx: Context, s: State, s': State, name: string)
    requires Coherent(s) && Coherent(s')
  {
    && name in s.store && name in s'.store
    && UidOf(s'.store[name]) == UidOf(s.store[name])
    && HasKey(s.store[name], ctx.rule.labelKey) && HasKey(s'.store[name], ctx.rule.labelKey)
    && LabelsOf(s'.store[name])[ctx.rule.labelKey] == LabelsOf(s.store[name])[ctx.rule.labelKey]
  }

  /** The step labelled the Node, on the strength of an attestation of exactly its current state. */
  ghost predicate LabelledBy(ctx: Context, s: State, s': State, step: Step, name: string) {
    && step.AddStep? && step.input.policy == ctx.policy && step.input.node.name == name
    && SomehowAttested(step.input)
    && Hit(s, s', step.input.node)
    && LabelsOf(s'.store[name]) == LabelsOf(s.store[name])[ctx.rule.labelKey := Str(ctx.rule.labelValue)]
  }

  /** A Node carries the label after a step only if it kept it or an attesting addition has just put it there. */
  lemma LabelStep(ctx: Context, s: State, s': State, step: Step, name: string)
    requires ValidContext(ctx) && Coherent(s) && Coherent(s') && Next(ctx, s, s', step) && Trusted(ctx, s', name)
    ensures KeptLabel(ctx, s, s', name) || LabelledBy(ctx, s, s', step, name)
  {
    hide PlanTrustedNodeLabel, PlanFailure, AddNext, RevokeNext, ParseNode, SomehowAttested;
    match step
    case Idle =>
    case DeleteStep(_) =>
    case CreateStep(_, doc, version) => Stamped(doc, version);
    case UpdateStep(_, _, doc, version) => Stamped(doc, version);
    case AddStep(input, version, at) => AddLabels(ctx, s, s', input, version, at, name);
    case RevokeStep(node, reason, instanceId, stored, version) =>
      RevokeHitsPlannedVersion(ctx, s, s', node, reason, instanceId, stored, version);
  }

  lemma AddLabels(ctx: Context, s: State, s': State, input: Input, version: string, at: int, name: string)
    requires ValidContext(ctx) && Coherent(s) && Coherent(s') && AddNext(ctx, s, s', input, version)
             && Trusted(ctx, s', name)
    ensures KeptLabel(ctx, s, s', name) || LabelledBy(ctx, s, s', AddStep(input, version, at), name)
  {
    AddHitsPlannedVersion(ctx, s, s', input, version);
    DecisionTable(input);
    PlannedOnThisNode(ctx, s, s', input, version);
    hide AddNext, PlanTrustedNodeLabel, ParseNode, SomehowAttested;
  }

  lemma PlannedOnThisNode(ctx: Context, s: State, s': State, input: Input, version: string)
    requires AddNext(ctx, s, s', input, version)
    ensures input.policy == ctx.policy && PlanTrustedNodeLabel(input).Patch?
  {
    hide PatchRequest, PlanTrustedNodeLabel, ReadEarlier;
  }

  // ----- whole runs

  lemma {:induction false} RunCoherent(ctx: Context, states: seq<State>, steps: seq<Step>, i: nat)
    requires Run(ctx, states, steps) && i < |states|
    ensures Coherent(states[i])
  {
    hide Next;
    if i > 0 {
      RunCoherent(ctx, states, steps, i - 1);
      StepCoherent(ctx, states[i - 1], states[i], steps[i - 1]);
    }
  }

  /** The Node is this very Node and carries the configured label. */
  ghost predicate Carries(ctx: Context, s: State, name: string, uid: string) {
    && name in s.store && IsNodeObject(s.store[name]) && UidOf(s.store[name]) == uid
    && HasKey(s.store[name], ctx.rule.labelKey)
    && LabelsOf(s.store[name])[ctx.rule.labelKey] == Str(ctx.rule.labelValue)
  }

  /** Step `j` attested and labelled the Node with this uid. */
  ghost predicate LabelledIn(ctx: Context, states: seq<State>, steps: seq<Step>, name: string, uid: string, j: nat) {
    && |states| == |steps| + 1 && j < |steps|
    && LabelledBy(ctx, states[j], states[j + 1], steps[j], name)
    && steps[j].input.node.uid == uid
  }

  /** In every state after `j` up to `i` the Node is this very Node and carries the label. */
  ghost predicate CarriesSince(ctx: Context, states: seq<State>, name: string, uid: string, j: nat, i: nat)
    requires i < |states|
  {
    forall k | j < k <= i :: Carries(ctx, states[k], name, uid)
  }

  lemma LabelledCarries(ctx: Context, s: State, s': State, step: Step, name: string)
    requires LabelledBy(ctx, s, s', step, name)
    ensures Carries(ctx, s', name, step.input.node.uid)
  {
    ParsedNode(s.store[name], step.input.node);
  }

  lemma KeptCarries(ctx: Context, s: State, s': State, name: string, uid: string)
    requires Coherent(s) && Coherent(s') && KeptLabel(ctx, s, s', name) && Carries(ctx, s, name, uid)
    ensures Carries(ctx, s', name, uid)
  {
  }

  lemma NotTrustedAtFirst(ctx: Context, s: State, name: string)
    requires Init(ctx, s)
    ensures !Trusted(ctx, s, name)
  {
  }

  /** The Node was labelled before the step, and whatever Node it was, it still is and carries what it carried. */
  ghost predicate Kept(ctx: Context, s: State, s': State, name: string) {
    Trusted(ctx, s, name) && forall uid | Carries(ctx, s, name, uid) :: Carries(ctx, s', name, uid)
  }

  ghost predicate Added(ctx: Context, s: State, s': State, step: Step, name: string) {
    LabelledBy(ctx, s, s', step, name) && Carries(ctx, s', name, step.input.node.uid)
  }

  lemma LabelOrigin(ctx: Context, s: State, s': State, step: Step, name: string)
    requires Coherent(s) && Coherent(s')
    requires KeptLabel(ctx, s, s', name) || LabelledBy(ctx, s, s', step, name)
    ensures Kept(ctx, s, s', name) || Added(ctx, s, s', step, name)
  {
    if KeptLabel(ctx, s, s', name) {
      forall uid | Carries(ctx, s, name, uid) ensures Carries(ctx, s', name, uid) {
        KeptCarries(ctx, s, s', name, uid);
      }
    } else {
      LabelledCarries(ctx, s, s', step, name);
    }
  }

  /** The label of a Node after the step is accounted for. */
  ghost predicate Accounted(ctx: Context, s: State, s': State, step: Step, name: string) {
    Trusted(ctx, s', name) ==> Kept(ctx, s, s', name) || Added(ctx, s, s', step, name)
  }

  ghost predicate AllAccounted(ctx: Context, states: seq<State>, steps: seq<Step>, name: string) {
    && |states| == |steps| + 1 && !Trusted(ctx, states[0], name)
    && forall i | 0 <= i < |steps| :: Accounted(ctx, states[i], states[i + 1], steps[i], name)
  }

  lemma AccountedInRun(ctx: Context, states: seq<State>, steps: seq<Step>, i: nat, name: string)
    requires Run(ctx, states, steps) && i < |steps|
    ensures Accounted(ctx, states[i], states[i + 1], steps[i], name)
  {
    if Trusted(ctx, states[i + 1], name) {
      RunCoherent(ctx, states, steps, i);
      RunCoherent(ctx, states, steps, i + 1);
      LabelStep(ctx, states[i], states[i + 1], steps[i], name);
      LabelOrigin(ctx, states[i], states[i + 1], steps[i], name);
    }
  }

  lemma RunAccounts(ctx: Context, states: seq<State>, steps: seq<Step>, name: string)
    requires Run(ctx, states, steps)
    ensures AllAccounted(ctx, states, steps, name)
  {
    NotTrustedAtFirst(ctx, states[0], name);
    forall i | 0 <= i < |steps| ensures Accounted(ctx, states[i], states[i + 1], steps[i], name) {
      AccountedInRun(ctx, states, steps, i, name);
    }
  }

  lemma CarriesLonger(ctx: Context, states: seq<State>, name: string, uid: string, j: nat, i: nat)
    requires j < i < |states| && Carries(ctx, states[i], name, uid)
    requires j == i - 1 || CarriesSince(ctx, states, name, uid, j, i - 1)
    ensures CarriesSince(ctx, states, name, uid, j, i)
  {
    hide Carries;
  }

  lemma StillCarries(ctx: Context, states: seq<State>, name: string, uid: string, j: nat, i: nat)
    requires j < i - 1 < |states| - 1 && Kept(ctx, states[i - 1], states[i], name)
    requires CarriesSince(ctx, states, name, uid, j, i - 1)
    ensures CarriesSince(ctx, states, name, uid, j, i)
  {
    hide Trusted;
    assert Carries(ctx, states[i - 1], name, uid);
    CarriesLonger(ctx, states, name, uid, j, i);
  }

  lemma FirstCarries(ctx: Context, states: seq<State>, steps: seq<Step>, i: nat, name: string)
    requires |states| == |steps| + 1 && i < |steps| && Added(ctx, states[i], states[i + 1], steps[i], name)
    ensures LabelledBy(ctx, states[i], states[i + 1], steps[i], name)
    ensures CarriesSince(ctx, states, name, steps[i].input.node.uid, i, i + 1)
  {
    CarriesLonger(ctx, states, name, steps[i].input.node.uid, i, i + 1);
  }

  lemma AccountFor(ctx: Context, states: seq<State>, steps: seq<Step>, i: nat, name: string)
    requires AllAccounted(ctx, states, steps, name) && i < |states| && Trusted(ctx, states[i], name)
    ensures i > 0
    ensures Kept(ctx, states[i - 1], states[i], name) || Added(ctx, states[i - 1], states[i], steps[i - 1], name)
  {
    hide Trusted, Kept, Added;
    assert i > 0;
    assert Accounted(ctx, states[i - 1], states[i], steps[i - 1], name);
  }

  lemma {:induction false} LastAddition(ctx: Context, states: seq<State>, steps: seq<Step>, i: nat, name: string)
    returns (j: nat, uid: string)
    requires AllAccounted(ctx, states, steps, name) && i < |states| && Trusted(ctx, states[i], name)
    ensures j < i && LabelledIn(ctx, states, steps, name, uid, j) && CarriesSince(ctx, states, name, uid, j, i)
  {
    hide Trusted, Carries, LabelledBy, Accounted, Added, CarriesSince;
    AccountFor(ctx, states, steps, i, name);
    if Kept(ctx, states[i - 1], states[i], name) {
      j, uid := LastAddition(ctx, states, steps, i - 1, name);
      StillCarries(ctx, states, name, uid, j, i);
    } else {
      FirstCarries(ctx, states, steps, i - 1, name);
      assert steps[i - 1].AddStep?;
      j, uid := i - 1, steps[i - 1].input.node.uid;
    }
  }

  /**
   * Over every run: a Node carries the protected label only if some earlier step of the
   * controller fully attested that Node in exactly the state it then labelled, and the same
   * Node has carried the configured label ever since.
   */
  lemma LabelsComeFromAttestation(ctx: Context, states: seq<State>, steps: seq<Step>, i: nat, name: string)
    returns (j: nat, uid: string)
    requires Run(ctx, states, steps) && i < |states| && Trusted(ctx, states[i], name)
    ensures j < i && LabelledIn(ctx, states, steps, name, uid, j) && CarriesSince(ctx, states, name, uid, j, i)
  {
    RunAccounts(ctx, states, steps, name);
    j, uid := LastAddition(ctx, states, steps, i, name);
  }
}
