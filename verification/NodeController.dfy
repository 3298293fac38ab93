// packages/k8s-baseline/src/trusted-node-label-controller.ts: one reconciliation
// cycle against an API server that other writers change between any two requests.
module NodeController {
  import opened Wrappers
  import opened Json
  import opened JsonPatch
  import opened TrustedNodeLabel
  import opened Attestation
  import opened NodeDocument
  import opened LabelAgreement
  import opened NodeProtocol

  // ----- why a patch was planned

  datatype Cause =
    | Evidence(input: Input)
    | Failed(node: NodeSnapshot, reason: DenyReason, instanceId: Option<string>)

  function NodeOf(cause: Cause): NodeSnapshot {
    match cause
    case Evidence(input) => input.node
    case Failed(node, _, _) => node
  }

  function DecisionOf(policy: Policy, cause: Cause): Decision {
    match cause
    case Evidence(input) => PlanTrustedNodeLabel(input)
    case Failed(node, reason, instanceId) => PlanFailure(policy, node, reason, instanceId)
  }

  /** The cause belongs to this policy and to a Node that was read earlier. */
  predicate Grounded(policy: Policy, s: State, cause: Cause) {
    ReadEarlier(s, NodeOf(cause)) && (cause.Evidence? ==> cause.input.policy == policy)
  }

  function ReasonOf(policy: Policy, cause: Cause): (DenyReason, Option<string>)
    requires DecisionOf(policy, cause).Revoke?
    requires cause.Evidence? ==> cause.input.policy == policy
  {
    match cause
    case Failed(_, reason, instanceId) => (reason, instanceId)
    case Evidence(input) => (PlanTrustedNodeLabel(input).reason, PlanTrustedNodeLabel(input).plan.instanceId)
  }

  /** The decision calls for a patch. */
  predicate Actionable(policy: Policy, cause: Cause) {
    (DecisionOf(policy, cause).Patch? || DecisionOf(policy, cause).Revoke?)
      && (cause.Evidence? ==> cause.input.policy == policy)
  }

  function StepFor(policy: Policy, cause: Cause, stored: Json, version: string, at: int): Step
    requires Actionable(policy, cause)
  {
    if DecisionOf(policy, cause).Patch? then AddStep(cause.input, version, at)
    else
      var (reason, instanceId) := ReasonOf(policy, cause);
      RevokeStep(NodeOf(cause), reason, instanceId, stored, version)
  }

  /** The protocol steps that carry out a plan with this cause. */
  ghost predicate CarriesOut(policy: Policy, cause: Cause, step: Step) {
    && Actionable(policy, cause)
    && exists stored, version, at :: step == StepFor(policy, cause, stored, version, at)
  }

  /** A revocation planned from evidence is the one planned from its failure alone. */
  lemma RevokeCause(policy: Policy, cause: Cause)
    requires DecisionOf(policy, cause).Revoke?
    requires cause.Evidence? ==> cause.input.policy == policy
    ensures var (reason, instanceId) := ReasonOf(policy, cause);
            PlanFailure(policy, NodeOf(cause), reason, instanceId) == DecisionOf(policy, cause)
  {
  }

  /** What the server checks of a patch request, and the document it is about to store. */
  predicate Accepts(ctx: Context, s: State, name: string, patch: seq<PatchOp>, stored: Json, version: string) {
    && name in s.store && IsNodeObject(s.store[name])
    && ApplyPatch(s.store[name], patch).Some?
    && var doc := ApplyPatch(s.store[name], patch).value;
    && IsNodeObject(doc) && SameUpToEmptyLabels(doc, stored)
    && IsNodeObject(stored) && UpdateAllowed(ctx.rule, ctx.controller, s.store[name], stored)
    && version !in s.issued
  }

  lemma AddStored(ctx: Context, s: State, input: Input, stored: Json, version: string)
    requires SameLabel(ctx.rule, input.policy) && PlanTrustedNodeLabel(input).Patch?
    requires Accepts(ctx, s, input.node.name, PlanTrustedNodeLabel(input).patch, stored, version)
    ensures stored == WithLabel(s.store[input.node.name], ctx.rule.labelKey, ctx.rule.labelValue)
  {
    var doc := s.store[input.node.name];
    PlannedAddShape(input);
    hide PlanTrustedNodeLabel, IsNodeObject, UpdateAllowed, ApplyPatch, IsValidProtectedLabelKey, IsLabelText,
         IdentityMatches;
    AddPatchEffect(doc, input.node, ctx.rule.labelKey, ctx.rule.labelValue);
    var labelled := WithLabel(doc, ctx.rule.labelKey, ctx.rule.labelValue);
    assert ctx.rule.labelKey in LabelsOf(labelled);
  }

  lemma AddIsStep(ctx: Context, s: State, input: Input, stored: Json, version: string, at: int)
    requires SameLabel(ctx.rule, ctx.policy) && input.policy == ctx.policy && ReadEarlier(s, input.node)
    requires PlanTrustedNodeLabel(input).Patch?
    requires IsExactPatch(PlanTrustedNodeLabel(input).patch, ctx.rule.labelKey, ctx.rule.labelValue)
    requires Accepts(ctx, s, input.node.name, PlanTrustedNodeLabel(input).patch, stored, version)
    requires PlannedBefore(input, at)
    ensures Next(ctx, s, Write(s, input.node.name, stored, version), AddStep(input, version, at))
  {
    PlannedAddShape(input);
    AddStored(ctx, s, input, stored, version);
  }

  lemma AcceptedNode(ctx: Context, s: State, name: string, patch: seq<PatchOp>, stored: Json, version: string)
    requires Accepts(ctx, s, name, patch, stored, version)
    ensures IsNodeObject(stored)
  {
  }

  lemma AcceptedRequest(ctx: Context, s: State, name: string, patch: seq<PatchOp>, stored: Json, version: string)
    requires IsExactPatch(patch, ctx.rule.labelKey, ctx.rule.labelValue)
             && Accepts(ctx, s, name, patch, stored, version)
    ensures PatchRequest(ctx, s, Write(s, name, stored, version), name, patch, stored, version)
  {
    hide IsExactPatch, UpdateAllowed, Write, IsNodeObject, SameUpToEmptyLabels, ApplyPatch;
  }

  lemma RevokePlanNames(policy: Policy, node: NodeSnapshot, reason: DenyReason, instanceId: Option<string>)
    requires PlanFailure(policy, node, reason, instanceId).Revoke?
    ensures PlanFailure(policy, node, reason, instanceId).plan.nodeName == node.name
  {
  }

  lemma RevokeRequest(ctx: Context, s: State, node: NodeSnapshot, reason: DenyReason, instanceId: Option<string>,
                      stored: Json, version: string)
    requires ReadEarlier(s, node) && PlanFailure(ctx.policy, node, reason, instanceId).Revoke?
    requires IsExactPatch(PlanFailure(ctx.policy, node, reason, instanceId).patch, ctx.rule.labelKey,
                          ctx.rule.labelValue)
    requires Accepts(ctx, s, node.name, PlanFailure(ctx.policy, node, reason, instanceId).patch, stored, version)
    ensures RevokeNext(ctx, s, Write(s, node.name, stored, version), node, reason, instanceId, stored, version)
  {
    hide PlanFailure, IsExactPatch, Accepts, PatchRequest, ReadEarlier, Write;
    RevokePlanNames(ctx.policy, node, reason, instanceId);
    AcceptedRequest(ctx, s, node.name, PlanFailure(ctx.policy, node, reason, instanceId).patch, stored, version);
  }

  lemma RevokeIsStep(ctx: Context, s: State, cause: Cause, stored: Json, version: string, at: int)
    requires Grounded(ctx.policy, s, cause) && DecisionOf(ctx.policy, cause).Revoke?
    requires IsExactPatch(DecisionOf(ctx.policy, cause).patch, ctx.rule.labelKey, ctx.rule.labelValue)
    requires Accepts(ctx, s, NodeOf(cause).name, DecisionOf(ctx.policy, cause).patch, stored, version)
    ensures Next(ctx, s, Write(s, NodeOf(cause).name, stored, version), StepFor(ctx.policy, cause, stored, version, at))
  {
    hide IsExactPatch, Accepts, RevokeNext, ReadEarlier, Write, PlanFailure, DecisionOf, ReasonOf, NodeOf;
    var (reason, instanceId) := ReasonOf(ctx.policy, cause);
    RevokeCause(ctx.policy, cause);
    RevokeRequest(ctx, s, NodeOf(cause), reason, instanceId, stored, version);
  }

  /** When a request takes effect that many milliseconds after its plan was made. */
  function ApplicationTime(cause: Cause, elapsed: nat): int {
    if cause.Evidence? && cause.input.now.Int? then cause.input.now.n + elapsed else elapsed
  }

  lemma PlannedAtInteger(input: Input)
    requires PlanTrustedNodeLabel(input).Patch?
    ensures input.now.Int?
  {
    hide InputFailure, AttestMembership, AttestEc2AndNode, AttestTaints, ParseProviderId;
  }

  /** An accepted patch request is a controller step of the protocol. */
  lemma PatchIsStep(ctx: Context, s: State, cause: Cause, name: string, patch: seq<PatchOp>, stored: Json,
                    version: string, elapsed: nat, at: int)
    requires SameLabel(ctx.rule, ctx.policy) && Planned(ctx, s, cause, name, patch)
    requires IsExactPatch(patch, ctx.rule.labelKey, ctx.rule.labelValue)
             && Accepts(ctx, s, name, patch, stored, version)
    requires at == ApplicationTime(cause, elapsed)
    ensures Next(ctx, s, Write(s, name, stored, version), StepFor(ctx.policy, cause, stored, version, at))
  {
    hide Next, Accepts, IsExactPatch;
    if DecisionOf(ctx.policy, cause).Patch? {
      PatchNeedsEvidence(ctx.policy, cause);
      PlannedAddShape(cause.input);
      PlannedAtInteger(cause.input);
      AddIsStep(ctx, s, cause.input, stored, version, at);
    } else {
      RevokeCause(ctx.policy, cause);
      RevokeIsStep(ctx, s, cause, stored, version, at);
    }
  }

  lemma PatchNeedsEvidence(policy: Policy, cause: Cause)
    requires DecisionOf(policy, cause).Patch?
    ensures cause.Evidence?
  {
  }

  /** The request sends exactly what was planned for this cause. */
  predicate Planned(ctx: Context, s: State, cause: Cause, name: string, patch: seq<PatchOp>) {
    && Grounded(ctx.policy, s, cause) && Actionable(ctx.policy, cause)
    && var decision := DecisionOf(ctx.policy, cause);
    && decision.plan.nodeName == name && decision.patch == patch
  }

  /** Every version issued so far still stands for the same document. */
  ghost predicate Remembers(s: State, t: State) {
    forall v | v in s.issued :: v in t.issued && t.issued[v] == s.issued[v]
  }

  lemma PlannedNow(ctx: Context, s: State, cause: Cause)
    requires Grounded(ctx.policy, s, cause) && Actionable(ctx.policy, cause)
    ensures DecisionOf(ctx.policy, cause).Patch? || DecisionOf(ctx.policy, cause).Revoke?
    ensures Planned(ctx, s, cause, DecisionOf(ctx.policy, cause).plan.nodeName, DecisionOf(ctx.policy, cause).patch)
  {
  }

  lemma StillPlanned(ctx: Context, s: State, t: State, cause: Cause, name: string, patch: seq<PatchOp>)
    requires Planned(ctx, s, cause, name, patch) && Remembers(s, t)
    ensures Planned(ctx, t, cause, name, patch)
  {
  }

  lemma CarriedOut(ctx: Context, s: State, cause: Cause, name: string, patch: seq<PatchOp>, stored: Json,
                   version: string, at: int)
    requires Planned(ctx, s, cause, name, patch)
    ensures Actionable(ctx.policy, cause)
            && CarriesOut(ctx.policy, cause, StepFor(ctx.policy, cause, stored, version, at))
  {
  }

  lemma StepRemembers(ctx: Context, s: State, t: State, step: Step)
    requires Next(ctx, s, t, step)
    ensures Remembers(s, t)
  {
    hide PlanTrustedNodeLabel, PlanFailure, IsExactPatch, UpdateAllowed, CreateAllowed, ApplyPatch, SameUpToEmptyLabels,
         ReadEarlier;
  }

  // ----- the API server as the adapter meets it

  /** What the adapter was asked and answered; `met` is the state that a patch request found. */
  datatype Event =
    | Listed(nodes: Option<seq<NodeSnapshot>>)
    | Got(name: string, node: Option<NodeSnapshot>)
    | Asked(name: string, patch: seq<PatchOp>, met: State, applied: bool, accepted: bool)

  class ApiServer {
    const ctx: Context
    /** The requests, by number, that fail on the way or whose answer does. */
    const lost: nat -> bool
    /** The document and version the server would store for a patch. */
    const choose: (State, seq<PatchOp>) -> (Json, string)
    var now: State
    var requests: nat
    ghost var trace: seq<Event>
    ghost var states: seq<State>
    ghost var steps: seq<Step>

    ghost predicate Valid()
      reads this
    {
      Run(ctx, states, steps) && states[|steps|] == now
    }

    constructor (ctx: Context, start: State, lost: nat -> bool, choose: (State, seq<PatchOp>) -> (Json, string))
      requires ValidContext(ctx) && Init(ctx, start)
      ensures Valid() && this.ctx == ctx && this.lost == lost && this.choose == choose
      ensures now == start && steps == [] && trace == [] && requests == 0
    {
      this.ctx, this.lost, this.choose := ctx, lost, choose;
      now, requests, trace := start, 0, [];
      states := [start];
      steps := [];
    }

    method Take(ghost step: Step, next: State)
      requires Valid() && Next(ctx, now, next, step)
      modifies this`now, this`states, this`steps
      ensures Valid() && now == next && steps == old(steps) + [step] && states == old(states) + [next]
    {
      hide Next;
      now := next;
      states := states + [next];
      steps := steps + [step];
    }

    /** Any number of other writers' moves, of any kind the server and the admission rule let through. */
    method OthersRun()
      requires Valid()
      modifies this`now, this`states, this`steps
      ensures Valid() && old(states) <= states && old(steps) <= steps && Remembers(old(now), now)
    {
      var n: nat := *;
      while n > 0
        invariant Valid() && old(states) <= states && old(steps) <= steps && Remembers(old(now), now)
      {
        var step: Step := *;
        if OthersMay(ctx, now, step) {
          StepRemembers(ctx, now, OthersDo(ctx, now, step), step);
          Take(step, OthersDo(ctx, now, step));
        }
        n := n - 1;
      }
    }

    /** `getNode`: fails on any transport or parse error, and otherwise reads the Node as it now is. */
    method GetNode(name: string) returns (node: Option<NodeSnapshot>)
      requires Valid()
      modifies this
      ensures Valid() && old(states) <= states && old(steps) <= steps && Remembers(old(now), now)
      ensures node == if IsNodeName(name) && !lost(old(requests)) && name in now.store then ParseNode(now.store[name])
                      else None
      ensures trace == old(trace) + [Got(name, node)] && requests == old(requests) + 1
    {
      OthersRun();
      var number := requests;
      requests := requests + 1;
      if !IsNodeName(name) || lost(number) || name !in now.store {
        trace := trace + [Got(name, None)];
        return None;
      }
      node := ParseNode(now.store[name]);
      trace := trace + [Got(name, node)];
    }

    /** The server's side of a patch request: other writers first, then one atomic update if it is acceptable. */
    method Serve(name: string, patch: seq<PatchOp>, ghost cause: Cause) returns (applied: bool, ghost met: State)
      requires Valid() && Planned(ctx, now, cause, name, patch)
      requires IsExactPatch(patch, ctx.rule.labelKey, ctx.rule.labelValue)
      modifies this`now, this`states, this`steps
      ensures Valid() && old(states) <= states && old(steps) <= steps && Remembers(old(now), now)
      ensures applied <==> Accepts(ctx, met, name, patch, choose(met, patch).0, choose(met, patch).1)
      ensures applied ==> |steps| > |old(steps)| && CarriesOut(ctx.policy, cause, steps[|steps| - 1])
    {
      assert SameLabel(ctx.rule, ctx.policy);
      hide Next, Accepts, IsExactPatch, Planned, CarriesOut, StepFor, Actionable, Write, Run, ApplicationTime;
      OthersRun();
      StillPlanned(ctx, old(now), now, cause, name, patch);
      var (stored, version) := choose(now, patch);
      met := now;
      if !Accepts(ctx, now, name, patch, stored, version) {
        return false, met;
      }
      AcceptedNode(ctx, now, name, patch, stored, version);
      ghost var elapsed: nat := *;
      ghost var at := ApplicationTime(cause, elapsed);
      PatchIsStep(ctx, now, cause, name, patch, stored, version, elapsed, at);
      CarriedOut(ctx, now, cause, name, patch, stored, version, at);
      ghost var step := StepFor(ctx.policy, cause, stored, version, at);
      StepRemembers(ctx, now, Write(now, name, stored, version), step);
      Take(step, Write(now, name, stored, version));
      applied := true;
    }

    /**
     * `patchNode`: the gate, then one request. It takes effect when the server accepts it as things then are, and may
     * still be reported as failed when its response is lost.
     */
    method PatchNode(name: string, patch: seq<PatchOp>, key: string, value: string, ghost cause: Cause)
      returns (accepted: bool)
      requires Valid() && key == ctx.rule.labelKey && value == ctx.rule.labelValue
      requires Planned(ctx, now, cause, name, patch)
      modifies this
      ensures Valid() && old(states) <= states && old(steps) <= steps && Remembers(old(now), now)
      ensures |trace| == |old(trace)| + 1 && requests == old(requests) + 1
      ensures var e := trace[|old(trace)|];
              && trace == old(trace) + [e] && e.Asked? && e.name == name && e.patch == patch && e.accepted == accepted
              && (e.applied <==> IsNodeName(name) && IsExactPatch(patch, key, value)
                                 && Accepts(ctx, e.met, name, patch, choose(e.met, patch).0, choose(e.met, patch).1))
              && (accepted <==> e.applied && !lost(old(requests)))
              && (e.applied ==> |steps| > |old(steps)| && CarriesOut(ctx.policy, cause, steps[|steps| - 1]))
    {
      hide Accepts, IsExactPatch, Planned, CarriesOut, Run, IsNodeName;
      var number := requests;
      requests := requests + 1;
      if !IsNodeName(name) || !IsExactPatch(patch, key, value) {
        trace := trace + [Asked(name, patch, now, false, false)];
        return false;
      }
      var applied;
      ghost var met;
      applied, met := Serve(name, patch, cause);
      accepted := applied && !lost(number);
      trace := trace + [Asked(name, patch, met, applied, accepted)];
    }

    /**
     * The candidate Nodes, each as some page of the listing showed it, or a failure. Pages are
     * served at different times; nothing is known of a Node but that it once was in this state.
     */
    method ListNodes() returns (nodes: Option<seq<NodeSnapshot>>)
      requires Valid()
      modifies this
      ensures Valid() && old(states) <= states && old(steps) <= steps
      ensures nodes.Some? ==> AllRead(now, nodes.value)
      ensures nodes.Some? <==> !lost(old(requests))
      ensures trace == old(trace) + [Listed(nodes)] && requests == old(requests) + 1
    {
      var number := requests;
      requests := requests + 1;
      var n: nat := *;
      var read: seq<NodeSnapshot> := [];
      while n > 0
        invariant Valid() && old(states) <= states && old(steps) <= steps && AllRead(now, read)
        invariant trace == old(trace) && requests == number + 1
      {
        ghost var before := now;
        OthersRun();
        StillRead(before, now, read);
        var name: string := *;
        if name in now.store && ParseNode(now.store[name]).Some? {
          CurrentIsRead(this, name, ParseNode(now.store[name]).value);
          read := read + [ParseNode(now.store[name]).value];
        }
        n := n - 1;
      }
      nodes := if lost(number) then None else Some(read);
      trace := trace + [Listed(nodes)];
    }
  }

  predicate AllRead(s: State, nodes: seq<NodeSnapshot>) {
    forall i | 0 <= i < |nodes| :: ReadEarlier(s, nodes[i])
  }

  lemma StillRead(s: State, t: State, nodes: seq<NodeSnapshot>)
    requires AllRead(s, nodes) && Remembers(s, t)
    ensures AllRead(t, nodes)
  {
  }

  /** A Node read now is read from the version it now has. */
  lemma CurrentIsRead(api: ApiServer, name: string, node: NodeSnapshot)
    requires api.Valid() && name in api.now.store && ParseNode(api.now.store[name]) == Some(node)
    ensures ReadEarlier(api.now, node)
  {
    RunCoherent(api.ctx, api.states, api.steps, |api.steps|);
    ParsedNode(api.now.store[name], node);
  }

  // ----- the cycle

  /** How the controller's work on one Node ended; `Refused` covers stale plans and failed requests. */
  datatype Ending = NotNeeded | Refused | Applied

  datatype Outcome = Outcome(cause: Cause, ending: Ending, events: seq<Event>)

  datatype Tally = Tally(failures: nat, missing: nat, patched: nat)

  const NODEGROUP_LABEL := "eks.amazonaws.com/nodegroup"

  predicate IsCandidate(policy: Policy, node: NodeSnapshot) {
    HasLabel(node, NODEGROUP_LABEL, policy.nodeGroupName)
  }

  /** What one Node adds to the counters of the cycle. */
  function TallyOf(policy: Policy, o: Outcome): Tally {
    var node := NodeOf(o.cause);
    match DecisionOf(policy, o.cause)
    case Deny(_) => Tally(1, if policy.protectedLabelKey in node.labels then 0 else 1, 0)
    case Noop(_) => Tally(0, 0, 0)
    case Patch(_, _) => if o.ending.Applied? then Tally(0, 0, 1) else Tally(1, 1, 0)
    case Revoke(_, _, _) =>
      var missing := if IsCandidate(policy, node) then 1 else 0;
      if o.ending.Applied? then Tally(1, missing, 1) else Tally(2, missing, 0)
  }

  function Plus(a: Tally, b: Tally): Tally {
    Tally(a.failures + b.failures, a.missing + b.missing, a.patched + b.patched)
  }

  function Totals(policy: Policy, base: Tally, outcomes: seq<Outcome>): Tally {
    if outcomes == [] then base
    else Plus(Totals(policy, base, outcomes[..|outcomes| - 1]), TallyOf(policy, outcomes[|outcomes| - 1]))
  }

  /** The cycle's starting counters, from the node group's size and the Nodes seen of it. */
  function Base(capacity: CapacityState): Tally {
    Tally(if capacity.Invalid? || capacity.AwaitingNodes? then 1 else 0,
          if capacity.AwaitingNodes? || capacity.Reconciling? then 1 else 0, 0)
  }

  /** The Node was attested, and either carries the label already or was labelled on that attestation. */
  ghost predicate Vouched(policy: Policy, o: Outcome) {
    && o.cause.Evidence? && SomehowAttested(o.cause.input)
    && (Labelled(policy, NodeOf(o.cause)) || (policy.protectedLabelKey !in NodeOf(o.cause).labels && o.ending.Applied?))
  }

  ghost predicate AllVouched(policy: Policy, outcomes: seq<Outcome>) {
    forall i | 0 <= i < |outcomes| :: Vouched(policy, outcomes[i])
  }

  predicate UnderPolicy(policy: Policy, outcomes: seq<Outcome>) {
    forall i | 0 <= i < |outcomes| :: outcomes[i].cause.Evidence? ==> outcomes[i].cause.input.policy == policy
  }

  lemma CleanNode(policy: Policy, o: Outcome)
    requires o.cause.Evidence? ==> o.cause.input.policy == policy
    ensures TallyOf(policy, o).failures == 0 <==> Vouched(policy, o)
    ensures TallyOf(policy, o).missing <= TallyOf(policy, o).failures
  {
    if o.cause.Evidence? {
      DecisionTable(o.cause.input);
    }
  }

  /** A cycle without failures is exactly one with enough Nodes in which every Node was vouched for. */
  lemma {:induction false} CleanCycle(policy: Policy, capacity: CapacityState, outcomes: seq<Outcome>)
    requires UnderPolicy(policy, outcomes)
    ensures Totals(policy, Base(capacity), outcomes).failures == 0 <==>
            !capacity.Invalid? && !capacity.AwaitingNodes? && AllVouched(policy, outcomes)
    ensures Totals(policy, Base(capacity), outcomes).missing + Base(capacity).failures
            <= Totals(policy, Base(capacity), outcomes).failures + Base(capacity).missing
  {
    hide TallyOf, Vouched;
    if outcomes != [] {
      var front, last := outcomes[..|outcomes| - 1], outcomes[|outcomes| - 1];
      CleanCycle(policy, capacity, front);
      CleanNode(policy, last);
      assert outcomes == front + [last];
      assert AllVouched(policy, outcomes) <==> AllVouched(policy, front) && Vouched(policy, last);
    }
  }

  function CountApplied(outcomes: seq<Outcome>): nat {
    if outcomes == [] then 0
    else CountApplied(outcomes[..|outcomes| - 1]) + if outcomes[|outcomes| - 1].ending.Applied? then 1 else 0
  }

  /**
   * The Node is read again exactly for the decisions that call for a patch, and the patch is sent exactly when the
   * Node read passes the re-check.
   */
  predicate Settled(policy: Policy, o: Outcome) {
    if !Actionable(policy, o.cause) then o.ending.NotNeeded? && o.events == []
    else
      var plan, patch := DecisionOf(policy, o.cause).plan, DecisionOf(policy, o.cause).patch;
      && o.events != [] && o.events[0].Got? && o.events[0].name == plan.nodeName
      && if o.events[0].node.None? || ValidateReconciliationPlan(plan, o.events[0].node.value).Some?
         then |o.events| == 1 && o.ending.Refused?
         else
           && |o.events| == 2 && o.events[1].Asked? && o.events[1].name == plan.nodeName && o.events[1].patch == patch
           && o.ending == if o.events[1].accepted then Applied else Refused
  }

  /** A Node that is read again unchanged passes the re-check. */
  lemma UnchangedPasses(policy: Policy, cause: Cause)
    requires Actionable(policy, cause)
    ensures ValidateReconciliationPlan(DecisionOf(policy, cause).plan, NodeOf(cause)).None?
  {
    hide Assess, CanSafelyRevoke;
  }

  /** So the patch for a Node that does not change is sent, and applied unless the server refuses it. */
  lemma UnchangedIsSent(policy: Policy, o: Outcome)
    requires Settled(policy, o) && Actionable(policy, o.cause)
    requires o.events[0].node == Some(NodeOf(o.cause))
    ensures |o.events| == 2 && o.events[1].Asked? && o.events[1].patch == DecisionOf(policy, o.cause).patch
    ensures o.ending == if o.events[1].accepted then Applied else Refused
  {
    UnchangedPasses(policy, o.cause);
    hide DecisionOf;
  }

  predicate AllSettled(policy: Policy, outcomes: seq<Outcome>) {
    forall i | 0 <= i < |outcomes| :: Settled(policy, outcomes[i])
  }

  /** The cycle counts as patched exactly the changes that were acknowledged. */
  lemma {:induction false} PatchedAreApplied(policy: Policy, capacity: CapacityState, outcomes: seq<Outcome>)
    requires AllSettled(policy, outcomes)
    ensures Totals(policy, Base(capacity), outcomes).patched == CountApplied(outcomes)
  {
    hide TallyOf, Settled;
    if outcomes != [] {
      var front, last := outcomes[..|outcomes| - 1], outcomes[|outcomes| - 1];
      assert outcomes == front + [last];
      assert Settled(policy, last);
      PatchedAreApplied(policy, capacity, front);
      PatchedNode(policy, last);
    }
  }

  lemma PatchedNode(policy: Policy, o: Outcome)
    requires Settled(policy, o)
    ensures TallyOf(policy, o).patched == if o.ending.Applied? then 1 else 0
  {
    hide PlanTrustedNodeLabel, PlanFailure;
  }

  /** What the providers answer and the clock shows, each by the number of the Node in the cycle. */
  datatype World = World(
    group: Option<NodeGroup>, groups: seq<string> -> Option<seq<AutoScalingGroup>>,
    instance: nat -> string -> Option<Ec2Instance>, clock: nat -> Number)

  /** What a Node is judged on: its instance as described, or one of two failures. */
  predicate FromEvidence(policy: Policy, nodeGroup: NodeGroup, groups: seq<AutoScalingGroup>, node: NodeSnapshot,
                         describe: string -> Option<Ec2Instance>, now: Number, cause: Cause)
  {
    var provider := ParseProviderId(node.providerId);
    if provider.None? then cause == Failed(node, ProviderIdMalformed, None)
    else
      match describe(provider.value.1)
      case None => cause == Failed(node, EvidenceUnavailable, Some(provider.value.1))
      case Some(instance) => cause == Evidence(Input(now, policy, node, nodeGroup, groups, instance))
  }

  /**
   * A label is taken away only where the shared evidence does not attest the Node, or where there is none to judge
   * by.
   */
  lemma RevokedOnlyUnattested(policy: Policy, nodeGroup: NodeGroup, groups: seq<AutoScalingGroup>, node: NodeSnapshot,
                              describe: string -> Option<Ec2Instance>, now: Number, cause: Cause)
    requires FromEvidence(policy, nodeGroup, groups, node, describe, now, cause) && DecisionOf(policy, cause).Revoke?
    ensures Labelled(policy, node)
    ensures match cause
            case Evidence(input) => input.node == node && !SomehowAttested(input)
            case Failed(_, reason, _) =>
              if ParseProviderId(node.providerId).None? then reason == ProviderIdMalformed
              else reason == EvidenceUnavailable
  {
    if cause.Evidence? {
      DecisionTable(cause.input);
    }
    hide PlanTrustedNodeLabel, SomehowAttested, CanSafelyRevoke, ParseProviderId;
  }

  /** A reported success is a step of the protocol, taken in this cycle for this cause. */
  ghost predicate Backed(policy: Policy, steps: seq<Step>, start: nat, o: Outcome) {
    o.ending.Applied? ==> exists k | start <= k < |steps| :: CarriesOut(policy, o.cause, steps[k])
  }

  /** The evidence for one Node: why, and on what, its decision will be made. */
  method Gather(policy: Policy, nodeGroup: NodeGroup, groups: seq<AutoScalingGroup>, node: NodeSnapshot,
                describe: string -> Option<Ec2Instance>, now: Number)
    returns (cause: Cause)
    ensures FromEvidence(policy, nodeGroup, groups, node, describe, now, cause)
    ensures NodeOf(cause) == node && (cause.Evidence? ==> cause.input.policy == policy)
  {
    var provider := ParseProviderId(node.providerId);
    if provider.None? {
      return Failed(node, ProviderIdMalformed, None);
    }
    var instance := describe(provider.value.1);
    if instance.None? {
      return Failed(node, EvidenceUnavailable, Some(provider.value.1));
    }
    cause := Evidence(Input(now, policy, node, nodeGroup, groups, instance.value));
  }

  /** The re-read, the re-check and the patch request of one planned change. */
  method Send(api: ApiServer, cause: Cause) returns (ending: Ending, ghost events: seq<Event>)
    requires api.Valid() && Grounded(api.ctx.policy, api.now, cause) && Actionable(api.ctx.policy, cause)
    modifies api
    ensures api.Valid() && old(api.states) <= api.states && old(api.steps) <= api.steps
            && Remembers(old(api.now), api.now)
    ensures Backed(api.ctx.policy, api.steps, |old(api.steps)|, Outcome(cause, ending, events))
    ensures Settled(api.ctx.policy, Outcome(cause, ending, events)) && api.trace == old(api.trace) + events
  {
    hide CarriesOut, Run, Planned, DecisionOf, Accepts, IsExactPatch, ValidateReconciliationPlan, Grounded, Settled,
         Backed, IsNodeName;
    PlannedNow(api.ctx, api.now, cause);
    var decision := DecisionOf(api.ctx.policy, cause);
    ghost var start := api.now;
    var current := api.GetNode(decision.plan.nodeName);
    events := [Got(decision.plan.nodeName, current)];
    if current.None? || ValidateReconciliationPlan(decision.plan, current.value).Some? {
      RefusedEarly(api.ctx.policy, cause, current, api.steps, |old(api.steps)|);
      return Refused, events;
    }
    StillPlanned(api.ctx, start, api.now, cause, decision.plan.nodeName, decision.patch);
    ghost var middle := |api.steps|;
    var accepted := api.PatchNode(decision.plan.nodeName, decision.patch, api.ctx.rule.labelKey,
                                  api.ctx.rule.labelValue, cause);
    ghost var asked := api.trace[|api.trace| - 1];
    events := [Got(decision.plan.nodeName, current), asked];
    assert api.trace == old(api.trace) + [events[0]] + [asked];
    ending := if accepted then Applied else Refused;
    SentOn(api.ctx.policy, cause, current, asked, api.steps, |old(api.steps)|, middle);
  }

  lemma RefusedEarly(policy: Policy, cause: Cause, node: Option<NodeSnapshot>, steps: seq<Step>, start: nat)
    requires Actionable(policy, cause)
    requires var plan := DecisionOf(policy, cause).plan;
             node.None? || ValidateReconciliationPlan(plan, node.value).Some?
    ensures var o := Outcome(cause, Refused, [Got(DecisionOf(policy, cause).plan.nodeName, node)]);
            Settled(policy, o) && Backed(policy, steps, start, o)
  {
    hide DecisionOf, ValidateReconciliationPlan;
  }

  lemma SentOn(policy: Policy, cause: Cause, node: Option<NodeSnapshot>, asked: Event, steps: seq<Step>, start: nat,
               middle: nat)
    requires Actionable(policy, cause) && asked.Asked? && start <= middle
    requires var plan := DecisionOf(policy, cause).plan;
             && node.Some? && ValidateReconciliationPlan(plan, node.value).None?
             && asked.name == plan.nodeName && asked.patch == DecisionOf(policy, cause).patch
    requires asked.accepted ==> |steps| > middle && CarriesOut(policy, cause, steps[|steps| - 1])
    ensures var o := Outcome(cause, if asked.accepted then Applied else Refused,
                             [Got(DecisionOf(policy, cause).plan.nodeName, node), asked]);
            Settled(policy, o) && Backed(policy, steps, start, o)
  {
    hide DecisionOf, ValidateReconciliationPlan, CarriesOut;
  }

  /** The outcome for one Node of the cycle, with the counters it adds. */
  ghost predicate Reported(policy: Policy, nodeGroup: NodeGroup, groups: seq<AutoScalingGroup>, node: NodeSnapshot,
                           describe: string -> Option<Ec2Instance>, now: Number, steps: seq<Step>, start: nat,
                           o: Outcome)
  {
    && FromEvidence(policy, nodeGroup, groups, node, describe, now, o.cause)
    && NodeOf(o.cause) == node && (o.cause.Evidence? ==> o.cause.input.policy == policy)
    && Backed(policy, steps, start, o) && Settled(policy, o)
  }

  /** One turn of the cycle's loop. */
  method ReconcileNode(api: ApiServer, policy: Policy, nodeGroup: NodeGroup, groups: seq<AutoScalingGroup>,
                       node: NodeSnapshot, describe: string -> Option<Ec2Instance>, now: Number)
    returns (tally: Tally, ghost o: Outcome)
    requires api.Valid() && policy == api.ctx.policy && ReadEarlier(api.now, node)
    modifies api
    ensures api.Valid() && old(api.states) <= api.states && old(api.steps) <= api.steps
            && Remembers(old(api.now), api.now)
    ensures Reported(policy, nodeGroup, groups, node, describe, now, api.steps, |old(api.steps)|, o)
    ensures tally == TallyOf(policy, o) && api.trace == old(api.trace) + o.events
  {
    hide CarriesOut, Run, ReadEarlier, PlanFailure, PlanTrustedNodeLabel, FromEvidence;
    var missingAtRead := policy.protectedLabelKey !in node.labels;
    var isCandidate := IsCandidate(policy, node);
    var failures, missing, patched := 0, 0, 0;
    var cause := Gather(policy, nodeGroup, groups, node, describe, now);
    var decision := DecisionOf(policy, cause);
    o := Outcome(cause, NotNeeded, []);
    if decision.Deny? {
      failures := failures + 1;
      if missingAtRead {
        missing := missing + 1;
      }
      return Tally(failures, missing, patched), o;
    }
    if decision.Noop? {
      return Tally(failures, missing, patched), o;
    }
    if decision.Revoke? {
      failures := failures + 1;
      if isCandidate {
        missing := missing + 1;
      }
    }
    var ending;
    ghost var events;
    ending, events := Send(api, cause);
    o := Outcome(cause, ending, events);
    if ending.Applied? {
      patched := patched + 1;
    } else {
      failures := failures + 1;
      if decision.Patch? {
        missing := missing + 1;
      }
    }
    tally := Tally(failures, missing, patched);
  }

  datatype CycleResult = CycleResult(capacity: CapacityState, decisions: nat, failures: nat, missingTrustedLabels: nat,
                                     patched: nat)

  function CountCandidates(policy: Policy, nodes: seq<NodeSnapshot>): nat {
    if nodes == [] then 0 else (if IsCandidate(policy, nodes[0]) then 1 else 0) + CountCandidates(policy, nodes[1..])
  }

  ghost predicate AllReported(policy: Policy, nodeGroup: NodeGroup, groups: seq<AutoScalingGroup>,
                              nodes: seq<NodeSnapshot>, world: World, steps: seq<Step>, start: nat,
                              outcomes: seq<Outcome>)
  {
    && |outcomes| <= |nodes|
    && forall i | 0 <= i < |outcomes| ::
         Reported(policy, nodeGroup, groups, nodes[i], world.instance(i), world.clock(i), steps, start, outcomes[i])
  }

  lemma StillReported(policy: Policy, nodeGroup: NodeGroup, groups: seq<AutoScalingGroup>, nodes: seq<NodeSnapshot>,
                      world: World, steps: seq<Step>, later: seq<Step>, start: nat, middle: nat,
                      outcomes: seq<Outcome>, o: Outcome)
    requires AllReported(policy, nodeGroup, groups, nodes, world, steps, start, outcomes) && steps <= later
             && start <= middle
    requires |outcomes| < |nodes|
    requires var i := |outcomes|;
             Reported(policy, nodeGroup, groups, nodes[i], world.instance(i), world.clock(i), later, middle, o)
    ensures AllReported(policy, nodeGroup, groups, nodes, world, later, start, outcomes + [o])
  {
    hide FromEvidence, CarriesOut, Settled;
    var longer := outcomes + [o];
    forall i | 0 <= i < |longer|
      ensures Reported(policy, nodeGroup, groups, nodes[i], world.instance(i), world.clock(i), later, start, longer[i])
    {
      if i < |outcomes| {
        assert Reported(policy, nodeGroup, groups, nodes[i], world.instance(i), world.clock(i), steps, start,
                        outcomes[i]);
      }
    }
  }

  /** What passed between the controller and the API server for these Nodes. */
  function AllEvents(outcomes: seq<Outcome>): seq<Event> {
    if outcomes == [] then [] else AllEvents(outcomes[..|outcomes| - 1]) + outcomes[|outcomes| - 1].events
  }

  /** The groups that the node group names, when both providers answer. */
  function GroupsOf(world: World): Option<seq<AutoScalingGroup>> {
    if world.group.None? then None else world.groups(world.group.value.autoScalingGroupNames)
  }

  /** The loop of the cycle: one turn for each Node. */
  method ReconcileAll(api: ApiServer, policy: Policy, nodeGroup: NodeGroup, groups: seq<AutoScalingGroup>,
                      nodes: seq<NodeSnapshot>, world: World, base: Tally)
    returns (totals: Tally, ghost outcomes: seq<Outcome>)
    requires api.Valid() && policy == api.ctx.policy && AllRead(api.now, nodes)
    modifies api
    ensures api.Valid() && old(api.states) <= api.states && old(api.steps) <= api.steps && AllRead(api.now, nodes)
    ensures |outcomes| == |nodes| && totals == Totals(policy, base, outcomes)
    ensures AllReported(policy, nodeGroup, groups, nodes, world, api.steps, |old(api.steps)|, outcomes)
    ensures api.trace == old(api.trace) + AllEvents(outcomes)
  {
    hide Run, Reported, AllReported, TallyOf, Totals, AllEvents, Remembers, ReadEarlier;
    outcomes, totals := [], base;
    NothingReported(policy, nodeGroup, groups, nodes, world, api.steps, base);
    for i := 0 to |nodes|
      invariant api.Valid() && old(api.states) <= api.states && old(api.steps) <= api.steps
      invariant i == |outcomes| && AllRead(api.now, nodes) && totals == Totals(policy, base, outcomes)
      invariant AllReported(policy, nodeGroup, groups, nodes, world, api.steps, |old(api.steps)|, outcomes)
      invariant api.trace == old(api.trace) + AllEvents(outcomes)
    {
      ghost var before, steps := api.now, api.steps;
      var tally, o := ReconcileNode(api, policy, nodeGroup, groups, nodes[i], world.instance(i), world.clock(i));
      StillRead(before, api.now, nodes);
      StillReported(policy, nodeGroup, groups, nodes, world, steps, api.steps, |old(api.steps)|, |steps|, outcomes, o);
      OneMore(policy, base, outcomes, o);
      outcomes := outcomes + [o];
      totals := Plus(totals, tally);
    }
  }

  lemma NothingReported(policy: Policy, nodeGroup: NodeGroup, groups: seq<AutoScalingGroup>, nodes: seq<NodeSnapshot>,
                        world: World, steps: seq<Step>, base: Tally)
    ensures AllReported(policy, nodeGroup, groups, nodes, world, steps, |steps|, [])
    ensures Totals(policy, base, []) == base && AllEvents([]) == []
  {
  }

  lemma OneMore(policy: Policy, base: Tally, outcomes: seq<Outcome>, o: Outcome)
    ensures Totals(policy, base, outcomes + [o]) == Plus(Totals(policy, base, outcomes), TallyOf(policy, o))
    ensures AllEvents(outcomes + [o]) == AllEvents(outcomes) + o.events
  {
    hide TallyOf;
    assert (outcomes + [o])[..|outcomes|] == outcomes;
  }

  /** What a cycle did before its loop: nothing, or a listing. */
  function LeadIn(world: World, listed: Option<seq<NodeSnapshot>>): seq<Event> {
    if GroupsOf(world).Some? then [Listed(listed)] else []
  }

  /**
   * One cycle. Whatever other writers do meanwhile, the history stays a run of the protocol; there
   * is one outcome for each listed Node, each read at some time and judged on what the providers answered for it;
   * the counters are the sums over the outcomes; every change the cycle reports is one of its steps in the history;
   * and a cycle without failures vouches for every listed Node. Nothing passes between it and the API server but the
   * listing and, for each Node, the events of its outcome.
   */
  method RunCycle(api: ApiServer, policy: Policy, world: World)
    returns (result: CycleResult, ghost outcomes: seq<Outcome>, ghost listed: Option<seq<NodeSnapshot>>)
    requires api.Valid() && policy == api.ctx.policy
    modifies api
    ensures api.Valid() && old(api.states) <= api.states && old(api.steps) <= api.steps
    ensures listed.Some? <==> GroupsOf(world).Some? && !api.lost(old(api.requests))
    ensures api.trace == old(api.trace) + LeadIn(world, listed) + AllEvents(outcomes)
    ensures result.decisions == |outcomes| && UnderPolicy(policy, outcomes) && AllSettled(policy, outcomes)
    ensures forall i | 0 <= i < |outcomes| :: Backed(policy, api.steps, |old(api.steps)|, outcomes[i])
    ensures listed.None? ==> result == CycleResult(Invalid, 0, 1, 0, 0) && outcomes == []
    ensures listed.Some? ==>
              && |listed.value| == |outcomes| && AllRead(api.now, listed.value)
              && (forall i | 0 <= i < |outcomes| ::
                    FromEvidence(policy, world.group.value, GroupsOf(world).value, listed.value[i], world.instance(i),
                                 world.clock(i), outcomes[i].cause))
              && result.capacity
                 == ClassifyNodeGroupCapacity(world.group.value.desiredSize, CountCandidates(policy, listed.value))
              && Tally(result.failures, result.missingTrustedLabels, result.patched)
                 == Totals(policy, Base(result.capacity), outcomes)
    ensures result.patched == CountApplied(outcomes)
    ensures result.failures == 0 ==> AllVouched(policy, outcomes)
  {
    hide Run, Reported, AllReported, TallyOf, FromEvidence, Vouched, Settled, Backed;
    outcomes, listed := [], None;
    var group := world.group;
    if group.None? {
      return CycleResult(Invalid, 0, 1, 0, 0), outcomes, listed;
    }
    var asgs := world.groups(group.value.autoScalingGroupNames);
    if asgs.None? {
      return CycleResult(Invalid, 0, 1, 0, 0), outcomes, listed;
    }
    var nodes := api.ListNodes();
    listed := nodes;
    if nodes.None? {
      return CycleResult(Invalid, 0, 1, 0, 0), outcomes, listed;
    }
    var capacity := ClassifyNodeGroupCapacity(group.value.desiredSize, CountCandidates(policy, nodes.value));
    ghost var start := |api.steps|;
    var totals;
    totals, outcomes := ReconcileAll(api, policy, group.value, asgs.value, nodes.value, world, Base(capacity));
    ReportedUnderPolicy(policy, group.value, asgs.value, nodes.value, world, api.steps, start, outcomes);
    BackedSince(policy, api.steps, |old(api.steps)|, start, outcomes);
    CleanCycle(policy, capacity, outcomes);
    PatchedAreApplied(policy, capacity, outcomes);
    result := CycleResult(capacity, |nodes.value|, totals.failures, totals.missing, totals.patched);
  }

  lemma BackedSince(policy: Policy, steps: seq<Step>, start: nat, later: nat, outcomes: seq<Outcome>)
    requires start <= later && forall i | 0 <= i < |outcomes| :: Backed(policy, steps, later, outcomes[i])
    ensures forall i | 0 <= i < |outcomes| :: Backed(policy, steps, start, outcomes[i])
  {
    hide CarriesOut;
  }

  lemma ReportedUnderPolicy(policy: Policy, nodeGroup: NodeGroup, groups: seq<AutoScalingGroup>,
                            nodes: seq<NodeSnapshot>, world: World, steps: seq<Step>, start: nat,
                            outcomes: seq<Outcome>)
    requires AllReported(policy, nodeGroup, groups, nodes, world, steps, start, outcomes)
    ensures UnderPolicy(policy, outcomes) && AllSettled(policy, outcomes)
    ensures forall i | 0 <= i < |outcomes| :: Backed(policy, steps, start, outcomes[i])
    ensures forall i | 0 <= i < |outcomes| ::
              FromEvidence(policy, nodeGroup, groups, nodes[i], world.instance(i), world.clock(i), outcomes[i].cause)
  {
    hide CarriesOut, FromEvidence, Settled;
    forall i | 0 <= i < |outcomes|
      ensures outcomes[i].cause.Evidence? ==> outcomes[i].cause.input.policy == policy
      ensures Backed(policy, steps, start, outcomes[i]) && Settled(policy, outcomes[i])
      ensures FromEvidence(policy, nodeGroup, groups, nodes[i], world.instance(i), world.clock(i), outcomes[i].cause)
    {
      assert Reported(policy, nodeGroup, groups, nodes[i], world.instance(i), world.clock(i), steps, start,
                      outcomes[i]);
    }
  }
}
