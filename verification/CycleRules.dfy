// packages/k8s-baseline/src/trusted-node-label-controller.ts: what the counters of
// a cycle count, told from attestation, labels and what came of the requests.
module CycleRules {
  import opened TrustedNodeLabel
  import opened Attestation
  import opened KernelTexts
  import opened DenyReasons
  import opened NodeController

  // ----- one Node

  /** The Node was attested, and has no other value under the protected key. */
  ghost predicate IsTrusted(policy: Policy, o: Outcome) {
    && o.cause.Evidence? && SomehowAttested(o.cause.input)
    && (policy.protectedLabelKey in NodeOf(o.cause).labels ==>
          NodeOf(o.cause).labels[policy.protectedLabelKey] == policy.protectedLabelValue)
  }

  function One(condition: bool): nat { if condition then 1 else 0 }

  /**
   * A Node that is not trusted is a failure, and so is a refused request. The label is missing on a trusted Node that
   * did not get it, on a Node of the group that was to lose it, and on any other Node that has none.
   */
  lemma CountedFor(policy: Policy, o: Outcome)
    requires Settled(policy, o) && (o.cause.Evidence? ==> o.cause.input.policy == policy)
    ensures var t, node, trusted := TallyOf(policy, o), NodeOf(o.cause), IsTrusted(policy, o);
            var has := policy.protectedLabelKey in node.labels;
            var revocable := HasText(node, policy.protectedLabelKey, policy.protectedLabelValue)
                             && CanSafelyRevoke(policy, node);
            && t.failures == One(!trusted) + One(o.ending.Refused?)
            && t.patched == One(o.ending.Applied?)
            && t.missing ==
               if trusted then One(!has && !o.ending.Applied?)
               else if revocable then One(HasText(node, "eks.amazonaws.com/nodegroup", policy.nodeGroupName))
               else One(!has)
  {
    if o.cause.Evidence? {
      DecisionTable(o.cause.input);
    }
    hide CanSafelyRevoke, SomehowAttested, Assess, ValidateReconciliationPlan;
  }

  // ----- the whole cycle

  /** The positions of the Nodes that belong to the node group by their label. */
  function GroupNodes(policy: Policy, nodes: seq<NodeSnapshot>): set<nat> {
    set i: nat | i < |nodes| && HasText(nodes[i], "eks.amazonaws.com/nodegroup", policy.nodeGroupName)
  }

  lemma {:induction false} CandidatesLast(policy: Policy, nodes: seq<NodeSnapshot>, node: NodeSnapshot)
    ensures CountCandidates(policy, nodes + [node]) == CountCandidates(policy, nodes) + One(IsCandidate(policy, node))
  {
    hide IsCandidate;
    if nodes == [] {
      assert [] + [node] == [node] && [node][1..] == [];
    } else {
      CandidatesLast(policy, nodes[1..], node);
      assert (nodes + [node])[1..] == nodes[1..] + [node];
    }
  }

  lemma {:induction false} CandidatesAre(policy: Policy, nodes: seq<NodeSnapshot>)
    ensures CountCandidates(policy, nodes) == |GroupNodes(policy, nodes)|
  {
    if nodes != [] {
      var n := |nodes| - 1;
      var front := nodes[..n];
      CandidatesAre(policy, front);
      CandidatesLast(policy, front, nodes[n]);
      assert nodes == front + [nodes[n]];
      assert IsCandidate(policy, nodes[n]) == HasText(nodes[n], "eks.amazonaws.com/nodegroup", policy.nodeGroupName);
      LastOfGroup(policy, nodes);
      hide GroupNodes, IsCandidate, HasText, CountCandidates;
    } else {
      assert GroupNodes(policy, nodes) == {};
    }
  }

  lemma LastOfGroup(policy: Policy, nodes: seq<NodeSnapshot>)
    requires nodes != []
    ensures var n := |nodes| - 1;
            |GroupNodes(policy, nodes)| == |GroupNodes(policy, nodes[..n])|
              + One(HasText(nodes[n], "eks.amazonaws.com/nodegroup", policy.nodeGroupName))
  {
    hide HasText;
    var n := |nodes| - 1;
    var before := GroupNodes(policy, nodes[..n]);
    if HasText(nodes[n], "eks.amazonaws.com/nodegroup", policy.nodeGroupName) {
      assert GroupNodes(policy, nodes) == before + {n};
    } else {
      assert GroupNodes(policy, nodes) == before;
    }
  }

  /** A cycle starts with a failure when the sizes make no sense or none of the wanted Nodes is there. */
  lemma StartsWith(desired: Number, observed: nat)
    ensures var base := Base(ClassifyNodeGroupCapacity(desired, observed));
            var counted := IsCount(desired) && observed <= 9007199254740991;
            && base.failures == One(!counted || (observed == 0 && desired.n > 0))
            && base.missing == One(counted && observed < desired.n)
            && base.patched == 0
  {
    CapacityIff(desired, observed, ClassifyNodeGroupCapacity(desired, observed));
  }

  /** The counters of a cycle are those it starts with and those of each Node. */
  lemma {:induction false} TotalsParts(policy: Policy, base: Tally, before: seq<Outcome>, after: seq<Outcome>)
    ensures var t := Totals(policy, base, before + after);
            var a, b := Totals(policy, base, before), Totals(policy, Tally(0, 0, 0), after);
            && t.failures == a.failures + b.failures && t.missing == a.missing + b.missing
            && t.patched == a.patched + b.patched
  {
    hide TallyOf;
    if after == [] {
      assert before + after == before;
    } else {
      var n := |after| - 1;
      TotalsParts(policy, base, before, after[..n]);
      assert (before + after)[..|before| + n] == before + after[..n];
    }
  }
}
