// The planner, the adapter's gate, RFC 6902 and the admission rule describe one
// and the same change of one label.
module LabelAgreement {
  import opened Wrappers
  import opened Json
  import opened JsonPatch
  import opened TrustedNodeLabel
  import opened NodeDocument
  import opened LabelFixpoint

  /** Only the labels of a Node document change when its labels are replaced. */
  lemma ReplacedLabels(doc: Json, labels: map<string, Json>)
    requires IsNodeObject(doc) && IsStringMap(labels)
    ensures var new_ := WithLabels(doc, labels);
            && IsNodeObject(new_) && HasLabels(new_) && LabelsOf(new_) == labels
            && NameOf(new_) == NameOf(doc) && UidOf(new_) == UidOf(doc) && Version(new_) == Version(doc)
            && (forall f | f != "labels" :: Member(Metadata(new_), f) == Member(Metadata(doc), f))
            && (forall f | f != "metadata" :: Member(new_, f) == Member(doc, f))
  {
  }

  lemma DroppedLabels(doc: Json, stored: Json)
    requires IsNodeObject(doc) && SameUpToEmptyLabels(doc, stored)
    ensures IsNodeObject(stored) && LabelsOf(stored) == LabelsOf(doc)
    ensures NameOf(stored) == NameOf(doc) && UidOf(stored) == UidOf(doc) && Version(stored) == Version(doc)
    ensures forall f | f != "labels" :: Member(Metadata(stored), f) == Member(Metadata(doc), f)
    ensures forall f | f != "metadata" :: Member(stored, f) == Member(doc, f)
  {
  }

  lemma NotLabels()
    ensures forall f | f in IDENTITY_FIELDS :: f != "labels"
    ensures forall f | f in UNCHANGED_METADATA :: f != "labels"
  {
  }

  lemma NothingElseChanged(doc: Json, stored: Json)
    requires forall f | f != "labels" :: Member(Metadata(stored), f) == Member(Metadata(doc), f)
    requires forall f | f != "metadata" :: Member(stored, f) == Member(doc, f)
    ensures NoPiggyback(doc, stored)
  {
    NotLabels();
  }

  /** A new version leaves everything else in place. */
  lemma Stamped(doc: Json, version: string)
    requires IsNodeObject(doc)
    ensures var new_ := WithVersion(doc, version);
            && IsNodeObject(new_) && LabelsOf(new_) == LabelsOf(doc) && HasLabels(new_) == HasLabels(doc)
            && NameOf(new_) == NameOf(doc) && UidOf(new_) == UidOf(doc) && Version(new_) == version
            && (forall f | f != "resourceVersion" :: Member(Metadata(new_), f) == Member(Metadata(doc), f))
            && (forall f | f != "metadata" :: Member(new_, f) == Member(doc, f))
  {
  }

  lemma Relabel(doc: Json, node: NodeSnapshot, labels: map<string, Json>, version: string)
    requires ParseNode(doc) == Some(node) && IsStringMap(labels)
    ensures IsNodeObject(doc) && IsNodeObject(WithLabels(doc, labels))
    ensures ParseNode(WithVersion(WithLabels(doc, labels), version)) ==
            if |labels| <= 256 then Some(Relabelled(node, map k | k in labels :: labels[k].s, version)) else None
  {
    ParsedNode(doc, node);
    ReplacedLabels(doc, labels);
    Stamped(WithLabels(doc, labels), version);
  }

  predicate SameLabel(rule: Admission, policy: Policy) {
    rule.labelKey == policy.protectedLabelKey && rule.labelValue == policy.protectedLabelValue
  }

  /**
   * A planned addition, sent against the state it was planned on: the gate lets it
   * through, RFC 6902 adds the one label, and the admission rule accepts the result.
   */
  lemma AddAgreement(rule: Admission, user: UserInfo, input: Input, doc: Json)
    requires SameLabel(rule, input.policy) && ControllerIdentity(rule, user)
    requires ParseNode(doc) == Some(input.node) && PlanTrustedNodeLabel(input).Patch? && |input.node.providerId| <= 256
    ensures IsNodeObject(doc)
    ensures IsExactPatch(PlanTrustedNodeLabel(input).patch, rule.labelKey, rule.labelValue)
    ensures ApplyPatch(doc, PlanTrustedNodeLabel(input).patch) == Some(WithLabel(doc, rule.labelKey, rule.labelValue))
    ensures UpdateAllowed(rule, user, doc, WithLabel(doc, rule.labelKey, rule.labelValue))
  {
    ParsedNode(doc, input.node);
    PlannedAddShape(input);
    PlannedAddPassesGate(input);
    AddPatchEffect(doc, input.node, rule.labelKey, rule.labelValue);
    AddAdmitted(rule, user, doc);
  }

  lemma AddedStrings(fields: map<string, Json>, labels: map<string, string>, key: string, value: string)
    requires fields.Keys == labels.Keys && key !in labels
    requires forall k | k in labels :: fields[k] == Str(labels[k])
    ensures var added := fields[key := Str(value)];
            && IsStringMap(added) && |added| == |labels| + 1
            && (map k | k in added :: added[k].s) == labels[key := value]
  {
    hide *;
    var added, more := fields[key := Str(value)], labels[key := value];
    OneMoreKey(fields, key, Str(value));
    OneMoreKey(labels, key, value);
    assert added.Keys == more.Keys;
    forall k | k in more ensures added[k] == Str(more[k]) {
      if k != key {
        assert k in labels;
      }
    }
    SameStrings(added, more);
  }

  lemma SameStrings(fields: map<string, Json>, labels: map<string, string>)
    requires fields.Keys == labels.Keys && forall k | k in labels :: fields[k] == Str(labels[k])
    ensures IsStringMap(fields) && (map k | k in fields :: fields[k].s) == labels
  {
  }

  lemma OneMoreKey<T>(m: map<string, T>, key: string, value: T)
    requires key !in m
    ensures |m[key := value]| == |m| + 1 && m[key := value].Keys == m.Keys + {key}
  {
    assert m[key := value].Keys == m.Keys + {key};
    assert |m.Keys + {key}| == |m.Keys| + 1;
  }

  /** The written Node is read back as the planned one, unless it now has more labels than the adapter reads. */
  lemma AddReadBack(policy: Policy, node: NodeSnapshot, doc: Json, version: string)
    requires ParseNode(doc) == Some(node) && policy.protectedLabelKey !in node.labels
    ensures IsNodeObject(doc) && IsNodeObject(WithLabel(doc, policy.protectedLabelKey, policy.protectedLabelValue))
    ensures ParseNode(WithVersion(WithLabel(doc, policy.protectedLabelKey, policy.protectedLabelValue), version)) ==
              if |node.labels| < 256 then Some(AfterAdd(policy, node, version)) else None
  {
    ParsedNode(doc, node);
    AddedStrings(LabelsOf(doc), node.labels, policy.protectedLabelKey, policy.protectedLabelValue);
    Relabel(doc, node, LabelsOf(doc)[policy.protectedLabelKey := Str(policy.protectedLabelValue)], version);
  }

  lemma PlannedRevokeShape(policy: Policy, node: NodeSnapshot, reason: DenyReason, instanceId: Option<string>)
    requires PlanFailure(policy, node, reason, instanceId).Revoke?
    ensures PlanFailure(policy, node, reason, instanceId).patch ==
            IdentityTests(node)
              + [Test(LabelPath(policy.protectedLabelKey), policy.protectedLabelValue),
                 Remove(LabelPath(policy.protectedLabelKey))]
    ensures Labelled(policy, node)
  {
  }

  /** The same for a revocation, in whichever form the API server stores a Node without labels. */
  lemma RevokeAgreement(rule: Admission, user: UserInfo, policy: Policy, node: NodeSnapshot, reason: DenyReason,
                        instanceId: Option<string>, doc: Json, stored: Json)
    requires SameLabel(rule, policy) && ControllerIdentity(rule, user)
    requires ParseNode(doc) == Some(node) && PlanFailure(policy, node, reason, instanceId).Revoke?
    requires IsNodeObject(doc) && IsNodeObject(WithoutLabel(doc, rule.labelKey))
    requires SameUpToEmptyLabels(WithoutLabel(doc, rule.labelKey), stored)
    ensures IsExactPatch(PlanFailure(policy, node, reason, instanceId).patch, rule.labelKey, rule.labelValue)
    ensures ApplyPatch(doc, PlanFailure(policy, node, reason, instanceId).patch)
            == Some(WithoutLabel(doc, rule.labelKey))
    ensures UpdateAllowed(rule, user, doc, stored)
  {
    var labels := LabelsOf(doc) - {rule.labelKey};
    ParsedNode(doc, node);
    PlannedRevokeShape(policy, node, reason, instanceId);
    PlannedRevokePassesGate(policy, node, reason, instanceId);
    RemovePatchEffect(doc, node, rule.labelKey, rule.labelValue);
    ReplacedLabels(doc, labels);
    DroppedLabels(WithoutLabel(doc, rule.labelKey), stored);
    ExactRemovalIff(doc, stored, rule.labelKey, rule.labelValue);
    NothingElseChanged(doc, stored);
  }

  /** The same for a removal: the re-check accepts exactly the Nodes from which the patch then removes the label. */
  lemma ValidatedRevokeSucceeds(policy: Policy, node: NodeSnapshot, reason: DenyReason, instanceId: Option<string>,
                                doc: Json, current: NodeSnapshot)
    requires ParseNode(doc) == Some(current) && PlanFailure(policy, node, reason, instanceId).Revoke?
             && current.name == node.name
    ensures IsNodeObject(doc)
    ensures ValidateReconciliationPlan(PlanFailure(policy, node, reason, instanceId).plan, current).None? <==>
            ApplyPatch(doc, PlanFailure(policy, node, reason, instanceId).patch)
              == Some(WithoutLabel(doc, policy.protectedLabelKey))
  {
    ParsedNode(doc, current);
    PlannedRevokeShape(policy, node, reason, instanceId);
    RemovePatchEffect(doc, node, policy.protectedLabelKey, policy.protectedLabelValue);
    ValidRevokeMeans(policy, node, instanceId, doc, current);
    hide ParseNode, ApplyPatch, ValidateReconciliationPlan, IsNodeObject;
    assert PlanFailure(policy, node, reason, instanceId).plan == PlanFor(RemoveLabel, policy, node, instanceId);
  }

  lemma ValidRevokeMeans(policy: Policy, node: NodeSnapshot, instanceId: Option<string>, doc: Json,
                         current: NodeSnapshot)
    requires ParseNode(doc) == Some(current) && current.name == node.name
    ensures IsNodeObject(doc)
    ensures ValidateReconciliationPlan(PlanFor(RemoveLabel, policy, node, instanceId), current).None? <==>
            IdentityMatches(doc, node) && policy.protectedLabelKey in LabelsOf(doc)
            && LabelsOf(doc)[policy.protectedLabelKey] == Str(policy.protectedLabelValue)
  {
    ParsedNode(doc, current);
  }

  lemma ValidAddMeans(policy: Policy, node: NodeSnapshot, instanceId: Option<string>, doc: Json, current: NodeSnapshot)
    requires ParseNode(doc) == Some(current) && current.name == node.name
    ensures IsNodeObject(doc)
    ensures ValidateReconciliationPlan(PlanFor(AddLabel, policy, node, instanceId), current).None? <==>
            IdentityMatches(doc, node) && policy.protectedLabelKey !in LabelsOf(doc)
  {
    ParsedNode(doc, current);
  }

  lemma AddAdmitted(rule: Admission, user: UserInfo, doc: Json)
    requires IsNodeObject(doc) && HasLabels(doc) && ControllerIdentity(rule, user)
    ensures UpdateAllowed(rule, user, doc, WithLabel(doc, rule.labelKey, rule.labelValue)) <==>
            rule.labelKey !in LabelsOf(doc)
  {
    var labels := LabelsOf(doc)[rule.labelKey := Str(rule.labelValue)];
    ReplacedLabels(doc, labels);
    ExactAdditionIff(doc, WithLabels(doc, labels), rule.labelKey, rule.labelValue);
    NothingElseChanged(doc, WithLabels(doc, labels));
  }

  /** The re-check before sending accepts exactly the Nodes on which the patch then succeeds and is admitted. */
  lemma ValidatedPatchSucceeds(rule: Admission, user: UserInfo, input: Input, doc: Json, current: NodeSnapshot)
    requires SameLabel(rule, input.policy) && ControllerIdentity(rule, user)
    requires ParseNode(doc) == Some(current) && PlanTrustedNodeLabel(input).Patch? && current.name == input.node.name
    ensures IsNodeObject(doc)
    ensures ValidateReconciliationPlan(PlanTrustedNodeLabel(input).plan, current).None? <==>
            ApplyPatch(doc, PlanTrustedNodeLabel(input).patch) == Some(WithLabel(doc, rule.labelKey, rule.labelValue))
            && UpdateAllowed(rule, user, doc, WithLabel(doc, rule.labelKey, rule.labelValue))
  {
    ParsedNode(doc, current);
    PlannedAddShape(input);
    ValidAddMeans(input.policy, input.node, PlanTrustedNodeLabel(input).plan.instanceId, doc, current);
    AddPatchEffect(doc, input.node, rule.labelKey, rule.labelValue);
    AddAdmitted(rule, user, doc);
  }

  /**
   * After a revocation the adapter reads the Node as planned while it still has a label map. When the last label
   * went and the map with it, the adapter cannot read the Node any more.
   */
  lemma RevokeReadBack(policy: Policy, node: NodeSnapshot, doc: Json, stored: Json, version: string)
    requires ParseNode(doc) == Some(node) && policy.protectedLabelKey in node.labels
    requires IsNodeObject(doc) && IsNodeObject(WithoutLabel(doc, policy.protectedLabelKey))
    requires SameUpToEmptyLabels(WithoutLabel(doc, policy.protectedLabelKey), stored)
    ensures IsNodeObject(stored)
    ensures ParseNode(WithVersion(stored, version)) ==
              if HasLabels(stored) then Some(AfterRevoke(policy, node, version)) else None
    ensures !HasLabels(stored) ==> node.labels.Keys == {policy.protectedLabelKey}
  {
    ParsedNode(doc, node);
    var labels := LabelsOf(doc) - {policy.protectedLabelKey};
    ReplacedLabels(doc, labels);
    DroppedLabels(WithoutLabel(doc, policy.protectedLabelKey), stored);
    if HasLabels(stored) {
      FewerStrings(LabelsOf(doc), node.labels, policy.protectedLabelKey);
      Relabel(doc, node, labels, version);
    } else {
      Stamped(stored, version);
      NoLabelsNoNode(WithVersion(stored, version));
      LastLabel(LabelsOf(doc), policy.protectedLabelKey);
    }
  }

  /** What the planned removal makes of the document it was planned on. */
  lemma RevokedDocument(policy: Policy, node: NodeSnapshot, reason: DenyReason, instanceId: Option<string>, doc: Json)
    requires ParseNode(doc) == Some(node) && PlanFailure(policy, node, reason, instanceId).Revoke?
    ensures IsNodeObject(doc) && IsNodeObject(WithoutLabel(doc, policy.protectedLabelKey))
    ensures ApplyPatch(doc, PlanFailure(policy, node, reason, instanceId).patch)
            == Some(WithoutLabel(doc, policy.protectedLabelKey))
  {
    ParsedNode(doc, node);
    ReplacedLabels(doc, LabelsOf(doc) - {policy.protectedLabelKey});
    PlannedRevokeShape(policy, node, reason, instanceId);
    RemovePatchEffect(doc, node, policy.protectedLabelKey, policy.protectedLabelValue);
  }

  /** The form of a document in which its empty label map is dropped. */
  function LabelsDropped(doc: Json): Json
    requires IsNodeObject(doc)
  {
    WithMember(doc, "metadata", WithoutMember(Metadata(doc), "labels"))
  }

  /**
   * A Node with the protected label alone may be stored in two forms when the label is taken away. The adapter reads
   * the one and not the other.
   */
  lemma LastLabelForms(policy: Policy, node: NodeSnapshot, doc: Json, version: string)
    requires ParseNode(doc) == Some(node) && node.labels.Keys == {policy.protectedLabelKey}
    ensures IsNodeObject(doc) && IsNodeObject(WithoutLabel(doc, policy.protectedLabelKey))
    ensures var gone := WithoutLabel(doc, policy.protectedLabelKey);
            && IsNodeObject(LabelsDropped(gone)) && HasLabels(gone) && !HasLabels(LabelsDropped(gone))
            && (forall stored :: SameUpToEmptyLabels(gone, stored) <==> stored == gone || stored == LabelsDropped(gone))
            && ParseNode(WithVersion(gone, version)) == Some(AfterRevoke(policy, node, version))
            && ParseNode(WithVersion(LabelsDropped(gone), version)).None?
  {
    ParsedNode(doc, node);
    ReplacedLabels(doc, LabelsOf(doc) - {policy.protectedLabelKey});
    var gone := WithoutLabel(doc, policy.protectedLabelKey);
    assert LabelsOf(gone) == map[];
    RevokeReadBack(policy, node, doc, gone, version);
    RevokeReadBack(policy, node, doc, LabelsDropped(gone), version);
  }

  /** A revocation may leave a Node that the adapter cannot read exactly when it takes the last label. */
  lemma RevokeMayBlindIff(policy: Policy, node: NodeSnapshot, doc: Json, version: string)
    requires ParseNode(doc) == Some(node) && policy.protectedLabelKey in node.labels
    ensures IsNodeObject(doc) && IsNodeObject(WithoutLabel(doc, policy.protectedLabelKey))
    ensures (exists stored: Json :: SameUpToEmptyLabels(WithoutLabel(doc, policy.protectedLabelKey), stored)
               && IsNodeObject(stored) && ParseNode(WithVersion(stored, version)).None?)
            <==> node.labels.Keys == {policy.protectedLabelKey}
  {
    ParsedNode(doc, node);
    ReplacedLabels(doc, LabelsOf(doc) - {policy.protectedLabelKey});
    hide ParseNode, WithVersion, WithoutLabel, SameUpToEmptyLabels, IsNodeObject;
    if stored: Json :| SameUpToEmptyLabels(WithoutLabel(doc, policy.protectedLabelKey), stored)
                       && IsNodeObject(stored) && ParseNode(WithVersion(stored, version)).None?
    {
      RevokeReadBack(policy, node, doc, stored, version);
    }
    if node.labels.Keys == {policy.protectedLabelKey} {
      LastLabelForms(policy, node, doc, version);
      var stored := LabelsDropped(WithoutLabel(doc, policy.protectedLabelKey));
      assert SameUpToEmptyLabels(WithoutLabel(doc, policy.protectedLabelKey), stored);
    }
  }

  lemma NoLabelsNoNode(doc: Json)
    requires !HasLabels(doc)
    ensures ParseNode(doc).None?
  {
  }

  lemma LastLabel(fields: map<string, Json>, key: string)
    requires key in fields && fields - {key} == map[]
    ensures fields.Keys == {key}
  {
    assert fields.Keys - {key} == (fields - {key}).Keys == {};
    assert fields.Keys == (fields.Keys - {key}) + {key};
  }

  lemma FewerStrings(fields: map<string, Json>, labels: map<string, string>, key: string)
    requires fields.Keys == labels.Keys && key in labels && |labels| <= 256
    requires forall k | k in labels :: fields[k] == Str(labels[k])
    ensures var fewer := fields - {key};
            IsStringMap(fewer) && |fewer| <= 256 && (map k | k in fewer :: fewer[k].s) == labels - {key}
  {
    hide *;
    var fewer, less := fields - {key}, labels - {key};
    assert fewer.Keys == less.Keys == labels.Keys - {key};
    assert |labels.Keys - {key}| == |labels.Keys| - 1;
    assert |fewer.Keys| == |labels.Keys - {key}|;
    SameStrings(fewer, less);
  }

  /** A document with more than 256 labels is no Node to the adapter. */
  lemma OverlabelledIsUnreadable(doc: Json)
    requires IsNodeObject(doc) && |LabelsOf(doc)| > 256
    ensures ParseNode(doc).None?
  {
  }
}
