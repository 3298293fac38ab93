// packages/k8s-baseline/src/trusted-node-label-reconciler.ts, the admission
// policy: exactly which writes of whom it lets through, and what the controller's
// identity can never change.
module AdmissionRule {
  import opened Wrappers
  import opened Json
  import opened JsonPatch
  import opened TrustedNodeLabel
  import opened NodeDocument
  import opened LabelAgreement
  import opened NodeProtocol

  // ----- whom the rule takes for the controller

  lemma ControllerIdentityIff(rule: Admission, user: UserInfo)
    ensures ControllerIdentity(rule, user) <==>
            && (exists rest :: user.username == rule.usernamePrefix + rest)
            && (exists i | 0 <= i < |user.groups| :: user.groups[i] == rule.group)
  {
    if ControllerIdentity(rule, user) {
      assert user.username == rule.usernamePrefix + user.username[|rule.usernamePrefix|..];
    }
  }

  // ----- everybody else

  /** Whoever is not the controller may change anything but the protected label. */
  lemma OthersUpdateIff(rule: Admission, user: UserInfo, old_: Json, new_: Json)
    requires IsNodeObject(old_) && IsNodeObject(new_) && !ControllerIdentity(rule, user)
    ensures UpdateAllowed(rule, user, old_, new_) <==>
            Member(Part(Metadata(old_), "labels"), rule.labelKey)
              == Member(Part(Metadata(new_), "labels"), rule.labelKey)
  {
  }

  /** In the protocol they may store anything else under a Node's name and uid, at any time. */
  lemma AnyOtherUpdate(ctx: Context, s: State, user: UserInfo, name: string, doc: Json, version: string)
    requires name in s.store && IsNodeObject(s.store[name]) && IsNodeObject(doc) && !ControllerIdentity(ctx.rule, user)
    ensures OthersMay(ctx, s, UpdateStep(user, name, doc, version)) <==>
            && NameOf(doc) == name && UidOf(doc) == UidOf(s.store[name]) && version !in s.issued
            && Member(Part(Metadata(s.store[name]), "labels"), ctx.rule.labelKey)
               == Member(Part(Metadata(doc), "labels"), ctx.rule.labelKey)
  {
    OthersUpdateIff(ctx.rule, user, s.store[name], doc);
    hide ControllerIdentity, IsNodeObject, UpdateAllowed;
  }

  /** They may also wait, delete any Node, and create one without the label. */
  lemma AnyOtherMove(ctx: Context, s: State, name: string, doc: Json, version: string)
    requires IsNodeObject(doc)
    ensures OthersMay(ctx, s, Step.Idle) && OthersMay(ctx, s, DeleteStep(name))
    ensures OthersMay(ctx, s, CreateStep(name, doc, version)) <==>
            && name !in s.store && NameOf(doc) == name && version !in s.issued
            && Member(Part(Metadata(doc), "labels"), ctx.rule.labelKey) == None
  {
    CreateIff(ctx.rule, doc);
    hide IsNodeObject, CreateAllowed;
  }

  /** And Nodes may be created exactly without it. */
  lemma CreateIff(rule: Admission, new_: Json)
    requires IsNodeObject(new_)
    ensures CreateAllowed(rule, new_) <==> Member(Part(Metadata(new_), "labels"), rule.labelKey).None?
  {
  }

  // ----- the controller

  /** The members of a Node's metadata that the rule knows, labels among them. */
  const METADATA_MEMBERS := {
    "name", "uid", "resourceVersion", "generateName", "namespace", "selfLink", "generation", "creationTimestamp",
    "deletionTimestamp", "deletionGracePeriodSeconds", "annotations", "ownerReferences", "finalizers", "managedFields",
    "labels"}

  const NODE_MEMBERS := {"apiVersion", "kind", "metadata", "spec", "status"}

  /** A Node with no other members than those. */
  predicate IsPlainNode(doc: Json) {
    && IsNodeObject(doc) && doc.fields.Keys <= NODE_MEMBERS && Metadata(doc).fields.Keys <= METADATA_MEMBERS
    && Member(doc, "apiVersion") == Some(Str("v1")) && Member(doc, "kind") == Some(Str("Node"))
  }

  /** All that an update by the controller may leave different is the label map. */
  predicate OnlyLabelsDiffer(old_: Json, new_: Json) {
    && (forall f | f in NODE_MEMBERS && f != "metadata" :: Member(new_, f) == Member(old_, f))
    && (forall f | f in METADATA_MEMBERS && f != "labels" :: Member(Metadata(new_), f) == Member(Metadata(old_), f))
  }

  lemma KnownMembers(f: string)
    ensures f in METADATA_MEMBERS && f != "labels" <==> f in IDENTITY_FIELDS || f in UNCHANGED_METADATA
  {
  }

  lemma TopMembers(f: string)
    ensures f in NODE_MEMBERS && f != "metadata" <==> f in {"apiVersion", "kind", "spec", "status"}
  {
  }

  lemma PiggybackIff(old_: Json, new_: Json)
    requires IsPlainNode(old_) && IsPlainNode(new_)
    ensures NoPiggyback(old_, new_) <==> OnlyLabelsDiffer(old_, new_)
  {
    forall f ensures f in METADATA_MEMBERS && f != "labels" <==> f in IDENTITY_FIELDS || f in UNCHANGED_METADATA {
      KnownMembers(f);
    }
    forall f ensures f in NODE_MEMBERS && f != "metadata" <==> f in {"apiVersion", "kind", "spec", "status"} {
      TopMembers(f);
    }
    hide Member, Metadata;
  }

  lemma SameMembers(old_: Json, new_: Json, names: set<string>, except: string)
    requires old_.Obj? && new_.Obj? && old_.fields.Keys <= names && new_.fields.Keys <= names
    requires forall f | f in names && f != except :: Member(new_, f) == Member(old_, f)
    ensures new_ == if except in new_.fields then WithMember(old_, except, new_.fields[except])
                    else WithoutMember(old_, except)
  {
    var expected := if except in new_.fields then WithMember(old_, except, new_.fields[except])
                    else WithoutMember(old_, except);
    forall f ensures Member(new_, f) == Member(expected, f) {
      if f in names && f != except {
        assert Member(new_, f) == Member(old_, f);
      }
    }
    SameObject(new_, expected);
  }

  lemma SameObject(a: Json, b: Json)
    requires a.Obj? && b.Obj? && forall f :: Member(a, f) == Member(b, f)
    ensures a == b
  {
    forall f ensures f in a.fields <==> f in b.fields {
      assert Member(a, f) == Member(b, f);
    }
    forall f | f in a.fields ensures a.fields[f] == b.fields[f] {
      assert Member(a, f) == Member(b, f);
    }
    assert a.fields == b.fields;
  }

  lemma PlainParts(doc: Json)
    requires IsPlainNode(doc)
    ensures doc.Obj? && doc.fields.Keys <= NODE_MEMBERS && "metadata" in doc.fields
    ensures doc.fields["metadata"] == Metadata(doc) && Metadata(doc).Obj?
    ensures Metadata(doc).fields.Keys <= METADATA_MEMBERS
    ensures HasLabels(doc) <==> "labels" in Metadata(doc).fields
    ensures HasLabels(doc) ==> Metadata(doc).fields["labels"] == Obj(LabelsOf(doc))
    ensures !HasLabels(doc) ==> LabelsOf(doc) == map[]
  {
  }

  /** Where only the labels differ, the new Node is the old one with the new label map, or without one. */
  lemma RebuiltFromLabels(old_: Json, new_: Json)
    requires IsPlainNode(old_) && IsPlainNode(new_)
    ensures IsNodeObject(old_)
    ensures OnlyLabelsDiffer(old_, new_) <==>
            new_ == if HasLabels(new_) then WithLabels(old_, LabelsOf(new_)) else LabelsDropped(old_)
  {
    PlainParts(old_);
    PlainParts(new_);
    assert IsNodeObject(old_);
    var m, n := Metadata(old_), Metadata(new_);
    if OnlyLabelsDiffer(old_, new_) {
      hide IsPlainNode, IsNodeObject;
      SameMembers(m, n, METADATA_MEMBERS, "labels");
      SameMembers(old_, new_, NODE_MEMBERS, "metadata");
    }
  }

  /**
   * The controller's identity may update a Node exactly by adding the one configured pair or by taking it away, in
   * either stored form of an empty label map, and by nothing else.
   */
  lemma ControllerUpdateIff(rule: Admission, user: UserInfo, old_: Json, new_: Json)
    requires IsPlainNode(old_) && IsPlainNode(new_) && ControllerIdentity(rule, user)
    ensures IsNodeObject(old_) && IsNodeObject(WithoutLabel(old_, rule.labelKey))
    ensures UpdateAllowed(rule, user, old_, new_) <==>
            || (rule.labelKey !in LabelsOf(old_) && new_ == WithLabel(old_, rule.labelKey, rule.labelValue))
            || (rule.labelKey in LabelsOf(old_) && LabelsOf(old_)[rule.labelKey] == Str(rule.labelValue)
                && SameUpToEmptyLabels(WithoutLabel(old_, rule.labelKey), new_))
  {
    PlainParts(old_);
    PlainParts(new_);
    ExactAdditionIff(old_, new_, rule.labelKey, rule.labelValue);
    ExactRemovalIff(old_, new_, rule.labelKey, rule.labelValue);
    PiggybackIff(old_, new_);
    RebuiltFromLabels(old_, new_);
    ReplacedLabels(old_, LabelsOf(old_) - {rule.labelKey});
    ReplacedLabels(old_, LabelsOf(old_)[rule.labelKey := Str(rule.labelValue)]);
    DroppedIsDropped(old_, LabelsOf(old_) - {rule.labelKey});
    hide IsPlainNode, IsNodeObject, LabelsAreExactAddition, LabelsAreExactRemoval, NoPiggyback, OnlyLabelsDiffer;
  }

  lemma DroppedIsDropped(doc: Json, labels: map<string, Json>)
    requires IsNodeObject(doc) && IsNodeObject(WithLabels(doc, labels))
    ensures LabelsDropped(WithLabels(doc, labels)) == LabelsDropped(doc)
  {
    assert Metadata(WithLabels(doc, labels)).fields - {"labels"} == Metadata(doc).fields - {"labels"};
    var dropped := Metadata(doc).fields - {"labels"};
    assert WithLabels(doc, labels).fields["metadata" := Obj(dropped)] == doc.fields["metadata" := Obj(dropped)];
  }

  // ----- over runs in which the controller's identity may also write unplanned

  /** Spec, status and the known metadata are as before; labels and version may differ. */
  predicate Untouched(old_: Json, new_: Json) {
    && Member(new_, "spec") == Member(old_, "spec") && Member(new_, "status") == Member(old_, "status")
    && (forall f | f in METADATA_MEMBERS && f != "labels" && f != "resourceVersion" ::
          Member(Metadata(new_), f) == Member(Metadata(old_), f))
  }

  lemma ControllerLeavesRest(rule: Admission, user: UserInfo, old_: Json, new_: Json)
    requires ControllerIdentity(rule, user) && UpdateAllowed(rule, user, old_, new_)
    ensures Untouched(old_, new_)
  {
    forall f | f in METADATA_MEMBERS && f != "labels"
      ensures Member(Metadata(new_), f) == Member(Metadata(old_), f)
    {
      KnownMembers(f);
    }
  }

  /** A step of the protocol, or any admitted update by someone with the controller's identity. */
  datatype Event = Protocol(step: Step) | ByIdentity(user: UserInfo, name: string, doc: Json, version: string)

  predicate EventNext(ctx: Context, s: State, s': State, e: Event) {
    match e
    case Protocol(step) => Next(ctx, s, s', step)
    case ByIdentity(user, name, doc, version) =>
      && ControllerIdentity(ctx.rule, user) && name in s.store && IsNodeObject(doc)
      && UpdateAllowed(ctx.rule, user, s.store[name], doc) && s' == Write(s, name, doc, version)
  }

  /** Someone with the controller's identity writes, or nobody does. */
  predicate OnlyIdentityWrites(e: Event) { e.ByIdentity? || e.step.AddStep? || e.step.RevokeStep? || e.step.Idle? }

  lemma StampedIsUntouched(old_: Json, doc: Json, version: string)
    requires IsNodeObject(doc) && Untouched(old_, doc)
    ensures Untouched(old_, WithVersion(doc, version))
  {
    Stamped(doc, version);
    hide WithVersion, IsNodeObject;
  }

  lemma WriteIsUntouched(ctx: Context, s: State, s': State, user: UserInfo, name: string, doc: Json, version: string)
    requires ControllerIdentity(ctx.rule, user) && name in s.store && IsNodeObject(doc)
    requires UpdateAllowed(ctx.rule, user, s.store[name], doc) && s' == Write(s, name, doc, version)
    ensures s'.store.Keys == s.store.Keys && forall n | n in s.store :: Untouched(s.store[n], s'.store[n])
  {
    ControllerLeavesRest(ctx.rule, user, s.store[name], doc);
    StampedIsUntouched(s.store[name], doc, version);
    hide UpdateAllowed, WithVersion, IsNodeObject;
  }

  lemma PlannedWrite(ctx: Context, s: State, s': State, step: Step) returns (name: string, doc: Json, version: string)
    requires Next(ctx, s, s', step) && (step.AddStep? || step.RevokeStep?)
    ensures name in s.store && IsNodeObject(doc) && UpdateAllowed(ctx.rule, ctx.controller, s.store[name], doc)
    ensures s' == Write(s, name, doc, version)
  {
    hide PlanTrustedNodeLabel, PlanFailure, ReadEarlier, UpdateAllowed, IsNodeObject, ApplyPatch, IsExactPatch,
         WithLabel,
         SameUpToEmptyLabels;
    match step
    case AddStep(input, v, _) =>
      name := PlanTrustedNodeLabel(input).plan.nodeName;
      doc, version := WithLabel(s.store[name], ctx.rule.labelKey, ctx.rule.labelValue), v;
    case RevokeStep(node, reason, instanceId, stored, v) =>
      name := PlanFailure(ctx.policy, node, reason, instanceId).plan.nodeName;
      doc, version := stored, v;
  }

  /** Whether planned or not, a write under the controller's identity leaves spec, status and metadata as they were. */
  lemma IdentityLeavesRest(ctx: Context, s: State, s': State, e: Event)
    requires ControllerIdentity(ctx.rule, ctx.controller) && EventNext(ctx, s, s', e) && OnlyIdentityWrites(e)
    ensures s'.store.Keys == s.store.Keys && forall n | n in s.store :: Untouched(s.store[n], s'.store[n])
  {
    hide Untouched, UpdateAllowed, ControllerIdentity, Write;
    match e
    case ByIdentity(user, name, doc, version) =>
      WriteIsUntouched(ctx, s, s', user, name, doc, version);
    case Protocol(step) =>
      if step.Idle? {
        UntouchedSelf(s);
      } else {
        var name, doc, version := PlannedWrite(ctx, s, s', step);
        WriteIsUntouched(ctx, s, s', ctx.controller, name, doc, version);
      }
  }

  lemma UntouchedSelf(s: State)
    ensures forall n | n in s.store :: Untouched(s.store[n], s.store[n])
  {
  }

  ghost predicate EventRun(ctx: Context, states: seq<State>, events: seq<Event>) {
    && ControllerIdentity(ctx.rule, ctx.controller) && |states| == |events| + 1
    && forall i | 0 <= i < |events| :: EventNext(ctx, states[i], states[i + 1], events[i])
  }

  lemma EventAt(ctx: Context, states: seq<State>, events: seq<Event>, i: nat)
    requires EventRun(ctx, states, events) && i < |events|
    ensures ControllerIdentity(ctx.rule, ctx.controller) && EventNext(ctx, states[i], states[i + 1], events[i])
  {
    hide EventNext, ControllerIdentity;
  }

  lemma OneEvent(ctx: Context, states: seq<State>, events: seq<Event>, i: nat, n: string)
    requires EventRun(ctx, states, events) && i < |events| == |states| - 1 && OnlyIdentityWrites(events[i])
    ensures n in states[i].store <==> n in states[i + 1].store
    ensures n in states[i].store ==> Untouched(states[i].store[n], states[i + 1].store[n])
  {
    hide *;
    EventAt(ctx, states, events, i);
    IdentityLeavesRest(ctx, states[i], states[i + 1], events[i]);
  }

  lemma UntouchedChain(a: Json, b: Json, c: Json)
    requires Untouched(a, b) && Untouched(b, c)
    ensures Untouched(a, c)
  {
    hide Metadata, METADATA_MEMBERS;
  }

  /** As long as nobody but the controller's identity writes, every Node keeps its spec, status and metadata. */
  lemma {:induction false} OnlyLabelsMove(ctx: Context, states: seq<State>, events: seq<Event>, i: nat, j: nat,
                                          n: string)
    requires EventRun(ctx, states, events) && i <= j <= |events| == |states| - 1
    requires forall k | i <= k < j :: OnlyIdentityWrites(events[k])
    ensures n in states[i].store <==> n in states[j].store
    ensures n in states[i].store ==> Untouched(states[i].store[n], states[j].store[n])
    decreases j
  {
    hide *;
    if i < j {
      OnlyLabelsMove(ctx, states, events, i, j - 1, n);
      OneEvent(ctx, states, events, j - 1, n);
      if n in states[i].store {
        UntouchedChain(states[i].store[n], states[j - 1].store[n], states[j].store[n]);
      }
    } else {
      UntouchedSelf(states[i]);
    }
  }
}
