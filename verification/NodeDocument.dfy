// Three descriptions of one label change that must agree: the patch the kernel
// plans, the gate of the Kubernetes adapter
// (packages/k8s-baseline/src/trusted-node-label-controller-kubernetes.ts) and the
// admission rule (packages/k8s-baseline/src/trusted-node-label-reconciler.ts).
module NodeDocument {
  import opened Wrappers
  import opened Text
  import opened Json
  import opened JsonPatch
  import opened TrustedNodeLabel

  // ----- reading a Node: parseStringMap, parseTaints, parseNode

  predicate IsNodeName(s: string) {
    && 1 <= |s| <= 253 && LowerAlnum(s[0]) && LowerAlnum(s[|s| - 1])
    && forall i | 0 <= i < |s| :: LowerAlnum(s[i]) || s[i] == '-' || s[i] == '.'
  }

  predicate IsStringMap(fields: map<string, Json>) { forall k | k in fields :: fields[k].Str? }

  function ParseStringMap(value: Option<Json>): Option<map<string, string>> {
    if value.None? || !value.value.Obj? then None
    else
      var fields := value.value.fields;
      if |fields| > 256 || !IsStringMap(fields) then None else Some(map k | k in fields :: fields[k].s)
  }

  function ParseEffect(text: string): Option<TaintEffect> {
    if text == "NoSchedule" then Some(NoSchedule)
    else if text == "PreferNoSchedule" then Some(PreferNoSchedule)
    else if text == "NoExecute" then Some(NoExecute)
    else None
  }

  function ParseTaint(value: Json): Option<Taint> {
    var key, val, effect := StringOf(Member(value, "key")), StringOf(Member(value, "value")),
      StringOf(Member(value, "effect"));
    if key.None? || val.None? || effect.None? || ParseEffect(effect.value).None? then None
    else Some(Taint(key.value, val.value, ParseEffect(effect.value).value))
  }

  function ParseTaintItems(items: seq<Json>): Option<seq<Taint>> {
    if items == [] then Some([])
    else
      match ParseTaint(items[0])
      case None => None
      case Some(taint) =>
        match ParseTaintItems(items[1..])
        case None => None
        case Some(rest) => Some([taint] + rest)
  }

  function ParseTaints(value: Option<Json>): Option<seq<Taint>> {
    if value.None? then Some([])
    else if !value.value.Arr? || |value.value.items| > 64 then None
    else ParseTaintItems(value.value.items)
  }

  function Part(doc: Json, name: string): Json {
    match Member(doc, name)
    case None => Null
    case Some(part) => part
  }

  function Metadata(doc: Json): Json { Part(doc, "metadata") }

  function ParseNode(doc: Json): Option<NodeSnapshot> {
    var metadata, spec := Metadata(doc), Part(doc, "spec");
    var name, uid, version := StringOf(Member(metadata, "name")), StringOf(Member(metadata, "uid")),
      StringOf(Member(metadata, "resourceVersion"));
    var providerId := StringOf(Member(spec, "providerID"));
    var labels, taints := ParseStringMap(Member(metadata, "labels")), ParseTaints(Member(spec, "taints"));
    if Member(doc, "apiVersion") != Some(Str("v1")) || Member(doc, "kind") != Some(Str("Node"))
       || name.None? || !IsNodeName(name.value) || uid.None? || version.None? || providerId.None?
       || labels.None? || taints.None?
    then None
    else Some(NodeSnapshot(name.value, uid.value, version.value, providerId.value, labels.value, taints.value))
  }

  // ----- Node documents as the API server keeps them

  /** What the API server guarantees of every stored Node: identity strings, a spec, and string-valued labels if any. */
  predicate IsNodeObject(doc: Json) {
    var metadata := Metadata(doc);
    && doc.Obj? && metadata.Obj?
    && StringOf(Member(metadata, "name")).Some?
    && StringOf(Member(metadata, "uid")).Some?
    && StringOf(Member(metadata, "resourceVersion")).Some?
    && Part(doc, "spec").Obj?
    && (HasLabels(doc) ==> metadata.fields["labels"].Obj? && IsStringMap(metadata.fields["labels"].fields))
  }

  /** CEL `has(object.metadata.labels)`. */
  predicate HasLabels(doc: Json) { Member(Metadata(doc), "labels").Some? }

  function LabelsOf(doc: Json): map<string, Json> {
    var labels := Part(Metadata(doc), "labels");
    if labels.Obj? then labels.fields else map[]
  }

  function WithLabels(doc: Json, labels: map<string, Json>): Json
    requires IsNodeObject(doc)
  {
    WithMember(doc, "metadata", WithMember(Metadata(doc), "labels", Obj(labels)))
  }

  function WithLabel(doc: Json, key: string, value: string): Json
    requires IsNodeObject(doc)
  {
    WithLabels(doc, LabelsOf(doc)[key := Str(value)])
  }

  function WithoutLabel(doc: Json, key: string): Json
    requires IsNodeObject(doc)
  {
    WithLabels(doc, LabelsOf(doc) - {key})
  }

  /** The stored form of a document whose last label went away: an empty label map may be dropped. */
  predicate SameUpToEmptyLabels(doc: Json, stored: Json)
    requires IsNodeObject(doc)
  {
    || stored == doc
    || (LabelsOf(doc) == map[] && stored == WithMember(doc, "metadata", WithoutMember(Metadata(doc), "labels")))
  }

  function WithVersion(doc: Json, version: string): Json
    requires IsNodeObject(doc)
  {
    WithMember(doc, "metadata", WithMember(Metadata(doc), "resourceVersion", Str(version)))
  }

  function Version(doc: Json): string
    requires IsNodeObject(doc)
  {
    Metadata(doc).fields["resourceVersion"].s
  }

  function NameOf(doc: Json): string
    requires IsNodeObject(doc)
  {
    Metadata(doc).fields["name"].s
  }

  function UidOf(doc: Json): string
    requires IsNodeObject(doc)
  {
    Metadata(doc).fields["uid"].s
  }

  /** What a Node that the adapter could read looks like in the store. */
  lemma ParsedNode(doc: Json, node: NodeSnapshot)
    requires ParseNode(doc) == Some(node)
    ensures IsNodeObject(doc) && HasLabels(doc) && IsNodeName(node.name)
    ensures NameOf(doc) == node.name && UidOf(doc) == node.uid && Version(doc) == node.resourceVersion
    ensures IdentityMatches(doc, node)
    ensures LabelsOf(doc).Keys == node.labels.Keys && |LabelsOf(doc)| == |node.labels| <= 256
    ensures forall k | k in node.labels :: LabelsOf(doc)[k] == Str(node.labels[k])
  {
    assert LabelsOf(doc).Keys == node.labels.Keys;
    assert |LabelsOf(doc).Keys| == |node.labels.Keys|;
  }

  // ----- writing a Node that the adapter reads back

  function PrintTaint(t: Taint): Json {
    Obj(map["key" := Str(t.key), "value" := Str(t.value), "effect" := Str(EffectText(t.effect))])
  }

  function PrintTaints(taints: seq<Taint>): seq<Json> {
    if taints == [] then [] else [PrintTaint(taints[0])] + PrintTaints(taints[1..])
  }

  function PrintLabels(labels: map<string, string>): Json { Obj(map k | k in labels :: Str(labels[k])) }

  function PrintMetadata(node: NodeSnapshot): Json {
    Obj(map["name" := Str(node.name), "uid" := Str(node.uid), "resourceVersion" := Str(node.resourceVersion),
            "labels" := PrintLabels(node.labels)])
  }

  function PrintSpec(node: NodeSnapshot): Json {
    Obj(map["providerID" := Str(node.providerId), "taints" := Arr(PrintTaints(node.taints))])
  }

  function PrintNode(node: NodeSnapshot): Json {
    Obj(map["apiVersion" := Str("v1"), "kind" := Str("Node"), "metadata" := PrintMetadata(node),
            "spec" := PrintSpec(node)])
  }

  lemma EffectReadsBack(effect: TaintEffect)
    ensures ParseEffect(EffectText(effect)) == Some(effect)
  {
    assert "NoSchedule"[0] != "PreferNoSchedule"[0];
    assert |"NoSchedule"| != |"NoExecute"| && |"PreferNoSchedule"| != |"NoExecute"|;
  }

  lemma PrintedTaint(t: Taint)
    ensures ParseTaint(PrintTaint(t)) == Some(t)
  {
    EffectReadsBack(t.effect);
    hide ParseEffect, EffectText;
    var value := PrintTaint(t);
    assert Member(value, "key") == Some(Str(t.key)) && Member(value, "value") == Some(Str(t.value));
    assert Member(value, "effect") == Some(Str(EffectText(t.effect)));
  }

  lemma {:induction false} PrintedTaints(taints: seq<Taint>)
    ensures |PrintTaints(taints)| == |taints| && ParseTaintItems(PrintTaints(taints)) == Some(taints)
  {
    hide PrintTaint, ParseTaint;
    var items := PrintTaints(taints);
    if taints == [] {
      assert items == [] && ParseTaintItems(items) == Some([]);
    } else {
      PrintedTaint(taints[0]);
      PrintedTaints(taints[1..]);
      assert |items| == 1 + |items[1..]| && items[0] == PrintTaint(taints[0]) && items[1..] == PrintTaints(taints[1..]);
      assert ParseTaint(items[0]) == Some(taints[0]) && ParseTaintItems(items[1..]) == Some(taints[1..]);
      assert ParseTaintItems(items) == Some([taints[0]] + taints[1..]);
      assert [taints[0]] + taints[1..] == taints;
    }
  }

  lemma PrintedLabels(labels: map<string, string>)
    requires |labels| <= 256
    ensures ParseStringMap(Some(PrintLabels(labels))) == Some(labels)
  {
    var fields := PrintLabels(labels).fields;
    assert fields.Keys == labels.Keys;
    assert |fields.Keys| == |labels.Keys|;
    assert IsStringMap(fields);
    var back := map k | k in fields :: fields[k].s;
    assert back.Keys == labels.Keys && forall k | k in labels :: back[k] == labels[k];
    assert back == labels;
  }

  lemma PrintedParts(node: NodeSnapshot)
    ensures var doc := PrintNode(node);
            && Member(doc, "apiVersion") == Some(Str("v1")) && Member(doc, "kind") == Some(Str("Node"))
            && Metadata(doc) == PrintMetadata(node) && Part(doc, "spec") == PrintSpec(node)
  {
    hide PrintMetadata, PrintSpec;
  }

  lemma PrintedMetadata(node: NodeSnapshot)
    ensures var metadata := PrintMetadata(node);
            && Member(metadata, "name") == Some(Str(node.name)) && Member(metadata, "uid") == Some(Str(node.uid))
            && Member(metadata, "resourceVersion") == Some(Str(node.resourceVersion))
            && Member(metadata, "labels") == Some(PrintLabels(node.labels))
  {
    hide PrintLabels;
  }

  lemma PrintedSpec(node: NodeSnapshot)
    ensures Member(PrintSpec(node), "providerID") == Some(Str(node.providerId))
    ensures Member(PrintSpec(node), "taints") == Some(Arr(PrintTaints(node.taints)))
  {
    hide PrintTaints;
  }

  /** Within the adapter's bounds every Node is read back from its document. */
  lemma PrintedNode(node: NodeSnapshot)
    requires IsNodeName(node.name) && |node.labels| <= 256 && |node.taints| <= 64
    ensures ParseNode(PrintNode(node)) == Some(node)
  {
    PrintedLabels(node.labels);
    PrintedTaints(node.taints);
    PrintedParts(node);
    PrintedMetadata(node);
    PrintedSpec(node);
    hide PrintNode, PrintMetadata, PrintSpec, PrintLabels, PrintTaints, ParseStringMap, ParseTaintItems, IsNodeName,
         Member;
  }

  // ----- the adapter's gate: isExactPatch

  predicate AlnumEnds(s: string, maximum: nat) {
    && 1 <= |s| <= maximum && IsAlnum(s[0]) && IsAlnum(s[|s| - 1])
    && forall i | 0 <= i < |s| :: LabelChar(s[i])
  }

  predicate IsSelectorKey(key: string) {
    var parts := Split(key, '/');
    3 <= |key| <= 317 && |parts| == 2 && AlnumEnds(parts[0], 253) && AlnumEnds(parts[1], 63)
  }

  predicate IsIdentityTest(op: PatchOp, path: string, maximum: nat) {
    op.Test? && op.path == path && 1 <= |op.value| <= maximum
  }

  predicate IsExactPatch(patch: seq<PatchOp>, key: string, value: string) {
    && IsSelectorKey(key) && IsLabelText(value)
    && (|patch| == 4 || |patch| == 5)
    && IsIdentityTest(patch[0], "/metadata/uid", 128)
    && IsIdentityTest(patch[1], "/metadata/resourceVersion", 128)
    && IsIdentityTest(patch[2], "/spec/providerID", 256)
    && (if |patch| == 4 then patch[3] == Add(LabelPath(key), value)
        else patch[3] == Test(LabelPath(key), value) && patch[4] == Remove(LabelPath(key)))
  }

  lemma {:induction false} DotJoinChars(parts: seq<string>)
    requires |parts| > 0 && forall i | 0 <= i < |parts| :: IsDnsLabel(parts[i])
    ensures var s := Join(parts, '.');
            |s| > 0 && IsAlnum(s[0]) && IsAlnum(s[|s| - 1]) && forall i | 0 <= i < |s| :: LabelChar(s[i])
  {
    if |parts| > 1 {
      DotJoinChars(parts[1..]);
    }
  }

  /** Every key the kernel accepts is accepted by the adapter. */
  lemma ProtectedKeyIsSelectorKey(key: string)
    requires IsValidProtectedLabelKey(key)
    ensures IsSelectorKey(key)
  {
    var parts := Split(key, '/');
    JoinSplit(key, '/');
    assert Join(parts[1..], '/') == parts[1];
    assert |key| == |parts[0]| + 1 + |parts[1]|;
    JoinSplit(parts[0], '.');
    DotJoinChars(Split(parts[0], '.'));
  }

  lemma PlannedAddShape(input: Input)
    requires PlanTrustedNodeLabel(input).Patch?
    ensures IsValidProtectedLabelKey(input.policy.protectedLabelKey) && IsLabelText(input.policy.protectedLabelValue)
    ensures BoundedToken(input.node.uid) && BoundedToken(input.node.resourceVersion) && |input.node.providerId| >= 1
    ensures PlanTrustedNodeLabel(input).plan
            == PlanFor(AddLabel, input.policy, input.node, PlanTrustedNodeLabel(input).plan.instanceId)
    ensures PlanTrustedNodeLabel(input).patch ==
            IdentityTests(input.node)
              + [Add(LabelPath(input.policy.protectedLabelKey), input.policy.protectedLabelValue)]
    ensures input.policy.protectedLabelKey !in input.node.labels
  {
    assert InputFailure(input).None? && ParseProviderId(input.node.providerId).Some?;
  }

  /** A planned addition passes the gate exactly when the provider ID has at most 256 characters. */
  lemma PlannedAddPassesGate(input: Input)
    requires PlanTrustedNodeLabel(input).Patch?
    ensures IsExactPatch(PlanTrustedNodeLabel(input).patch, input.policy.protectedLabelKey,
                         input.policy.protectedLabelValue)
            <==> |input.node.providerId| <= 256
  {
    PlannedAddShape(input);
    ProtectedKeyIsSelectorKey(input.policy.protectedLabelKey);
  }

  /** A planned revocation always passes the gate. */
  lemma PlannedRevokePassesGate(policy: Policy, node: NodeSnapshot, reason: DenyReason, instanceId: Option<string>)
    requires PlanFailure(policy, node, reason, instanceId).Revoke?
    ensures IsExactPatch(PlanFailure(policy, node, reason, instanceId).patch, policy.protectedLabelKey,
                         policy.protectedLabelValue)
  {
    ProtectedKeyIsSelectorKey(policy.protectedLabelKey);
  }

  // ----- applying the planned patches

  predicate IdentityMatches(doc: Json, node: NodeSnapshot) {
    && Member(Metadata(doc), "uid") == Some(Str(node.uid))
    && Member(Metadata(doc), "resourceVersion") == Some(Str(node.resourceVersion))
    && Member(Part(doc, "spec"), "providerID") == Some(Str(node.providerId))
  }

  lemma PlainCons(a: string, tokens: seq<string>)
    requires IsPlain(a)
    ensures Pointer([a] + tokens) == "/" + a + Pointer(tokens)
  {
    EscapePlain(a);
    assert ([a] + tokens)[1..] == tokens;
  }

  lemma PlainPath(path: string, a: string, b: string)
    requires IsPlain(a) && IsPlain(b)
    requires path == "/" + a + ("/" + b)
    ensures ParsePointer(path) == Some([a, b])
  {
    PlainCons(b, []);
    PlainCons(a, [b]);
    assert [b] + [] == [b] && [a] + [b] == [a, b];
    assert Pointer([b]) == "/" + b;
    PointerRoundTrip([a, b]);
  }

  predicate IsPlain(a: string) { '~' !in a && '/' !in a }

  lemma PlainNames()
    ensures IsPlain("metadata") && IsPlain("labels") && IsPlain("uid") && IsPlain("spec")
    ensures IsPlain("resourceVersion") && IsPlain("providerID")
  {
  }

  lemma UidPath()
    ensures "/metadata/uid" == "/" + "metadata" + ("/" + "uid")
  {
  }

  lemma VersionPath()
    ensures "/metadata/resourceVersion" == "/" + "metadata" + ("/" + "resourceVersion")
  {
  }

  lemma ProviderPath()
    ensures "/spec/providerID" == "/" + "spec" + ("/" + "providerID")
  {
  }

  /** The label path addresses the member `key` of the labels, whatever characters the key has. */
  lemma LabelPathAddresses(key: string)
    ensures ParsePointer(LabelPath(key)) == Some(["metadata", "labels", key])
  {
    LabelPathText(key, "metadata", "labels");
    PointerRoundTrip(["metadata", "labels", key]);
  }

  lemma OneToken(key: string)
    ensures Pointer([key]) == "/" + Escape(key)
  {
    assert [key][1..] == [];
    hide Escape;
  }

  lemma LabelPathText(key: string, a: string, b: string)
    requires a == "metadata" && b == "labels"
    ensures LabelPath(key) == Pointer([a, b, key])
  {
    PlainNames();
    OneToken(key);
    hide Pointer, Escape, IsPlain;
    PlainCons(b, [key]);
    PlainCons(a, [b, key]);
    assert [b] + [key] == [b, key] && [a] + [b, key] == [a, b, key];
    LabelPrefix(a, b, Escape(key));
  }

  lemma LabelPrefix(a: string, b: string, e: string)
    requires a == "metadata" && b == "labels"
    ensures "/metadata/labels/" + e == "/" + a + ("/" + b + ("/" + e))
  {
    LabelPrefixText();
    assert "/" + a + ("/" + b + ("/" + e)) == ("/" + a + ("/" + b + "/")) + e;
  }

  lemma LabelPrefixText()
    ensures "/metadata/labels/" == "/" + "metadata" + ("/" + "labels" + "/")
  {
  }

  lemma GetTwo(doc: Json, a: string, b: string)
    requires doc.Obj? && Part(doc, a).Obj?
    ensures Get(doc, [a, b]) == Member(Part(doc, a), b)
  {
    assert [a, b][1..] == [b] && [b][1..] == [];
    assert Get(Part(doc, a), [b]) == Member(Part(doc, a), b);
  }

  lemma ApplyTest(doc: Json, op: PatchOp, rest: seq<PatchOp>, tokens: seq<string>)
    requires op.Test? && ParsePointer(op.path) == Some(tokens)
    ensures ApplyPatch(doc, [op] + rest) ==
            if Get(doc, tokens) == Some(Str(op.value)) then ApplyPatch(doc, rest) else None
  {
    assert ([op] + rest)[1..] == rest;
  }

  /** The three leading tests let the rest of the patch through exactly on the planned identity. */
  lemma IdentityTestsApply(doc: Json, node: NodeSnapshot, rest: seq<PatchOp>)
    requires IsNodeObject(doc)
    ensures ApplyPatch(doc, IdentityTests(node) + rest) ==
            if IdentityMatches(doc, node) then ApplyPatch(doc, rest) else None
  {
    var tests := IdentityTests(node);
    var after1, after2 := [tests[2]] + rest, [tests[1]] + ([tests[2]] + rest);
    assert tests + rest == [tests[0]] + after2;
    IdentityPaths();
    ApplyTest(doc, tests[0], after2, ["metadata", "uid"]);
    ApplyTest(doc, tests[1], after1, ["metadata", "resourceVersion"]);
    ApplyTest(doc, tests[2], rest, ["spec", "providerID"]);
    GetTwo(doc, "metadata", "uid");
    GetTwo(doc, "metadata", "resourceVersion");
    GetTwo(doc, "spec", "providerID");
  }

  lemma IdentityPaths()
    ensures ParsePointer("/metadata/uid") == Some(["metadata", "uid"])
    ensures ParsePointer("/metadata/resourceVersion") == Some(["metadata", "resourceVersion"])
    ensures ParsePointer("/spec/providerID") == Some(["spec", "providerID"])
  {
    PlainNames();
    UidPath();
    VersionPath();
    ProviderPath();
    PlainPath("/metadata/uid", "metadata", "uid");
    PlainPath("/metadata/resourceVersion", "metadata", "resourceVersion");
    PlainPath("/spec/providerID", "spec", "providerID");
  }

  lemma LabelAccess(doc: Json, key: string, value: string)
    requires IsNodeObject(doc)
    ensures var tokens := ["metadata", "labels", key];
            && Get(doc, tokens) == (if key in LabelsOf(doc) then Some(LabelsOf(doc)[key]) else None)
            && AddAt(doc, tokens, Str(value)) == (if HasLabels(doc) then Some(WithLabel(doc, key, value)) else None)
            && RemoveAt(doc, tokens) == (if key in LabelsOf(doc) then Some(WithoutLabel(doc, key)) else None)
  {
    var metadata := Metadata(doc);
    var tokens := ["metadata", "labels", key];
    assert tokens[1..] == ["labels", key] && ["labels", key][1..] == [key] && [key][1..] == [];
    assert Get(doc, tokens) == Get(metadata, ["labels", key]);
    if HasLabels(doc) {
      var labels := metadata.fields["labels"];
      assert Get(metadata, ["labels", key]) == Get(labels, [key]) == Member(labels, key);
      assert AddAt(labels, [key], Str(value)) == Some(WithMember(labels, key, Str(value)));
      assert AddAt(metadata, ["labels", key], Str(value))
             == Some(WithMember(metadata, "labels", WithMember(labels, key, Str(value))));
      assert RemoveAt(labels, [key]) == if key in labels.fields then Some(WithoutMember(labels, key)) else None;
      assert RemoveAt(metadata, ["labels", key])
          == if key in labels.fields then Some(WithMember(metadata, "labels", WithoutMember(labels, key))) else None;
    } else {
      assert Get(metadata, ["labels", key]) == None;
      assert AddAt(metadata, ["labels", key], Str(value)) == None;
      assert RemoveAt(metadata, ["labels", key]) == None;
    }
  }

  lemma LabelOps(doc: Json, key: string, value: string)
    requires IsNodeObject(doc)
    ensures ApplyPatch(doc, [Add(LabelPath(key), value)]) ==
            if HasLabels(doc) then Some(WithLabel(doc, key, value)) else None
    ensures ApplyPatch(doc, [Remove(LabelPath(key))]) ==
            if key in LabelsOf(doc) then Some(WithoutLabel(doc, key)) else None
  {
    LabelPathAddresses(key);
    LabelAccess(doc, key, value);
    assert [Add(LabelPath(key), value)][1..] == [] && [Remove(LabelPath(key))][1..] == [];
  }

  /** The planned addition succeeds exactly on the planned identity, and then adds the one label. */
  lemma AddPatchEffect(doc: Json, node: NodeSnapshot, key: string, value: string)
    requires IsNodeObject(doc)
    ensures ApplyPatch(doc, IdentityTests(node) + [Add(LabelPath(key), value)]) ==
            if IdentityMatches(doc, node) && HasLabels(doc) then Some(WithLabel(doc, key, value)) else None
  {
    IdentityTestsApply(doc, node, [Add(LabelPath(key), value)]);
    LabelOps(doc, key, value);
  }

  /**
   * The planned removal succeeds exactly on the planned identity with the planned label, and then removes the one
   * label.
   */
  lemma RemovePatchEffect(doc: Json, node: NodeSnapshot, key: string, value: string)
    requires IsNodeObject(doc)
    ensures ApplyPatch(doc, IdentityTests(node) + [Test(LabelPath(key), value), Remove(LabelPath(key))]) ==
            if IdentityMatches(doc, node) && key in LabelsOf(doc) && LabelsOf(doc)[key] == Str(value)
            then Some(WithoutLabel(doc, key)) else None
  {
    hide IsNodeObject, LabelPath, IdentityMatches, IdentityTests, WithoutLabel, Get, ApplyPatch, ParsePointer, RemoveAt,
         AddAt;
    var test, op := Test(LabelPath(key), value), Remove(LabelPath(key));
    IdentityTestsApply(doc, node, [test, op]);
    LabelPathAddresses(key);
    LabelAccess(doc, key, value);
    LabelOps(doc, key, value);
    assert [test, op] == [test] + [op];
    ApplyTest(doc, test, [op], ["metadata", "labels", key]);
  }

  // ----- the admission rule: CEL predicates over the old and the new object

  datatype Admission = Admission(labelKey: string, labelValue: string, usernamePrefix: string, group: string)

  datatype UserInfo = UserInfo(username: string, groups: seq<string>)

  predicate ControllerIdentity(rule: Admission, user: UserInfo) {
    rule.usernamePrefix <= user.username && rule.group in user.groups
  }

  predicate HasKey(doc: Json, key: string) { HasLabels(doc) && key in LabelsOf(doc) }

  predicate LabelUnchanged(old_: Json, new_: Json, key: string) {
    HasKey(old_, key) == HasKey(new_, key) && (!HasKey(old_, key) || LabelsOf(new_)[key] == LabelsOf(old_)[key])
  }

  predicate Extends(small: map<string, Json>, large: map<string, Json>) {
    |large| == |small| + 1 && forall k | k in small :: k in large && large[k] == small[k]
  }

  predicate LabelsAreExactAddition(old_: Json, new_: Json, key: string, value: string) {
    && HasKey(new_, key) && !HasKey(old_, key) && LabelsOf(new_)[key] == Str(value)
    && ((!HasLabels(old_) && |LabelsOf(new_)| == 1) || (HasLabels(old_) && Extends(LabelsOf(old_), LabelsOf(new_))))
  }

  predicate LabelsAreExactRemoval(old_: Json, new_: Json, key: string, value: string) {
    && HasKey(old_, key) && LabelsOf(old_)[key] == Str(value) && !HasKey(new_, key)
    && ((!HasLabels(new_) && |LabelsOf(old_)| == 1) || (HasLabels(new_) && Extends(LabelsOf(new_), LabelsOf(old_))))
  }

  const IDENTITY_FIELDS := ["name", "uid", "resourceVersion"]

  const UNCHANGED_METADATA := [
    "generateName", "namespace", "selfLink", "generation", "creationTimestamp", "deletionTimestamp",
    "deletionGracePeriodSeconds", "annotations", "ownerReferences", "finalizers", "managedFields"]

  predicate NoPiggyback(old_: Json, new_: Json) {
    && (forall f | f in IDENTITY_FIELDS :: Member(Metadata(new_), f) == Member(Metadata(old_), f))
    && Member(new_, "spec") == Member(old_, "spec") && Member(new_, "status") == Member(old_, "status")
    && (forall f | f in UNCHANGED_METADATA :: Member(Metadata(new_), f) == Member(Metadata(old_), f))
  }

  predicate UpdateAllowed(rule: Admission, user: UserInfo, old_: Json, new_: Json) {
    if ControllerIdentity(rule, user) then
      && (LabelsAreExactAddition(old_, new_, rule.labelKey, rule.labelValue)
          || LabelsAreExactRemoval(old_, new_, rule.labelKey, rule.labelValue))
      && NoPiggyback(old_, new_)
    else LabelUnchanged(old_, new_, rule.labelKey)
  }

  predicate CreateAllowed(rule: Admission, new_: Json) { !HasKey(new_, rule.labelKey) }

  /** Size and inclusion in the rule mean exactly one more pair. */
  lemma ExtendsByOne(small: map<string, Json>, large: map<string, Json>, key: string)
    requires key !in small && key in large
    ensures Extends(small, large) <==> large == small[key := large[key]]
  {
    if Extends(small, large) {
      assert small.Keys + {key} <= large.Keys;
      assert |small.Keys + {key}| == |large.Keys|;
      SubsetSameSize(small.Keys + {key}, large.Keys);
    }
    if large == small[key := large[key]] {
      assert large.Keys == small.Keys + {key};
      assert |large.Keys| == |small.Keys| + 1;
    }
  }

  lemma SubsetSameSize(a: set<string>, b: set<string>)
    requires a <= b && |a| == |b|
    ensures a == b
  {
    assert b == a + (b - a);
    assert |b| == |a| + |b - a|;
  }

  lemma SingletonMap(m: map<string, Json>, key: string)
    requires key in m
    ensures |m| == 1 <==> m == map[key := m[key]]
  {
    ExtendsByOne(map[], m, key);
    assert map[][key := m[key]] == map[key := m[key]];
  }

  /** The addition rule holds exactly when the labels are the old ones plus the one pair. */
  lemma ExactAdditionIff(old_: Json, new_: Json, key: string, value: string)
    requires IsNodeObject(old_) && IsNodeObject(new_)
    ensures LabelsAreExactAddition(old_, new_, key, value) <==>
            key !in LabelsOf(old_) && LabelsOf(new_) == LabelsOf(old_)[key := Str(value)]
  {
    if key in LabelsOf(new_) && key !in LabelsOf(old_) {
      SingletonMap(LabelsOf(new_), key);
      ExtendsByOne(LabelsOf(old_), LabelsOf(new_), key);
    }
  }

  /** The removal rule holds exactly when the labels are the old ones without the one pair. */
  lemma ExactRemovalIff(old_: Json, new_: Json, key: string, value: string)
    requires IsNodeObject(old_) && IsNodeObject(new_)
    ensures LabelsAreExactRemoval(old_, new_, key, value) <==>
            key in LabelsOf(old_) && LabelsOf(old_)[key] == Str(value) && LabelsOf(new_) == LabelsOf(old_) - {key}
  {
    if key in LabelsOf(old_) && key !in LabelsOf(new_) {
      SingletonMap(LabelsOf(old_), key);
      ExtendsByOne(LabelsOf(new_), LabelsOf(old_), key);
      var rest := LabelsOf(old_) - {key};
      assert LabelsOf(old_) == rest[key := LabelsOf(old_)[key]];
      assert (LabelsOf(new_)[key := LabelsOf(old_)[key]]) - {key} == LabelsOf(new_);
    }
  }
}
